/** Exactly when the land node keeps its two promises: each thing is put on the
    branch at most once, and a `push ok` record is exact. A merge base with no
    plain commit above it, a patch that a rebase may not keep and a patch carried
    by two commits each have histories that break them, on branches that share
    the merge base's history with the handover. */
module LandingExact {
  import opened Git
  import opened Landing
  import opened LandingOnce
  import opened LandingPushOk

  ghost predicate AtMostOnce(h: Setting) {
    forall trace: seq<State>, i :: History(h, trace) && 0 <= i < |trace| ==> NoDup(trace[i].put)
  }

  ghost predicate AlwaysHonest(h: Setting) {
    forall trace: seq<State>, i :: History(h, trace) && 0 <= i < |trace| ==> Honest(h, trace[i])
  }

  // ---- commits nobody has --------------------------------------------------

  ghost predicate FreshFor(h: Setting, id: nat) {
    forall c :: Reaches(h.handover, c) ==> c.patch.id != id
  }

  lemma {:induction false} SomeFresh(h: Setting) returns (id: nat)
    ensures FreshFor(h, id)
  {
    var ids := set c | c in ReachSet(h.handover) :: c.patch.id;
    id := Above(ids);
    forall c | Reaches(h.handover, c) ensures c.patch.id in ids {
      assert c in ReachSet(h.handover);
    }
  }

  lemma {:induction false} Above(ids: set<nat>) returns (n: nat)
    ensures forall i :: i in ids ==> i < n
  {
    if ids == {} {
      n := 0;
    } else {
      var i :| i in ids;
      var m := Above(ids - {i});
      n := if m <= i then i + 1 else m;
      forall j | j in ids ensures j < n {
        assert j == i || j in ids - {i};
      }
    }
  }

  lemma {:induction false} Highest(s: set<Commit>) returns (top: Commit)
    requires s != {}
    ensures top in s && forall c :: c in s ==> Height(c) <= Height(top)
  {
    var c :| c in s;
    var rest := s - {c};
    if rest == {} {
      assert s == {c};
      top := c;
    } else {
      var d := Highest(rest);
      top := if Height(d) < Height(c) then c else d;
      forall e | e in s ensures Height(e) <= Height(top) {
        assert e == c || e in rest;
      }
    }
  }

  lemma {:induction false} Enumerate(s: set<Commit>) returns (cs: seq<Commit>)
    ensures NoDup(cs) && Ordered(cs) && forall c :: c in cs <==> c in s
  {
    if s == {} {
      cs := [];
    } else {
      var top := Highest(s);
      var rest := Enumerate(s - {top});
      cs := rest + [top];
      forall i | 0 <= i < |rest| ensures !Reaches(rest[i], top) {
        assert rest[i] in rest;
        if Reaches(rest[i], top) {
          AncestorIsLower(rest[i], top);
        }
      }
    }
  }

  /** A rebase always has a to-do list. */
  lemma {:induction false} TodoExists(h: Setting, tip: Commit) returns (todo: seq<Commit>)
    ensures Todo(h, tip, todo)
  {
    todo := Enumerate(set c | c in ReachSet(h.handover) && Missing(h, tip, c));
  }

  /** The to-do list applied on `tip`. */
  ghost function Redo(tip: Commit, todo: seq<Pick>): (picks: seq<Pick>)
    ensures |picks| == |todo| && ChainOn(tip, picks)
    ensures forall i :: 0 <= i < |todo| ==> picks[i].origin == todo[i].origin
    ensures forall i :: 0 <= i < |todo| ==> picks[i].made.patch == todo[i].made.patch
  {
    if todo == [] then []
    else
      var front := Redo(tip, todo[..|todo| - 1]);
      var last := todo[|todo| - 1];
      var picks := front + [Pick(last.origin, Commit(last.made.patch, map[], [Head(tip, front)], 0))];
      assert picks[..|front|] == front;
      picks
  }

  /** What stands on a commit is neither that commit's history nor, on a new
      commit, the handover's. */
  lemma {:induction false} ChainIsNew(h: Setting, tip: Commit, picks: seq<Pick>, p: Pick)
    requires ChainOn(tip, picks) && !Reaches(h.handover, tip) && p in picks
    ensures !Reaches(h.handover, p.made) && !Reaches(tip, p.made)
    ensures Reaches(p.made, tip)
  {
    var front, last := picks[..|picks| - 1], picks[|picks| - 1];
    if p != last {
      assert p in front;
      ChainIsNew(h, tip, front, p);
    } else {
      HeadReaches(tip, front);
      assert last.made.parents[0] == Head(tip, front);
      assert Reaches(last.made, Head(tip, front));
      ReachesTransitive(last.made, Head(tip, front), tip);
      AncestorIsLower(Head(tip, front), tip);
      HeightAllBounds(last.made.parents, 0);
      if Reaches(h.handover, last.made) {
        ReachesTransitive(h.handover, last.made, tip);
      } else if Reaches(tip, last.made) {
        AncestorIsLower(tip, last.made);
      }
    }
  }

  lemma {:induction false} RedoFollows(h: Setting, tip: Commit, todo: seq<Pick>)
    ensures Follows(h, todo, Redo(tip, todo))
  {
    if todo != [] {
      RedoFollows(h, tip, todo[..|todo| - 1]);
      assert Redo(tip, todo)[..|todo| - 1] == Redo(tip, todo[..|todo| - 1]);
    }
  }

  lemma {:induction false} RedoApplies(h: Setting, tip: Commit, todo: seq<Pick>)
    requires !Reaches(h.handover, tip)
    ensures Applies(h, tip, todo, Redo(tip, todo))
  {
    RedoFollows(h, tip, todo);
    forall p | p in Redo(tip, todo) ensures NewOrSame(h, p) {
      ChainIsNew(h, tip, Redo(tip, todo), p);
    }
  }

  // ---- a branch that has everything but one patch --------------------------

  /** The branch is new, has the history of `x` and nothing else of the handover,
      and matches every commit but those with patch `p`. */
  ghost predicate BaseFor(h: Setting, x: Commit, p: Patch, tip: Commit) {
    && Ground(h, x) && Reaches(tip, x) && !Reaches(h.handover, tip)
    && (forall y :: Reaches(tip, y) && Reaches(h.handover, y) ==> Reaches(x, y))
    && MissingIs(h, x, p, tip)
  }

  ghost predicate MissingIs(h: Setting, x: Commit, p: Patch, tip: Commit) {
    forall c :: Missing(h, tip, c) <==> Plain(h, c) && c.patch == p && !Reaches(x, c)
  }

  lemma {:induction false} SameCommit(a: Commit, b: Commit)
    requires Reaches(a, b) && Reaches(b, a)
    ensures a == b
  {
    AncestorIsLower(a, b);
    AncestorIsLower(b, a);
  }

  lemma {:induction false} BaseAdmits(h: Setting, x: Commit, p: Patch, tip: Commit)
    requires BaseFor(h, x, p, tip)
    ensures Admits(h, tip)
  {
    forall y | Reaches(tip, y) && Reaches(h.handover, y) && Reaches(y, x) ensures y == x {
      SameCommit(x, y);
    }
    assert MergeBase(h, tip, x);
  }

  /** What a redone line has besides what it stands on. */
  lemma {:induction false} RedoneOn(h: Setting, root: Commit, cs: seq<Commit>, y: Commit)
    requires !Reaches(h.handover, root) && Reaches(Head(root, Redo(root, AsPicks(cs))), y)
    ensures Reaches(root, y) || (!Reaches(h.handover, y) && exists c :: c in cs && c.patch == y.patch)
  {
    var picks := Redo(root, AsPicks(cs));
    HeadReachesOnly(root, picks, y);
    if !Reaches(root, y) {
      var q :| q in picks && q.made == y;
      ChainIsNew(h, root, picks, q);
      var i :| 0 <= i < |picks| && picks[i] == q;
      assert cs[i] in cs;
    }
  }

  lemma {:induction false} RedoneIsEquivalent(h: Setting, root: Commit, cs: seq<Commit>, c: Commit)
    requires !Reaches(h.handover, root) && c in cs
    ensures Equivalent(h.handover, Head(root, Redo(root, AsPicks(cs))), c.patch)
  {
    var picks := Redo(root, AsPicks(cs));
    HeadReaches(root, picks);
    PicksAreNotMerges(root, picks);
    var i :| 0 <= i < |cs| && cs[i] == c;
    assert picks[i] in picks;
    ChainIsNew(h, root, picks, picks[i]);
  }

  /** A new commit on `x`. */
  ghost function Fork(x: Commit, id: nat): Commit {
    Commit(Patch(id, false), map[], [x], 0)
  }

  lemma {:induction false} ForkReaches(h: Setting, x: Commit, id: nat)
    requires FreshFor(h, id)
    ensures !Reaches(h.handover, Fork(x, id)) && Reaches(Fork(x, id), x)
    ensures forall y :: Reaches(Fork(x, id), y) ==> y == Fork(x, id) || Reaches(x, y)
  {
    assert Fork(x, id).parents[0] == x;
  }

  /** A branch whose commits are the handover's only if `x` has them, and whose
      other patches are all but `p`, misses what has patch `p`. */
  lemma {:induction false} BaseMisses(h: Setting, x: Commit, p: Patch, tip: Commit)
    requires Reaches(h.handover, x) && Reaches(tip, x)
    requires forall y :: Reaches(tip, y) ==> Reaches(x, y) || (!Reaches(h.handover, y) && y.patch != p)
    requires forall c :: Plain(h, c) && c.patch != p ==> Equivalent(h.handover, tip, c.patch)
    ensures MissingIs(h, x, p, tip)
  {
    ReachesGrows(tip, x);
    ReachesGrows(h.handover, x);
  }

  lemma {:induction false} MakeBase(h: Setting, x: Commit, p: Patch, id: nat) returns (tip: Commit)
    requires Ground(h, x) && FreshFor(h, id) && p.id != id
    ensures BaseFor(h, x, p, tip)
  {
    var fork := Fork(x, id);
    ForkReaches(h, x, id);
    var cs := Enumerate(set c | c in ReachSet(h.handover) && !IsMerge(c) && c.patch != p);
    tip := Head(fork, Redo(fork, AsPicks(cs)));
    forall y | Reaches(tip, y) ensures Reaches(x, y) || (!Reaches(h.handover, y) && y.patch != p) {
      RedoneOn(h, fork, cs, y);
    }
    forall c | Plain(h, c) && c.patch != p ensures Equivalent(h.handover, tip, c.patch) {
      RedoneIsEquivalent(h, fork, cs, c);
    }
    HeadReaches(fork, Redo(fork, AsPicks(cs)));
    ReachesTransitive(tip, fork, x);
    BaseMisses(h, x, p, tip);
    if Reaches(h.handover, tip) {
      ReachesTransitive(h.handover, tip, fork);
    }
  }

  lemma {:induction false} BaseIsUnlanded(h: Setting, x: Commit, p: Patch, tip: Commit, c: Commit)
    requires BaseFor(h, x, p, tip) && Plain(h, c) && c.patch == p && !Reaches(x, c)
    ensures !AlreadyOnBranch(h, tip)
  {
    assert Missing(h, tip, c);
    if Reaches(tip, h.handover) {
      ReachesTransitive(tip, h.handover, c);
    }
  }

  function BumpOn(tip: Commit, id: nat): Commit {
    Commit(Patch(id, true), map[], [tip], 0)
  }

  lemma {:induction false} BumpOnIsNew(h: Setting, tip: Commit, id: nat)
    requires !Reaches(h.handover, tip)
    ensures var b := BumpOn(tip, id);
            && !Reaches(h.handover, b) && !Reaches(tip, b)
            && (forall a :: Reaches(b, a) <==> a == b || Reaches(tip, a))
  {
    var b := BumpOn(tip, id);
    assert b.parents[0] == tip;
    assert Reaches(b, tip);
    if Reaches(h.handover, b) {
      ReachesTransitive(h.handover, b, tip);
    }
    if Reaches(tip, b) {
      AncestorIsLower(tip, b);
      AncestorIsLower(b, tip);
    }
  }

  lemma {:induction false} BumpOnBase(h: Setting, x: Commit, p: Patch, tip: Commit, id: nat)
    requires BaseFor(h, x, p, tip) && FreshFor(h, id)
    ensures BaseFor(h, x, p, BumpOn(tip, id))
  {
    BumpOnIsNew(h, tip, id);
    var b := BumpOn(tip, id);
    forall c ensures Missing(h, b, c) <==> Missing(h, tip, c) {
    }
  }

  // ---- a rebase that comes out empty ---------------------------------------

  /** A tip from which a run finds work it does not see as done, and a rebase that
      comes out empty, so that the gate's bump is all the run adds. */
  ghost predicate Barren(h: Setting, tip: Commit) {
    && !AlreadyOnBranch(h, tip) && Admits(h, tip) && !Reaches(h.handover, tip)
    && exists todo :: Todo(h, tip, todo) && Follows(h, AsPicks(todo), [])
  }

  /** One uninterrupted run that lands a lone bump. */
  lemma {:induction false} LoneBump(h: Setting, tip: Commit, id: nat, put: seq<Origin>) returns (t: seq<State>)
    requires Barren(h, tip)
    ensures var b := BumpOn(tip, id);
            && |t| == 6 && Steps(h, t) && t[0] == State(tip, Leased, put, |put|)
            && t[5] == State(b, Ended(PushOk(tip, [Pick(Bump, b)], b)), put + [Bump], |put|)
  {
    var b, picks, n := BumpOn(tip, id), [Pick(Bump, BumpOn(tip, id))], |put|;
    BumpOnIsNew(h, tip, id);
    var s1, s2 := State(tip, Based(tip), put, n), State(tip, Rebased(tip, []), put, n);
    var s3 := State(tip, Ready(tip, picks, 0), put, n);
    assert GateGreen(h, s2, s3);
    assert picks[..0] == [] && Added(tip, picks) == [Bump];
    var s4 := State(b, Accepted(tip, picks), put + [Bump], n);
    assert Takes(s3, s4) && PushExitsZero(s3, s4);
    var s5 := State(b, Ended(PushOk(tip, picks, b)), put + [Bump], n);
    assert ReadBack(s4, s5);
    var s0 := State(tip, Leased, put, n);
    assert FetchTip(s0, s1);
    assert Steps(h, [s4, s5]);
    StepsJoin(h, [s0, s1, s2, s3], [s4, s5]);
    t := [s0, s1, s2, s3] + [s4, s5];
  }

  lemma {:induction false} FirstLoneBump(h: Setting, tip: Commit, id: nat) returns (t: seq<State>)
    requires Barren(h, tip)
    ensures var b := BumpOn(tip, id);
            History(h, t) && |t| == 7 && t[6] == State(b, Ended(PushOk(tip, [Pick(Bump, b)], b)), [Bump], 0)
  {
    var start := State(tip, NoRun, [], 0);
    var run := LoneBump(h, tip, id, []);
    assert Begin(start, run[0]);
    StepsJoin(h, [start], run);
    t := [start] + run;
    assert [] + [Bump] == [Bump];
  }

  lemma {:induction false} TwiceIn(a: seq<Origin>, b: seq<Origin>, o: Origin)
    requires o in a && o in b
    ensures !NoDup(a + b)
  {
    var i :| 0 <= i < |a| && a[i] == o;
    var j :| 0 <= j < |b| && b[j] == o;
    assert (a + b)[i] == (a + b)[|a| + j];
  }

  /** A run that ends with another bump after a history that has one. */
  lemma {:induction false} SecondBump(h: Setting, t: seq<State>, run: seq<State>, added: seq<Origin>)
    requires History(h, t) && run != [] && Steps(h, run) && Begin(t[|t| - 1], run[0])
    requires Bump in t[|t| - 1].put && Bump in added && run[|run| - 1].put == t[|t| - 1].put + added
    ensures !AtMostOnce(h)
  {
    StepsJoin(h, t, run);
    var trace := t + run;
    assert History(h, trace);
    TwiceIn(t[|t| - 1].put, added, Bump);
    assert trace[|trace| - 1] == run[|run| - 1];
  }

  lemma {:induction false} TwoLoneBumps(h: Setting, tip: Commit, id: nat)
    requires Barren(h, tip) && Barren(h, BumpOn(tip, id))
    ensures !AtMostOnce(h)
  {
    var first := FirstLoneBump(h, tip, id);
    var second := LoneBump(h, BumpOn(tip, id), id, [Bump]);
    assert Begin(first[6], second[0]);
    SecondBump(h, first, second, [Bump]);
  }

  lemma {:induction false} AllLost(h: Setting, todo: seq<Pick>)
    requires forall p :: p in todo ==> p.made.patch in h.frail
    ensures Follows(h, todo, [])
  {
    if todo != [] {
      AllLost(h, todo[..|todo| - 1]);
    }
  }

  lemma {:induction false} FrailBaseIsBarren(h: Setting, x: Commit, tip: Commit, c: Commit)
    requires BaseFor(h, x, c.patch, tip) && Plain(h, c) && !Reaches(x, c) && c.patch in h.frail
    ensures Barren(h, tip)
  {
    BaseIsUnlanded(h, x, c.patch, tip, c);
    BaseAdmits(h, x, c.patch, tip);
    var todo := TodoExists(h, tip);
    forall p | p in AsPicks(todo) ensures p.made.patch in h.frail {
      var i :| 0 <= i < |todo| && AsPicks(todo)[i] == p;
      assert todo[i] in todo;
    }
    AllLost(h, AsPicks(todo));
  }

  /** One patch that a rebase may drop, above a merge base, is enough: on a branch
      that matches all the others every run lands a bump, and says `push ok`
      without the commit. */
  lemma {:induction false} FrailPatchBreaksBoth(h: Setting, c: Commit, x: Commit)
    requires Plain(h, c) && c.patch in h.frail && Ground(h, x) && !Reaches(x, c)
    ensures !AtMostOnce(h) && !AlwaysHonest(h)
  {
    var id := SomeFresh(h);
    var tip := MakeBase(h, x, c.patch, id);
    BumpOnBase(h, x, c.patch, tip, id);
    FrailBaseIsBarren(h, x, tip, c);
    FrailBaseIsBarren(h, x, BumpOn(tip, id), c);
    TwoLoneBumps(h, tip, id);
    var t := FirstLoneBump(h, tip, id);
    assert Missing(h, tip, c);
    assert !Honest(h, t[6]);
  }

  // ---- nothing for `git cherry` to list ------------------------------------

  /** A merge base with no plain commit of the handover above it. */
  ghost predicate Bare(h: Setting, x: Commit) {
    Ground(h, x) && x != h.handover && forall y :: Plain(h, y) && Reaches(y, x) ==> y == x
  }

  /** A new commit that joins `x` with the others. */
  ghost function Octopus(x: Commit, others: seq<Commit>, id: nat): Commit {
    Commit(Patch(id, false), map[], [x] + others, 0)
  }

  lemma {:induction false} OctopusReaches(h: Setting, x: Commit, others: seq<Commit>, id: nat)
    requires FreshFor(h, id)
    ensures var o := Octopus(x, others, id);
            && !Reaches(h.handover, o) && Reaches(o, x) && (forall n :: n in others ==> Reaches(o, n))
            && forall y :: Reaches(o, y) ==> y == o || Reaches(x, y) || exists n :: n in others && Reaches(n, y)
  {
    var o := Octopus(x, others, id);
    assert o.parents[0] == x;
    forall n | n in others ensures Reaches(o, n) {
      var i :| 0 <= i < |others| && others[i] == n;
      assert o.parents[i + 1] == n;
    }
    forall y | Reaches(o, y) && y != o ensures Reaches(x, y) || exists n :: n in others && Reaches(n, y) {
      var i :| 0 <= i < |o.parents| && Reaches(o.parents[i], y);
      if i > 0 {
        assert o.parents[i] == others[i - 1] && others[i - 1] in others;
      }
    }
  }

  /** What every branch has in common that has the plain commits and `x`, but is
      otherwise new. */
  ghost predicate HasPlain(h: Setting, x: Commit, tip: Commit) {
    && !Reaches(h.handover, tip) && Reaches(tip, x)
    && (forall n :: Plain(h, n) ==> Reaches(tip, n))
    && forall y :: Reaches(tip, y) && Reaches(h.handover, y) ==>
         Reaches(x, y) || exists n :: Plain(h, n) && Reaches(n, y)
  }

  lemma {:induction false} BareCommon(h: Setting, x: Commit, tip: Commit, y: Commit)
    requires Bare(h, x) && HasPlain(h, x, tip) && Reaches(tip, y) && Reaches(h.handover, y) && Reaches(y, x)
    ensures y == x
  {
    if !Reaches(x, y) {
      var n :| Plain(h, n) && Reaches(n, y);
      ReachesTransitive(n, y, x);
    }
    SameCommit(x, y);
  }

  lemma {:induction false} BareIsBarren(h: Setting, x: Commit, tip: Commit)
    requires Bare(h, x) && HasPlain(h, x, tip)
    ensures Barren(h, tip)
  {
    forall y | Reaches(tip, y) && Reaches(h.handover, y) && Reaches(y, x) ensures y == x {
      BareCommon(h, x, tip, y);
    }
    assert MergeBase(h, tip, x);
    if Reaches(tip, h.handover) {
      BareCommon(h, x, tip, h.handover);
    }
    assert Todo(h, tip, []);
    assert Follows(h, AsPicks([]), []);
  }

  /** On a branch with all the plain commits there is nothing for the skip test to
      recognise, so every run lands a bump. */
  lemma {:induction false} BareBumpsTwice(h: Setting, x: Commit)
    requires Bare(h, x)
    ensures !AtMostOnce(h)
  {
    var id := SomeFresh(h);
    var plain := Enumerate(set c | c in ReachSet(h.handover) && !IsMerge(c) && c != x);
    var tip := Octopus(x, plain, id);
    OctopusReaches(h, x, plain, id);
    BumpOnIsNew(h, tip, id);
    assert forall n :: n in plain <==> Plain(h, n) && n != x;
    assert HasPlain(h, x, tip) && HasPlain(h, x, BumpOn(tip, id));
    BareIsBarren(h, x, tip);
    BareIsBarren(h, x, BumpOn(tip, id));
    TwoLoneBumps(h, tip, id);
  }

  /** A handover whose tip is a merge and that changes nothing guarded. */
  lemma {:induction false} MergeTipIsBare(h: Setting) returns (x: Commit)
    requires IsMerge(h.handover) && forall c :: Reaches(h.handover, c) ==> c in h.clear
    ensures Bare(h, x)
  {
    var parents := h.handover.parents;
    var all := set p | p in parents;
    assert parents[0] in all;
    x := Highest(all);
    var i :| 0 <= i < |parents| && parents[i] == x;
    assert Reaches(x, x) && Reaches(h.handover, x);
    HeightAllBounds(parents, i);
    forall y | Plain(h, y) && Reaches(y, x) ensures y == x {
      AncestorIsLower(y, x);
      var j :| 0 <= j < |parents| && Reaches(parents[j], y);
      AncestorIsLower(parents[j], y);
      assert parents[j] in parents;
    }
  }

  /** A handover whose tip is a merge is never recognised as landed. */
  lemma {:induction false} MergeTipBumpsTwice(h: Setting)
    requires IsMerge(h.handover) && forall c :: Reaches(h.handover, c) ==> c in h.clear
    ensures !AtMostOnce(h)
  {
    var x := MergeTipIsBare(h);
    BareBumpsTwice(h, x);
  }

  // ---- a patch in two commits ----------------------------------------------

  /** A worktree that ends with a bump nobody else has. */
  ghost predicate Bumped(picks: seq<Pick>, id: nat) {
    picks != [] && picks[|picks| - 1].origin == Bump && picks[|picks| - 1].made.patch == Patch(id, true)
  }

  lemma {:induction false} BumpIsAdded(h: Setting, tip: Commit, picks: seq<Pick>, id: nat)
    requires ChainOn(tip, picks) && Bumped(picks, id) && !Reaches(h.handover, tip)
    ensures Bump in Added(tip, picks)
  {
    ChainIsNew(h, tip, picks, picks[|picks| - 1]);
  }

  ghost predicate OfMissing(h: Setting, tip: Commit, p: Patch) {
    exists c :: Missing(h, tip, c) && c.patch == p
  }

  lemma {:induction false} RebaseRuns(h: Setting, tip: Commit, put: seq<Origin>) returns (done: seq<Pick>)
    requires !Reaches(h.handover, tip) && !AlreadyOnBranch(h, tip) && Admits(h, tip)
    ensures ChainOn(tip, done) && NoDup(Origins(done)) && Bump !in Origins(done)
    ensures forall p :: p in done ==> OfMissing(h, tip, p.made.patch)
    ensures RebaseFirst(h, State(tip, Based(tip), put, |put|), State(tip, Rebased(tip, done), put, |put|))
  {
    var todo := TodoExists(h, tip);
    done := Redo(tip, AsPicks(todo));
    RedoApplies(h, tip, AsPicks(todo));
  }

  lemma {:induction false} BumpOnTop(h: Setting, tip: Commit, done: seq<Pick>, id: nat, picks: seq<Pick>)
    requires ChainOn(tip, done) && NoDup(Origins(done)) && Bump !in Origins(done) && !Reaches(h.handover, tip)
    requires picks == done + [Pick(Bump, BumpOn(Head(tip, done), id))]
    ensures ChainOn(tip, picks) && NoDup(Origins(picks)) && Bumped(picks, id)
    ensures !Reaches(h.handover, picks[|done|].made)
  {
    assert picks[..|done|] == done && Origins(picks) == Origins(done) + [Bump];
    ChainIsNew(h, tip, picks, picks[|done|]);
  }

  /** The gate bumps if nothing heavy is picked, and may leave it else. */
  lemma {:induction false} GateRuns(h: Setting, tip: Commit, done: seq<Pick>, put: seq<Origin>, id: nat)
    returns (picks: seq<Pick>)
    requires ChainOn(tip, done) && NoDup(Origins(done)) && Bump !in Origins(done) && !Reaches(h.handover, tip)
    ensures ChainOn(tip, picks) && NoDup(Origins(picks))
    ensures (forall p :: p in done ==> Light(h, p.made.patch)) ==> Bumped(picks, id)
    ensures GateGreen(h, State(tip, Rebased(tip, done), put, |put|), State(tip, Ready(tip, picks, 0), put, |put|))
  {
    if SomePickBumps(done) && !h.net {
      picks := done;
    } else {
      picks := done + [Pick(Bump, BumpOn(Head(tip, done), id))];
      BumpOnTop(h, tip, done, id, picks);
    }
  }

  lemma {:induction false} RunToPush(h: Setting, tip: Commit, put: seq<Origin>, id: nat)
    returns (t: seq<State>, picks: seq<Pick>)
    requires !Reaches(h.handover, tip) && !AlreadyOnBranch(h, tip) && Admits(h, tip)
    ensures ChainOn(tip, picks) && NoDup(Origins(picks)) && |t| == 4 && Steps(h, t)
    ensures (forall c :: Missing(h, tip, c) ==> Light(h, c.patch)) ==> Bumped(picks, id)
    ensures t[0] == State(tip, Leased, put, |put|) && t[3] == State(tip, Ready(tip, picks, 0), put, |put|)
  {
    var done := RebaseRuns(h, tip, put);
    picks := GateRuns(h, tip, done, put, id);
    t := [State(tip, Leased, put, |put|), State(tip, Based(tip), put, |put|),
          State(tip, Rebased(tip, done), put, |put|), State(tip, Ready(tip, picks, 0), put, |put|)];
    assert FetchTip(t[0], t[1]);
  }

  // ---- the overtaken retry -------------------------------------------------

  function MergeOf(tip: Commit, a: Commit): Commit {
    Commit(Patch(0, false), map[], [tip, a], 0)
  }

  lemma {:induction false} MergeReaches(h: Setting, tip: Commit, a: Commit)
    requires !Reaches(h.handover, tip)
    ensures !Reaches(h.handover, MergeOf(tip, a)) && Reaches(MergeOf(tip, a), tip)
    ensures forall x :: Reaches(MergeOf(tip, a), x) <==> x == MergeOf(tip, a) || Reaches(tip, x) || Reaches(a, x)
  {
    var m := MergeOf(tip, a);
    assert m.parents[0] == tip && m.parents[1] == a;
    assert Reaches(m, tip);
    if Reaches(h.handover, m) {
      ReachesTransitive(h.handover, m, tip);
    }
  }

  /** On the merge a fresh bump is still needed, and no commit with `a`'s patch is. */
  lemma {:induction false} RetryLeavesPatchOut(h: Setting, x: Commit, tip: Commit, a: Commit, picks: seq<Pick>, p: Pick)
    requires BaseFor(h, x, a.patch, tip) && Plain(h, a) && !Reaches(x, a)
    requires ChainOn(tip, picks) && p in picks
    ensures StillNeeded(Head(tip, picks), MergeOf(tip, a), p) ==> p.made.patch != a.patch
    ensures FreshFor(h, p.made.patch.id) ==> StillNeeded(Head(tip, picks), MergeOf(tip, a), p)
  {
    var head := Head(tip, picks);
    assert Reaches(tip, tip);
    MergeReaches(h, tip, a);
    ChainIsNew(h, tip, picks, p);
    HeadReaches(tip, picks);
    ReachesGrows(head, tip);
    ReachesGrows(h.handover, a);
    PicksAreNotMerges(tip, picks);
    if Reaches(head, a) {
      HeadReachesOnly(tip, picks, a);
      var q :| q in picks && q.made == a;
      ChainIsNew(h, tip, picks, q);
    }
    assert Reaches(a, a);
    assert Equivalent(head, MergeOf(tip, a), a.patch);
  }

  lemma {:induction false} RetryApplies(h: Setting, x: Commit, tip: Commit, a: Commit, picks: seq<Pick>, id: nat)
    returns (again: seq<Pick>)
    requires BaseFor(h, x, a.patch, tip) && Plain(h, a) && !Reaches(x, a) && FreshFor(h, id)
    requires ChainOn(tip, picks) && NoDup(Origins(picks))
    ensures Applies(h, MergeOf(tip, a), Needed(Head(tip, picks), MergeOf(tip, a), picks), again)
    ensures forall p :: p in again ==> p.made.patch != a.patch
    ensures Bumped(picks, id) ==> Bumped(again, id)
  {
    assert Reaches(tip, tip);
    var merged := MergeOf(tip, a);
    var needed := Needed(Head(tip, picks), merged, picks);
    MergeReaches(h, tip, a);
    again := Redo(merged, needed);
    RedoApplies(h, merged, needed);
    forall p | p in again ensures p.made.patch != a.patch {
      var i :| 0 <= i < |again| && again[i] == p;
      assert needed[i] in needed;
      RetryLeavesPatchOut(h, x, tip, a, picks, needed[i]);
    }
    if Bumped(picks, id) {
      NeededKeepsOrder(Head(tip, picks), merged, picks);
      RetryLeavesPatchOut(h, x, tip, a, picks, picks[|picks| - 1]);
    }
  }

  /** After that push the second commit is still to be landed. */
  lemma {:induction false} StillToLand(h: Setting, x: Commit, tip: Commit, a: Commit, b: Commit, again: seq<Pick>)
    requires BaseFor(h, x, a.patch, tip) && Repeats(h, a, b) && !Reaches(x, a) && !Reaches(x, b)
    requires ChainOn(MergeOf(tip, a), again)
    requires forall p :: p in again ==> p.made.patch != a.patch
    ensures var end := Head(MergeOf(tip, a), again);
            && Missing(h, MergeOf(tip, a), b) && Missing(h, end, b) && Reaches(end, tip)
            && !Reaches(h.handover, end) && !AlreadyOnBranch(h, end)
  {
    var merged, end := MergeOf(tip, a), Head(MergeOf(tip, a), again);
    assert Reaches(tip, tip);
    MergeReaches(h, tip, a);
    HeadReaches(merged, again);
    ReachesGrows(end, merged);
    ReachesGrows(h.handover, a);
    assert Missing(h, tip, b);
    forall y | Reaches(end, y) ensures y == merged || Reaches(tip, y) || Reaches(a, y) || NewAndOther(h, a, y) {
      HeadReachesOnly(merged, again, y);
      if p :| p in again && p.made == y {
        ChainIsNew(h, merged, again, p);
      }
    }
    assert Missing(h, end, b);
    MissingShrinks(h, merged, end);
    if Reaches(h.handover, end) {
      ReachesTransitive(h.handover, end, tip);
    }
    if Reaches(end, h.handover) {
      ReachesTransitive(end, h.handover, b);
    }
  }

  ghost predicate NewAndOther(h: Setting, a: Commit, x: Commit) {
    !Reaches(h.handover, x) && x.patch != a.patch
  }

  /** Overtaken at its first push, a run lands what it has left in the second
      round and reads it back. */
  lemma {:induction false} OvertakenRun(h: Setting, tip: Commit, merged: Commit, picks: seq<Pick>, again: seq<Pick>)
    returns (t: seq<State>)
    requires Applies(h, merged, Needed(Head(tip, picks), merged, picks), again)
    ensures |t| == 5 && Steps(h, t) && t[0] == State(merged, Ready(tip, picks, 0), [], 0)
    ensures var end := Head(merged, again);
            t[4] == State(end, Ended(PushOk(merged, again, end)), Added(merged, again), 0)
  {
    HeadReaches(merged, again);
    var end := Head(merged, again);
    var s0, s1 := State(merged, Ready(tip, picks, 0), [], 0), State(merged, Stale(tip, picks, 1), [], 0);
    var s2 := State(merged, Ready(merged, again, 1), [], 0);
    var s3 := State(end, Accepted(merged, again), Added(merged, again), 0);
    var s4 := State(end, Ended(PushOk(merged, again, end)), Added(merged, again), 0);
    assert PushStale(s0, s1) && RebaseAgain(h, s1, s2);
    assert Takes(s2, s3) && PushExitsZero(s2, s3) && ReadBack(s3, s4);
    StepsJoin(h, [s0, s1, s2, s3], [s4]);
    t := [s0, s1, s2, s3] + [s4];
  }

  /** The first run ends `push ok` with the second commit still missing. */
  lemma {:induction false} FirstRun(h: Setting, x: Commit, tip: Commit, a: Commit, b: Commit, id: nat)
    returns (t: seq<State>, again: seq<Pick>)
    requires BaseFor(h, x, a.patch, tip) && Repeats(h, a, b) && !Reaches(x, a) && !Reaches(x, b) && FreshFor(h, id)
    ensures var merged, end := MergeOf(tip, a), Head(MergeOf(tip, a), again);
            && History(h, t) && ChainOn(merged, again) && (forall p :: p in again ==> p.made.patch != a.patch)
            && t[|t| - 1] == State(end, Ended(PushOk(merged, again, end)), Added(merged, again), 0)
            && (Light(h, a.patch) ==> Bumped(again, id))
  {
    BaseIsUnlanded(h, x, a.patch, tip, a);
    BaseAdmits(h, x, a.patch, tip);
    var run, picks := RunToPush(h, tip, [], id);
    again := RetryApplies(h, x, tip, a, picks, id);
    MergeReaches(h, tip, a);
    var rest := OvertakenRun(h, tip, MergeOf(tip, a), picks, again);
    var start := State(tip, NoRun, [], 0);
    assert Begin(start, run[0]);
    StepsJoin(h, [start], run);
    assert OthersPush(run[3], rest[0]);
    StepsJoin(h, [start] + run, rest);
    t := [start] + run + rest;
  }

  lemma {:induction false} RepeatedPatchIsNotHonest(h: Setting, a: Commit, b: Commit, x: Commit)
    requires Repeats(h, a, b) && Ground(h, x) && !Reaches(x, a) && !Reaches(x, b)
    ensures !AlwaysHonest(h)
  {
    var id := SomeFresh(h);
    var tip := MakeBase(h, x, a.patch, id);
    var t, again := FirstRun(h, x, tip, a, b, id);
    StillToLand(h, x, tip, a, b, again);
    assert !Settled(h, Head(MergeOf(tip, a), again));
    assert !Honest(h, t[|t| - 1]);
  }

  lemma {:induction false} BumpingRun(h: Setting, tip: Commit, put: seq<Origin>, id: nat)
    returns (t: seq<State>, added: seq<Origin>)
    requires !Reaches(h.handover, tip) && !AlreadyOnBranch(h, tip) && Admits(h, tip)
    requires forall c :: Missing(h, tip, c) ==> Light(h, c.patch)
    ensures t != [] && Steps(h, t) && t[0] == State(tip, Leased, put, |put|)
    ensures t[|t| - 1].put == put + added && Bump in added
  {
    var run, picks := RunToPush(h, tip, put, id);
    added := Added(tip, picks);
    BumpIsAdded(h, tip, picks, id);
    HeadReaches(tip, picks);
    var last := State(Head(tip, picks), Ended(Refused), put + added, |put|);
    assert Takes(run[3], last) && PushFails(run[3], last);
    StepsJoin(h, run, [last]);
    t := run + [last];
  }

  // ---- the branch of the second run ----------------------------------------

  /** What `end` shares with the handover is what `x` and `a` have. */
  ghost predicate SharesOnly(h: Setting, x: Commit, a: Commit, end: Commit) {
    && Reaches(end, x) && Reaches(end, a)
    && forall y :: Reaches(end, y) && Reaches(h.handover, y) ==> Reaches(x, y) || Reaches(a, y)
  }

  lemma {:induction false} EndShares(h: Setting, x: Commit, tip: Commit, a: Commit, again: seq<Pick>)
    requires BaseFor(h, x, a.patch, tip) && Plain(h, a) && ChainOn(MergeOf(tip, a), again)
    ensures SharesOnly(h, x, a, Head(MergeOf(tip, a), again))
  {
    var merged, end := MergeOf(tip, a), Head(MergeOf(tip, a), again);
    MergeReaches(h, tip, a);
    HeadReaches(merged, again);
    ReachesGrows(end, merged);
    ReachesGrows(merged, tip);
    assert Reaches(a, a);
    forall y | Reaches(end, y) && Reaches(h.handover, y) ensures Reaches(x, y) || Reaches(a, y) {
      HeadReachesOnly(merged, again, y);
      if p :| p in again && p.made == y {
        ChainIsNew(h, merged, again, p);
      }
    }
  }

  /** The branch with `z` on it, merged in if need be. */
  ghost function With(end: Commit, z: Commit): Commit {
    if Reaches(end, z) then end else MergeOf(end, z)
  }

  lemma {:induction false} WithReaches(h: Setting, end: Commit, z: Commit)
    requires !Reaches(h.handover, end)
    ensures var tip := With(end, z);
            && !Reaches(h.handover, tip) && Reaches(tip, end) && Reaches(tip, z)
            && forall y :: Reaches(tip, y) ==> Reaches(end, y) || Reaches(z, y) || (y == tip && IsMerge(y))
  {
    MergeReaches(h, end, z);
    assert Reaches(end, end) && Reaches(z, z);
  }

  lemma {:induction false} WithAdmits(h: Setting, x: Commit, a: Commit, end: Commit, z: Commit)
    requires SharesOnly(h, x, a, end) && !Reaches(h.handover, end) && Ground(h, z)
    requires (Reaches(a, z) ==> a == z) && (Reaches(x, z) ==> x == z)
    ensures Admits(h, With(end, z))
  {
    var tip := With(end, z);
    WithReaches(h, end, z);
    forall y | Reaches(tip, y) && Reaches(h.handover, y) && Reaches(y, z) ensures y == z {
      if Reaches(x, y) {
        ReachesTransitive(x, y, z);
      } else if Reaches(a, y) {
        ReachesTransitive(a, y, z);
      }
      SameCommit(y, z);
    }
    assert MergeBase(h, tip, z);
  }

  lemma {:induction false} WithMisses(h: Setting, end: Commit, z: Commit, b: Commit)
    requires Missing(h, end, b) && !Reaches(h.handover, end) && Ground(h, z) && !Reaches(z, b)
    ensures Missing(h, With(end, z), b) && !AlreadyOnBranch(h, With(end, z))
  {
    var tip := With(end, z);
    WithReaches(h, end, z);
    ReachesGrows(h.handover, z);
    assert Missing(h, tip, b);
    if Reaches(tip, h.handover) {
      ReachesTransitive(tip, h.handover, b);
    }
  }

  /** Of two merge bases that will do, one that the other is not above. */
  lemma {:induction false} HigherGround(h: Setting, a: Commit, b: Commit, x: Commit, z: Commit) returns (z': Commit)
    requires Splits(h, a, b, x, z)
    ensures Splits(h, a, b, x, z') && (Reaches(x, z') ==> x == z')
  {
    z' := if Reaches(x, z) then x else z;
    if Reaches(x, z) && Reaches(a, x) {
      ReachesTransitive(a, x, z);
    }
  }

  /** The second run, on a branch that lacks `b` only for its patch. */
  lemma {:induction false} RunAgain(h: Setting, t: seq<State>, tip: Commit, id: nat)
    requires History(h, t) && t[|t| - 1].run.Ended? && Bump in t[|t| - 1].put && Reaches(tip, t[|t| - 1].branch)
    requires !Reaches(h.handover, tip) && !AlreadyOnBranch(h, tip) && Admits(h, tip)
    requires forall c :: Missing(h, tip, c) ==> Light(h, c.patch)
    ensures !AtMostOnce(h)
  {
    var last := t[|t| - 1];
    var moved := last.(branch := tip);
    assert OthersPush(last, moved);
    StepsJoin(h, t, [moved]);
    var run, added := BumpingRun(h, tip, last.put, id);
    assert Begin(moved, run[0]);
    SecondBump(h, t + [moved], run, added);
  }

  /** A light patch in two commits: the retried rebase leaves both out and lands
      a bump, and the next run lands the second one with another. */
  lemma {:induction false} RepeatedPatchBumpsTwice(h: Setting, a: Commit, b: Commit, x: Commit, z: Commit)
    requires Repeats(h, a, b) && Light(h, a.patch) && Splits(h, a, b, x, z)
    ensures !AtMostOnce(h)
  {
    var id := SomeFresh(h);
    var tip := MakeBase(h, x, a.patch, id);
    var t, again := FirstRun(h, x, tip, a, b, id);
    StillToLand(h, x, tip, a, b, again);
    MergeReaches(h, tip, a);
    BumpIsAdded(h, MergeOf(tip, a), again, id);
    EndShares(h, x, tip, a, again);
    var end := Head(MergeOf(tip, a), again);
    var z' := HigherGround(h, a, b, x, z);
    var tip' := With(end, z');
    WithReaches(h, end, z');
    WithAdmits(h, x, a, end, z');
    WithMisses(h, end, z', b);
    ReachesTransitive(tip', end, tip);
    MissingShrinks(h, tip, tip');
    RunAgain(h, t, tip', id);
  }

  // ---- exactly -------------------------------------------------------------

  /** Each thing is put on the branch at most once in every history, if and only
      if every branch that is admitted has the commits whose patch a rebase may
      not keep, lacks a commit that the skip test can recognise, and cannot be
      left with one of two commits that carry one light patch. */
  lemma {:induction false} AtMostOnceExactly(h: Setting)
    ensures AtMostOnce(h) <==> Sturdy(h) && Recognised(h) && LightDistinct(h)
  {
    if !Sturdy(h) {
      var c, x :| Plain(h, c) && c.patch in h.frail && Ground(h, x) && !Reaches(x, c);
      FrailPatchBreaksBoth(h, c, x);
    } else if !Recognised(h) {
      var x :| Ground(h, x) && x != h.handover && !exists y :: Plain(h, y) && y != x && Reaches(y, x);
      BareBumpsTwice(h, x);
    } else if !LightDistinct(h) {
      var a, b, x, z :| Repeats(h, a, b) && Light(h, a.patch) && Splits(h, a, b, x, z);
      RepeatedPatchBumpsTwice(h, a, b, x, z);
    } else {
      forall trace: seq<State>, i | History(h, trace) && 0 <= i < |trace| ensures NoDup(trace[i].put) {
        LandsAtMostOnce(h, trace, i);
      }
    }
  }

  /** For a handover that changes nothing guarded: its tip is not a merge, and
      every commit of it has one of two commits that carry one light patch. */
  lemma {:induction false} AtMostOnceUnguarded(h: Setting)
    requires forall c :: Reaches(h.handover, c) ==> c in h.clear
    ensures AtMostOnce(h) <==> Sturdy(h) && !IsMerge(h.handover) && LightApart(h)
  {
    AtMostOnceExactly(h);
    RecognisedUnguarded(h);
    ApartUnguarded(h);
  }

  ghost predicate LightApart(h: Setting) {
    forall a, b, x :: Plain(h, a) && Plain(h, b) && a.patch == b.patch && a != b && Reaches(h.handover, x) ==>
      Light(h, a.patch) ==> Reaches(x, a) || Reaches(x, b)
  }

  lemma {:induction false} RecognisedUnguarded(h: Setting)
    requires forall c :: Reaches(h.handover, c) ==> c in h.clear
    ensures Recognised(h) <==> !IsMerge(h.handover)
  {
    if IsMerge(h.handover) {
      var x := MergeTipIsBare(h);
    } else {
      assert Plain(h, h.handover);
    }
  }

  lemma {:induction false} ApartUnguarded(h: Setting)
    requires forall c :: Reaches(h.handover, c) ==> c in h.clear
    ensures LightDistinct(h) <==> LightApart(h)
  {
    if LightDistinct(h) {
      forall a, b, x | Plain(h, a) && Plain(h, b) && a.patch == b.patch && a != b && Reaches(h.handover, x) &&
                       Light(h, a.patch)
        ensures Reaches(x, a) || Reaches(x, b)
      {
        RepeatInOrder(h, a, b);
        var a', b' := if Repeats(h, a, b) then a else b, if Repeats(h, a, b) then b else a;
        assert Reaches(a', a');
        assert !Splits(h, a', b', x, a');
      }
    }
  }

  lemma {:induction false} RepeatInOrder(h: Setting, a: Commit, b: Commit)
    requires Plain(h, a) && Plain(h, b) && a.patch == b.patch && a != b
    ensures Repeats(h, a, b) || Repeats(h, b, a)
  {
    if Reaches(a, b) && Reaches(b, a) {
      SameCommit(a, b);
    }
  }

  /** A `push ok` record is exact in every history, if and only if every branch
      that is admitted has the commits whose patch a rebase may not keep, and one
      of two commits with one patch. */
  lemma {:induction false} AlwaysHonestExactly(h: Setting)
    ensures AlwaysHonest(h) <==> Sturdy(h) && DistinctPatches(h)
  {
    if !Sturdy(h) {
      var c, x :| Plain(h, c) && c.patch in h.frail && Ground(h, x) && !Reaches(x, c);
      FrailPatchBreaksBoth(h, c, x);
    } else if !DistinctPatches(h) {
      var a, b, x :| Plain(h, a) && Plain(h, b) && a.patch == b.patch && a != b && Ground(h, x) &&
                     !Reaches(x, a) && !Reaches(x, b);
      RepeatInOrder(h, a, b);
      if Repeats(h, a, b) {
        RepeatedPatchIsNotHonest(h, a, b, x);
      } else {
        RepeatedPatchIsNotHonest(h, b, a, x);
      }
    } else {
      forall trace: seq<State>, i | History(h, trace) && 0 <= i < |trace| ensures Honest(h, trace[i]) {
        PushOkIsExact(h, trace, i);
      }
    }
  }
}
