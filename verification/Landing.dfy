/** The land node's branch protocol: fetch the tip, rebase the handover, gate
    and bump, push without force for at most two rounds, read the remote back.
    One lander at a time works on a branch (the branch lease); every other
    writer fast-forwards it, a run may be killed between any two steps, and any
    number of runs on the same handover may follow one another. */
module Landing {
  import opened Git

  const MAX_LAND_ROUNDS := 2

  /** The landing's fixed inputs: the handover commit; the patches whose identity
      a rebase may not keep, because it drops the commit as having become empty
      or changes the patch id; whether version bumps of picked commits may cancel
      out, so that the gate's diff from base to head shows none; and the commits
      from which the diff to the handover names no guarded path. */
  datatype Setting = Setting(handover: Commit, frail: set<Patch>, net: bool, clear: set<Commit>)

  /** Where a commit the node makes comes from. */
  datatype Origin = Handover(commit: Commit) | Bump

  /** One commit of the rebased worktree. */
  datatype Pick = Pick(origin: Origin, made: Commit)

  datatype Outcome =
    | PushOk(tip: Commit, picks: seq<Pick>, readBack: Commit)
    | AlreadyThere(tip: Commit)
    | RoutedHuman
    | Refused

  datatype Run =
    | NoRun
    | Leased
    | Based(tip: Commit)
    | Rebased(tip: Commit, picks: seq<Pick>)
    | Ready(tip: Commit, picks: seq<Pick>, rounds: nat)
    | Stale(tip: Commit, picks: seq<Pick>, rounds: nat)
    | Accepted(tip: Commit, picks: seq<Pick>)
    | Ended(outcome: Outcome)

  /** `put` lists what the node has put on the branch over all runs so far;
      `before` is its length when the current run began. */
  datatype State = State(branch: Commit, run: Run, put: seq<Origin>, before: nat)

  // ---- what is already on the branch -------------------------------------

  /** A commit `git cherry tip handover` lists. */
  ghost predicate Own(h: Setting, tip: Commit, c: Commit) {
    Reaches(h.handover, c) && !Reaches(tip, c) && !IsMerge(c)
  }

  /** Some commit on `tip`'s side of `from...tip` carries the patch. */
  ghost predicate Equivalent(from: Commit, tip: Commit, p: Patch) {
    exists e :: Reaches(tip, e) && !Reaches(from, e) && !IsMerge(e) && e.patch == p
  }

  /** A commit the handover brings and the branch neither has nor matches. */
  ghost predicate Missing(h: Setting, tip: Commit, c: Commit) {
    Own(h, tip, c) && !Equivalent(h.handover, tip, c.patch)
  }

  /** Nothing of the handover is left to land. */
  ghost predicate Settled(h: Setting, tip: Commit) {
    forall c :: !Missing(h, tip, c)
  }

  /** The lander's skip test: an ancestor, or a non-empty `git cherry` listing
      whose every line starts with `-`. */
  ghost predicate AlreadyOnBranch(h: Setting, tip: Commit) {
    Reaches(tip, h.handover) || ((exists c :: Own(h, tip, c)) && Settled(h, tip))
  }

  // ---- the scope check -----------------------------------------------------

  /** A best common ancestor, one of which `git merge-base tip handover` prints. */
  ghost predicate MergeBase(h: Setting, tip: Commit, x: Commit) {
    && Reaches(tip, x) && Reaches(h.handover, x)
    && forall y :: Reaches(tip, y) && Reaches(h.handover, y) && Reaches(y, x) ==> y == x
  }

  /** `guarded_paths` lets the landing go on: there is a merge base, without which
      the node refuses, and nothing guarded changed since. */
  ghost predicate Admits(h: Setting, tip: Commit) {
    exists x :: x in h.clear && MergeBase(h, tip, x)
  }

  // ---- rebase --------------------------------------------------------------

  function Head(tip: Commit, picks: seq<Pick>): Commit {
    if picks == [] then tip else picks[|picks| - 1].made
  }

  ghost predicate NoDup<T(!new)>(s: seq<T>) {
    forall i, j :: 0 <= i < j < |s| ==> s[i] != s[j]
  }

  function Origins(picks: seq<Pick>): (os: seq<Origin>)
    ensures |os| == |picks|
    ensures forall i :: 0 <= i < |os| ==> os[i] == picks[i].origin
  {
    seq(|picks|, i requires 0 <= i < |picks| => picks[i].origin)
  }

  /** The picks form a line of commits on top of `tip`. */
  ghost predicate ChainOn(tip: Commit, picks: seq<Pick>) {
    picks != [] ==>
      var front := picks[..|picks| - 1];
      ChainOn(tip, front) && picks[|picks| - 1].made.parents == [Head(tip, front)]
  }

  /** A rebased commit is the commit it came from (a fast-forward) or an object
      the handover's history does not have. */
  ghost predicate NewOrSame(h: Setting, p: Pick) {
    p.origin == Handover(p.made) || !Reaches(h.handover, p.made)
  }

  /** No commit comes before one of its ancestors. */
  ghost predicate Ordered(cs: seq<Commit>) {
    forall i, j :: 0 <= i < j < |cs| ==> !Reaches(cs[i], cs[j])
  }

  /** `todo` lists, once each and ancestors first, the handover commits a rebase
      onto `tip` applies. */
  ghost predicate Todo(h: Setting, tip: Commit, todo: seq<Commit>) {
    NoDup(todo) && Ordered(todo) && forall c :: c in todo <==> Missing(h, tip, c)
  }

  /** `p` is what a rebase makes of `q`. */
  ghost predicate MadeOf(h: Setting, q: Pick, p: Pick) {
    && p.origin == q.origin
    && (p.made.patch == q.made.patch || (q.made.patch in h.frail && p.made.patch.bumps == q.made.patch.bumps))
  }

  /** `picks` is `todo` in order; only commits with a frail patch may be lost on
      the way or come out with another patch. */
  ghost predicate Follows(h: Setting, todo: seq<Pick>, picks: seq<Pick>) {
    if todo == [] then picks == []
    else
      var front, last := todo[..|todo| - 1], todo[|todo| - 1];
      || (picks != [] && MadeOf(h, last, picks[|picks| - 1]) && Follows(h, front, picks[..|picks| - 1]))
      || (last.made.patch in h.frail && Follows(h, front, picks))
  }

  /** `picks` is `todo` applied on `tip`. */
  ghost predicate Applies(h: Setting, tip: Commit, todo: seq<Pick>, picks: seq<Pick>) {
    ChainOn(tip, picks) && Follows(h, todo, picks) && forall p :: p in picks ==> NewOrSame(h, p)
  }

  function AsPicks(todo: seq<Commit>): (ps: seq<Pick>)
    ensures |ps| == |todo|
    ensures forall i :: 0 <= i < |ps| ==> ps[i] == Pick(Handover(todo[i]), todo[i])
  {
    seq(|todo|, i requires 0 <= i < |todo| => Pick(Handover(todo[i]), todo[i]))
  }

  /** A commit of the worktree that a rebase onto `tip` still has to apply. */
  ghost predicate StillNeeded(head: Commit, tip: Commit, p: Pick) {
    !Reaches(tip, p.made) && !Equivalent(head, tip, p.made.patch)
  }

  ghost function Needed(head: Commit, tip: Commit, picks: seq<Pick>): (ps: seq<Pick>)
    ensures forall p :: p in ps <==> p in picks && StillNeeded(head, tip, p)
  {
    if picks == [] then []
    else
      var rest := Needed(head, tip, picks[..|picks| - 1]);
      var last := picks[|picks| - 1];
      if StillNeeded(head, tip, last) then rest + [last] else rest
  }

  // ---- steps ---------------------------------------------------------------

  ghost predicate OthersPush(s: State, s': State) {
    Reaches(s'.branch, s.branch) && s' == s.(branch := s'.branch)
  }

  ghost predicate Killed(s: State, s': State) {
    s' == s.(run := NoRun)
  }

  ghost predicate Begin(s: State, s': State) {
    && (s.run.NoRun? || s.run.Ended?)
    && s' == s.(run := Leased, before := |s.put|)
  }

  /** `fetch_tip`, which may also find no branch or fail. */
  ghost predicate FetchTip(s: State, s': State) {
    s.run.Leased? && (s' == s.(run := Based(s.branch)) || s' == s.(run := Ended(Refused)))
  }

  /** Already on the branch: the gate is skipped and nothing is pushed. */
  ghost predicate Skip(h: Setting, s: State, s': State) {
    && s.run.Based? && AlreadyOnBranch(h, s.run.tip)
    && s' == s.(run := Ended(AlreadyThere(s.run.tip)))
  }

  /** Guarded paths, a red gate or a conflict go to a person; no merge base or a
      broken rebase is refused. */
  ghost predicate GiveUp(h: Setting, s: State, s': State) {
    && ((s.run.Based? && !AlreadyOnBranch(h, s.run.tip)) || s.run.Rebased? || s.run.Stale?)
    && (s' == s.(run := Ended(RoutedHuman)) || s' == s.(run := Ended(Refused)))
  }

  ghost predicate RebaseFirst(h: Setting, s: State, s': State) {
    && s.run.Based? && !AlreadyOnBranch(h, s.run.tip) && Admits(h, s.run.tip)
    && s'.run.Rebased? && s'.run.tip == s.run.tip
    && s' == s.(run := s'.run)
    && exists todo :: Todo(h, s.run.tip, todo) && Applies(h, s.run.tip, AsPicks(todo), s'.run.picks)
  }

  ghost predicate SomePickBumps(picks: seq<Pick>) {
    exists p :: p in picks && p.made.patch.bumps
  }

  /** The green gate: one bump commit on top, unless the handover's own shows. */
  ghost predicate GateGreen(h: Setting, s: State, s': State) {
    && s.run.Rebased? && s'.run.Ready?
    && var Rebased(tip, picks) := s.run;
    && s' == s.(run := Ready(tip, s'.run.picks, 0))
    && if s'.run.picks == picks then SomePickBumps(picks)
       else
         && (SomePickBumps(picks) ==> h.net)
         && |s'.run.picks| == |picks| + 1
         && var last := s'.run.picks[|picks|];
         && s'.run.picks == picks + [last]
         && last.origin == Bump && last.made.parents == [Head(tip, picks)]
         && last.made.patch.bumps && !Reaches(h.handover, last.made)
  }

  /** The origins of the picks that `branch` does not have yet. */
  ghost function Added(branch: Commit, picks: seq<Pick>): (os: seq<Origin>)
    ensures forall o :: o in os ==> exists p :: p in picks && p.origin == o
  {
    if picks == [] then []
    else
      var rest := Added(branch, picks[..|picks| - 1]);
      var last := picks[|picks| - 1];
      if Reaches(branch, last.made) then rest else rest + [last.origin]
  }

  /** The remote takes the push, which it can only do as a fast-forward. */
  ghost predicate Takes(s: State, s': State) {
    && s.run.Ready?
    && var landed := Head(s.run.tip, s.run.picks);
    && Reaches(landed, s.branch)
    && s' == s.(branch := landed, put := s.put + Added(s.branch, s.run.picks), run := s'.run)
  }

  /** `push` exits 0. The remote moved, or the transport only said so. */
  ghost predicate PushExitsZero(s: State, s': State) {
    && s.run.Ready?
    && s'.run == Accepted(s.run.tip, s.run.picks)
    && (Takes(s, s') || s' == s.(run := s'.run))
  }

  /** A policy rejection (nothing moved) or a transport failure (it may have). */
  ghost predicate PushFails(s: State, s': State) {
    && s.run.Ready?
    && s'.run == Ended(Refused)
    && (Takes(s, s') || s' == s.(run := s'.run))
  }

  /** A stale rejection: nothing moved, and the round counter decides. */
  ghost predicate PushStale(s: State, s': State) {
    && s.run.Ready?
    && var rounds := s.run.rounds + 1;
    && s' == s.(run := if rounds >= MAX_LAND_ROUNDS then Ended(RoutedHuman)
                       else Stale(s.run.tip, s.run.picks, rounds))
  }

  /** Once more: `fetch_tip`, then rebase the worktree, bump included, onto it. */
  ghost predicate RebaseAgain(h: Setting, s: State, s': State) {
    && s.run.Stale? && s'.run.Ready?
    && var Stale(tip, picks, rounds) := s.run;
    && s' == s.(run := Ready(s.branch, s'.run.picks, rounds))
    && Applies(h, s.branch, Needed(Head(tip, picks), s.branch, picks), s'.run.picks)
  }

  ghost predicate ReadBack(s: State, s': State) {
    && s.run.Accepted?
    && var Accepted(tip, picks) := s.run;
    && s' == s.(run := Ended(if s.branch == Head(tip, picks) then PushOk(tip, picks, s.branch)
                             else Refused))
  }

  ghost predicate Next(h: Setting, s: State, s': State) {
    || OthersPush(s, s')
    || Killed(s, s')
    || Begin(s, s')
    || FetchTip(s, s')
    || Skip(h, s, s')
    || GiveUp(h, s, s')
    || RebaseFirst(h, s, s')
    || GateGreen(h, s, s')
    || PushExitsZero(s, s')
    || PushFails(s, s')
    || PushStale(s, s')
    || RebaseAgain(h, s, s')
    || ReadBack(s, s')
  }

  ghost predicate Initial(s: State) {
    s.run.NoRun? && s.put == [] && s.before == 0
  }

  ghost predicate History(h: Setting, trace: seq<State>) {
    |trace| > 0 && Initial(trace[0]) && Steps(h, trace)
  }

  ghost predicate Steps(h: Setting, trace: seq<State>) {
    forall i :: 0 <= i < |trace| - 1 ==> Next(h, trace[i], trace[i + 1])
  }

  lemma {:induction false} StepsJoin(h: Setting, t: seq<State>, u: seq<State>)
    requires t != [] && u != [] && Steps(h, t) && Steps(h, u) && Next(h, t[|t| - 1], u[0])
    ensures Steps(h, t + u)
  {
  }

  // ---- what is left to land ------------------------------------------------

  /** What is not missing stays so on every fast-forward. */
  lemma {:induction false} MissingShrinks(h: Setting, tip: Commit, tip': Commit)
    requires Reaches(tip', tip)
    ensures forall c :: Missing(h, tip', c) ==> Missing(h, tip, c)
  {
    ReachesGrows(tip', tip);
  }

  lemma {:induction false} SettledGrows(h: Setting, tip: Commit, tip': Commit)
    requires Reaches(tip', tip) && Settled(h, tip)
    ensures Settled(h, tip')
  {
    MissingShrinks(h, tip, tip');
  }

  /** For a handover whose tip is not a merge, the skip test is exactly "there
      is nothing left to land". */
  lemma {:induction false} SkipIsSettled(h: Setting, tip: Commit)
    requires !IsMerge(h.handover)
    ensures AlreadyOnBranch(h, tip) <==> Settled(h, tip)
  {
    if Reaches(tip, h.handover) {
      ReachesGrows(tip, h.handover);
    } else {
      assert Own(h, tip, h.handover);
    }
  }

  // ---- rebased commits -----------------------------------------------------

  lemma {:induction false} PicksAreNotMerges(tip: Commit, picks: seq<Pick>)
    requires ChainOn(tip, picks)
    ensures forall p :: p in picks ==> !IsMerge(p.made)
  {
    if picks != [] {
      PicksAreNotMerges(tip, picks[..|picks| - 1]);
    }
  }

  lemma {:induction false} HeadReaches(tip: Commit, picks: seq<Pick>)
    requires ChainOn(tip, picks)
    ensures Reaches(Head(tip, picks), tip)
    ensures forall p :: p in picks ==> Reaches(Head(tip, picks), p.made)
  {
    if picks != [] {
      var front, head := picks[..|picks| - 1], picks[|picks| - 1].made;
      HeadReaches(tip, front);
      assert head.parents[0] == Head(tip, front);
      assert Reaches(head, Head(tip, front));
      ReachesGrows(head, Head(tip, front));
    }
  }

  /** The head has the tip's history and the picks, and nothing else. */
  lemma {:induction false} HeadReachesOnly(tip: Commit, picks: seq<Pick>, a: Commit)
    requires ChainOn(tip, picks) && Reaches(Head(tip, picks), a)
    ensures Reaches(tip, a) || exists p :: p in picks && p.made == a
  {
    if picks != [] {
      var front, last := picks[..|picks| - 1], picks[|picks| - 1];
      if a != last.made {
        HeadReachesOnly(tip, front, a);
      } else {
        assert last in picks;
      }
    }
  }

  /** A landed commit of the handover is not missing any more. */
  lemma {:induction false} LandedIsThere(h: Setting, tip: Commit, picks: seq<Pick>, p: Pick)
    requires ChainOn(tip, picks) && p in picks && p.origin.Handover? && NewOrSame(h, p)
    requires p.made.patch == p.origin.commit.patch
    ensures !Missing(h, Head(tip, picks), p.origin.commit)
  {
    HeadReaches(tip, picks);
    PicksAreNotMerges(tip, picks);
  }

  lemma {:induction false} AddedNoDup(branch: Commit, picks: seq<Pick>)
    requires NoDup(Origins(picks))
    ensures NoDup(Added(branch, picks))
  {
    if picks != [] {
      var front, last := picks[..|picks| - 1], picks[|picks| - 1];
      assert Origins(front) == Origins(picks)[..|picks| - 1];
      AddedNoDup(branch, front);
      var rest := Added(branch, front);
      forall k | 0 <= k < |rest| ensures rest[k] != last.origin {
        assert rest[k] in rest;
        var p :| p in front && p.origin == rest[k];
        var i :| 0 <= i < |front| && front[i] == p;
        assert Origins(picks)[i] == rest[k];
      }
    }
  }

  lemma {:induction false} InOrigins(picks: seq<Pick>, o: Origin)
    ensures o in Origins(picks) <==> exists p :: p in picks && p.origin == o
  {
  }

  lemma {:induction false} FollowsIn(h: Setting, todo: seq<Pick>, picks: seq<Pick>)
    requires Follows(h, todo, picks)
    ensures forall p :: p in picks ==> exists q :: q in todo && MadeOf(h, q, p)
    ensures forall q :: q in todo && q.made.patch !in h.frail ==> exists p :: p in picks && MadeOf(h, q, p)
  {
    if todo != [] {
      var front, last := todo[..|todo| - 1], todo[|todo| - 1];
      assert todo == front + [last];
      if picks != [] && MadeOf(h, last, picks[|picks| - 1]) && Follows(h, front, picks[..|picks| - 1]) {
        FollowsIn(h, front, picks[..|picks| - 1]);
        assert picks == picks[..|picks| - 1] + [picks[|picks| - 1]];
      } else {
        FollowsIn(h, front, picks);
      }
    }
  }

  lemma {:induction false} FollowsKeeps(h: Setting, todo: seq<Pick>, picks: seq<Pick>, q: Pick)
    requires Follows(h, todo, picks) && q in todo && q.made.patch !in h.frail
    ensures q.origin in Origins(picks)
  {
    FollowsIn(h, todo, picks);
    var p :| p in picks && MadeOf(h, q, p);
    InOrigins(picks, q.origin);
  }

  lemma {:induction false} FollowsOrigin(h: Setting, todo: seq<Pick>, picks: seq<Pick>, o: Origin)
    requires Follows(h, todo, picks) && o in Origins(picks)
    ensures o in Origins(todo)
  {
    FollowsIn(h, todo, picks);
    InOrigins(picks, o);
    var p :| p in picks && p.origin == o;
    var q :| q in todo && MadeOf(h, q, p);
    InOrigins(todo, o);
  }

  lemma {:induction false} FollowsNoDup(h: Setting, todo: seq<Pick>, picks: seq<Pick>)
    requires Follows(h, todo, picks) && NoDup(Origins(todo))
    ensures NoDup(Origins(picks))
  {
    if todo != [] {
      var front, last := todo[..|todo| - 1], todo[|todo| - 1];
      assert Origins(todo) == Origins(front) + [last.origin];
      if picks != [] && MadeOf(h, last, picks[|picks| - 1]) && Follows(h, front, picks[..|picks| - 1]) {
        var picks0 := picks[..|picks| - 1];
        FollowsNoDup(h, front, picks0);
        assert Origins(picks) == Origins(picks0) + [last.origin];
        if last.origin in Origins(picks0) {
          FollowsOrigin(h, front, picks0, last.origin);
        }
      } else {
        FollowsNoDup(h, front, picks);
      }
    }
  }

  lemma {:induction false} NeededKeepsOrder(head: Commit, tip: Commit, picks: seq<Pick>)
    requires NoDup(Origins(picks))
    ensures NoDup(Origins(Needed(head, tip, picks)))
    ensures picks != [] && StillNeeded(head, tip, picks[|picks| - 1]) ==>
              var ps := Needed(head, tip, picks); ps != [] && ps[|ps| - 1] == picks[|picks| - 1]
  {
    if picks != [] {
      var front, last := picks[..|picks| - 1], picks[|picks| - 1];
      assert Origins(front) == Origins(picks)[..|picks| - 1];
      NeededKeepsOrder(head, tip, front);
      var rest := Needed(head, tip, front);
      forall i | 0 <= i < |rest| ensures rest[i].origin != last.origin {
        assert rest[i] in front;
        var j :| 0 <= j < |front| && front[j] == rest[i];
        assert Origins(picks)[j] == rest[i].origin;
      }
    }
  }

  // ---- the order of the picks ----------------------------------------------

  /** Of two handover commits in the worktree, an ancestor is redone before its
      descendant. */
  ghost predicate AncestorsFirst(picks: seq<Pick>) {
    forall i, j :: 0 <= i < |picks| && 0 <= j < |picks| && Descends(picks[j], picks[i]) ==> i < j
  }

  ghost predicate Descends(q: Pick, p: Pick) {
    && p.origin.Handover? && q.origin.Handover? && p.origin.commit != q.origin.commit
    && Reaches(q.origin.commit, p.origin.commit)
  }

  lemma {:induction false} TodoHasAncestorsFirst(todo: seq<Commit>)
    requires Ordered(todo)
    ensures AncestorsFirst(AsPicks(todo))
  {
    var ps := AsPicks(todo);
    forall i, j | 0 <= i < |ps| && 0 <= j < |ps| && Descends(ps[j], ps[i]) ensures i < j {
      assert Reaches(todo[j], todo[i]);
    }
  }

  lemma {:induction false} FollowsHasAncestorsFirst(h: Setting, todo: seq<Pick>, picks: seq<Pick>)
    requires Follows(h, todo, picks) && AncestorsFirst(todo)
    ensures AncestorsFirst(picks)
  {
    if todo != [] {
      var front, last := todo[..|todo| - 1], todo[|todo| - 1];
      assert AncestorsFirst(front);
      if picks != [] && MadeOf(h, last, picks[|picks| - 1]) && Follows(h, front, picks[..|picks| - 1]) {
        var picks0 := picks[..|picks| - 1];
        FollowsHasAncestorsFirst(h, front, picks0);
        forall i | 0 <= i < |picks0| ensures !Descends(picks[i], picks[|picks0|]) {
          assert Origins(picks0)[i] == picks[i].origin;
          FollowsOrigin(h, front, picks0, picks[i].origin);
          var k :| 0 <= k < |front| && Origins(front)[k] == picks[i].origin;
          assert !Descends(todo[k], last);
        }
      } else {
        FollowsHasAncestorsFirst(h, front, picks);
      }
    }
  }

  lemma {:induction false} NeededHasAncestorsFirst(head: Commit, tip: Commit, picks: seq<Pick>)
    requires AncestorsFirst(picks)
    ensures AncestorsFirst(Needed(head, tip, picks))
  {
    if picks != [] {
      var front, last := picks[..|picks| - 1], picks[|picks| - 1];
      NeededHasAncestorsFirst(head, tip, front);
      var rest := Needed(head, tip, front);
      forall i | 0 <= i < |rest| ensures !Descends(rest[i], last) {
        assert rest[i] in front;
        var k :| 0 <= k < |front| && front[k] == rest[i];
        assert !Descends(picks[k], last);
      }
    }
  }

  /** In the line of made commits an earlier pick is an ancestor of a later one. */
  lemma {:induction false} ChainReaches(tip: Commit, picks: seq<Pick>, i: nat, j: nat)
    requires ChainOn(tip, picks) && i <= j < |picks|
    ensures Reaches(picks[j].made, picks[i].made) && Reaches(Head(tip, picks), picks[j].made)
  {
    HeadReaches(tip, picks);
    var front := picks[..|picks| - 1];
    if j == |picks| - 1 {
      assert picks[i] in picks;
    } else {
      ChainReaches(tip, front, i, j);
      assert picks[j] in picks;
    }
  }

  // ---- theorems that need nothing of the handover --------------------------

  /** Until a push is accepted the run has put nothing on the branch. */
  ghost predicate PutsLate(s: State) {
    && s.before <= |s.put|
    && (s.run.Leased? || s.run.Based? || s.run.Rebased? || s.run.Ready? || s.run.Stale? ==> |s.put| == s.before)
    && (s.run.Ended? && (s.run.outcome.RoutedHuman? || s.run.outcome.AlreadyThere?) ==> |s.put| == s.before)
  }

  lemma {:induction false} PutsLateAlways(h: Setting, trace: seq<State>, i: nat)
    requires History(h, trace) && i < |trace|
    ensures PutsLate(trace[i])
  {
    if i > 0 {
      PutsLateAlways(h, trace, i - 1);
      assert Next(h, trace[i - 1], trace[i - 1 + 1]);
    }
  }

  /** A run that ends with a person, or finds its work already there, has put
      nothing on the branch. */
  lemma {:induction false} RoutedLeavesBranchAlone(h: Setting, trace: seq<State>, i: nat)
    requires History(h, trace) && i < |trace| && trace[i].run.Ended?
    requires trace[i].run.outcome.RoutedHuman? || trace[i].run.outcome.AlreadyThere?
    ensures |trace[i].put| == trace[i].before
  {
    PutsLateAlways(h, trace, i);
  }

  /** The branch only grows. */
  lemma {:induction false} BranchOnlyGrows(h: Setting, trace: seq<State>, i: nat, j: nat)
    requires History(h, trace) && i <= j < |trace|
    ensures Reaches(trace[j].branch, trace[i].branch)
  {
    if i < j {
      BranchOnlyGrows(h, trace, i, j - 1);
      assert Next(h, trace[j - 1], trace[j - 1 + 1]);
      ReachesTransitive(trace[j].branch, trace[j - 1].branch, trace[i].branch);
    }
  }
}
