/** Over every history of landings, nothing is put on the branch twice. */
module LandingOnce {
  import opened Git
  import opened Landing

  /** A commit of the handover that a first rebase may find as its merge base. */
  ghost predicate Ground(h: Setting, x: Commit) {
    x in h.clear && Reaches(h.handover, x)
  }

  ghost predicate Plain(h: Setting, c: Commit) {
    Reaches(h.handover, c) && !IsMerge(c)
  }

  /** Every branch that is admitted already has the commits whose patch a rebase
      may not keep. */
  ghost predicate Sturdy(h: Setting) {
    forall c, x :: Plain(h, c) && c.patch in h.frail && Ground(h, x) ==> Reaches(x, c)
  }

  /** Above every merge base there is a commit that `git cherry` lists. */
  ghost predicate Recognised(h: Setting) {
    forall x :: Ground(h, x) && x != h.handover ==> exists y :: Plain(h, y) && y != x && Reaches(y, x)
  }

  /** A patch whose landing does not keep the gate from adding a bump. */
  ghost predicate Light(h: Setting, p: Patch) {
    h.net || !p.bumps
  }

  /** Two commits of the handover with one patch, the second not below the first. */
  ghost predicate Repeats(h: Setting, a: Commit, b: Commit) {
    Plain(h, a) && Plain(h, b) && a.patch == b.patch && !Reaches(a, b)
  }

  /** A first rebase onto a branch grounded in `x` picks both `a` and `b`, and one
      onto a later branch grounded in `z`, which has `a`, picks `b`. */
  ghost predicate Splits(h: Setting, a: Commit, b: Commit, x: Commit, z: Commit) {
    && Ground(h, x) && !Reaches(x, a) && !Reaches(x, b)
    && Ground(h, z) && !Reaches(z, b) && (Reaches(a, z) ==> a == z)
  }

  ghost predicate LightDistinct(h: Setting) {
    forall a, b, x, z :: Repeats(h, a, b) && Light(h, a.patch) ==> !Splits(h, a, b, x, z)
  }

  /** What a landing needs to put each thing on the branch once. */
  ghost predicate Landable(h: Setting) {
    Sturdy(h) && Recognised(h) && LightDistinct(h)
  }

  // ---- the invariant -------------------------------------------------------

  /** `a` is on the branch in place of `c`, and an admitted branch lacked both. */
  ghost predicate Displaces(h: Setting, tip: Commit, a: Commit, c: Commit) {
    Repeats(h, a, c) && Reaches(tip, a) && exists x :: Ground(h, x) && !Reaches(x, a) && !Reaches(x, c)
  }

  ghost predicate Displaced(h: Setting, tip: Commit, c: Commit) {
    exists a :: Displaces(h, tip, a, c)
  }

  /** Nothing that was put is missing, and after a bump only commits are missing
      that keep the gate from bumping again, or that were displaced. */
  ghost predicate PutIsDone(h: Setting, tip: Commit, put: seq<Origin>) {
    && (forall c :: Handover(c) in put ==> !Missing(h, tip, c))
    && (Bump in put ==> forall c :: Missing(h, tip, c) && Light(h, c.patch) ==> Displaced(h, tip, c))
  }

  /** A worktree of new things on an admitted branch, with every light commit that
      is missing and not displaced. */
  ghost predicate Fits(h: Setting, tip: Commit, picks: seq<Pick>, put: seq<Origin>) {
    && ChainOn(tip, picks) && NoDup(Origins(picks))
    && (forall p :: p in picks ==> NewOrSame(h, p) && p.origin !in put)
    && (forall p :: p in picks && p.origin.Handover? ==> OfHandover(h, p) && p.made.patch !in h.frail)
    && Grounded(h, tip) && Covers(h, tip, picks)
  }

  ghost predicate OfHandover(h: Setting, p: Pick)
    requires p.origin.Handover?
  {
    Plain(h, p.origin.commit) && p.made.patch == p.origin.commit.patch
  }

  ghost predicate Grounded(h: Setting, tip: Commit) {
    exists x :: Ground(h, x) && Reaches(tip, x)
  }

  ghost predicate Covers(h: Setting, tip: Commit, picks: seq<Pick>) {
    forall c :: Missing(h, tip, c) && Light(h, c.patch) ==> Handover(c) in Origins(picks) || Displaced(h, tip, c)
  }

  ghost predicate Inv(h: Setting, s: State) {
    && NoDup(s.put) && PutIsDone(h, s.branch, s.put)
    && match s.run
       case Based(tip) => Reaches(s.branch, tip) && PutIsDone(h, tip, s.put)
       case Rebased(tip, picks) =>
         && Reaches(s.branch, tip) && Fits(h, tip, picks, s.put) && Bump !in Origins(picks)
         && (Bump in s.put ==> SomePickBumps(picks) && !h.net)
       case Ready(tip, picks, _) => Reaches(s.branch, tip) && Fits(h, tip, picks, s.put)
       case Stale(tip, picks, _) => Reaches(s.branch, tip) && Fits(h, tip, picks, s.put)
       case _ => true
  }

  lemma {:induction false} DisplacedStays(h: Setting, tip: Commit, tip': Commit, c: Commit)
    requires Reaches(tip', tip) && Displaced(h, tip, c)
    ensures Displaced(h, tip', c)
  {
    var a :| Displaces(h, tip, a, c);
    ReachesTransitive(tip', tip, a);
    assert Displaces(h, tip', a, c);
  }

  lemma {:induction false} PutStaysDone(h: Setting, tip: Commit, tip': Commit, put: seq<Origin>)
    requires Reaches(tip', tip) && PutIsDone(h, tip, put)
    ensures PutIsDone(h, tip', put)
  {
    MissingShrinks(h, tip, tip');
    if Bump in put {
      forall c | Missing(h, tip', c) && Light(h, c.patch) ensures Displaced(h, tip', c) {
        DisplacedStays(h, tip, tip', c);
      }
    }
  }

  // ---- an admitted branch --------------------------------------------------

  lemma {:induction false} DisplacedSplits(h: Setting, tip: Commit, a: Commit, c: Commit, z: Commit)
    returns (x: Commit)
    requires Displaces(h, tip, a, c) && Missing(h, tip, c) && z in h.clear && MergeBase(h, tip, z)
    ensures Splits(h, a, c, x, z)
  {
    x :| Ground(h, x) && !Reaches(x, a) && !Reaches(x, c);
    if Reaches(z, c) {
      ReachesTransitive(tip, z, c);
    }
  }

  /** Nothing that is missing there was displaced. */
  lemma {:induction false} AdmittedIsNotDisplaced(h: Setting, tip: Commit, c: Commit)
    requires LightDistinct(h) && Admits(h, tip) && Missing(h, tip, c) && Light(h, c.patch)
    ensures !Displaced(h, tip, c)
  {
    if a :| Displaces(h, tip, a, c) {
      var z :| z in h.clear && MergeBase(h, tip, z);
      var x := DisplacedSplits(h, tip, a, c, z);
    }
  }

  /** What the skip test does not see as done has something missing. */
  lemma {:induction false} AdmittedIsMissingSome(h: Setting, tip: Commit)
    requires Recognised(h) && Admits(h, tip) && !AlreadyOnBranch(h, tip)
    ensures exists c :: Missing(h, tip, c)
  {
    var x :| x in h.clear && MergeBase(h, tip, x);
    assert Ground(h, x) && x != h.handover;
    var y :| Plain(h, y) && y != x && Reaches(y, x);
    assert Own(h, tip, y);
  }

  lemma {:induction false} MissingIsSturdy(h: Setting, tip: Commit, c: Commit)
    requires Sturdy(h) && Grounded(h, tip) && Missing(h, tip, c)
    ensures c.patch !in h.frail
  {
    var x :| Ground(h, x) && Reaches(tip, x);
    if c.patch in h.frail {
      assert Plain(h, c);
      ReachesTransitive(tip, x, c);
    }
  }

  // ---- the two rebases -----------------------------------------------------

  /** The first rebase picks exactly what is missing, with its own patches. */
  lemma {:induction false} FirstRebase(h: Setting, tip: Commit, todo: seq<Commit>, picks: seq<Pick>)
    requires Sturdy(h) && Grounded(h, tip) && Todo(h, tip, todo) && Applies(h, tip, AsPicks(todo), picks)
    ensures forall p :: p in picks ==> p.origin.Handover? && Missing(h, tip, p.origin.commit) && OfHandover(h, p)
    ensures forall c :: Missing(h, tip, c) ==> Handover(c) in Origins(picks) && c.patch !in h.frail
    ensures NoDup(Origins(picks))
  {
    var ps := AsPicks(todo);
    FollowsIn(h, ps, picks);
    assert NoDup(Origins(ps));
    FollowsNoDup(h, ps, picks);
    forall c | Missing(h, tip, c) ensures c.patch !in h.frail {
      MissingIsSturdy(h, tip, c);
    }
    forall p | p in picks ensures p.origin.Handover? && Missing(h, tip, p.origin.commit) && OfHandover(h, p) {
      var q :| q in ps && MadeOf(h, q, p);
      var i :| 0 <= i < |ps| && ps[i] == q;
      assert todo[i] in todo;
    }
    forall c | Missing(h, tip, c) ensures Handover(c) in Origins(picks) {
      var i :| 0 <= i < |todo| && todo[i] == c;
      assert ps[i] in ps;
      var p :| p in picks && MadeOf(h, ps[i], p);
      InOrigins(picks, Handover(c));
    }
  }

  lemma {:induction false} FirstRebaseFits(h: Setting, tip: Commit, todo: seq<Commit>, picks: seq<Pick>,
                                           put: seq<Origin>)
    requires Landable(h) && !AlreadyOnBranch(h, tip) && Admits(h, tip) && PutIsDone(h, tip, put)
    requires Todo(h, tip, todo) && Applies(h, tip, AsPicks(todo), picks)
    ensures Fits(h, tip, picks, put) && Bump !in Origins(picks)
    ensures Bump in put ==> SomePickBumps(picks) && !h.net
  {
    FirstRebase(h, tip, todo, picks);
    InOrigins(picks, Bump);
    if Bump in put {
      AdmittedIsMissingSome(h, tip);
      var c :| Missing(h, tip, c);
      if Light(h, c.patch) {
        AdmittedIsNotDisplaced(h, tip, c);
      }
      InOrigins(picks, Handover(c));
    }
  }

  /** A commit that is still missing on a moved tip is still needed there, or was
      displaced by another commit with its patch. */
  lemma {:induction false} MissingIsNeeded(h: Setting, tip: Commit, picks: seq<Pick>, put: seq<Origin>,
                                           tip': Commit, p: Pick)
    requires Fits(h, tip, picks, put) && Reaches(tip', tip) && p in picks && p.origin.Handover?
    requires Missing(h, tip', p.origin.commit)
    ensures StillNeeded(Head(tip, picks), tip', p) || Displaced(h, tip', p.origin.commit)
  {
    var c, head := p.origin.commit, Head(tip, picks);
    PicksAreNotMerges(tip, picks);
    assert !Reaches(tip', p.made);
    if e :| Reaches(tip', e) && !Reaches(head, e) && !IsMerge(e) && e.patch == p.made.patch {
      MissingIsDisplaced(h, tip, head, tip', c, e) by {
        HeadReaches(tip, picks);
      }
    }
  }

  lemma {:induction false} MissingIsDisplaced(h: Setting, tip: Commit, head: Commit, tip': Commit, c: Commit, e: Commit)
    requires Grounded(h, tip) && Reaches(head, tip) && Reaches(tip', tip) && Missing(h, tip', c)
    requires Reaches(tip', e) && !Reaches(head, e) && !IsMerge(e) && e.patch == c.patch
    ensures Displaced(h, tip', c)
  {
    var x :| Ground(h, x) && Reaches(tip, x);
    if Reaches(x, e) {
      ReachesTransitive(head, tip, x);
      ReachesTransitive(head, x, e);
    }
    if Reaches(x, c) {
      ReachesTransitive(tip', tip, x);
      ReachesTransitive(tip', x, c);
    }
    if Reaches(e, c) {
      ReachesTransitive(tip', e, c);
    }
    assert Displaces(h, tip', e, c);
  }

  lemma {:induction false} SecondRebaseCovers(h: Setting, tip: Commit, picks: seq<Pick>, put: seq<Origin>,
                                              tip': Commit, picks': seq<Pick>)
    requires Fits(h, tip, picks, put) && Reaches(tip', tip)
    requires Follows(h, Needed(Head(tip, picks), tip', picks), picks')
    ensures Covers(h, tip', picks')
  {
    MissingShrinks(h, tip, tip');
    forall c | Missing(h, tip', c) && Light(h, c.patch) && !Displaced(h, tip', c)
      ensures Handover(c) in Origins(picks')
    {
      if Displaced(h, tip, c) {
        DisplacedStays(h, tip, tip', c);
      }
      InOrigins(picks, Handover(c));
      var q :| q in picks && q.origin == Handover(c);
      MissingIsNeeded(h, tip, picks, put, tip', q);
      FollowsKeeps(h, Needed(Head(tip, picks), tip', picks), picks', q);
    }
  }

  lemma {:induction false} SecondRebaseKeepsPicks(h: Setting, tip: Commit, picks: seq<Pick>,
                                                  put: seq<Origin>, needed: seq<Pick>, p: Pick)
    requires Fits(h, tip, picks, put)
    requires forall q :: q in needed ==> q in picks
    requires exists q :: q in needed && MadeOf(h, q, p)
    ensures p.origin !in put && (p.origin.Handover? ==> OfHandover(h, p) && p.made.patch !in h.frail)
  {
    var q :| q in needed && MadeOf(h, q, p);
    assert q in picks;
  }

  lemma {:induction false} GroundedStays(h: Setting, tip: Commit, tip': Commit)
    requires Reaches(tip', tip) && Grounded(h, tip)
    ensures Grounded(h, tip')
  {
    var x :| Ground(h, x) && Reaches(tip, x);
    ReachesTransitive(tip', tip, x);
  }

  lemma {:induction false} SecondRebaseFits(h: Setting, tip: Commit, picks: seq<Pick>, put: seq<Origin>,
                                            tip': Commit, picks': seq<Pick>)
    requires Fits(h, tip, picks, put) && Reaches(tip', tip)
    requires Applies(h, tip', Needed(Head(tip, picks), tip', picks), picks')
    ensures Fits(h, tip', picks', put)
  {
    var needed := Needed(Head(tip, picks), tip', picks);
    NeededKeepsOrder(Head(tip, picks), tip', picks);
    FollowsIn(h, needed, picks');
    FollowsNoDup(h, needed, picks');
    forall p | p in picks'
      ensures p.origin !in put && (p.origin.Handover? ==> OfHandover(h, p) && p.made.patch !in h.frail)
    {
      SecondRebaseKeepsPicks(h, tip, picks, put, needed, p);
    }
    SecondRebaseCovers(h, tip, picks, put, tip', picks');
    GroundedStays(h, tip, tip');
  }

  // ---- every step keeps it -------------------------------------------------

  lemma {:induction false} OthersPushKeeps(h: Setting, s: State, s': State)
    requires Inv(h, s) && OthersPush(s, s')
    ensures Inv(h, s')
  {
    PutStaysDone(h, s.branch, s'.branch, s.put);
    ReachesGrows(s'.branch, s.branch);
  }

  lemma {:induction false} RebaseFirstKeeps(h: Setting, s: State, s': State)
    requires Landable(h) && Inv(h, s) && RebaseFirst(h, s, s')
    ensures Inv(h, s')
  {
    var todo :| Todo(h, s.run.tip, todo) && Applies(h, s.run.tip, AsPicks(todo), s'.run.picks);
    FirstRebaseFits(h, s.run.tip, todo, s'.run.picks, s.put);
  }

  lemma {:induction false} GateGreenKeeps(h: Setting, s: State, s': State)
    requires Inv(h, s) && GateGreen(h, s, s')
    ensures Inv(h, s')
  {
    var tip, picks, picks' := s.run.tip, s.run.picks, s'.run.picks;
    if picks' != picks {
      assert picks'[..|picks|] == picks && Origins(picks') == Origins(picks) + [Bump];
    }
  }

  lemma {:induction false} NoDupJoin(a: seq<Origin>, b: seq<Origin>)
    requires NoDup(a) && NoDup(b) && forall o :: o in b ==> o !in a
    ensures NoDup(a + b)
  {
    forall i, j | 0 <= i < j < |a + b| ensures (a + b)[i] != (a + b)[j] {
      if i < |a| <= j {
        assert a[i] in a && b[j - |a|] in b;
      }
    }
  }

  /** What is put is done, and with every light commit put, a bump may be. */
  lemma {:induction false} LandedIsDone(h: Setting, tip: Commit, picks: seq<Pick>, put: seq<Origin>)
    requires Fits(h, tip, picks, put)
    ensures PutIsDone(h, Head(tip, picks), Origins(picks))
  {
    HeadReaches(tip, picks);
    MissingShrinks(h, tip, Head(tip, picks));
    forall c | Displaced(h, tip, c) ensures Displaced(h, Head(tip, picks), c) {
      DisplacedStays(h, tip, Head(tip, picks), c);
    }
    forall c | Handover(c) in Origins(picks) ensures !Missing(h, Head(tip, picks), c) {
      InOrigins(picks, Handover(c));
      var p :| p in picks && p.origin == Handover(c);
      LandedIsThere(h, tip, picks, p);
    }
  }

  lemma {:induction false} TakesKeeps(h: Setting, s: State, s': State)
    requires Inv(h, s) && Takes(s, s') && (s'.run.Accepted? || s'.run.Ended?)
    ensures Inv(h, s')
  {
    var picks, added := s.run.picks, Added(s.branch, s.run.picks);
    AddedNoDup(s.branch, picks);
    PutStaysDone(h, s.branch, s'.branch, s.put);
    LandedIsDone(h, s.run.tip, picks, s.put);
    forall o | o in added ensures o !in s.put && o in Origins(picks) {
      InOrigins(picks, o);
    }
    NoDupJoin(s.put, added);
  }

  lemma {:induction false} NextKeeps(h: Setting, s: State, s': State)
    requires Landable(h) && Inv(h, s) && Next(h, s, s')
    ensures Inv(h, s')
  {
    if OthersPush(s, s') {
      OthersPushKeeps(h, s, s');
    } else if RebaseFirst(h, s, s') {
      RebaseFirstKeeps(h, s, s');
    } else if GateGreen(h, s, s') {
      GateGreenKeeps(h, s, s');
    } else if Takes(s, s') && (PushExitsZero(s, s') || PushFails(s, s')) {
      TakesKeeps(h, s, s');
    } else if RebaseAgain(h, s, s') {
      SecondRebaseFits(h, s.run.tip, s.run.picks, s.put, s.branch, s'.run.picks);
    }
  }

  lemma {:induction false} StepsKeep(h: Setting, trace: seq<State>, i: nat)
    requires Landable(h) && Steps(h, trace) && i < |trace| && Inv(h, trace[0])
    ensures Inv(h, trace[i])
  {
    if i > 0 {
      StepsKeep(h, trace, i - 1);
      assert Next(h, trace[i - 1], trace[i - 1 + 1]);
      NextKeeps(h, trace[i - 1], trace[i]);
    }
  }

  /** Whatever runs are killed wherever, and whoever else pushes in between, no
      handover commit is put on the branch twice and at most one bump is. */
  lemma {:induction false} LandsAtMostOnce(h: Setting, trace: seq<State>, i: nat)
    requires Landable(h) && History(h, trace) && i < |trace|
    ensures NoDup(trace[i].put)
  {
    StepsKeep(h, trace, i);
  }
}
