/** What a `push ok` record means. */
module LandingPushOk {
  import opened Git
  import opened Landing
  import opened LandingOnce

  /** Every branch that is admitted already has one of two commits with a patch. */
  ghost predicate DistinctPatches(h: Setting) {
    forall a, b, x :: Plain(h, a) && Plain(h, b) && a.patch == b.patch && a != b && Ground(h, x) ==>
      Reaches(x, a) || Reaches(x, b)
  }

  /** What the branch lacks has each patch once. */
  ghost predicate OneOfEach(h: Setting, tip: Commit) {
    forall a, b :: Plain(h, a) && Plain(h, b) && !Reaches(tip, a) && !Reaches(tip, b) && a.patch == b.patch ==> a == b
  }

  lemma {:induction false} GroundedHasOneOfEach(h: Setting, tip: Commit)
    requires DistinctPatches(h) && Grounded(h, tip)
    ensures OneOfEach(h, tip)
  {
    var x :| Ground(h, x) && Reaches(tip, x);
    ReachesGrows(tip, x);
  }

  ghost predicate BumpLast(picks: seq<Pick>) {
    forall i :: 0 <= i < |picks| && picks[i].origin.Bump? ==> i == |picks| - 1
  }

  /** The worktree is the tip, then exactly the handover commits that are missing
      there, once each, ancestors first and with their own patches, then at most
      one bump, which is there beside a bump of the handover only if that does not
      show. */
  ghost predicate Exact(h: Setting, tip: Commit, picks: seq<Pick>) {
    && ChainOn(tip, picks) && NoDup(Origins(picks)) && BumpLast(picks) && AncestorsFirst(picks)
    && (forall p :: p in picks ==> NewOrSame(h, p))
    && (forall p :: p in picks && p.origin.Bump? ==> p.made.patch.bumps)
    && (forall p :: p in picks && p.origin.Handover? ==> OfHandover(h, p))
    && (Bump in Origins(picks) && !h.net ==> forall p :: p in picks && p.origin.Handover? ==> !p.made.patch.bumps)
    && PicksWhatIsMissing(h, tip, picks)
  }

  ghost predicate PicksWhatIsMissing(h: Setting, tip: Commit, picks: seq<Pick>) {
    forall c :: Handover(c) in Origins(picks) <==> Missing(h, tip, c)
  }

  /** Landing an exact worktree settles the branch. */
  lemma {:induction false} LandedIsSettled(h: Setting, tip: Commit, picks: seq<Pick>)
    requires Exact(h, tip, picks)
    ensures Settled(h, Head(tip, picks))
  {
    HeadReaches(tip, picks);
    MissingShrinks(h, tip, Head(tip, picks));
    forall c ensures !Missing(h, Head(tip, picks), c) {
      if Missing(h, tip, c) {
        InOrigins(picks, Handover(c));
        var p :| p in picks && p.origin == Handover(c);
        LandedIsThere(h, tip, picks, p);
      }
    }
  }

  lemma {:induction false} FirstRebaseIsExact(h: Setting, tip: Commit, todo: seq<Commit>, picks: seq<Pick>)
    requires Sturdy(h) && Grounded(h, tip) && Todo(h, tip, todo) && Applies(h, tip, AsPicks(todo), picks)
    ensures Exact(h, tip, picks) && Bump !in Origins(picks)
  {
    FirstRebase(h, tip, todo, picks);
    TodoHasAncestorsFirst(todo);
    FollowsHasAncestorsFirst(h, AsPicks(todo), picks);
    forall o | o in Origins(picks) ensures o.Handover? && Missing(h, tip, o.commit) {
      InOrigins(picks, o);
    }
  }

  // ---- the second rebase ---------------------------------------------------

  lemma {:induction false} SamePatch(h: Setting, tip: Commit, picks: seq<Pick>, p: Pick, q: Pick)
    requires OneOfEach(h, tip) && Exact(h, tip, picks) && p in picks && p.origin.Handover?
    requires q in picks && q.origin.Handover? && q.made.patch == p.made.patch
    ensures p == q
  {
    assert p.origin == q.origin;
  }

  lemma {:induction false} BumpIsHead(tip: Commit, picks: seq<Pick>, q: Pick)
    requires BumpLast(picks) && q in picks && q.origin.Bump?
    ensures q.made == Head(tip, picks)
  {
  }

  /** A commit of the worktree with a pick's patch is on the tip, is that pick or
      is the head. */
  lemma {:induction false} PickOf(h: Setting, tip: Commit, picks: seq<Pick>, p: Pick, e: Commit)
    requires OneOfEach(h, tip) && Exact(h, tip, picks) && p in picks && p.origin.Handover?
    requires Reaches(Head(tip, picks), e) && e.patch == p.made.patch
    ensures Reaches(tip, e) || e == p.made || e == Head(tip, picks)
  {
    HeadReachesOnly(tip, picks, e);
    if !Reaches(tip, e) {
      var q :| q in picks && q.made == e;
      if q.origin.Bump? {
        BumpIsHead(tip, picks, q);
      } else {
        SamePatch(h, tip, picks, p, q);
      }
    }
  }

  lemma {:induction false} NeededIsMissing(h: Setting, tip: Commit, picks: seq<Pick>, tip': Commit, p: Pick)
    requires OneOfEach(h, tip) && Exact(h, tip, picks) && p in picks && p.origin.Handover?
    requires StillNeeded(Head(tip, picks), tip', p)
    ensures Missing(h, tip', p.origin.commit)
  {
    var c, head := p.origin.commit, Head(tip, picks);
    HeadReaches(tip, picks);
    if Reaches(tip', head) {
      ReachesTransitive(tip', head, p.made);
    }
    if Reaches(head, c) {
      PickOf(h, tip, picks, p, c);
    }
    forall e | Reaches(tip', e) && !IsMerge(e) && e.patch == c.patch ensures Reaches(h.handover, e) {
      PickOf(h, tip, picks, p, e);
    }
  }

  lemma {:induction false} MissingIsNeeded(h: Setting, tip: Commit, picks: seq<Pick>, tip': Commit, p: Pick)
    requires OneOfEach(h, tip) && Exact(h, tip, picks) && p in picks && p.origin.Handover?
    requires Missing(h, tip', p.origin.commit)
    ensures StillNeeded(Head(tip, picks), tip', p)
  {
    var c, head := p.origin.commit, Head(tip, picks);
    PicksAreNotMerges(tip, picks);
    HeadReaches(tip, picks);
    ReachesGrows(head, tip);
    assert forall e :: Plain(h, e) && e.patch == c.patch && !Reaches(head, e) ==> e == c;
  }

  lemma {:induction false} FollowsBumpLast(h: Setting, todo: seq<Pick>, picks: seq<Pick>)
    requires Follows(h, todo, picks) && BumpLast(todo)
    ensures BumpLast(picks)
  {
    if todo != [] {
      var front, last := todo[..|todo| - 1], todo[|todo| - 1];
      assert Bump !in Origins(front);
      if picks != [] && MadeOf(h, last, picks[|picks| - 1]) && Follows(h, front, picks[..|picks| - 1]) {
        var picks0 := picks[..|picks| - 1];
        if Bump in Origins(picks0) {
          FollowsOrigin(h, front, picks0, Bump);
        }
        forall i | 0 <= i < |picks| - 1 ensures picks[i].origin != Bump {
          assert Origins(picks0)[i] == picks[i].origin;
        }
      } else {
        FollowsBumpLast(h, front, picks);
      }
    }
  }

  lemma {:induction false} NeededBumpLast(head: Commit, tip: Commit, picks: seq<Pick>)
    requires BumpLast(picks)
    ensures BumpLast(Needed(head, tip, picks))
  {
    if picks != [] {
      var front := picks[..|picks| - 1];
      NeededBumpLast(head, tip, front);
      var rest := Needed(head, tip, front);
      forall i | 0 <= i < |rest| ensures rest[i].origin != Bump {
        assert rest[i] in front;
        var j :| 0 <= j < |front| && front[j] == rest[i];
        assert picks[j] == rest[i];
      }
    }
  }

  lemma {:induction false} SecondRebasePicksWhatIsMissing(h: Setting, tip: Commit, picks: seq<Pick>,
                                                          tip': Commit, picks': seq<Pick>)
    requires Sturdy(h) && DistinctPatches(h) && Grounded(h, tip) && Exact(h, tip, picks) && Reaches(tip', tip)
    requires Follows(h, Needed(Head(tip, picks), tip', picks), picks')
    ensures PicksWhatIsMissing(h, tip', picks')
  {
    var needed := Needed(Head(tip, picks), tip', picks);
    GroundedHasOneOfEach(h, tip);
    MissingShrinks(h, tip, tip');
    forall c ensures Handover(c) in Origins(picks') <==> Missing(h, tip', c) {
      if Handover(c) in Origins(picks') {
        FollowsOrigin(h, needed, picks', Handover(c));
        InOrigins(needed, Handover(c));
        var q :| q in needed && q.origin == Handover(c);
        NeededIsMissing(h, tip, picks, tip', q);
      } else if Missing(h, tip', c) {
        InOrigins(picks, Handover(c));
        var q :| q in picks && q.origin == Handover(c);
        MissingIsNeeded(h, tip, picks, tip', q);
        MissingIsSturdy(h, tip, c);
        FollowsKeeps(h, needed, picks', q);
      }
    }
  }

  /** The shape of the second rebase's commits comes from the first one's. */
  lemma {:induction false} SecondRebaseShape(h: Setting, tip: Commit, picks: seq<Pick>, needed: seq<Pick>,
                                             picks': seq<Pick>)
    requires Sturdy(h) && Grounded(h, tip) && Exact(h, tip, picks) && Follows(h, needed, picks')
    requires forall q :: q in needed ==> q in picks
    ensures forall p :: p in picks' && p.origin.Bump? ==> p.made.patch.bumps
    ensures forall p :: p in picks' && p.origin.Handover? ==> OfHandover(h, p)
    ensures Bump in Origins(picks') && !h.net ==> forall p :: p in picks' && p.origin.Handover? ==> !p.made.patch.bumps
  {
    FollowsIn(h, needed, picks');
    forall p | p in picks && p.origin.Handover? ensures p.made.patch !in h.frail {
      MissingIsSturdy(h, tip, p.origin.commit);
    }
    if Bump in Origins(picks') {
      FollowsOrigin(h, needed, picks', Bump);
      InOrigins(needed, Bump);
      InOrigins(picks, Bump);
    }
  }

  /** Rebasing the worktree once more gives what is missing on the moved tip. */
  lemma {:induction false} SecondRebaseIsExact(h: Setting, tip: Commit, picks: seq<Pick>, tip': Commit,
                                               picks': seq<Pick>)
    requires Sturdy(h) && DistinctPatches(h) && Grounded(h, tip) && Exact(h, tip, picks) && Reaches(tip', tip)
    requires Applies(h, tip', Needed(Head(tip, picks), tip', picks), picks')
    ensures Exact(h, tip', picks')
  {
    var needed := Needed(Head(tip, picks), tip', picks);
    NeededKeepsOrder(Head(tip, picks), tip', picks);
    FollowsNoDup(h, needed, picks');
    NeededBumpLast(Head(tip, picks), tip', picks);
    FollowsBumpLast(h, needed, picks');
    NeededHasAncestorsFirst(Head(tip, picks), tip', picks);
    FollowsHasAncestorsFirst(h, needed, picks');
    SecondRebaseShape(h, tip, picks, needed, picks');
    SecondRebasePicksWhatIsMissing(h, tip, picks, tip', picks');
  }

  // ---- every step keeps it -------------------------------------------------

  ghost predicate Stands(h: Setting, s: State, tip: Commit, picks: seq<Pick>) {
    Reaches(s.branch, tip) && Grounded(h, tip) && Exact(h, tip, picks)
  }

  ghost predicate Inv(h: Setting, s: State) {
    match s.run
    case Based(tip) => Reaches(s.branch, tip)
    case Rebased(tip, picks) => Stands(h, s, tip, picks) && Bump !in Origins(picks)
    case Ready(tip, picks, _) => Stands(h, s, tip, picks)
    case Stale(tip, picks, _) => Stands(h, s, tip, picks)
    case Accepted(tip, picks) => Exact(h, tip, picks)
    case Ended(PushOk(tip, picks, readBack)) => Exact(h, tip, picks) && readBack == Head(tip, picks)
    case _ => true
  }

  lemma {:induction false} GateGreenKeeps(h: Setting, s: State, s': State)
    requires Inv(h, s) && GateGreen(h, s, s')
    ensures Inv(h, s')
  {
    var picks, picks' := s.run.picks, s'.run.picks;
    if picks' != picks {
      BumpKeepsExact(h, s.run.tip, picks, picks'[|picks|]);
    }
  }

  lemma {:induction false} BumpKeepsExact(h: Setting, tip: Commit, picks: seq<Pick>, bump: Pick)
    requires Exact(h, tip, picks) && Bump !in Origins(picks) && (SomePickBumps(picks) ==> h.net)
    requires bump.origin == Bump && bump.made.parents == [Head(tip, picks)] && bump.made.patch.bumps
    requires !Reaches(h.handover, bump.made)
    ensures Exact(h, tip, picks + [bump])
  {
    var picks' := picks + [bump];
    assert picks'[..|picks|] == picks && Origins(picks') == Origins(picks) + [Bump];
    forall i | 0 <= i < |picks| ensures picks[i].origin != Bump {
      assert Origins(picks)[i] != Bump;
    }
    BumpKeepsOrder(picks, bump);
    assert PicksWhatIsMissing(h, tip, picks');
  }

  lemma {:induction false} BumpKeepsOrder(picks: seq<Pick>, bump: Pick)
    requires AncestorsFirst(picks) && bump.origin == Bump
    ensures AncestorsFirst(picks + [bump])
  {
    var picks' := picks + [bump];
    forall i, j | 0 <= i < |picks'| && 0 <= j < |picks'| && Descends(picks'[j], picks'[i]) ensures i < j {
      assert picks'[i] == picks[i] && picks'[j] == picks[j];
    }
  }

  lemma {:induction false} NextKeeps(h: Setting, s: State, s': State)
    requires Sturdy(h) && DistinctPatches(h) && Inv(h, s) && Next(h, s, s')
    ensures Inv(h, s')
  {
    if OthersPush(s, s') {
      ReachesGrows(s'.branch, s.branch);
    } else if RebaseFirst(h, s, s') {
      var todo :| Todo(h, s.run.tip, todo) && Applies(h, s.run.tip, AsPicks(todo), s'.run.picks);
      FirstRebaseIsExact(h, s.run.tip, todo, s'.run.picks);
    } else if GateGreen(h, s, s') {
      GateGreenKeeps(h, s, s');
    } else if RebaseAgain(h, s, s') {
      GroundedStays(h, s.run.tip, s.branch);
      SecondRebaseIsExact(h, s.run.tip, s.run.picks, s.branch, s'.run.picks);
    }
  }

  lemma {:induction false} StepsKeep(h: Setting, trace: seq<State>, i: nat)
    requires Sturdy(h) && DistinctPatches(h) && Steps(h, trace) && i < |trace| && Inv(h, trace[0])
    ensures Inv(h, trace[i])
  {
    if i > 0 {
      StepsKeep(h, trace, i - 1);
      assert Next(h, trace[i - 1], trace[i - 1 + 1]);
      NextKeeps(h, trace[i - 1], trace[i]);
    }
  }

  /** The last fetched tip, what was missing there, at most one bump: that is
      what was read back, and nothing of the handover is left to land. */
  ghost predicate Honest(h: Setting, s: State) {
    s.run.Ended? && s.run.outcome.PushOk? ==>
      var PushOk(tip, picks, readBack) := s.run.outcome;
      Exact(h, tip, picks) && readBack == Head(tip, picks) && Settled(h, readBack)
  }

  lemma {:induction false} PushOkIsExact(h: Setting, trace: seq<State>, i: nat)
    requires Sturdy(h) && DistinctPatches(h) && History(h, trace) && i < |trace|
    ensures Honest(h, trace[i])
  {
    StepsKeep(h, trace, i);
    if trace[i].run.Ended? && trace[i].run.outcome.PushOk? {
      LandedIsSettled(h, trace[i].run.outcome.tip, trace[i].run.outcome.picks);
    }
  }

  /** What was landed keeps the handover's ancestry: a commit stands on the
      ancestors of it that were landed with it, and the branch has them all. */
  lemma {:induction false} PushOkKeepsAncestry(h: Setting, trace: seq<State>, i: nat, p: Pick, q: Pick)
    requires Sturdy(h) && DistinctPatches(h) && History(h, trace) && i < |trace|
    requires trace[i].run.Ended? && trace[i].run.outcome.PushOk?
    requires p in trace[i].run.outcome.picks && q in trace[i].run.outcome.picks
    requires p.origin.Handover? && q.origin.Handover? && Reaches(q.origin.commit, p.origin.commit)
    ensures Reaches(q.made, p.made) && Reaches(trace[i].run.outcome.readBack, q.made)
  {
    PushOkIsExact(h, trace, i);
    var PushOk(tip, picks, readBack) := trace[i].run.outcome;
    var a :| 0 <= a < |picks| && picks[a] == p;
    var b :| 0 <= b < |picks| && picks[b] == q;
    if p.origin == q.origin {
      assert Origins(picks)[a] == Origins(picks)[b];
    } else {
      assert Descends(q, p);
    }
    ChainReaches(tip, picks, a, b);
  }
}
