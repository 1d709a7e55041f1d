/** The lander's push loop as it is written: push, and while the remote says
    the branch moved, fetch and rebase once more, for at most two rounds; then
    read the remote back. Other writers move the branch between any two contacts
    with the remote. The loop is proved to take only steps of the protocol in
    `Landing`, so everything proved of the protocol's histories holds of it. */
module LandPush {
  import opened Git
  import opened Landing
  import LandingOnce
  import LandingPushOk
  import opened Wrappers

  /** How the remote answers one push. */
  datatype Answer = ExitsZero(took: bool) | SaysStale | Fails(took: bool)

  /** What the push command says, a rejection being for a branch that moved, and what
      becomes of a retry's fetch and rebase. */
  datatype Says = Zero | Rejected | Error
  datatype Retry = Goes | Conflicts | Breaks

  /** One round as the world has it: where others move the branch before the push,
      whether the remote takes up the push and what that looks like, and, if it is
      stale, where others move the branch before the fetch and how the retry goes. */
  datatype Round = Round(before: Commit, takes: bool, says: Says, meanwhile: Commit, retry: Retry)

  /** Others only fast-forward the branch. */
  function Moved(branch: Commit, to: Commit): (branch': Commit)
    ensures Reaches(branch', branch)
  {
    if Reaches(to, branch) then to else branch
  }

  /** The push is turned away because the branch is not where it was fetched. */
  ghost predicate IsStale(head: Commit, branch: Commit, r: Round) {
    r.says.Rejected? || (r.takes && !Reaches(head, branch))
  }

  /** How a push that was not stale ends: an error is a refusal whatever became of
      it, and exit 0 is believed only if the branch reads back as what was pushed. */
  ghost predicate Concludes(tip: Commit, picks: seq<Pick>, branch: Commit, r: Round, last: Commit,
                            outcome: Outcome, branch': Commit) {
    var head := Head(tip, picks);
    var pushed := if r.takes then head else branch;
    if r.says.Error? then outcome == Refused && branch' == pushed
    else branch' == Moved(pushed, last) && outcome == if branch' == head then PushOk(tip, picks, branch') else Refused
  }

  predicate HasEquivalent(from: Commit, tip: Commit, p: Patch)
    ensures HasEquivalent(from, tip, p) <==> Equivalent(from, tip, p)
  {
    exists e :: e in ReachSet(tip) && !Reaches(from, e) && !IsMerge(e) && e.patch == p
  }

  lemma {:induction false} RedoneIsNew(h: Setting, c: Commit)
    requires c.stamp > MaxStamp(h.handover)
    ensures !Reaches(h.handover, c)
  {
    if Reaches(h.handover, c) {
      MaxStampBounds(h.handover, c);
    }
  }

  /** Nothing needed is lost but what `fate` says is, and a patch comes out as its
      own or as `fate` has it. */
  ghost predicate Meets(h: Setting, todo: seq<Pick>, done: seq<Pick>, fate: Pick -> Maybe<nat>) {
    && (forall q :: q in todo && (q.made.patch !in h.frail || fate(q).Some?) ==>
          exists p :: p in done && MetBy(h, q, p, fate))
    && forall p :: p in done ==> exists q :: q in todo && MetBy(h, q, p, fate)
  }

  ghost predicate MetBy(h: Setting, q: Pick, p: Pick, fate: Pick -> Maybe<nat>) {
    && p.origin == q.origin && p.made.tree == q.made.tree
    && (q.made.patch !in h.frail ==> p.made.patch == q.made.patch)
    && (q.made.patch in h.frail ==> fate(q).Some? && p.made.patch == q.made.patch.(id := fate(q).value))
  }

  lemma {:induction false} MeetsMore(h: Setting, todo: seq<Pick>, done: seq<Pick>, fate: Pick -> Maybe<nat>,
                                     q: Pick, p: Pick)
    requires Meets(h, todo, done, fate) && MetBy(h, q, p, fate)
    ensures Meets(h, todo + [q], done + [p], fate)
  {
    forall r | r in todo + [q] && (r.made.patch !in h.frail || fate(r).Some?)
      ensures exists o :: o in done + [p] && MetBy(h, r, o, fate)
    {
      if r in todo {
        var o :| o in done && MetBy(h, r, o, fate);
        assert o in done + [p];
      } else {
        assert p in done + [p];
      }
    }
    forall o | o in done + [p] ensures exists r :: r in todo + [q] && MetBy(h, r, o, fate) {
      if o in done {
        var r :| r in todo && MetBy(h, r, o, fate);
        assert r in todo + [q];
      } else {
        assert q in todo + [q];
      }
    }
  }

  lemma {:induction false} FollowsMore(h: Setting, todo: seq<Pick>, done: seq<Pick>, q: Pick, p: Pick)
    requires Follows(h, todo, done) && MadeOf(h, q, p)
    ensures Follows(h, todo + [q], done + [p])
  {
    assert (todo + [q])[..|todo|] == todo && (done + [p])[..|done|] == done;
  }

  lemma {:induction false} MeetsLost(h: Setting, todo: seq<Pick>, done: seq<Pick>, fate: Pick -> Maybe<nat>, q: Pick)
    requires Meets(h, todo, done, fate) && q.made.patch in h.frail && fate(q).None? && Follows(h, todo, done)
    ensures Meets(h, todo + [q], done, fate) && Follows(h, todo + [q], done)
  {
    assert (todo + [q])[..|todo|] == todo;
    forall p | p in done ensures exists r :: r in todo + [q] && MetBy(h, r, p, fate) {
      var r :| r in todo && MetBy(h, r, p, fate);
      assert r in todo + [q];
    }
  }

  /** The picks redone so far. */
  ghost predicate Redone(h: Setting, tip: Commit, todo: seq<Pick>, done: seq<Pick>, fate: Pick -> Maybe<nat>) {
    && ChainOn(tip, done) && Follows(h, todo, done) && Meets(h, todo, done, fate)
    && forall p :: p in done ==> !Reaches(h.handover, p.made)
  }

  lemma {:induction false} OneLost(h: Setting, tip: Commit, todo: seq<Pick>, done: seq<Pick>,
                                   fate: Pick -> Maybe<nat>, q: Pick)
    requires Redone(h, tip, todo, done, fate) && q.made.patch in h.frail && fate(q).None?
    ensures Redone(h, tip, todo + [q], done, fate)
  {
    MeetsLost(h, todo, done, fate, q);
  }

  lemma {:induction false} OneRedone(h: Setting, tip: Commit, todo: seq<Pick>, done: seq<Pick>,
                                     fate: Pick -> Maybe<nat>, q: Pick, p: Pick)
    requires Redone(h, tip, todo, done, fate) && MetBy(h, q, p, fate)
    requires p.made.parents == [Head(tip, done)] && p.made.stamp > MaxStamp(h.handover)
    ensures Redone(h, tip, todo + [q], done + [p], fate)
  {
    RedoneIsNew(h, p.made);
    MeetsMore(h, todo, done, fate, q, p);
    FollowsMore(h, todo, done, q, p);
    assert (done + [p])[..|done|] == done;
  }

  /** `git rebase tip` in the worktree: the commits still needed, in order, as
      new commits on `tip`. A commit with a frail patch may be lost, or come out
      with another patch. */
  method Rebase(h: Setting, head: Commit, picks: seq<Pick>, tip: Commit, clock: nat, fate: Pick -> Maybe<nat>)
    returns (done: seq<Pick>)
    requires clock > MaxStamp(h.handover)
    ensures Applies(h, tip, Needed(head, tip, picks), done)
    ensures Meets(h, Needed(head, tip, picks), done, fate)
  {
    done := [];
    for i := 0 to |picks|
      invariant Redone(h, tip, Needed(head, tip, picks[..i]), done, fate)
    {
      assert picks[..i + 1][..i] == picks[..i];
      var q := picks[i];
      if Reaches(tip, q.made) || HasEquivalent(head, tip, q.made.patch) {
        continue;
      }
      ghost var todo := Needed(head, tip, picks[..i]);
      var patch := q.made.patch;
      if patch in h.frail {
        if fate(q).None? {
          OneLost(h, tip, todo, done, fate, q);
          continue;
        }
        patch := patch.(id := fate(q).value);
      }
      var made := Pick(q.origin, Commit(patch, q.made.tree, [Head(tip, done)], clock));
      OneRedone(h, tip, todo, done, fate, q, made);
      done := done + [made];
    }
    assert picks[..|picks|] == picks;
  }

  class Lander {
    const handover: Setting
    var branch: Commit           // the remote branch, which others move too
    var put: seq<Origin>         // what the node has put on it
    var before: nat
    var targetTip: Commit        // the tip as last fetched
    var picks: seq<Pick>         // the worktree on top of it

    constructor (h: Setting, tip: Commit, branch: Commit, picks: seq<Pick>, put: seq<Origin>)
      ensures handover == h && targetTip == tip && this.branch == branch && this.picks == picks
      ensures this.put == put && before == |put|
    {
      handover, targetTip, this.branch, this.picks, this.put, before := h, tip, branch, picks, put, |put|;
    }

    ghost function View(run: Run): State
      reads this
    {
      State(branch, run, put, before)
    }

    /** Other writers get their turn; they only fast-forward. */
    method Others(to: Commit)
      modifies this`branch
      ensures branch == Moved(old(branch), to)
    {
      branch := Moved(branch, to);
    }

    /** One push of the worktree's head, never a force. The remote takes up only a
        fast-forward, and what the command says need not be what happened. */
    method PushOnce(takes: bool, says: Says) returns (answer: Answer)
      modifies this`branch, this`put
      ensures var head := Head(targetTip, picks);
              && (answer.SaysStale? <==> says.Rejected? || (takes && !Reaches(head, old(branch))))
              && (!answer.SaysStale? ==> answer == if says.Zero? then ExitsZero(takes) else Fails(takes))
              && branch == (if !answer.SaysStale? && takes then head else old(branch))
              && put == old(put) + if !answer.SaysStale? && takes then Added(old(branch), picks) else []
    {
      var landed := Head(targetTip, picks);
      if says.Rejected? || (takes && !Reaches(landed, branch)) {
        return SaysStale;
      }
      if takes {
        put := put + AddedTo(branch, picks);
        branch := landed;
      }
      answer := if says.Zero? then ExitsZero(takes) else Fails(takes);
    }

    /** Push the worktree once and record what that was in the protocol. */
    method PushAndRecord(rounds: nat, r: Round, ghost trace: seq<State>)
      returns (answer: Answer, ghost longer: seq<State>)
      requires rounds < MAX_LAND_ROUNDS
      requires Ends(handover, trace, View(Ready(targetTip, picks, rounds)))
      modifies this`branch, this`put
      ensures Ends(handover, longer, View(match answer
                                          case ExitsZero(_) => Accepted(targetTip, picks)
                                          case Fails(_) => Ended(Refused)
                                          case SaysStale =>
                                            if rounds + 1 >= MAX_LAND_ROUNDS then Ended(RoutedHuman)
                                            else Stale(targetTip, picks, rounds + 1)))
      ensures longer[0] == trace[0]
      ensures var head, b := Head(targetTip, picks), Moved(old(branch), r.before);
              && (answer.SaysStale? <==> IsStale(head, b, r))
              && (!answer.SaysStale? ==> answer == if r.says.Zero? then ExitsZero(r.takes) else Fails(r.takes))
              && branch == (if !answer.SaysStale? && r.takes then head else b)
              && put == old(put) + if !answer.SaysStale? && r.takes then Added(b, picks) else []
    {
      Others(r.before);
      ghost var s := View(Ready(targetTip, picks, rounds));
      assert OthersPush(trace[|trace| - 1], s);
      longer := Extend(handover, trace, s);
      answer := PushOnce(r.takes, r.says);
      match answer
      case ExitsZero(_) =>
        assert PushExitsZero(s, View(Accepted(targetTip, picks)));
        longer := Extend(handover, longer, View(Accepted(targetTip, picks)));
      case Fails(_) =>
        assert PushFails(s, View(Ended(Refused)));
        longer := Extend(handover, longer, View(Ended(Refused)));
      case SaysStale =>
        ghost var run := if rounds + 1 >= MAX_LAND_ROUNDS then Ended(RoutedHuman)
                         else Stale(targetTip, picks, rounds + 1);
        assert PushStale(s, View(run));
        longer := Extend(handover, longer, View(run));
    }

    /** Fetch the moved tip and rebase the worktree onto it, or give up. */
    method RetryAndRecord(rounds: nat, clock: nat, r: Round, fate: Pick -> Maybe<nat>, ghost trace: seq<State>)
      returns (outcome: Outcome, ghost longer: seq<State>)
      requires clock > MaxStamp(handover.handover)
      requires Ends(handover, trace, View(Stale(targetTip, picks, rounds)))
      modifies this`branch, this`targetTip, this`picks
      ensures Ends(handover, longer, View(if r.retry.Goes? then Ready(targetTip, picks, rounds) else Ended(outcome)))
      ensures branch == Moved(old(branch), r.meanwhile) && longer[0] == trace[0]
      ensures outcome == if r.retry.Conflicts? then RoutedHuman else Refused
      ensures r.retry.Goes? ==>
                var needed := Needed(Head(old(targetTip), old(picks)), branch, old(picks));
                && targetTip == branch && Applies(handover, branch, needed, picks)
                && Meets(handover, needed, picks, fate)
      ensures !r.retry.Goes? ==> targetTip == old(targetTip) && picks == old(picks)
    {
      Others(r.meanwhile);
      ghost var s := View(Stale(targetTip, picks, rounds));
      assert OthersPush(trace[|trace| - 1], s);
      longer := Extend(handover, trace, s);
      outcome := if r.retry.Conflicts? then RoutedHuman else Refused;
      if !r.retry.Goes? {
        assert GiveUp(handover, s, View(Ended(outcome)));
        longer := Extend(handover, longer, View(Ended(outcome)));
        return;
      }
      var done := Rebase(handover, Head(targetTip, picks), picks, branch, clock, fate);
      targetTip, picks := branch, done;
      assert RebaseAgain(handover, s, View(Ready(targetTip, picks, rounds)));
      longer := Extend(handover, longer, View(Ready(targetTip, picks, rounds)));
    }

    /** The read-back, after others have had their turn once more. */
    method ReadBackAndRecord(last: Commit, ghost trace: seq<State>) returns (outcome: Outcome, ghost longer: seq<State>)
      requires Ends(handover, trace, View(Accepted(targetTip, picks)))
      modifies this`branch
      ensures Ends(handover, longer, View(Ended(outcome))) && longer[0] == trace[0]
      ensures branch == Moved(old(branch), last)
      ensures outcome == if branch == Head(targetTip, picks) then PushOk(targetTip, picks, branch) else Refused
    {
      Others(last);
      ghost var s := View(Accepted(targetTip, picks));
      assert OthersPush(trace[|trace| - 1], s);
      longer := Extend(handover, trace, s);
      outcome := if branch == Head(targetTip, picks) then PushOk(targetTip, picks, branch) else Refused;
      assert ReadBack(s, View(Ended(outcome)));
      longer := Extend(handover, longer, View(Ended(outcome)));
    }

    /** The loop. Every step of it is a step of the protocol, and it ends as the
        two rounds have it. */
    method Push(clock: nat, r0: Round, r1: Round, last: Commit, fate: Pick -> Maybe<nat>)
      returns (outcome: Outcome, pushes: nat, ghost trace: seq<State>)
      requires clock > MaxStamp(handover.handover)
      modifies this`branch, this`put, this`targetTip, this`picks
      ensures trace != [] && trace[0] == old(View(Ready(targetTip, picks, 0)))
      ensures Ends(handover, trace, View(Ended(outcome)))
      ensures Kept(handover, old(View(Ready(targetTip, picks, 0))), View(Ended(outcome)))
      ensures var head0, b0 := Head(old(targetTip), old(picks)), Moved(old(branch), r0.before);
              if !IsStale(head0, b0, r0) then
                && pushes == 1 && targetTip == old(targetTip) && picks == old(picks)
                && Concludes(targetTip, picks, b0, r0, last, outcome, branch)
                && put == old(put) + if r0.takes then Added(b0, picks) else []
              else if !r0.retry.Goes? then
                && pushes == 1 && put == old(put) && branch == Moved(b0, r0.meanwhile)
                && outcome == if r0.retry.Conflicts? then RoutedHuman else Refused
              else
                && pushes == 2 && targetTip == Moved(b0, r0.meanwhile)
                && Applies(handover, targetTip, Needed(head0, targetTip, old(picks)), picks)
                && SecondRound(targetTip, picks, r1, last, old(put), outcome, branch, put)
    {
      trace := [View(Ready(targetTip, picks, 0))];
      pushes := 0;
      var rounds := 0;
      while true
        invariant rounds < 2 && pushes == rounds
        invariant Ends(handover, trace, View(Ready(targetTip, picks, rounds))) && put == old(put)
        invariant trace[0] == old(View(Ready(targetTip, picks, 0)))
        invariant rounds == 0 ==> branch == old(branch) && targetTip == old(targetTip) && picks == old(picks)
        invariant rounds == 1 ==>
                    var head0, b0 := Head(old(targetTip), old(picks)), Moved(old(branch), r0.before);
                    && IsStale(head0, b0, r0) && r0.retry.Goes? && targetTip == branch == Moved(b0, r0.meanwhile)
                    && Applies(handover, targetTip, Needed(head0, targetTip, old(picks)), picks)
        decreases MAX_LAND_ROUNDS - rounds
      {
        var r := if rounds == 0 then r0 else r1;
        var answer: Answer;
        answer, trace := PushAndRecord(rounds, r, trace);
        pushes := pushes + 1;
        if answer.ExitsZero? {
          break;
        } else if answer.Fails? {
          outcome := Refused;
          KeepsBoth(handover, trace);
          return;
        }
        rounds := rounds + 1;
        if rounds >= MAX_LAND_ROUNDS {
          outcome := RoutedHuman;
          KeepsBoth(handover, trace);
          return;
        }
        outcome, trace := RetryAndRecord(rounds, clock, r, fate, trace);
        if !r.retry.Goes? {
          KeepsBoth(handover, trace);
          return;
        }
      }
      outcome, trace := ReadBackAndRecord(last, trace);
      KeepsBoth(handover, trace);
    }
  }

  /** The last round: stale once more goes to a person, and anything else is the end. */
  ghost predicate SecondRound(tip: Commit, picks: seq<Pick>, r: Round, last: Commit, put: seq<Origin>,
                              outcome: Outcome, branch': Commit, put': seq<Origin>) {
    var b := Moved(tip, r.before);
    if IsStale(Head(tip, picks), b, r) then outcome == RoutedHuman && branch' == b && put' == put
    else
      && Concludes(tip, picks, b, r, last, outcome, branch')
      && put' == put + if r.takes then Added(b, picks) else []
  }

  /** What the two promises rest on is kept. */
  ghost predicate Kept(h: Setting, s: State, s': State) {
    && (LandingOnce.Landable(h) && LandingOnce.Inv(h, s) ==> LandingOnce.Inv(h, s'))
    && (LandingOnce.Sturdy(h) && LandingPushOk.DistinctPatches(h) && LandingPushOk.Inv(h, s) ==>
          LandingPushOk.Inv(h, s'))
  }

  lemma {:induction false} KeepsBoth(h: Setting, trace: seq<State>)
    requires trace != [] && Steps(h, trace)
    ensures Kept(h, trace[0], trace[|trace| - 1])
  {
    if LandingOnce.Landable(h) && LandingOnce.Inv(h, trace[0]) {
      LandingOnce.StepsKeep(h, trace, |trace| - 1);
    }
    if LandingOnce.Sturdy(h) && LandingPushOk.DistinctPatches(h) && LandingPushOk.Inv(h, trace[0]) {
      LandingPushOk.StepsKeep(h, trace, |trace| - 1);
    }
  }

  function AddedTo(branch: Commit, picks: seq<Pick>): (os: seq<Origin>)
    ensures os == Added(branch, picks)
  {
    if picks == [] then []
    else
      var rest := AddedTo(branch, picks[..|picks| - 1]);
      var last := picks[|picks| - 1];
      if Reaches(branch, last.made) then rest else rest + [last.origin]
  }

  /** `trace` takes only steps of the protocol and ends in `s`. */
  ghost predicate Ends(h: Setting, trace: seq<State>, s: State) {
    trace != [] && Steps(h, trace) && trace[|trace| - 1] == s
  }

  ghost function Extend(h: Setting, trace: seq<State>, s: State): (longer: seq<State>)
    requires trace != [] && Steps(h, trace) && Next(h, trace[|trace| - 1], s)
    ensures longer == trace + [s] && Ends(h, longer, s)
  {
    StepsJoin(h, trace, [s]);
    trace + [s]
  }
}
