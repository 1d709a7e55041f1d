/** The combining loop's `stage` and `merge` subcommands: any number of them run
    at once on one feature branch, any may be killed anywhere, and others move
    the local and the remote branch as they please. */
module Combining {
  import opened Git
  import opened StageGuard

  datatype Verdict = Verdict(gatesPassed: bool, candidate: Commit)

  datatype Job =
    | Staging(feature: Commit, harvested: Commit)
    | Asked(candidate: Commit, verdict: Verdict)
    | Checked(candidate: Commit, verdict: Verdict, tip: Commit)
    | Pushed(candidate: Commit, verdict: Verdict, tip: Commit)
    | Swapped(candidate: Commit)
    | Merged(candidate: Commit)
    | Ended

  /** The branch here and at the remote, the candidates `stage` has made, and
      the subcommands under way. */
  datatype State = State(local: Commit, remote: Commit, staged: set<Commit>, jobs: map<nat, Job>)

  ghost predicate Becomes(s: State, j: nat, job: Job, s': State) {
    s' == s.(jobs := s.jobs[j := job])
  }

  ghost predicate OthersMove(s: State, s': State) {
    s' == s.(local := s'.local, remote := s'.remote)
  }

  // ---- stage ---------------------------------------------------------------

  ghost predicate StartStage(s: State, j: nat, s': State) {
    j !in s.jobs && exists h :: Becomes(s, j, Staging(s.local, h), s')
  }

  /** The merge is clean and the guard lets it through. */
  ghost predicate Candidate(feature: Commit, harvested: Commit, c: Commit) {
    c.parents == [feature, harvested] && exists moved :: Passes(feature.tree, c.tree, moved)
  }

  ghost predicate MakeCandidate(s: State, j: nat, s': State) {
    && j in s.jobs && s.jobs[j].Staging?
    && exists c :: Candidate(s.jobs[j].feature, s.jobs[j].harvested, c) &&
                   s' == s.(staged := s.staged + {c}, jobs := s.jobs[j := Ended])
  }

  // ---- merge ---------------------------------------------------------------

  ghost predicate Ask(s: State, j: nat, s': State) {
    j !in s.jobs && exists c, v :: Becomes(s, j, Asked(c, v), s')
  }

  /** The verdict is for this candidate, which is a merge onto the branch as it is. */
  ghost predicate Admits(s: State, c: Commit, v: Verdict) {
    v.gatesPassed && v.candidate == c && |c.parents| == 2 && s.local == c.parents[0]
  }

  ghost predicate Check(s: State, j: nat, s': State) {
    && j in s.jobs && s.jobs[j].Asked? && Admits(s, s.jobs[j].candidate, s.jobs[j].verdict)
    && Becomes(s, j, Checked(s.jobs[j].candidate, s.jobs[j].verdict, s.local), s')
  }

  /** The remote takes the candidate, as a fast-forward, or it does not. */
  ghost predicate Takes(s: State, c: Commit, remote': Commit) {
    remote' == s.remote || (remote' == c && Reaches(c, s.remote))
  }

  /** A push that exits 0, whether or not the remote took it. */
  ghost predicate PushExitsZero(s: State, j: nat, s': State) {
    && j in s.jobs && s.jobs[j].Checked? && Takes(s, s.jobs[j].candidate, s'.remote)
    && Becomes(s.(remote := s'.remote), j, Pushed(s.jobs[j].candidate, s.jobs[j].verdict, s.jobs[j].tip), s')
  }

  ghost predicate PushFails(s: State, j: nat, s': State) {
    && j in s.jobs && s.jobs[j].Checked? && Takes(s, s.jobs[j].candidate, s'.remote)
    && Becomes(s.(remote := s'.remote), j, Ended, s')
  }

  /** The compare-and-swap of the local branch. */
  ghost predicate Swap(s: State, j: nat, s': State) {
    && j in s.jobs && s.jobs[j].Pushed? && s.local == s.jobs[j].tip
    && s' == s.(local := s.jobs[j].candidate, jobs := s.jobs[j := Swapped(s.jobs[j].candidate)])
  }

  ghost predicate ReadBack(s: State, j: nat, s': State) {
    && j in s.jobs && s.jobs[j].Swapped? && s.remote == s.jobs[j].candidate
    && Becomes(s, j, Merged(s.jobs[j].candidate), s')
  }

  /** A refusal, a lost swap, a bad read-back, an error or a kill. */
  ghost predicate GiveUp(s: State, j: nat, s': State) {
    j in s.jobs && !s.jobs[j].Merged? && Becomes(s, j, Ended, s')
  }

  ghost predicate Quiet(s: State, j: nat, s': State) {
    || StartStage(s, j, s') || MakeCandidate(s, j, s') || Ask(s, j, s') || Check(s, j, s')
    || PushExitsZero(s, j, s') || PushFails(s, j, s') || ReadBack(s, j, s') || GiveUp(s, j, s')
  }

  ghost predicate Next(s: State, s': State) {
    OthersMove(s, s') || exists j :: Quiet(s, j, s') || Swap(s, j, s')
  }

  ghost predicate History(trace: seq<State>) {
    && trace != [] && trace[0].staged == {} && trace[0].jobs == map[]
    && forall i :: 0 <= i < |trace| - 1 ==> Next(trace[i], trace[i + 1])
  }

  // ---- what every step keeps -----------------------------------------------

  ghost predicate StagedWell(c: Commit) {
    |c.parents| == 2 && exists moved :: Passes(c.parents[0].tree, c.tree, moved)
  }

  ghost predicate Gated(job: Job) {
    job.Checked? || job.Pushed? ==>
      && job.verdict.gatesPassed && job.verdict.candidate == job.candidate
      && |job.candidate.parents| == 2 && job.tip == job.candidate.parents[0]
  }

  ghost predicate Inv(s: State) {
    && (forall c :: c in s.staged ==> StagedWell(c))
    && forall j :: j in s.jobs ==> Gated(s.jobs[j])
  }

  lemma {:induction false} NextKeeps(s: State, s': State)
    requires Inv(s) && Next(s, s')
    ensures Inv(s')
  {
    if j :| Quiet(s, j, s') {
      QuietKeeps(s, j, s');
    }
  }

  lemma {:induction false} QuietKeeps(s: State, j: nat, s': State)
    requires Inv(s) && Quiet(s, j, s')
    ensures Inv(s')
  {
    if MakeCandidate(s, j, s') {
      var c :| Candidate(s.jobs[j].feature, s.jobs[j].harvested, c) &&
               s' == s.(staged := s.staged + {c}, jobs := s.jobs[j := Ended]);
      var moved :| Passes(s.jobs[j].feature.tree, c.tree, moved);
      assert Passes(c.parents[0].tree, c.tree, moved);
      assert StagedWell(c);
    }
  }

  lemma {:induction false} HistoryKeeps(trace: seq<State>, i: nat)
    requires History(trace) && i < |trace|
    ensures Inv(trace[i])
  {
    if i > 0 {
      HistoryKeeps(trace, i - 1);
      assert Next(trace[i - 1], trace[i - 1 + 1]);
      NextKeeps(trace[i - 1], trace[i]);
    }
  }

  // ---- every move of the branch by a merge ---------------------------------

  /** The branch goes from the candidate's first parent to the candidate, on a
      verdict that passed exactly that candidate. */
  ghost predicate GatedMove(s: State, j: nat, s': State)
    requires Swap(s, j, s')
  {
    var job := s.jobs[j];
    && |job.candidate.parents| == 2 && s.local == job.candidate.parents[0] && s'.local == job.candidate
    && job.verdict.gatesPassed && job.verdict.candidate == job.candidate
  }

  /** In every run, every swap is a gated move, and one onto a candidate of
      `stage` leaves `.github` alone unless it only moves paths out of there. */
  lemma {:induction false} SwapsAreGated(trace: seq<State>, i: nat, j: nat)
    requires History(trace) && i < |trace| - 1 && Swap(trace[i], j, trace[i + 1])
    ensures GatedMove(trace[i], j, trace[i + 1])
    ensures trace[i + 1].local in trace[i].staged && !OnlyMovesOut(trace[i].local.tree, trace[i + 1].local.tree) ==>
              Untouched(trace[i].local.tree, trace[i + 1].local.tree)
  {
    HistoryKeeps(trace, i);
    var s, c := trace[i], trace[i].jobs[j].candidate;
    assert Gated(s.jobs[j]);
    if c in s.staged && !OnlyMovesOut(s.local.tree, c.tree) {
      var moved :| Passes(c.parents[0].tree, c.tree, moved);
      PassesUntouched(s.local.tree, c.tree, moved);
    }
  }

  /** Nothing the loop does moves the branch except a gated swap, so a move that
      somebody else made is never overwritten. */
  lemma {:induction false} NoLostUpdate(trace: seq<State>, i: nat)
    requires History(trace) && i < |trace| - 1
    requires !OthersMove(trace[i], trace[i + 1]) && trace[i].local != trace[i + 1].local
    ensures var s, s' := trace[i], trace[i + 1];
            exists j :: Swap(s, j, s') && GatedMove(s, j, s')
  {
    HistoryKeeps(trace, i);
    var s, s' := trace[i], trace[i + 1];
    assert Next(s, s');
    var j :| Swap(s, j, s');
    SwapsAreGated(trace, i, j);
  }

  // ---- retrying ------------------------------------------------------------

  /** A step of the loop other than a swap; what it pushes, if anything, is `c`. */
  ghost predicate Attempt(s: State, c: Commit, s': State) {
    exists j :: Quiet(s, j, s') && (j in s.jobs && s.jobs[j].Checked? ==> s.jobs[j].candidate == c)
  }

  /** After any number of attempts that did not reach the swap, however they
      ended, the same candidates are admitted as before, and the remote still
      accepts this one. */
  lemma {:induction false} RetryStillPasses(trace: seq<State>, c: Commit)
    requires trace != [] && forall i :: 0 <= i < |trace| - 1 ==> Attempt(trace[i], c, trace[i + 1])
    ensures var s, s' := trace[0], trace[|trace| - 1];
            && s'.local == s.local
            && (forall d, v :: Admits(s', d, v) <==> Admits(s, d, v))
            && (Reaches(c, s.remote) ==> Reaches(c, s'.remote))
  {
    if |trace| > 1 {
      var front, last := trace[..|trace| - 1], trace[|trace| - 1];
      forall i | 0 <= i < |front| - 1 ensures Attempt(front[i], c, front[i + 1]) {
        assert Attempt(trace[i], c, trace[i + 1]);
      }
      RetryStillPasses(front, c);
      var prev := front[|front| - 1];
      assert Attempt(trace[|front| - 1], c, trace[|front| - 1 + 1]);
      var j :| Quiet(prev, j, last) && (j in prev.jobs && prev.jobs[j].Checked? ==> prev.jobs[j].candidate == c);
      assert last.remote == prev.remote || last.remote == c;
    }
  }

  // ---- exit 0 --------------------------------------------------------------

  /** Job `j` swapped the branch to `c` before step `i`. */
  ghost predicate SwappedBefore(trace: seq<State>, i: nat, j: nat, c: Commit)
    requires i <= |trace| - 1
  {
    exists m :: 0 <= m < i && SwappedAt(trace, m, j, c)
  }

  ghost predicate SwappedAt(trace: seq<State>, m: nat, j: nat, c: Commit)
    requires m < |trace| - 1
  {
    Swap(trace[m], j, trace[m + 1]) && trace[m].jobs[j].candidate == c
  }

  ghost predicate ReadBackAt(trace: seq<State>, n: nat, j: nat, c: Commit)
    requires n < |trace| - 1
  {
    ReadBack(trace[n], j, trace[n + 1]) && trace[n].remote == c && SwappedBefore(trace, n, j, c)
  }

  lemma {:induction false} SwappedDid(trace: seq<State>, i: nat, j: nat)
    requires History(trace) && i < |trace| && j in trace[i].jobs && trace[i].jobs[j].Swapped?
    ensures SwappedBefore(trace, i, j, trace[i].jobs[j].candidate)
  {
    if i > 0 {
      var s, s' := trace[i - 1], trace[i - 1 + 1];
      assert Next(s, s');
      if j in s.jobs && s.jobs[j] == s'.jobs[j] {
        SwappedDid(trace, i - 1, j);
      } else {
        assert SwappedAt(trace, i - 1, j, s'.jobs[j].candidate);
      }
    }
  }

  /** A merge that exits 0 swapped the local branch to its candidate and later
      read the remote back as that candidate, whatever the push had said. */
  lemma {:induction false} ExitZeroWasReadBack(trace: seq<State>, i: nat, j: nat)
    requires History(trace) && i < |trace| && j in trace[i].jobs && trace[i].jobs[j].Merged?
    ensures exists n :: 0 <= n < i && ReadBackAt(trace, n, j, trace[i].jobs[j].candidate)
  {
    if i > 0 {
      var s, s' := trace[i - 1], trace[i - 1 + 1];
      assert Next(s, s');
      if j in s.jobs && s.jobs[j] == s'.jobs[j] {
        ExitZeroWasReadBack(trace, i - 1, j);
      } else {
        assert ReadBack(s, j, s');
        SwappedDid(trace, i - 1, j);
        assert ReadBackAt(trace, i - 1, j, s'.jobs[j].candidate);
      }
    }
  }

  // ---- when the guard holds ------------------------------------------------

  /** No merge of a candidate that `stage` built on `f` with tree `t` changes `.github`. */
  ghost predicate NeverTouches(f: Commit, t: Tree) {
    forall trace, i, j :: History(trace) && Merges(trace, i, j, f, t) ==> Untouched(f.tree, t)
  }

  ghost predicate Merges(trace: seq<State>, i: nat, j: nat, f: Commit, t: Tree) {
    && i < |trace| - 1 && Swap(trace[i], j, trace[i + 1]) && trace[i + 1].local in trace[i].staged
    && trace[i].local == f && trace[i + 1].local.tree == t
  }

  lemma {:induction false} StageSteps(f: Commit, g: Commit, c: Commit, moved: map<string, string>)
    returns (s0: State, s1: State, s2: State)
    requires c.parents == [f, g] && Passes(f.tree, c.tree, moved)
    ensures s0 == State(f, f, {}, map[]) && s2 == State(f, f, {c}, map[0 := Ended])
    ensures Next(s0, s1) && Next(s1, s2)
  {
    s0 := State(f, f, {}, map[]);
    s1 := s0.(jobs := map[0 := Staging(f, g)]);
    s2 := s1.(staged := {c}, jobs := map[0 := Ended]);
    assert Becomes(s0, 0, Staging(s0.local, g), s1);
    assert Quiet(s0, 0, s1);
    assert Candidate(f, g, c);
    assert s2 == s1.(staged := s1.staged + {c}, jobs := s1.jobs[0 := Ended]);
    assert Quiet(s1, 0, s2);
  }

  lemma {:induction false} MergeSteps(s: State, j: nat, c: Commit) returns (s3: State, s4: State, s5: State, s6: State)
    requires j !in s.jobs && |c.parents| == 2 && s.local == c.parents[0]
    ensures Next(s, s3) && Next(s3, s4) && Next(s4, s5) && Next(s5, s6)
    ensures Swap(s5, j, s6) && s5.local == s.local && s5.staged == s.staged && s6.local == c
  {
    var v := Verdict(true, c);
    s3 := s.(jobs := s.jobs[j := Asked(c, v)]);
    s4 := s3.(jobs := s3.jobs[j := Checked(c, v, s.local)]);
    s5 := s4.(jobs := s4.jobs[j := Pushed(c, v, s.local)]);
    s6 := s5.(local := c, jobs := s5.jobs[j := Swapped(c)]);
    assert Becomes(s, j, Asked(c, v), s3);
    assert Quiet(s, j, s3);
    assert Quiet(s3, j, s4);
    assert Quiet(s4, j, s5);
    assert Swap(s5, j, s6);
  }

  lemma {:induction false} StageAndMerge(f: Commit, g: Commit, c: Commit, moved: map<string, string>)
    returns (trace: seq<State>)
    requires c.parents == [f, g] && Passes(f.tree, c.tree, moved)
    ensures History(trace) && Merges(trace, 5, 1, f, c.tree)
  {
    var s0, s1, s2 := StageSteps(f, g, c, moved);
    var s3, s4, s5, s6 := MergeSteps(s2, 1, c);
    trace := [s0, s1, s2, s3, s4, s5, s6];
  }

  /** The guard carries through to the merge for exactly the trees on which the
      staged diff cannot hide a guarded path. */
  lemma {:induction false} NeverTouchesExactly(f: Commit, t: Tree)
    ensures NeverTouches(f, t) <==> !OnlyMovesOut(f.tree, t)
  {
    if OnlyMovesOut(f.tree, t) {
      var moved := MovedOutPasses(f.tree, t);
      var harvested := Commit(Patch(0, false), t, [f], 0);
      var trace := StageAndMerge(f, harvested, Commit(Patch(0, false), t, [f, harvested], 0), moved);
    } else {
      forall trace, i, j | History(trace) && Merges(trace, i, j, f, t) ensures Untouched(f.tree, t) {
        SwapsAreGated(trace, i, j);
      }
    }
  }
}
