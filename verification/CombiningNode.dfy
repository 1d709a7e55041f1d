/** The two subcommands as they are written, each a run of the protocol in
    `Combining`. Whatever else works on the branch gets its turn between any two
    git calls. */
module CombiningNode {
  import opened Git
  import opened StageGuard
  import opened Combining

  datatype StageOutcome =
    | MergeConflict
    | RoutesToHuman(guarded: set<string>)
    | CandidateStaged(candidate: Commit)
    | StageError

  /** What git makes of the merge: conflicts, or a tree and the renames its diff pairs up. */
  datatype MergeResult = Conflicts | Clean(tree: Tree, moved: map<string, string>)

  /** Whether and where a git call of `stage` fails. */
  datatype Breakage = Works | BreaksBefore | BreaksAfter

  /** What git and the remote do in one `merge`: a failing call before the push, the
      remote taking the push, the push's exit code, a failing read-back. */
  datatype Weather = Weather(checkBreaks: bool, takes: bool, exitsZero: bool, readBreaks: bool)

  /** Git's renames pair up paths that were deleted with paths that were added. */
  ghost predicate Plausible(feature: Commit, result: MergeResult) {
    result.Clean? ==> Renames(feature.tree, result.tree, result.moved)
  }

  ghost predicate NothingGuarded(feature: Commit, result: MergeResult)
    requires result.Clean?
  {
    forall p :: p in Listed(feature.tree, result.tree, result.moved) ==> !Guarded(p)
  }

  /** `History`, from the last step back. */
  ghost predicate Run(trace: seq<State>) {
    && trace != []
    && if |trace| == 1 then trace[0].staged == {} && trace[0].jobs == map[]
       else Next(trace[|trace| - 2], trace[|trace| - 1]) && Run(trace[..|trace| - 1])
  }

  lemma {:induction false} RunIsHistory(trace: seq<State>)
    requires Run(trace)
    ensures History(trace)
  {
    if |trace| > 1 {
      RunIsHistory(trace[..|trace| - 1]);
    }
  }

  // ---- single steps --------------------------------------------------------

  ghost function Set(s: State, j: nat, job: Job): State {
    s.(jobs := s.jobs[j := job])
  }

  lemma {:induction false} CandidateMade(s: State, j: nat, c: Commit, moved: map<string, string>)
    requires j in s.jobs && s.jobs[j].Staging? && c.parents == [s.jobs[j].feature, s.jobs[j].harvested]
    requires Passes(s.jobs[j].feature.tree, c.tree, moved)
    ensures Quiet(s, j, s.(staged := s.staged + {c}, jobs := s.jobs[j := Ended])) && StagedWell(c)
  {
    assert Candidate(s.jobs[j].feature, s.jobs[j].harvested, c);
    assert Passes(c.parents[0].tree, c.tree, moved);
  }

  class Workspace {
    var local: Commit
    var remote: Commit
    ghost var staged: set<Commit>
    ghost var jobs: map<nat, Job>
    ghost var trace: seq<State>

    constructor (local: Commit, remote: Commit)
      ensures this.local == local && this.remote == remote && staged == {} && jobs == map[] && Valid()
    {
      this.local, this.remote, staged, jobs := local, remote, {}, map[];
      trace := [State(local, remote, {}, map[])];
    }

    ghost function View(): State
      reads this
    {
      State(local, remote, staged, jobs)
    }

    ghost predicate Valid()
      reads this
    {
      Run(trace) && trace[|trace| - 1] == View()
    }

    ghost method Note()
      requires Run(trace) && Next(trace[|trace| - 1], View())
      modifies this`trace
      ensures Valid() && trace == old(trace) + [View()]
    {
      assert (trace + [View()])[..|trace|] == trace;
      trace := trace + [View()];
    }

    /** The others get their turn, unless the run is left alone. */
    method Others(calm: bool)
      requires Valid()
      modifies this`local, this`remote, this`trace
      ensures Valid() && old(trace) < trace
      ensures calm ==> local == old(local) && remote == old(remote)
    {
      if !calm {
        local, remote := *, *;
      }
      assert OthersMove(trace[|trace| - 1], View());
      Note();
    }

    /** One step of this process that moves nothing. */
    ghost method Become(j: nat, job: Job)
      requires Valid() && Quiet(View(), j, Set(View(), j, job))
      modifies this`jobs, this`trace
      ensures Valid() && old(trace) <= trace && jobs == old(jobs)[j := job]
    {
      jobs := jobs[j := job];
      Note();
    }

    /** Stop here: a refusal, an error or a kill. */
    ghost method End(j: nat)
      requires Valid() && j in jobs && !jobs[j].Merged?
      modifies this`jobs, this`trace
      ensures Valid() && old(trace) <= trace && jobs == old(jobs)[j := Ended]
    {
      assert GiveUp(View(), j, Set(View(), j, Ended));
      Become(j, Ended);
    }

    /** Commit the merge as a candidate. */
    ghost method Make(j: nat, c: Commit, moved: map<string, string>)
      requires Valid() && j in jobs && jobs[j].Staging? && c.parents == [jobs[j].feature, jobs[j].harvested]
      requires Passes(jobs[j].feature.tree, c.tree, moved)
      modifies this`staged, this`jobs, this`trace
      ensures Valid() && old(trace) <= trace && j in jobs && jobs[j] == Ended
      ensures staged == old(staged) + {c} && StagedWell(c)
    {
      CandidateMade(View(), j, c, moved);
      staged, jobs := staged + {c}, jobs[j := Ended];
      Note();
    }

    /** At some moment since `from` the branch was at `feature` and this process
        read it. */
    ghost predicate ReadSince(from: nat, j: nat, feature: Commit, harvested: Commit)
      reads this
    {
      exists i :: from <= i < |trace| && trace[i].local == feature && j in trace[i].jobs &&
                  trace[i].jobs[j] == Staging(feature, harvested)
    }

    /** Merge the harvested package onto the branch in a worktree of its own;
        `merge` is what git makes of that on each commit the branch may be at. */
    method Stage(ghost j: nat, harvested: Commit, patch: Patch, stamp: nat, merge: Commit -> MergeResult,
                 breaks: Breakage, calm: bool)
      returns (outcome: StageOutcome, feature: Commit)
      requires Valid() && j !in jobs && forall f :: Plausible(f, merge(f))
      modifies this`local, this`remote, this`staged, this`jobs, this`trace
      ensures Valid() && old(trace) <= trace && j in jobs && jobs[j] == Ended
      ensures ReadSince(|old(trace)|, j, feature, harvested) && (calm ==> feature == old(local))
      ensures outcome.MergeConflict? <==> !breaks.BreaksBefore? && merge(feature).Conflicts?
      ensures outcome.RoutesToHuman? <==>
                !breaks.BreaksBefore? && merge(feature).Clean? && !NothingGuarded(feature, merge(feature))
      ensures outcome.CandidateStaged? <==>
                breaks.Works? && merge(feature).Clean? && NothingGuarded(feature, merge(feature))
      ensures outcome.RoutesToHuman? ==>
                var Clean(tree, moved) := merge(feature);
                forall p :: p in outcome.guarded <==> p in Listed(feature.tree, tree, moved) && Guarded(p)
      ensures outcome.CandidateStaged? ==>
                outcome.candidate == Commit(patch, merge(feature).tree, [feature, harvested], stamp)
      ensures staged == old(staged) +
                if !breaks.BreaksBefore? && merge(feature).Clean? && NothingGuarded(feature, merge(feature))
                then {Commit(patch, merge(feature).tree, [feature, harvested], stamp)} else {}
      ensures outcome.CandidateStaged? ==> StagedWell(outcome.candidate)
    {
      Others(calm);
      feature := local;
      Become(j, Staging(feature, harvested));
      ghost var read := |trace| - 1;
      assert trace[read] == View();
      Others(calm);
      var result := merge(feature);
      assert Plausible(feature, result);
      outcome := StageError;
      if breaks.BreaksBefore? || result.Conflicts? {
        outcome := if breaks.BreaksBefore? then StageError else MergeConflict;
        End(j);
        return;
      }
      var guarded := Inside(Listed(feature.tree, result.tree, result.moved));
      if guarded != {} {
        outcome := RoutesToHuman(guarded);
        assert exists p :: p in guarded;
        End(j);
        return;
      }
      assert NothingGuarded(feature, result) by {
        forall p | p in Listed(feature.tree, result.tree, result.moved) ensures !Guarded(p) {
          assert p !in guarded;
        }
      }
      var c := Commit(patch, result.tree, [feature, harvested], stamp);
      Make(j, c, result.moved);
      if breaks.Works? {
        outcome := CandidateStaged(c);
      }
    }

    /** Push the candidate to the branch at the remote, as a fast-forward only.
        Exit 0 is not proof that the remote took it. */
    method PushCandidate(ghost j: nat, c: Commit, takes: bool, exitsZero: bool)
      requires Valid() && j in jobs && jobs[j].Checked? && jobs[j].candidate == c
      modifies this`remote, this`jobs, this`trace
      ensures Valid() && old(trace) <= trace && j in jobs
      ensures jobs[j] == if exitsZero then Pushed(c, old(jobs)[j].verdict, old(jobs)[j].tip) else Ended
      ensures remote == if takes && Reaches(c, old(remote)) then c else old(remote)
    {
      ghost var s := View();
      if takes && Reaches(c, remote) {
        remote := c;
      }
      jobs := jobs[j := if exitsZero then Pushed(c, jobs[j].verdict, jobs[j].tip) else Ended];
      assert Quiet(s, j, View());
      Note();
    }

    /** The verdict and the branch as they are asked for; false if refused. */
    method CheckAsked(ghost j: nat, c: Commit, v: Verdict, broken: bool) returns (ok: bool, tip: Commit)
      requires Valid() && j !in jobs
      modifies this`jobs, this`trace
      ensures Valid() && old(trace) <= trace && j in jobs
      ensures tip == local && jobs[j] == if ok then Checked(c, v, tip) else Ended
      ensures ok <==> !broken && Admits(View(), c, v)
    {
      tip := local;
      Become(j, Asked(c, v));
      ok := !broken && v.gatesPassed && v.candidate == c && |c.parents| == 2 && tip == c.parents[0];
      if ok {
        assert Check(View(), j, Set(View(), j, Checked(c, v, tip)));
        Become(j, Checked(c, v, tip));
      } else {
        End(j);
      }
    }

    method SwapTo(ghost j: nat, c: Commit, tip: Commit) returns (ok: bool)
      requires Valid() && j in jobs && jobs[j].Pushed? && jobs[j].candidate == c && jobs[j].tip == tip
      modifies this`local, this`jobs, this`trace
      ensures Valid() && old(trace) <= trace && j in jobs
      ensures ok <==> old(local) == tip
      ensures local == (if ok then c else old(local)) && jobs[j] == if ok then Swapped(c) else Ended
    {
      ok := local == tip;
      if !ok {
        End(j);
        return;
      }
      ghost var s := View();
      local := c;
      jobs := jobs[j := Swapped(c)];
      assert Swap(s, j, View());
      Note();
    }

    method Confirm(ghost j: nat, c: Commit, broken: bool) returns (ok: bool)
      requires Valid() && j in jobs && jobs[j] == Swapped(c)
      modifies this`jobs, this`trace
      ensures Valid() && old(trace) <= trace && j in jobs
      ensures jobs[j] == (if ok then Merged(c) else Ended) && (ok <==> !broken && remote == c)
    {
      ok := !broken && remote == c;
      if ok {
        assert ReadBack(View(), j, Set(View(), j, Merged(c)));
        Become(j, Merged(c));
      } else {
        End(j);
      }
    }

    method SwapAndConfirm(ghost j: nat, c: Commit, tip: Commit, broken: bool, calm: bool) returns (ok: bool)
      requires Valid() && j in jobs && jobs[j].Pushed? && jobs[j].candidate == c && jobs[j].tip == tip
      modifies this`local, this`remote, this`jobs, this`trace
      ensures Valid() && old(trace) <= trace && j in jobs
      ensures jobs[j] == (if ok then Merged(c) else Ended) && (ok ==> remote == c)
      ensures calm && old(local) == tip ==> local == c && remote == old(remote) && (ok <==> !broken && remote == c)
    {
      Others(calm);
      ok := SwapTo(j, c, tip);
      if ok {
        Others(calm);
        ok := Confirm(j, c, broken);
      }
    }

    /** Advance the branch to a gated candidate: check the verdict and the tip,
        push, swap, read back. Left alone, the branch moves if and only if the
        candidate is admitted and the push says it went through. */
    method Merge(ghost j: nat, c: Commit, v: Verdict, w: Weather, calm: bool) returns (ok: bool)
      requires Valid() && j !in jobs
      modifies this`local, this`remote, this`jobs, this`trace
      ensures Valid() && old(trace) <= trace && j in jobs
      ensures jobs[j] == if ok then Merged(c) else Ended
      ensures ok ==> remote == c && v.gatesPassed && v.candidate == c && |c.parents| == 2
      ensures calm ==>
                var goesOn := !w.checkBreaks && v.gatesPassed && v.candidate == c && |c.parents| == 2 &&
                              old(local) == c.parents[0];
                && local == (if goesOn && w.exitsZero then c else old(local))
                && remote == (if goesOn && w.takes && Reaches(c, old(remote)) then c else old(remote))
                && (ok <==> goesOn && w.exitsZero && !w.readBreaks && remote == c)
    {
      Others(calm);
      var tip;
      ok, tip := CheckAsked(j, c, v, w.checkBreaks);
      if !ok {
        return;
      }
      Others(calm);
      PushCandidate(j, c, w.takes, w.exitsZero);
      ok := w.exitsZero;
      if ok {
        ok := SwapAndConfirm(j, c, tip, w.readBreaks, calm);
      }
    }
  }
}
