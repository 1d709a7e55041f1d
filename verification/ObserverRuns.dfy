/** Any number of observer runs on one item, one at a time, each with whatever
    it proposes and stopping anywhere, while the item gains runs. */
module ObserverRuns {
  import opened Observer
  import opened Wrappers

  datatype State = State(runs: Runs, busy: bool, proposed: seq<Proposal>, pending: seq<Proposal>)

  ghost predicate AsListed(runs: Runs, already: set<Identity>) {
    forall id :: id in already <==> Times(Listed(runs), id) > 0
  }

  /** New runs and records of other kinds. */
  ghost predicate OthersWrite(s: State, s': State) {
    s' == s.(runs := s'.runs) && forall id :: Times(s'.runs, id) == Times(s.runs, id)
  }

  ghost predicate Begin(s: State, s': State) {
    && !s.busy
    && exists already ::
         && AsListed(s.runs, already)
         && s' == State(s.runs, true, s'.proposed, Fresh(s'.proposed, already))
  }

  function File(runs: Runs, p: Proposal): Runs
    requires runs != []
  {
    runs[0 := runs[0] + [HandTurn(Stored(p))]]
  }

  /** The record goes to the end of the newest run's ledger, and no other changes. */
  lemma {:induction false} FileExactly(runs: Runs, p: Proposal) returns (d: Data)
    requires runs != []
    ensures Keeps(d, p) && File(runs, p) == [runs[0] + [HandTurn(d)]] + runs[1..]
  {
    d := Stored(p);
    StoredExactly(p, d);
  }

  /** A proposal is appended to the newest run's ledger. */
  ghost predicate Post(s: State, s': State) {
    && s.busy && s.pending != [] && s.runs != []
    && s' == s.(runs := File(s.runs, s.pending[0]), pending := s.pending[1..])
  }

  ghost predicate Completes(s: State, s': State) {
    s.busy && s.pending == [] && s' == s.(busy := false)
  }

  ghost predicate Stops(s: State, s': State) {
    s.busy && s' == s.(busy := false, pending := [])
  }

  ghost predicate Next(s: State, s': State) {
    OthersWrite(s, s') || Begin(s, s') || Post(s, s') || Completes(s, s') || Stops(s, s')
  }

  ghost predicate Once(runs: Runs) {
    forall id :: Times(runs, id) <= 1
  }

  /** The item never has more than `most` runs. */
  ghost predicate History(most: nat, trace: seq<State>) {
    && trace != [] && !trace[0].busy && Once(trace[0].runs)
    && (forall i :: 0 <= i < |trace| ==> |trace[i].runs| <= most)
    && forall i :: 0 <= i < |trace| - 1 ==> Next(trace[i], trace[i + 1])
  }

  ghost predicate NeverTwice(most: nat) {
    forall trace: seq<State>, i :: History(most, trace) && 0 <= i < |trace| ==> Once(trace[i].runs)
  }

  // ---- proof ---------------------------------------------------------------

  ghost predicate Inv(s: State) {
    && Once(s.runs)
    && (s.busy ==> NoRepeats(s.pending))
    && (s.busy ==> forall id :: id in Ids(s.pending) ==> Times(s.runs, id) == 0)
    && (s.busy ==> forall id :: id in Ids(s.proposed) ==> id in Ids(s.pending) || Times(s.runs, id) > 0)
  }

  lemma {:induction false} FileAddsOne(runs: Runs, p: Proposal, id: Identity)
    requires runs != []
    ensures Times(File(runs, p), id) == Times(runs, id) + if IdentityOf(p) == id then 1 else 0
  {
  }

  lemma {:induction false} PostKeeps(s: State, s': State)
    requires Inv(s) && Post(s, s')
    ensures Inv(s')
  {
    var p := s.pending[0];
    assert Ids(s.pending) == [IdentityOf(p)] + Ids(s'.pending);
    assert IdentityOf(p) in Ids(s.pending);
    forall id ensures Times(s'.runs, id) == Times(s.runs, id) + if IdentityOf(p) == id then 1 else 0 {
      FileAddsOne(s.runs, p, id);
    }
    forall id | id in Ids(s'.pending) ensures Times(s'.runs, id) == 0 {
      var j :| 0 <= j < |s'.pending| && Ids(s'.pending)[j] == id;
      assert IdentityOf(s.pending[j + 1]) == id && id in Ids(s.pending);
    }
  }

  lemma {:induction false} BeginKeeps(s: State, s': State)
    requires Inv(s) && Begin(s, s') && |s.runs| <= RUNS_LISTED
    ensures Inv(s')
  {
    var already :| AsListed(s.runs, already) && s' == State(s.runs, true, s'.proposed, Fresh(s'.proposed, already));
    FreshIsWhatIsMissing(s'.proposed, already);
  }

  lemma {:induction false} HistoryKeeps(most: nat, trace: seq<State>, i: nat)
    requires most <= RUNS_LISTED && History(most, trace) && i < |trace|
    ensures Inv(trace[i])
  {
    if i > 0 {
      HistoryKeeps(most, trace, i - 1);
      var s, s' := trace[i - 1], trace[i - 1 + 1];
      assert Next(s, s');
      if Post(s, s') {
        PostKeeps(s, s');
      } else if Begin(s, s') {
        BeginKeeps(s, s');
      }
    }
  }

  lemma {:induction false} EmptyRuns(n: nat) returns (runs: Runs)
    ensures |runs| == n && forall i :: 0 <= i < n ==> runs[i] == []
    ensures forall id :: Times(runs, id) == 0
  {
    if n == 0 {
      runs := [];
    } else {
      var rest := EmptyRuns(n - 1);
      runs := [[]] + rest;
      assert runs[1..] == rest;
    }
  }

  /** A turn on the ledger of a run the listing no longer reaches is filed again. */
  lemma {:induction false} BeyondTheListingIsFiledAgain(most: nat, p: Proposal)
    requires most > RUNS_LISTED
    ensures !NeverTwice(most)
  {
    var id := IdentityOf(p);
    var newer := EmptyRuns(RUNS_LISTED);
    var oldest: Runs := [[HandTurn(Stored(p))]];
    var runs := newer + oldest;
    assert Listed(runs) == newer;
    IdentitySurvivesFiling(p);
    forall q ensures Times(runs, q) == if q == id then 1 else 0 {
      TimesJoin(newer, oldest, q);
      assert oldest[1..] == [] && oldest[0][..0] == [];
    }
    var s0 := State(runs, false, [], []);
    var s1 := State(runs, true, [p], [p]);
    var s2 := State(File(runs, p), true, [p], []);
    assert [p][..0] == [] && Fresh([p], {}) == [p];
    assert AsListed(runs, {});
    assert Begin(s0, s1);
    assert [p][1..] == [];
    assert Post(s1, s2);
    FileAddsOne(runs, p, id);
    var trace := [s0, s1, s2];
    assert History(most, trace);
    assert !Once(trace[2].runs);
  }

  /** Whatever the definitions and wherever the runs stop, no turn is on the
      ledger twice, exactly when the item keeps to the runs one listing shows. */
  lemma {:induction false} NeverTwiceExactly(most: nat)
    ensures NeverTwice(most) <==> most <= 100
  {
    if most <= RUNS_LISTED {
      forall trace: seq<State>, i | History(most, trace) && 0 <= i < |trace| ensures Once(trace[i].runs) {
        HistoryKeeps(most, trace, i);
      }
    } else {
      BeyondTheListingIsFiledAgain(most, Proposal("SCRUM-9", Some("land"), None, Some(["c1"]), "landed by hand", None));
    }
  }

  /** A completed run leaves everything it proposed on the ledger exactly once. */
  lemma {:induction false} CompletedFilesAll(most: nat, trace: seq<State>, i: nat, id: Identity)
    requires most <= RUNS_LISTED && History(most, trace) && i < |trace| - 1
    requires Completes(trace[i], trace[i + 1]) && id in Ids(trace[i].proposed)
    ensures Times(trace[i + 1].runs, id) == 1
  {
    HistoryKeeps(most, trace, i);
  }

  /** So two turns that differ in work item, rule, time or evidence are both there,
      each in one place. */
  lemma {:induction false} DifferentTurnsAreBothFiled(most: nat, trace: seq<State>, i: nat, p: Proposal, q: Proposal)
    requires most <= RUNS_LISTED && History(most, trace) && i < |trace| - 1 && Completes(trace[i], trace[i + 1])
    requires p in trace[i].proposed && q in trace[i].proposed && !SameTurn(p, q)
    ensures OnceOn(trace[i + 1].runs, p) && OnceOn(trace[i + 1].runs, q)
    ensures var runs := trace[i + 1].runs; forall k: nat, l: nat :: At(runs, k, l, p) ==> !At(runs, k, l, q)
  {
    ProposedIsIn(trace[i].proposed, p);
    ProposedIsIn(trace[i].proposed, q);
    CompletedFilesAll(most, trace, i, IdentityOf(p));
    CompletedFilesAll(most, trace, i, IdentityOf(q));
    TimesExactly(trace[i + 1].runs, p);
    TimesExactly(trace[i + 1].runs, q);
  }

  lemma {:induction false} ProposedIsIn(ps: seq<Proposal>, p: Proposal)
    requires p in ps
    ensures IdentityOf(p) in Ids(ps)
  {
    var k :| 0 <= k < |ps| && ps[k] == p;
    assert Ids(ps)[k] == IdentityOf(p);
  }

  // ---- the run as it is written --------------------------------------------

  predicate NoTurns(records: seq<Record>) {
    forall i :: 0 <= i < |records| ==> records[i].Other?
  }

  lemma {:induction false} NoTurnsCountNothing(records: seq<Record>, id: Identity)
    requires NoTurns(records)
    ensures OnRun(records, id) == 0
  {
    if records != [] {
      NoTurnsCountNothing(records[..|records| - 1], id);
    }
  }

  lemma {:induction false} FreshIsShort(ps: seq<Proposal>, already: set<Identity>)
    ensures |Fresh(ps, already)| <= |ps|
  {
    if ps != [] {
      FreshIsShort(ps[..|ps| - 1], already);
    }
  }

  class Item {
    var runs: Runs

    constructor (runs: Runs)
      ensures this.runs == runs
    {
      this.runs := runs;
    }

    /** A new run may start. */
    method Others()
      modifies this
      ensures (forall id :: Times(runs, id) == Times(old(runs), id)) && |runs| >= |old(runs)|
    {
      var ledger: seq<Record> := *;
      var starts: bool := *;
      if starts && NoTurns(ledger) {
        runs := [ledger] + runs;
        assert runs[1..] == old(runs);
        forall id ensures Times(runs, id) == Times(old(runs), id) {
          NoTurnsCountNothing(ledger, id);
        }
      }
    }

    /** One post, which may fail after it took effect or before. There has to be a
        run to post to. */
    method PostOne(ghost ps: seq<Proposal>, pending: seq<Proposal>, works: bool, takes: bool) returns (ok: bool)
      requires pending != [] && Inv(State(runs, true, ps, pending))
      modifies this
      ensures |runs| >= |old(runs)| && (ok ==> works) && (works && old(runs) != [] ==> ok)
      ensures Once(runs) && (ok ==> Inv(State(runs, true, ps, pending[1..])))
      ensures forall id :: id != IdentityOf(pending[0]) ==> Times(runs, id) == Times(old(runs), id)
    {
      Others();
      ghost var s := State(runs, true, ps, pending);
      assert Inv(s);
      ok := works && runs != [];
      if runs == [] || !(works || takes) {
        return;
      }
      forall id ensures Times(File(runs, pending[0]), id) == Times(runs,
          id) + if IdentityOf(pending[0]) == id then 1 else 0 {
        FileAddsOne(runs, pending[0], id);
      }
      runs := File(runs, pending[0]);
      PostKeeps(s, State(runs, true, ps, pending[1..]));
    }

    /** Read, then file what is missing; the post that comes after `stop` others
        fails, with or without effect. */
    method Observe(ps: seq<Proposal>, stop: nat, takes: bool) returns (completed: bool)
      requires Once(runs) && |runs| <= RUNS_LISTED
      modifies this
      ensures Once(runs)
      ensures completed ==> forall p :: p in ps ==> OnceOn(runs, p)
      ensures stop >= |ps| && old(runs) != [] ==> completed
      ensures forall id :: id !in Ids(ps) ==> Times(runs, id) == Times(old(runs), id)
    {
      var already := RecordedIdentities(runs);
      var pending := Unrecorded(ps, already);
      FreshIsWhatIsMissing(ps, already);
      FreshIsShort(ps, already);
      var posted := 0;
      while pending != []
        invariant posted + |pending| <= |ps| && |runs| >= |old(runs)|
        invariant Inv(State(runs, true, ps, pending))
        invariant forall id :: id in Ids(pending) ==> id in Ids(ps)
        invariant forall id :: id !in Ids(ps) ==> Times(runs, id) == Times(old(runs), id)
        decreases |pending|
      {
        assert Ids(pending) == [IdentityOf(pending[0])] + Ids(pending[1..]);
        completed := PostOne(ps, pending, posted != stop, takes);
        if !completed {
          return;
        }
        pending, posted := pending[1..], posted + 1;
      }
      completed := true;
      forall p | p in ps ensures OnceOn(runs, p) {
        ProposedIsIn(ps, p);
        TimesExactly(runs, p);
      }
    }
  }
}
