/** The issue-type backfill: a table of wanted types, a snapshot taken before
    the first write, and writes one issue at a time; any run may be cut short
    and repeated. */
module Backfill {

  const UNDETERMINED := "UNDETERMINED"
  const REQUIRED_TYPE := "Record"

  datatype Type = Untyped | Named(name: string)

  datatype Row = Row(issue: int, want: string)

  /** The open issues and their types. */
  type Issues = map<int, Type>

  datatype Snapshot = Absent | Torn | Full(types: Issues)

  datatype Repo = Repo(issues: Issues, snapshot: Snapshot)

  // ---- the plan ------------------------------------------------------------

  datatype Action = Set | Correct | LeaveUntyped | NotOpen

  function Decide(r: Row, issues: Issues): Action {
    if r.issue !in issues then NotOpen
    else if r.want == UNDETERMINED then LeaveUntyped
    else if issues[r.issue] == Named(r.want) then Correct
    else Set
  }

  /** The rows a given action is decided for, in order. */
  function Planned(rows: seq<Row>, issues: Issues, a: Action): seq<Row> {
    if rows == [] then []
    else
      var rest := Planned(rows[..|rows| - 1], issues, a);
      var last := rows[|rows| - 1];
      if Decide(last, issues) == a then rest + [last] else rest
  }

  lemma {:induction false} PlannedAre(rows: seq<Row>, issues: Issues, a: Action, r: Row)
    ensures r in Planned(rows, issues, a) <==> r in rows && Decide(r, issues) == a
  {
    if rows != [] {
      PlannedAre(rows[..|rows| - 1], issues, a, r);
      assert rows == rows[..|rows| - 1] + [rows[|rows| - 1]];
    }
  }

  /** What is on each list: not open; open and undetermined; open with the type it
      should have; open with another. */
  lemma {:induction false} PlanExactly(rows: seq<Row>, issues: Issues)
    ensures forall r :: r in Planned(rows, issues, NotOpen) <==> r in rows && r.issue !in issues
    ensures forall r :: r in Planned(rows, issues, LeaveUntyped) <==>
              r in rows && r.issue in issues && r.want == "UNDETERMINED"
    ensures forall r :: r in Planned(rows, issues, Correct) <==>
              r in rows && r.issue in issues && r.want != "UNDETERMINED" && issues[r.issue] == Named(r.want)
    ensures forall r :: r in Planned(rows, issues, Set) <==>
              r in rows && r.issue in issues && r.want != "UNDETERMINED" && issues[r.issue] != Named(r.want)
  {
    forall r
      ensures r in Planned(rows, issues, NotOpen) <==> r in rows && Decide(r, issues) == NotOpen
      ensures r in Planned(rows, issues, LeaveUntyped) <==> r in rows && Decide(r, issues) == LeaveUntyped
      ensures r in Planned(rows, issues, Correct) <==> r in rows && Decide(r, issues) == Correct
      ensures r in Planned(rows, issues, Set) <==> r in rows && Decide(r, issues) == Set
    {
      PlannedAre(rows, issues, NotOpen, r);
      PlannedAre(rows, issues, LeaveUntyped, r);
      PlannedAre(rows, issues, Correct, r);
      PlannedAre(rows, issues, Set, r);
    }
  }

  /** The four lists are the table: every row is on exactly one. */
  lemma {:induction false} PlanIsAPartition(rows: seq<Row>, issues: Issues)
    ensures multiset(Planned(rows, issues, Set)) + multiset(Planned(rows, issues, Correct)) +
            multiset(Planned(rows, issues, LeaveUntyped)) + multiset(Planned(rows, issues, NotOpen)) == multiset(rows)
  {
    if rows != [] {
      PlanIsAPartition(rows[..|rows| - 1], issues);
      assert rows == rows[..|rows| - 1] + [rows[|rows| - 1]];
    }
  }

  method PlanRun(rows: seq<Row>, issues: Issues)
    returns (toSet: seq<Row>, correct: seq<Row>, untyped: seq<Row>, notOpen: seq<Row>)
    ensures toSet == Planned(rows, issues, Set) && correct == Planned(rows, issues, Correct)
    ensures untyped == Planned(rows, issues, LeaveUntyped) && notOpen == Planned(rows, issues, NotOpen)
  {
    toSet, correct, untyped, notOpen := [], [], [], [];
    for i := 0 to |rows|
      invariant toSet == Planned(rows[..i], issues, Set) && correct == Planned(rows[..i], issues, Correct)
      invariant untyped == Planned(rows[..i], issues, LeaveUntyped) && notOpen == Planned(rows[..i], issues, NotOpen)
    {
      assert rows[..i + 1][..i] == rows[..i];
      var r := rows[i];
      if r.issue !in issues {
        notOpen := notOpen + [r];
      } else if r.want == UNDETERMINED {
        untyped := untyped + [r];
      } else if issues[r.issue] == Named(r.want) {
        correct := correct + [r];
      } else {
        toSet := toSet + [r];
      }
    }
    assert rows[..|rows|] == rows;
  }

  // ---- one run -------------------------------------------------------------

  function Write(issues: Issues, todo: seq<Row>): Issues {
    if todo == [] then issues
    else Write(issues, todo[..|todo| - 1])[todo[|todo| - 1].issue := Named(todo[|todo| - 1].want)]
  }

  /** What the snapshot records: the table's open issues. */
  function Capture(rows: seq<Row>, issues: Issues): Issues {
    map i | i in issues && i in set r | r in rows :: r.issue :: issues[i]
  }

  /** Exactly the open issues that the table names, with the types they have. */
  lemma {:induction false} CaptureExactly(rows: seq<Row>, issues: Issues, i: int)
    ensures i in Capture(rows, issues) <==> i in issues && exists r :: r in rows && r.issue == i
    ensures i in Capture(rows, issues) ==> Capture(rows, issues)[i] == issues[i]
  {
    if r :| r in rows && r.issue == i {
      assert i in set q | q in rows :: q.issue;
    }
  }

  /** How a run with something to write ends: before the snapshot, in the middle
      of writing it, or after `n` issues. */
  datatype Stop = BeforeSnapshot | InSnapshot | After(n: nat)

  function Attempt(rows: seq<Row>, repo: Repo, stop: Stop): Repo {
    var todo := Planned(rows, repo.issues, Set);
    if todo == [] then repo
    else match stop
         case BeforeSnapshot => repo
         case InSnapshot => if repo.snapshot.Absent? then repo.(snapshot := Torn) else repo
         case After(n) =>
           Repo(Write(repo.issues, if n < |todo| then todo[..n] else todo),
                if repo.snapshot.Absent? then Full(Capture(rows, repo.issues)) else repo.snapshot)
  }

  ghost function Attempts(rows: seq<Row>, repo: Repo, stops: seq<Stop>): Repo {
    if stops == [] then repo
    else Attempt(rows, Attempts(rows, repo, stops[..|stops| - 1]), stops[|stops| - 1])
  }

  /** Put back what the snapshot says. */
  function Restore(repo: Repo): Issues {
    if repo.snapshot.Full? then repo.issues + repo.snapshot.types else repo.issues
  }

  // ---- what is to be proved ------------------------------------------------

  /** The loader refuses a table that names an issue twice. */
  ghost predicate OneRowEach(rows: seq<Row>) {
    forall r, q :: r in rows && q in rows && r.issue == q.issue ==> r == q
  }

  ghost predicate Determined(rows: seq<Row>, r: Row) {
    r in rows && r.want != UNDETERMINED
  }

  /** Every determined open issue has its type, and nothing else has changed. */
  ghost predicate Reached(rows: seq<Row>, start: Issues, now: Issues) {
    && now.Keys == start.Keys
    && (forall r :: Determined(rows, r) && r.issue in start ==> now[r.issue] == Named(r.want))
    && forall i :: i in start && (forall r :: Determined(rows, r) ==> r.issue != i) ==> now[i] == start[i]
  }

  /** On the way there. */
  ghost predicate Between(rows: seq<Row>, start: Issues, now: Issues) {
    && now.Keys == start.Keys
    && forall i :: i in start ==>
         now[i] == start[i] || exists r :: Determined(rows, r) && r.issue == i && now[i] == Named(r.want)
  }

  ghost predicate Inv(rows: seq<Row>, start: Issues, repo: Repo) {
    && Between(rows, start, repo.issues)
    && (repo.snapshot.Absent? ==> repo.issues == start)
    && (repo.snapshot.Full? ==> repo.snapshot.types == Capture(rows, start))
  }

  // ---- proof ---------------------------------------------------------------

  lemma {:induction false} WriteKeeps(rows: seq<Row>, start: Issues, issues: Issues, todo: seq<Row>)
    requires Between(rows, start, issues)
    requires forall r :: r in todo ==> Determined(rows, r) && r.issue in start
    ensures Between(rows, start, Write(issues, todo))
  {
    if todo != [] {
      var front, last := todo[..|todo| - 1], todo[|todo| - 1];
      assert last in todo;
      WriteKeeps(rows, start, issues, front);
    }
  }

  /** What was written has the type of its last row, and what was not is as before. */
  lemma {:induction false} WriteGives(rows: seq<Row>, issues: Issues, todo: seq<Row>, i: int)
    requires i in issues && OneRowEach(rows) && forall r :: r in todo ==> r in rows && r.issue in issues
    ensures Write(issues, todo).Keys == issues.Keys
    ensures (forall r :: r in todo ==> r.issue != i) ==> Write(issues, todo)[i] == issues[i]
    ensures forall r :: r in todo && r.issue == i ==> Write(issues, todo)[i] == Named(r.want)
  {
    if todo != [] {
      var front, last := todo[..|todo| - 1], todo[|todo| - 1];
      assert last in todo && todo == front + [last];
      WriteGives(rows, issues, front, i);
    }
  }

  lemma {:induction false} AttemptKeeps(rows: seq<Row>, start: Issues, repo: Repo, stop: Stop)
    requires Inv(rows, start, repo)
    ensures Inv(rows, start, Attempt(rows, repo, stop))
  {
    var todo := Planned(rows, repo.issues, Set);
    if todo != [] && stop.After? {
      var some := if stop.n < |todo| then todo[..stop.n] else todo;
      forall r | r in some ensures Determined(rows, r) && r.issue in start {
        PlannedAre(rows, repo.issues, Set, r);
      }
      WriteKeeps(rows, start, repo.issues, some);
    }
  }

  lemma {:induction false} AttemptsKeep(rows: seq<Row>, start: Issues, stops: seq<Stop>)
    ensures Inv(rows, start, Attempts(rows, Repo(start, Absent), stops))
  {
    if stops != [] {
      var front := stops[..|stops| - 1];
      AttemptsKeep(rows, start, front);
      AttemptKeeps(rows, start, Attempts(rows, Repo(start, Absent), front), stops[|stops| - 1]);
    }
  }

  lemma {:induction false} CompleteReaches(rows: seq<Row>, start: Issues, repo: Repo, n: nat)
    requires OneRowEach(rows) && Inv(rows, start, repo) && n >= |Planned(rows, repo.issues, Set)|
    ensures Reached(rows, start, Attempt(rows, repo, After(n)).issues)
  {
    var todo := Planned(rows, repo.issues, Set);
    var now := Attempt(rows, repo, After(n)).issues;
    assert now == Write(repo.issues, todo);
    forall r | r in todo ensures r in rows && r.issue in repo.issues {
      PlannedAre(rows, repo.issues, Set, r);
    }
    forall i | i in start ensures i in now {
      WriteGives(rows, repo.issues, todo, i);
    }
    AttemptKeeps(rows, start, repo, After(n));
    forall r | Determined(rows, r) && r.issue in start ensures now[r.issue] == Named(r.want) {
      WriteGives(rows, repo.issues, todo, r.issue);
      PlannedAre(rows, repo.issues, Set, r);
      assert Decide(r, repo.issues).Correct? || r in todo;
    }
  }

  lemma {:induction false} ReachedHasNothingToSet(rows: seq<Row>, start: Issues, now: Issues)
    requires Reached(rows, start, now)
    ensures Planned(rows, now, Set) == []
  {
    var todo := Planned(rows, now, Set);
    if todo != [] {
      PlannedAre(rows, now, Set, todo[0]);
      assert todo[0] in todo;
      assert Determined(rows, todo[0]);
    }
  }

  /** However the runs before it were cut short, one complete run gives every
      determined open issue its type and changes nothing else, and no run after
      it writes anything. */
  lemma {:induction false} Converges(rows: seq<Row>, start: Issues, stops: seq<Stop>, n: nat, again: Stop)
    requires OneRowEach(rows)
    requires n >= |Planned(rows, Attempts(rows, Repo(start, Absent), stops).issues, Set)|
    ensures var done := Attempt(rows, Attempts(rows, Repo(start, Absent), stops), After(n));
            Reached(rows, start, done.issues) && Attempt(rows, done, again) == done
  {
    AttemptsKeep(rows, start, stops);
    var repo := Attempts(rows, Repo(start, Absent), stops);
    CompleteReaches(rows, start, repo, n);
    ReachedHasNothingToSet(rows, start, Attempt(rows, repo, After(n)).issues);
  }

  // ---- undoing -------------------------------------------------------------

  lemma {:induction false} FullRestores(rows: seq<Row>, start: Issues, repo: Repo)
    requires Inv(rows, start, repo) && !repo.snapshot.Torn?
    ensures Restore(repo) == start
  {
    if repo.snapshot.Full? {
      forall i | i in start ensures Restore(repo)[i] == start[i] {
        assert forall r :: Determined(rows, r) && r.issue == i ==> i in repo.snapshot.types;
      }
      assert Restore(repo).Keys == start.Keys;
    }
  }

  ghost predicate Whole(stops: seq<Stop>) {
    forall i :: 0 <= i < |stops| ==> !stops[i].InSnapshot?
  }

  /** The snapshot undoes whatever was done; `atomic` says that writing it is
      never cut short. */
  ghost predicate AlwaysUndoable(rows: seq<Row>, start: Issues, atomic: bool) {
    forall stops :: (atomic ==> Whole(stops)) ==> Restore(Attempts(rows, Repo(start, Absent), stops)) == start
  }

  lemma {:induction false} WholeIsNotTorn(rows: seq<Row>, start: Issues, stops: seq<Stop>)
    requires Whole(stops)
    ensures !Attempts(rows, Repo(start, Absent), stops).snapshot.Torn?
  {
    if stops != [] {
      WholeIsNotTorn(rows, start, stops[..|stops| - 1]);
    }
  }

  lemma {:induction false} NothingToSetStays(rows: seq<Row>, start: Issues, stops: seq<Stop>)
    requires Planned(rows, start, Set) == []
    ensures Attempts(rows, Repo(start, Absent), stops) == Repo(start, Absent)
  {
    if stops != [] {
      NothingToSetStays(rows, start, stops[..|stops| - 1]);
    }
  }

  /** A run cut short inside the snapshot leaves a file that the next run takes
      for the snapshot; what it then writes cannot be undone. */
  lemma {:induction false} TornSnapshotIsKept(rows: seq<Row>, start: Issues)
    requires OneRowEach(rows) && Planned(rows, start, Set) != []
    ensures Restore(Attempts(rows, Repo(start, Absent), [InSnapshot, After(|rows|)])) != start
    ensures Attempts(rows, Repo(start, Absent), [InSnapshot, After(|rows|)]).snapshot.Torn?
  {
    var todo := Planned(rows, start, Set);
    var r := todo[0];
    PlannedAre(rows, start, Set, r);
    assert [InSnapshot, After(|rows|)][..1] == [InSnapshot] && [InSnapshot][..0] == [];
    var torn := Repo(start, Torn);
    assert Attempts(rows, Repo(start, Absent), []) == Repo(start, Absent);
    assert Attempts(rows, Repo(start, Absent), [InSnapshot]) == torn;
    PlannedIsNoLonger(rows, start, Set);
    var done := Attempt(rows, torn, After(|rows|));
    assert done.issues == Write(start, todo);
    forall q | q in todo ensures q in rows && q.issue in start {
      PlannedAre(rows, start, Set, q);
    }
    WriteGives(rows, start, todo, r.issue);
    assert done.issues[r.issue] == Named(r.want) != start[r.issue];
  }

  lemma {:induction false} PlannedIsNoLonger(rows: seq<Row>, issues: Issues, a: Action)
    ensures |Planned(rows, issues, a)| <= |rows|
  {
    if rows != [] {
      PlannedIsNoLonger(rows[..|rows| - 1], issues, a);
    }
  }

  /** After any cut-short runs the snapshot gives back exactly the state before
      the first, if and only if it cannot itself be cut short or there is
      nothing to write. */
  lemma {:induction false} AlwaysUndoableExactly(rows: seq<Row>, start: Issues, atomic: bool)
    requires OneRowEach(rows)
    ensures AlwaysUndoable(rows, start, atomic) <==> atomic || Planned(rows, start, Set) == []
  {
    if !atomic && Planned(rows, start, Set) != [] {
      TornSnapshotIsKept(rows, start);
    } else {
      forall stops | atomic ==> Whole(stops)
        ensures Restore(Attempts(rows, Repo(start, Absent), stops)) == start
      {
        AttemptsKeep(rows, start, stops);
        if atomic {
          WholeIsNotTorn(rows, start, stops);
        } else {
          NothingToSetStays(rows, start, stops);
        }
        FullRestores(rows, start, Attempts(rows, Repo(start, Absent), stops));
      }
    }
  }

  // ---- the script as it is written -----------------------------------------

  class Script {
    var issues: Issues
    var snapshot: Snapshot

    constructor (issues: Issues)
      ensures View() == Repo(issues, Absent)
    {
      this.issues, snapshot := issues, Absent;
    }

    ghost function View(): Repo
      reads this
    {
      Repo(issues, snapshot)
    }

    /** Write the snapshot unless there is one; the write may be cut short. */
    method WriteSnapshot(rows: seq<Row>, whole: bool)
      modifies this`snapshot
      ensures old(snapshot).Absent? ==> snapshot == if whole then Full(Capture(rows, issues)) else Torn
      ensures !old(snapshot).Absent? ==> snapshot == old(snapshot)
    {
      if snapshot.Absent? {
        snapshot := if whole then Full(Capture(rows, issues)) else Torn;
      }
    }

    /** Set the types one by one, up to the first write that is not made. */
    method SetAll(toSet: seq<Row>, n: nat)
      modifies this`issues
      ensures issues == Write(old(issues), if n < |toSet| then toSet[..n] else toSet)
    {
      for i := 0 to |toSet|
        invariant i <= n && issues == Write(old(issues), toSet[..i])
      {
        if i == n {
          return;
        }
        assert toSet[..i + 1][..i] == toSet[..i];
        issues := issues[toSet[i].issue := Named(toSet[i].want)];
      }
      assert toSet[..|toSet|] == toSet;
    }

    /** One run, cut short at `stop`. A write that is reported as failed may have
        been made, so a run that made them all succeeds only if it heard so. */
    method Run(rows: seq<Row>, types: set<string>, stop: Stop, heard: bool) returns (ok: bool)
      modifies this
      ensures var refused := || "Record" !in types
                             || exists r :: r in rows && r.want != "UNDETERMINED" && r.want !in types;
              var todo := Planned(rows, old(issues), Set);
              && View() == (if refused then old(View()) else Attempt(rows, old(View()), stop))
              && (ok <==> !refused && (todo == [] || (stop.After? && stop.n >= |todo| && heard)))
    {
      if REQUIRED_TYPE !in types || exists r :: r in rows && r.want != UNDETERMINED && r.want !in types {
        return false;
      }
      var toSet, correct, untyped, notOpen := PlanRun(rows, issues);
      if toSet == [] {
        return true;
      }
      if stop.BeforeSnapshot? {
        return false;
      }
      WriteSnapshot(rows, !stop.InSnapshot?);
      if stop.InSnapshot? {
        return false;
      }
      SetAll(toSet, stop.n);
      ok := stop.n >= |toSet| && heard;
    }
  }
}
