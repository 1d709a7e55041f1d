/** The merge gate: every declared gate is decided and run, and the entries are
    put together into one outcome. */
module MergeGate {
  import opened Paths

  /** What happens when a gate's command is run. */
  datatype Launch =
    | NoCommand
    | CannotLaunch
    | TimesOut
    | Exits(code: int, goTest: bool, testsExecuted: bool)

  /** A declared gate: the paths its two pattern lists match, the tools it
      requires that the host lacks, its working directory and its command. */
  datatype Gate = Gate(
    name: string, responsibleFor: set<string>, reaches: set<string>, missing: seq<string>, cwd: Cwd, launch: Launch)

  datatype Reason = NoSourceFiles | Unavailable | NotReaching | NoTestInstrument | NoTestsExecuted

  datatype Entry =
    | Ran(gate: string, exitCode: int, considered: seq<string>)
    | NotApplicable(gate: string, reason: Reason, uncovered: seq<string>, considered: seq<string>)

  datatype Outcome = ChangesRequired | MeasurementIncomplete | GatesPassed

  datatype Result<T> = Refused | Done(value: T)

  const TIMED_OUT := 124

  /** The changed paths that match, in order. */
  function Select(paths: seq<string>, matched: set<string>): seq<string> {
    if paths == [] then []
    else (if paths[0] in matched then [paths[0]] else []) + Select(paths[1..], matched)
  }

  lemma {:induction false} SelectAre(paths: seq<string>, matched: set<string>, p: string)
    ensures p in Select(paths, matched) <==> p in paths && p in matched
  {
    if paths != [] {
      SelectAre(paths[1..], matched, p);
      assert paths == [paths[0]] + paths[1..];
    }
  }

  lemma {:induction false} SelectOne(p: string, matched: set<string>)
    ensures Select([p], matched) == if p in matched then [p] else []
  {
    assert [p][1..] == [];
  }

  /** Path by path, in order. */
  lemma {:induction false} SelectJoins(a: seq<string>, b: seq<string>, matched: set<string>)
    ensures Select(a + b, matched) == Select(a, matched) + Select(b, matched)
  {
    if a == [] {
      assert a + b == b;
    } else {
      var c := a + b;
      assert c[1..] == a[1..] + b && c[0] == a[0];
      SelectJoins(a[1..], b, matched);
    }
  }

  // ---- deciding and running ------------------------------------------------

  predicate Owes(g: Gate, changed: seq<string>) {
    exists p :: p in changed && p in g.responsibleFor
  }

  predicate Reaches(g: Gate, changed: seq<string>) {
    exists p :: p in changed && p in g.reaches
  }

  /** The gate gets as far as its command. */
  predicate Reached(g: Gate, changed: seq<string>) {
    Owes(g, changed) && g.missing == [] && Reaches(g, changed)
  }

  /** The gate has a command and its working directory does not pass the test. */
  predicate Turned(repo: Path, g: Gate) {
    !g.launch.NoCommand? && !InsideByText(repo, Workdir(repo, g.cwd))
  }

  /** The command came to an end with this exit code. */
  predicate Ends(l: Launch, code: int) {
    (l.TimesOut? && code == TIMED_OUT) || (l.Exits? && code == l.code)
  }

  /** A go test run that exits 0 without having executed a test. */
  predicate Idles(l: Launch) {
    l.Exits? && l.code == 0 && l.goTest && !l.testsExecuted
  }

  /** The entry of a gate that got as far as its command: the exit code it came to
      an end with, or why nothing was measured. */
  ghost predicate Shows(g: Gate, covered: seq<string>, e: Entry) {
    && e.gate == g.name && e.considered == covered
    && match e
       case Ran(_, code, _) => Ends(g.launch, code) && !Idles(g.launch)
       case NotApplicable(_, reason, uncovered, _) =>
         && uncovered == covered
         && (g.launch.NoCommand? || g.launch.CannotLaunch? || Idles(g.launch))
         && (reason.NoTestInstrument? <==> g.launch.NoCommand?)
         && (reason.Unavailable? <==> g.launch.CannotLaunch?)
         && (reason.NoTestsExecuted? <==> Idles(g.launch))
  }

  method RunGate(repo: Path, g: Gate, covered: seq<string>) returns (r: Result<Entry>)
    ensures r.Refused? <==> Turned(repo, g)
    ensures r.Done? ==> Shows(g, covered, r.value)
  {
    if !g.launch.NoCommand? && !(PathText(repo) <= PathText(Workdir(repo, g.cwd))) {
      return Refused;
    }
    match g.launch
    case NoCommand => r := Done(NotApplicable(g.name, NoTestInstrument, covered, covered));
    case CannotLaunch => r := Done(NotApplicable(g.name, Unavailable, covered, covered));
    case TimesOut => r := Done(Ran(g.name, TIMED_OUT, covered));
    case Exits(code, goTest, testsExecuted) =>
      if code == 0 && goTest && !testsExecuted {
        r := Done(NotApplicable(g.name, NoTestsExecuted, covered, covered));
      } else {
        r := Done(Ran(g.name, code, covered));
      }
  }

  /** What each gate's entry must say about the change. */
  ghost predicate Reports(g: Gate, changed: seq<string>, e: Entry) {
    && e.gate == g.name
    && (!Owes(g, changed) ==> e == NotApplicable(g.name, NoSourceFiles, [], changed))
    && (Owes(g, changed) && g.missing != [] ==>
          e == NotApplicable(g.name, Unavailable, Select(changed, g.responsibleFor), changed))
    && (Owes(g, changed) && g.missing == [] && !Reaches(g, changed) ==>
          e == NotApplicable(g.name, NotReaching, Select(changed, g.responsibleFor), changed))
    && (Reached(g, changed) ==> Shows(g, Select(changed, g.reaches), e))
  }

  method DecideGate(repo: Path, g: Gate, changed: seq<string>) returns (r: Result<Entry>)
    ensures r.Refused? <==> Reached(g, changed) && Turned(repo, g)
    ensures r.Done? ==> Reports(g, changed, r.value)
  {
    var owed := Select(changed, g.responsibleFor);
    var covered := Select(changed, g.reaches);
    EmptySelection(changed, g.responsibleFor);
    EmptySelection(changed, g.reaches);
    if owed == [] {
      return Done(NotApplicable(g.name, NoSourceFiles, [], changed));
    }
    if g.missing != [] {
      return Done(NotApplicable(g.name, Unavailable, owed, changed));
    }
    if covered == [] {
      return Done(NotApplicable(g.name, NotReaching, owed, changed));
    }
    r := RunGate(repo, g, covered);
  }

  /** One entry for each declared gate, in the matrix's order. */
  method Evaluate(repo: Path, gates: seq<Gate>, changed: seq<string>) returns (r: Result<seq<Entry>>)
    ensures r.Refused? <==> exists i :: 0 <= i < |gates| && Reached(gates[i], changed) && Turned(repo, gates[i])
    ensures r.Done? ==> |r.value| == |gates| && forall i :: 0 <= i < |gates| ==> Reports(gates[i], changed, r.value[i])
  {
    var entries: seq<Entry> := [];
    for i := 0 to |gates|
      invariant |entries| == i
      invariant forall j :: 0 <= j < i ==> Reports(gates[j], changed, entries[j])
      invariant forall j :: 0 <= j < i ==> !(Reached(gates[j], changed) && Turned(repo, gates[j]))
    {
      var e := DecideGate(repo, gates[i], changed);
      if e.Refused? {
        return Refused;
      }
      entries := entries + [e.value];
    }
    r := Done(entries);
  }

  lemma {:induction false} EmptySelection(paths: seq<string>, matched: set<string>)
    ensures Select(paths, matched) == [] <==> !exists p :: p in paths && p in matched
  {
    if p :| p in paths && p in matched {
      SelectAre(paths, matched, p);
    } else if Select(paths, matched) != [] {
      SelectAre(paths, matched, Select(paths, matched)[0]);
    }
  }

  // ---- what a refusal says -------------------------------------------------

  /** Every gate that is refused for its working directory leaves the worktree,
      and every gate that leaves it is refused, unless its directory lies beside
      the worktree under a longer name. */
  lemma {:induction false} RefusalIsEscapeExactly(repo: Path, g: Gate)
    requires IsPath(repo) && IsCwd(g.cwd) && !g.launch.NoCommand?
    ensures Turned(repo, g) ==> Escapes(repo, Workdir(repo, g.cwd))
    ensures (Turned(repo, g) <==> Escapes(repo, Workdir(repo, g.cwd))) <==> !Beside(repo, Workdir(repo, g.cwd))
  {
    WorkdirIsPath(repo, g.cwd);
    TextPrefixExactly(repo, Workdir(repo, g.cwd));
  }

  // ---- the outcome ---------------------------------------------------------

  predicate Fails(e: Entry) {
    e.Ran? && e.exitCode != 0
  }

  predicate Unmeasured(e: Entry) {
    e.NotApplicable? && (e.reason.Unavailable? || e.reason.NoTestsExecuted?)
  }

  /** The precedence, said of the entries as a whole. */
  ghost function Declared(entries: seq<Entry>): Outcome {
    if exists e :: e in entries && Fails(e) then ChangesRequired
    else if exists e :: e in entries && Unmeasured(e) then MeasurementIncomplete
    else if !exists e :: e in entries && e.Ran? then MeasurementIncomplete
    else GatesPassed
  }

  method LocalOutcome(entries: seq<Entry>) returns (outcome: Outcome)
    ensures outcome == Declared(entries)
  {
    var applicable, failed, unavailable := 0, 0, false;
    for i := 0 to |entries|
      invariant applicable >= 0 && failed >= 0
      invariant applicable > 0 <==> exists e :: e in entries[..i] && e.Ran?
      invariant failed > 0 <==> exists e :: e in entries[..i] && Fails(e)
      invariant unavailable <==> exists e :: e in entries[..i] && Unmeasured(e)
    {
      var e := entries[i];
      assert entries[..i + 1] == entries[..i] + [e];
      assert e in entries[..i + 1];
      match e
      case Ran(_, code, _) =>
        applicable := applicable + 1;
        if code != 0 {
          failed := failed + 1;
        }
      case NotApplicable(_, reason, _, _) =>
        if reason.Unavailable? || reason.NoTestsExecuted? {
          unavailable := true;
        }
    }
    assert entries[..|entries|] == entries;
    if failed > 0 {
      return ChangesRequired;
    }
    if unavailable {
      return MeasurementIncomplete;
    }
    outcome := if applicable == 0 then MeasurementIncomplete else GatesPassed;
  }

  /** The entries a matrix gives. */
  ghost predicate EntriesOf(gates: seq<Gate>, changed: seq<string>, entries: seq<Entry>) {
    |entries| == |gates| && forall i :: 0 <= i < |gates| ==> Reports(gates[i], changed, entries[i])
  }

  predicate RunsTo(g: Gate, changed: seq<string>, code: int) {
    Reached(g, changed) && Ends(g.launch, code) && !Idles(g.launch)
  }

  predicate Blind(g: Gate, changed: seq<string>) {
    && Owes(g, changed)
    && (g.missing != [] || (Reaches(g, changed) && (g.launch.CannotLaunch? || Idles(g.launch))))
  }

  ghost predicate RunsGreen(g: Gate, changed: seq<string>) {
    RunsTo(g, changed, 0)
  }

  ghost predicate RunsRed(g: Gate, changed: seq<string>) {
    exists code :: code != 0 && RunsTo(g, changed, code)
  }

  /** What an entry says about its gate. */
  lemma {:induction false} EntryMeans(g: Gate, changed: seq<string>, e: Entry)
    requires Reports(g, changed, e)
    ensures Fails(e) <==> RunsRed(g, changed)
    ensures Unmeasured(e) <==> Blind(g, changed)
    ensures e.Ran? <==> RunsRed(g, changed) || RunsGreen(g, changed)
  {
    if e.Ran? {
      assert RunsTo(g, changed, e.exitCode);
    }
  }

  /** The outcome, said of the gates: red if some gate ran red; else incomplete if
      some gate that owed files could not measure, or none ran; else passed. */
  ghost function Verdict(gates: seq<Gate>, changed: seq<string>): Outcome {
    if exists g :: g in gates && RunsRed(g, changed) then ChangesRequired
    else if exists g :: g in gates && Blind(g, changed) then MeasurementIncomplete
    else if !exists g :: g in gates && RunsGreen(g, changed) then MeasurementIncomplete
    else GatesPassed
  }

  lemma {:induction false} OutcomeIsVerdict(gates: seq<Gate>, changed: seq<string>, entries: seq<Entry>)
    requires EntriesOf(gates, changed, entries)
    ensures Declared(entries) == Verdict(gates, changed)
  {
    forall i | 0 <= i < |gates|
      ensures entries[i] in entries && gates[i] in gates
      ensures Fails(entries[i]) <==> RunsRed(gates[i], changed)
      ensures Unmeasured(entries[i]) <==> Blind(gates[i], changed)
      ensures entries[i].Ran? <==> RunsRed(gates[i], changed) || RunsGreen(gates[i], changed)
    {
      EntryMeans(gates[i], changed, entries[i]);
    }
    forall e | e in entries ensures exists i :: 0 <= i < |gates| && entries[i] == e {
    }
    forall g | g in gates ensures exists i :: 0 <= i < |entries| && gates[i] == g {
    }
  }

  /** The order in which a matrix is written does not matter. */
  lemma {:induction false} OrderDoesNotMatter(gates: seq<Gate>, shuffled: seq<Gate>, changed: seq<string>,
      a: seq<Entry>, b: seq<Entry>)
    requires multiset(gates) == multiset(shuffled)
    requires EntriesOf(gates, changed, a) && EntriesOf(shuffled, changed, b)
    ensures Declared(a) == Declared(b)
  {
    forall g ensures g in gates <==> g in shuffled {
      assert g in gates <==> g in multiset(gates);
      assert g in shuffled <==> g in multiset(shuffled);
    }
    OutcomeIsVerdict(gates, changed, a);
    OutcomeIsVerdict(shuffled, changed, b);
  }

  /** Passing means exactly this: some gate ran, every gate that ran exited 0,
      and no gate that owed files lacked a tool, could not be launched or ran no
      test. */
  lemma {:induction false} PassedExactly(gates: seq<Gate>, changed: seq<string>, entries: seq<Entry>)
    requires EntriesOf(gates, changed, entries)
    ensures Declared(entries) == GatesPassed <==>
              && (exists g :: g in gates && RunsGreen(g, changed))
              && (forall g :: g in gates ==> !RunsRed(g, changed) && !Blind(g, changed))
  {
    OutcomeIsVerdict(gates, changed, entries);
  }
}
