/** The triage-row writer: one command appends a row to two tables and
    regenerates a report from the first, putting all three files back when a
    write fails. How a command ends is a function of where the writes and the
    restore fail. */
module TriageRows {
  import opened Wrappers

  datatype DRow = DRow(issue: int, bucket: string, text: string, evidence: string)
  datatype TRow = TRow(issue: int, typeName: string, evidence: string)

  /** A file as it stands; a failed write may leave anything behind. */
  datatype File<+T> = Absent | Whole(value: T) | Torn

  datatype Report = Report(lines: seq<DRow>, typeSection: string)

  datatype Files = Files(disp: File<seq<DRow>>, types: File<seq<TRow>>, report: File<Report>)

  datatype Command = Command(
    number: int, bucket: string, text: string, evidence: string, typeName: string, typeEvidence: string)

  // ---- validation ----------------------------------------------------------

  predicate HasDisposition(rows: seq<DRow>, n: int) {
    exists r :: r in rows && r.issue == n
  }

  predicate HasType(rows: seq<TRow>, n: int) {
    exists r :: r in rows && r.issue == n
  }

  /** Readable tables, a bucket and a type already in use, and a new number. */
  predicate Validates(files: Files, cmd: Command) {
    && files.disp.Whole? && files.types.Whole?
    && files.disp.value != [] && files.types.value != []
    && (forall i, j :: 0 <= i < j < |files.disp.value| ==> files.disp.value[i].issue != files.disp.value[j].issue)
    && cmd.bucket != "" && cmd.text != "" && cmd.evidence != ""
    && (exists r :: r in files.disp.value && r.bucket == cmd.bucket)
    && (exists r :: r in files.types.value && r.typeName == cmd.typeName)
    && !HasDisposition(files.disp.value, cmd.number) && !HasType(files.types.value, cmd.number)
  }

  // ---- rendering -----------------------------------------------------------

  /** The row under a number. */
  function Lookup(rows: seq<DRow>, n: int): (r: Maybe<DRow>)
    ensures r.Some? ==> r.value in rows && r.value.issue == n
    ensures r.None? ==> !HasDisposition(rows, n)
  {
    if rows == [] then None
    else if rows[0].issue == n then Some(rows[0])
    else Lookup(rows[1..], n)
  }

  /** A line for each open issue, in the numbers' order, or no answer: the error
      that a missing row raises. */
  function Lines(rows: seq<DRow>, numbers: seq<int>): Maybe<seq<DRow>> {
    if numbers == [] then Some([])
    else
      var front, last := Lines(rows, numbers[..|numbers| - 1]), Lookup(rows, numbers[|numbers| - 1]);
      if front.Some? && last.Some? then Some(front.value + [last.value]) else None
  }

  ghost predicate Covers(rows: seq<DRow>, numbers: seq<int>) {
    forall i :: 0 <= i < |numbers| ==> HasDisposition(rows, numbers[i])
  }

  ghost predicate Renders(rows: seq<DRow>, numbers: seq<int>, lines: seq<DRow>) {
    |lines| == |numbers| && forall i :: 0 <= i < |numbers| ==> lines[i] in rows && lines[i].issue == numbers[i]
  }

  lemma {:induction false} LinesExactly(rows: seq<DRow>, numbers: seq<int>)
    ensures Lines(rows, numbers).Some? <==> Covers(rows, numbers)
    ensures Lines(rows, numbers).Some? ==> Renders(rows, numbers, Lines(rows, numbers).value)
  {
    if numbers != [] {
      LinesExactly(rows, numbers[..|numbers| - 1]);
    }
  }

  method Render(rows: seq<DRow>, numbers: seq<int>) returns (r: Maybe<seq<DRow>>)
    ensures r == Lines(rows, numbers)
    ensures r.Some? <==> Covers(rows, numbers)
    ensures r.Some? ==> Renders(rows, numbers, r.value)
  {
    var lines: seq<DRow> := [];
    LinesExactly(rows, numbers);
    for i := 0 to |numbers|
      invariant Lines(rows, numbers[..i]) == Some(lines)
    {
      assert numbers[..i + 1][..i] == numbers[..i];
      var row := Lookup(rows, numbers[i]);
      if row.None? {
        assert !HasDisposition(rows, numbers[i]);
        return None;
      }
      lines := lines + [row.value];
    }
    assert numbers[..|numbers|] == numbers;
    r := Some(lines);
  }

  // ---- writing and putting back --------------------------------------------

  /** A failed write leaves the file as it was, torn, or written after all. */
  datatype Left = AsItWas | InPieces | Written
  datatype Write = Works | Fails(left: Left)

  function Put<T>(was: File<T>, contents: T, w: Write): File<T> {
    match w
    case Works => Whole(contents)
    case Fails(AsItWas) => was
    case Fails(InPieces) => Torn
    case Fails(Written) => Whole(contents)
  }

  /** Put a file back; one that is as it was is left alone, and one that was not
      there is removed. */
  function Back<T(==)>(now: File<T>, was: File<T>, w: Write): File<T> {
    if now == was then was
    else match w
         case Works => was
         case Fails(AsItWas) => now
         case Fails(InPieces) => if was.Absent? then now else Torn
         case Fails(Written) => was
  }

  datatype Which = Dispositions | IssueTypes | OpenIssues

  datatype Exit = Refused | Added | Failed(unrestored: set<Which>) | KeyError

  /** Where things fail. */
  datatype Backs = Backs(disp: Write, types: Write, report: Write)
  datatype Faults = Faults(disp: Write, types: Write, report: Write, back: Backs)

  function Unrestored(before: Files, now: Files, b: Backs): set<Which> {
    (if now.disp != before.disp && b.disp.Fails? then {Dispositions} else {}) +
    (if now.types != before.types && b.types.Fails? then {IssueTypes} else {}) +
    (if now.report != before.report && b.report.Fails? then {OpenIssues} else {})
  }

  function PutBack(before: Files, now: Files, b: Backs): (Files, Exit) {
    (Files(Back(now.disp, before.disp, b.disp), Back(now.types, before.types, b.types),
           Back(now.report, before.report, b.report)),
     Failed(Unrestored(before, now, b)))
  }

  function NewDisposition(cmd: Command): DRow {
    DRow(cmd.number, cmd.bucket, cmd.text, cmd.evidence)
  }

  function NewType(cmd: Command): TRow {
    TRow(cmd.number, cmd.typeName, if cmd.typeEvidence != "" then cmd.typeEvidence else cmd.evidence)
  }

  function Section(report: File<Report>): string {
    if report.Whole? then report.value.typeSection else ""
  }

  /** The files and the exit of one command. */
  function End(before: Files, cmd: Command, numbers: seq<int>, f: Faults): (Files, Exit) {
    if !Validates(before, cmd) then (before, Refused)
    else
      var rows := before.disp.value + [NewDisposition(cmd)];
      var s1 := before.(disp := Put(before.disp, rows, f.disp));
      if f.disp.Fails? then PutBack(before, s1, f.back)
      else
        var s2 := s1.(types := Put(before.types, before.types.value + [NewType(cmd)], f.types));
        if f.types.Fails? then PutBack(before, s2, f.back)
        else
          var lines := Lines(rows, numbers);
          if lines.None? then (s2, KeyError)
          else
            var s3 := s2.(report := Put(before.report, Report(lines.value, Section(before.report)), f.report));
            if f.report.Fails? then PutBack(before, s3, f.back) else (s3, Added)
  }

  class Tables {
    var files: Files

    constructor (files: Files)
      ensures this.files == files
    {
      this.files := files;
    }

    /** Put back every file that changed, and name those that could not be. */
    method Restore(before: Files, b: Backs) returns (unrestored: set<Which>)
      modifies this
      ensures (files, Failed(unrestored)) == PutBack(before, old(files), b)
    {
      unrestored := {};
      if files.disp != before.disp {
        files := files.(disp := Back(files.disp, before.disp, b.disp));
        unrestored := if b.disp.Fails? then {Dispositions} else {};
      }
      if files.types != before.types {
        files := files.(types := Back(files.types, before.types, b.types));
        unrestored := unrestored + if b.types.Fails? then {IssueTypes} else {};
      }
      if files.report != before.report {
        files := files.(report := Back(files.report, before.report, b.report));
        unrestored := unrestored + if b.report.Fails? then {OpenIssues} else {};
      }
      assert unrestored == Unrestored(before, old(files), b);
    }

    /** One command, as it is written; `f` is where it fails. */
    method AddRows(cmd: Command, numbers: seq<int>, f: Faults) returns (exit: Exit)
      modifies this
      ensures (files, exit) == End(old(files), cmd, numbers, f)
    {
      if !Validates(files, cmd) {
        return Refused;
      }
      var before := files;
      var unrestored: set<Which>;
      var rows := before.disp.value + [NewDisposition(cmd)];
      files := files.(disp := Put(files.disp, rows, f.disp));
      if f.disp.Fails? {
        unrestored := Restore(before, f.back);
        return Failed(unrestored);
      }
      files := files.(types := Put(files.types, before.types.value + [NewType(cmd)], f.types));
      if f.types.Fails? {
        unrestored := Restore(before, f.back);
        return Failed(unrestored);
      }
      var lines := Render(rows, numbers);
      if lines.None? {
        return KeyError;
      }
      files := files.(report := Put(files.report, Report(lines.value, Section(files.report)), f.report));
      if f.report.Fails? {
        unrestored := Restore(before, f.back);
        return Failed(unrestored);
      }
      exit := Added;
    }
  }

  // ---- all or nothing ------------------------------------------------------

  /** One row more in each table, as the command has it, and the report rebuilt
      around the type section it had. */
  ghost predicate Complete(before: Files, cmd: Command, numbers: seq<int>, after: Files) {
    && before.disp.Whole? && before.types.Whole? && after.disp.Whole? && after.types.Whole? && after.report.Whole?
    && (exists row: DRow ::
          && after.disp.value == before.disp.value + [row]
          && row.issue == cmd.number && row.bucket == cmd.bucket && row.text == cmd.text
          && row.evidence == cmd.evidence)
    && (exists row: TRow ::
          && after.types.value == before.types.value + [row]
          && row.issue == cmd.number && row.typeName == cmd.typeName
          && (cmd.typeEvidence != "" ==> row.evidence == cmd.typeEvidence)
          && (cmd.typeEvidence == "" ==> row.evidence == cmd.evidence))
    && Renders(after.disp.value, numbers, after.report.value.lines)
    && after.report.value.typeSection == if before.report.Whole? then before.report.value.typeSection else ""
  }

  /** What is refused, and that refusing writes nothing. */
  lemma {:induction false} RefusedExactly(before: Files, cmd: Command, numbers: seq<int>, f: Faults)
    ensures End(before, cmd, numbers, f).1.Refused? <==>
            || !before.disp.Whole? || !before.types.Whole? || before.disp.value == [] || before.types.value == []
            || (exists i, j :: 0 <= i < j < |before.disp.value| &&
                  before.disp.value[i].issue == before.disp.value[j].issue)
            || cmd.bucket == "" || cmd.text == "" || cmd.evidence == ""
            || (forall r :: r in before.disp.value ==> r.bucket != cmd.bucket)
            || (forall r :: r in before.types.value ==> r.typeName != cmd.typeName)
            || (exists r :: r in before.disp.value && r.issue == cmd.number)
            || exists r :: r in before.types.value && r.issue == cmd.number
    ensures End(before, cmd, numbers, f).1.Refused? ==> End(before, cmd, numbers, f).0 == before
  {
  }

  /** What a whole table holds: no command brings in a bucket or a type name. */
  ghost predicate SameWords(before: Files, after: Files) {
    && (after.disp.Whole? ==>
          before.disp.Whole? && forall r :: r in after.disp.value ==> UsesBucket(before.disp.value, r.bucket))
    && (after.types.Whole? ==>
          before.types.Whole? && forall r :: r in after.types.value ==> UsesType(before.types.value, r.typeName))
  }

  ghost predicate UsesBucket(rows: seq<DRow>, bucket: string) {
    exists r :: r in rows && r.bucket == bucket
  }

  ghost predicate UsesType(rows: seq<TRow>, typeName: string) {
    exists r :: r in rows && r.typeName == typeName
  }

  lemma {:induction false} VocabularyStays(before: Files, cmd: Command, numbers: seq<int>, f: Faults)
    ensures SameWords(before, End(before, cmd, numbers, f).0)
  {
  }

  predicate RestoreWorks(f: Faults) {
    f.back == Backs(Works, Works, Works)
  }

  /** Whatever fails, the command does all of it or nothing; `restores` says that
      putting a file back never fails. */
  ghost predicate AllOrNothing(before: Files, cmd: Command, numbers: seq<int>, restores: bool) {
    forall f :: (restores ==> RestoreWorks(f)) ==>
      var after := End(before, cmd, numbers, f).0;
      after == before || Complete(before, cmd, numbers, after)
  }

  /** Every open issue other than the new one already has a row. */
  ghost predicate OthersCovered(files: Files, cmd: Command, numbers: seq<int>) {
    && files.disp.Whole?
    && forall i :: 0 <= i < |numbers| && numbers[i] != cmd.number ==> HasDisposition(files.disp.value, numbers[i])
  }

  /** A failure that is put back leaves the files as they were, and otherwise the
      exit names every file that is not. */
  lemma {:induction false} FailureIsNamed(before: Files, cmd: Command, numbers: seq<int>, f: Faults)
    requires End(before, cmd, numbers, f).1.Failed?
    ensures var (after, exit) := End(before, cmd, numbers, f);
            && (after.disp != before.disp ==> Dispositions in exit.unrestored)
            && (after.types != before.types ==> IssueTypes in exit.unrestored)
            && (after.report != before.report ==> OpenIssues in exit.unrestored)
            && (RestoreWorks(f) ==> exit.unrestored == {})
            && (exit.unrestored == {} ==> after == before && Validates(after, cmd))
  {
  }

  lemma {:induction false} AddedIsComplete(before: Files, cmd: Command, numbers: seq<int>, f: Faults)
    requires End(before, cmd, numbers, f).1.Added?
    ensures Complete(before, cmd, numbers, End(before, cmd, numbers, f).0)
  {
    LinesExactly(before.disp.value + [NewDisposition(cmd)], numbers);
  }

  /** A command that is not refused succeeds exactly when no write fails and every
      other open issue has a row. */
  lemma {:induction false} AddedExactly(before: Files, cmd: Command, numbers: seq<int>, f: Faults)
    ensures End(before, cmd, numbers, f).1.Added? <==>
            && !End(before, cmd, numbers, f).1.Refused? && OthersCovered(before, cmd, numbers)
            && f.disp == Works && f.types == Works && f.report == Works
  {
    if before.disp.Whole? {
      var rows := before.disp.value + [NewDisposition(cmd)];
      LinesExactly(rows, numbers);
      assert NewDisposition(cmd) in rows;
      assert OthersCovered(before, cmd, numbers) ==> Covers(rows, numbers);
    }
  }

  /** An open issue without a row: both tables written, the report not, and the
      same command is refused from then on. */
  lemma {:induction false} UncoveredIsHalfWritten(before: Files, cmd: Command, numbers: seq<int>, f: Faults)
    requires Validates(before, cmd) && !OthersCovered(before, cmd, numbers) && f.disp.Works? && f.types.Works?
    ensures var (after, exit) := End(before, cmd, numbers, f);
            && exit.KeyError? && after != before && !Complete(before, cmd, numbers, after)
            && !Validates(after, cmd)
  {
    var rows := before.disp.value + [NewDisposition(cmd)];
    LinesExactly(rows, numbers);
    assert NewDisposition(cmd) in rows;
    var i :| 0 <= i < |numbers| && !HasDisposition(rows, numbers[i]);
    assert |rows| == |before.disp.value| + 1;
    forall lines: seq<DRow> | |lines| == |numbers| ensures !Renders(rows, numbers, lines) {
      assert lines[i] !in rows || lines[i].issue != numbers[i];
    }
  }

  /** A failed write and a failed restore: one table has the row, the other not. */
  lemma {:induction false} UnrestoredIsHalfWritten(before: Files, cmd: Command, numbers: seq<int>)
    requires Validates(before, cmd)
    ensures !AllOrNothing(before, cmd, numbers, false)
  {
    var f := Faults(Works, Fails(AsItWas), Works, Backs(Fails(AsItWas), Works, Works));
    var after := End(before, cmd, numbers, f).0;
    assert |after.disp.value| == |before.disp.value| + 1;
    assert after.types == before.types && |before.types.value + [NewType(cmd)]| == |before.types.value| + 1;
  }

  /** All or nothing, if and only if the command is refused, or putting back
      never fails and every other open issue has a row. */
  lemma {:induction false} AllOrNothingExactly(before: Files, cmd: Command, numbers: seq<int>, restores: bool)
    ensures AllOrNothing(before, cmd, numbers, restores) <==>
            !Validates(before, cmd) || (restores && OthersCovered(before, cmd, numbers))
  {
    if Validates(before, cmd) {
      if !restores {
        UnrestoredIsHalfWritten(before, cmd, numbers);
      } else if !OthersCovered(before, cmd, numbers) {
        var f := Faults(Works, Works, Works, Backs(Works, Works, Works));
        UncoveredIsHalfWritten(before, cmd, numbers, f);
        assert RestoreWorks(f);
      } else {
        LinesExactly(before.disp.value + [NewDisposition(cmd)], numbers);
        forall f | RestoreWorks(f)
          ensures var after := End(before, cmd, numbers, f).0; after == before || Complete(before, cmd, numbers, after)
        {
          if End(before, cmd, numbers, f).1.Failed? {
            FailureIsNamed(before, cmd, numbers, f);
          } else {
            AddedIsComplete(before, cmd, numbers, f);
          }
        }
      }
    }
  }

  // ---- no number twice -----------------------------------------------------

  ghost predicate OneEach(files: Files) {
    && (files.disp.Whole? ==> var rows := files.disp.value;
          forall i, j :: 0 <= i < j < |rows| ==> rows[i].issue != rows[j].issue)
    && (files.types.Whole? ==> var rows := files.types.value;
          forall i, j :: 0 <= i < j < |rows| ==> rows[i].issue != rows[j].issue)
  }

  lemma {:induction false} EndKeepsOneEach(before: Files, cmd: Command, numbers: seq<int>, f: Faults)
    requires OneEach(before)
    ensures OneEach(End(before, cmd, numbers, f).0)
  {
  }

  /** Over any commands, wherever each of them fails and whatever could not be put
      back, no number gets two rows in a table. */
  lemma {:induction false} NoNumberTwice(history: seq<Files>, cmds: seq<Command>, numbers: seq<seq<int>>,
                                         fs: seq<Faults>, i: nat)
    requires history != [] && |cmds| == |numbers| == |fs| == |history| - 1 && OneEach(history[0])
    requires forall k :: 0 <= k < |cmds| ==> history[k + 1] == End(history[k], cmds[k], numbers[k], fs[k]).0
    requires i < |history|
    ensures OneEach(history[i])
  {
    if i > 0 {
      NoNumberTwice(history, cmds, numbers, fs, i - 1);
      EndKeepsOneEach(history[i - 1], cmds[i - 1], numbers[i - 1], fs[i - 1]);
      assert history[i - 1 + 1] == End(history[i - 1], cmds[i - 1], numbers[i - 1], fs[i - 1]).0;
    }
  }
}
