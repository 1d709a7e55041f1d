/** The hand-turn observer: it re-recognises an item's whole history on every
    tick, and files only the turns whose identity its read of the ledger did
    not show. */
module Observer {
  import opened Wrappers

  const RUNS_LISTED := 100

  /** What makes two hand-turns the same turn. */
  datatype Identity = Identity(workItem: string, rule: string, observedAt: string, evidence: seq<string>)

  /** A turn as proposed: the fields a matcher leaves out are absent. */
  datatype Proposal = Proposal(
    workItem: string, rule: Maybe<string>, observedAt: Maybe<string>, evidence: Maybe<seq<string>>,
    what: string, definitionRef: Maybe<string>)

  /** A record's data: the control plane writes an optional field only when it is
      not empty. */
  datatype Data = Data(
    workItem: string, rule: Maybe<string>, observedAt: Maybe<string>, evidence: Maybe<seq<string>>, what: string)

  function Text(m: Maybe<string>): string {
    if m.Some? then m.value else ""
  }

  function List(m: Maybe<seq<string>>): seq<string> {
    if m.Some? then m.value else []
  }

  function IdentityOf(p: Proposal): Identity {
    Identity(p.workItem, Text(p.rule), Text(p.observedAt), List(p.evidence))
  }

  function IdentityOfData(d: Data): Identity {
    Identity(d.workItem, Text(d.rule), Text(d.observedAt), List(d.evidence))
  }

  /** What the create route stores. */
  function Stored(p: Proposal): Data {
    Data(p.workItem,
         if Text(p.rule) != "" then Some(Text(p.rule)) else None,
         if Text(p.observedAt) != "" then Some(Text(p.observedAt)) else None,
         if List(p.evidence) != [] then Some(List(p.evidence)) else None,
         p.what)
  }

  /** A turn is recognised on the ledger as the turn that was proposed. */
  lemma {:induction false} IdentitySurvivesFiling(p: Proposal)
    ensures IdentityOfData(Stored(p)) == IdentityOf(p)
  {
  }

  // ---- the same turn, said of the fields -------------------------------------

  ghost predicate Blank(m: Maybe<string>) {
    m.None? || m.value == ""
  }

  ghost predicate BlankList(m: Maybe<seq<string>>) {
    m.None? || m.value == []
  }

  /** An absent field is as good as an empty one. */
  ghost predicate SameText(a: Maybe<string>, b: Maybe<string>) {
    a == b || (Blank(a) && Blank(b))
  }

  ghost predicate SameList(a: Maybe<seq<string>>, b: Maybe<seq<string>>) {
    a == b || (BlankList(a) && BlankList(b))
  }

  /** Work item, rule, time and evidence agree; wording and definition may differ. */
  ghost predicate SameTurn(p: Proposal, q: Proposal) {
    && p.workItem == q.workItem && SameText(p.rule, q.rule) && SameText(p.observedAt, q.observedAt)
    && SameList(p.evidence, q.evidence)
  }

  lemma {:induction false} IdentityExactly(p: Proposal, q: Proposal)
    ensures IdentityOf(p) == IdentityOf(q) <==> SameTurn(p, q)
  {
  }

  /** Each field as proposed, the optional ones only if there is something in them. */
  ghost predicate Keeps(d: Data, p: Proposal) {
    && d.workItem == p.workItem && d.what == p.what
    && d.rule == (if Blank(p.rule) then None else p.rule)
    && d.observedAt == (if Blank(p.observedAt) then None else p.observedAt)
    && d.evidence == if BlankList(p.evidence) then None else p.evidence
  }

  lemma {:induction false} StoredExactly(p: Proposal, d: Data)
    ensures d == Stored(p) <==> Keeps(d, p)
  {
  }

  // ---- what is already there -----------------------------------------------

  datatype Record = HandTurn(data: Data) | Other

  /** A run's ledger; the newest run comes first. */
  type Runs = seq<seq<Record>>

  function Listed(runs: Runs): Runs {
    if |runs| <= RUNS_LISTED then runs else runs[..RUNS_LISTED]
  }

  predicate IsTurn(r: Record, id: Identity) {
    r.HandTurn? && IdentityOfData(r.data) == id
  }

  /** How often the identity is recorded. */
  function OnRun(records: seq<Record>, id: Identity): nat {
    if records == [] then 0
    else OnRun(records[..|records| - 1], id) + if IsTurn(records[|records| - 1], id) then 1 else 0
  }

  function Times(runs: Runs, id: Identity): nat {
    if runs == [] then 0 else OnRun(runs[0], id) + Times(runs[1..], id)
  }

  /** The record at that place on the ledgers is of the turn proposed. */
  ghost predicate At(runs: Runs, i: nat, j: nat, p: Proposal) {
    && i < |runs| && j < |runs[i]| && runs[i][j].HandTurn?
    && var d := runs[i][j].data;
       && d.workItem == p.workItem && SameText(d.rule, p.rule) && SameText(d.observedAt, p.observedAt)
       && SameList(d.evidence, p.evidence)
  }

  ghost predicate NowhereOn(runs: Runs, p: Proposal) {
    forall i: nat, j: nat :: !At(runs, i, j, p)
  }

  ghost predicate OnceOn(runs: Runs, p: Proposal) {
    exists i: nat, j: nat :: At(runs, i, j, p) && forall k: nat, l: nat :: At(runs, k, l, p) ==> k == i && l == j
  }

  lemma {:induction false} OnRunCounts(records: seq<Record>, id: Identity)
    ensures OnRun(records, id) == 0 <==> forall j :: 0 <= j < |records| ==> !IsTurn(records[j], id)
    ensures OnRun(records, id) > 1 <==>
            exists j, k :: 0 <= j < k < |records| && IsTurn(records[j], id) && IsTurn(records[k], id)
  {
    if records != [] {
      var front, last := records[..|records| - 1], records[|records| - 1];
      OnRunCounts(front, id);
      if IsTurn(last, id) && OnRun(front, id) > 0 {
        var j :| 0 <= j < |front| && IsTurn(front[j], id);
        assert IsTurn(records[j], id) && IsTurn(records[|front|], id);
      }
      if j, k :| 0 <= j < k < |front| && IsTurn(front[j], id) && IsTurn(front[k], id) {
        assert IsTurn(records[j], id) && IsTurn(records[k], id);
      }
      if j, k :| 0 <= j < k < |records| && IsTurn(records[j], id) && IsTurn(records[k], id) {
        assert IsTurn(front[j], id) && (k < |front| ==> IsTurn(front[k], id));
      }
    }
  }

  ghost predicate Here(runs: Runs, i: nat, j: nat, id: Identity) {
    i < |runs| && j < |runs[i]| && IsTurn(runs[i][j], id)
  }

  lemma {:induction false} TimesIsZero(runs: Runs, id: Identity)
    ensures Times(runs, id) == 0 <==> forall i: nat, j: nat :: !Here(runs, i, j, id)
  {
    if runs != [] {
      OnRunCounts(runs[0], id);
      TimesIsZero(runs[1..], id);
      if j :| 0 <= j < |runs[0]| && IsTurn(runs[0][j], id) {
        assert Here(runs, 0, j, id);
      }
      if i: nat, j: nat :| Here(runs[1..], i, j, id) {
        assert Here(runs, i + 1, j, id);
      }
      if i: nat, j: nat :| Here(runs, i, j, id) {
        assert i > 0 ==> Here(runs[1..], i - 1, j, id);
      }
    }
  }

  ghost predicate Twice(runs: Runs, id: Identity) {
    exists i: nat, j: nat, k: nat, l: nat :: Here(runs, i, j, id) && Here(runs, k, l, id) && (i != k || j != l)
  }

  lemma {:induction false} MoreIsTwice(runs: Runs, id: Identity)
    requires Times(runs, id) > 1
    ensures Twice(runs, id)
  {
    var rest := runs[1..];
    OnRunCounts(runs[0], id);
    TimesIsZero(rest, id);
    if OnRun(runs[0], id) > 1 {
      var j, k :| 0 <= j < k < |runs[0]| && IsTurn(runs[0][j], id) && IsTurn(runs[0][k], id);
      assert Here(runs, 0, j, id) && Here(runs, 0, k, id);
    } else if Times(rest, id) > 1 {
      MoreIsTwice(rest, id);
      var i: nat, j: nat, k: nat, l: nat :| Here(rest, i, j, id) && Here(rest, k, l, id) && (i != k || j != l);
      assert Here(runs, i + 1, j, id) && Here(runs, k + 1, l, id);
    } else {
      var j :| 0 <= j < |runs[0]| && IsTurn(runs[0][j], id);
      var k: nat, l: nat :| Here(rest, k, l, id);
      assert Here(runs, 0, j, id) && Here(runs, k + 1, l, id);
    }
  }

  lemma {:induction false} TwiceIsMore(runs: Runs, id: Identity, i: nat, j: nat, k: nat, l: nat)
    requires Here(runs, i, j, id) && Here(runs, k, l, id) && (i < k || (i == k && j < l))
    ensures Times(runs, id) > 1
  {
    var rest := runs[1..];
    OnRunCounts(runs[0], id);
    TimesIsZero(rest, id);
    if i > 0 {
      TwiceIsMore(rest, id, i - 1, j, k - 1, l);
    } else if k > 0 {
      assert Here(rest, k - 1, l, id) && IsTurn(runs[0][j], id);
    } else {
      assert IsTurn(runs[0][j], id) && IsTurn(runs[0][l], id);
    }
  }

  lemma {:induction false} TimesIsMore(runs: Runs, id: Identity)
    ensures Times(runs, id) > 1 <==> Twice(runs, id)
  {
    if Times(runs, id) > 1 {
      MoreIsTwice(runs, id);
    }
    if i: nat, j: nat, k: nat, l: nat :| Here(runs, i, j, id) && Here(runs, k, l, id) && (i != k || j != l) {
      if i < k || (i == k && j < l) {
        TwiceIsMore(runs, id, i, j, k, l);
      } else {
        TwiceIsMore(runs, id, k, l, i, j);
      }
    }
  }

  /** The count, said of the places on the ledgers. */
  lemma {:induction false} TimesExactly(runs: Runs, p: Proposal)
    ensures Times(runs, IdentityOf(p)) == 0 <==> NowhereOn(runs, p)
    ensures Times(runs, IdentityOf(p)) == 1 <==> OnceOn(runs, p)
  {
    var id := IdentityOf(p);
    forall i: nat, j: nat ensures At(runs, i, j, p) <==> Here(runs, i, j, id) {
    }
    TimesIsZero(runs, id);
    TimesIsMore(runs, id);
    if i: nat, j: nat :| Here(runs, i, j, id) {
      assert At(runs, i, j, p);
    }
  }

  method RecordedIdentities(runs: Runs) returns (seen: set<Identity>)
    ensures forall id :: id in seen <==> Times(Listed(runs), id) > 0
  {
    seen := {};
    var listed := Listed(runs);
    for i := 0 to |listed|
      invariant forall id :: id in seen <==> Times(listed[..i], id) > 0
    {
      ghost var before := seen;
      for j := 0 to |listed[i]|
        invariant forall id :: id in seen <==> id in before || OnRun(listed[i][..j], id) > 0
      {
        assert listed[i][..j + 1][..j] == listed[i][..j];
        match listed[i][j]
        case HandTurn(data) => seen := seen + {IdentityOfData(data)};
        case Other =>
      }
      assert listed[i][..|listed[i]|] == listed[i];
      forall id ensures Times(listed[..i + 1], id) == Times(listed[..i], id) + OnRun(listed[i], id) {
        assert listed[..i + 1] == listed[..i] + [listed[i]];
        TimesJoin(listed[..i], [listed[i]], id);
      }
    }
    assert listed[..|listed|] == listed;
  }

  lemma {:induction false} TimesJoin(a: Runs, b: Runs, id: Identity)
    ensures Times(a + b, id) == Times(a, id) + Times(b, id)
  {
    if a == [] {
      assert a + b == b;
    } else {
      assert (a + b)[1..] == a[1..] + b;
      TimesJoin(a[1..], b, id);
    }
  }

  // ---- what is new ---------------------------------------------------------

  function Ids(ps: seq<Proposal>): (ids: seq<Identity>)
    ensures |ids| == |ps|
  {
    seq(|ps|, i requires 0 <= i < |ps| => IdentityOf(ps[i]))
  }

  function Fresh(ps: seq<Proposal>, already: set<Identity>): seq<Proposal> {
    if ps == [] then []
    else
      var rest := Fresh(ps[..|ps| - 1], already);
      var last := ps[|ps| - 1];
      if IdentityOf(last) in already || IdentityOf(last) in Ids(rest) then rest else rest + [last]
  }

  ghost predicate NoRepeats(ps: seq<Proposal>) {
    forall i, j :: 0 <= i < j < |ps| ==> IdentityOf(ps[i]) != IdentityOf(ps[j])
  }

  /** Exactly the proposed turns that were not recorded, each of them once. */
  lemma {:induction false} FreshIsWhatIsMissing(ps: seq<Proposal>, already: set<Identity>)
    ensures NoRepeats(Fresh(ps, already))
    ensures forall id :: id in Ids(Fresh(ps, already)) <==> id in Ids(ps) && id !in already
    ensures forall p :: p in Fresh(ps, already) ==> p in ps
  {
    if ps != [] {
      var front, last := ps[..|ps| - 1], ps[|ps| - 1];
      FreshIsWhatIsMissing(front, already);
      assert ps == front + [last] && Ids(ps) == Ids(front) + [IdentityOf(last)];
      var rest := Fresh(front, already);
      assert Ids(rest + [last]) == Ids(rest) + [IdentityOf(last)];
      forall i | 0 <= i < |rest| ensures IdentityOf(rest[i]) in Ids(rest) {
        assert Ids(rest)[i] == IdentityOf(rest[i]);
      }
    }
  }

  method Unrecorded(ps: seq<Proposal>, already: set<Identity>) returns (missing: seq<Proposal>)
    ensures missing == Fresh(ps, already)
  {
    missing := [];
    var seen := already;
    for i := 0 to |ps|
      invariant missing == Fresh(ps[..i], already)
      invariant forall id :: id in seen <==> id in already || id in Ids(missing)
    {
      assert ps[..i + 1][..i] == ps[..i];
      var id := IdentityOf(ps[i]);
      if id in seen {
        continue;
      }
      seen := seen + {id};
      assert Ids(missing + [ps[i]]) == Ids(missing) + [id];
      missing := missing + [ps[i]];
    }
    assert ps[..|ps|] == ps;
  }
}
