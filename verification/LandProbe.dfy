/** The lander's probe for attempts that are live on an actor, and the fence it
    puts before the reset of the actor's checkout. */
module LandProbe {
  import opened Git
  import opened Wrappers

  const MAX_NODE_RUN_PAGES := 20

  const ACTIVE_NODE_RUN_STATES := {"leased", "running", "waiting_external"}

  datatype NodeRun = Malformed | NodeRun(actorId: string, runId: string, state: string)

  /** One answer of the listing; the last page carries no cursor. */
  datatype Page = Unreadable | Page(items: seq<NodeRun>)

  datatype Row = BadRow | Row(id: string, actorKey: string)

  datatype Status = Measured | NotConfigured | Unmeasured
  datatype Probe = Probe(count: Maybe<nat>, status: Status)

  predicate Counts(r: NodeRun, ids: set<string>, exclude: string) {
    r.NodeRun? && r.actorId in ids && r.runId != exclude && r.state in ACTIVE_NODE_RUN_STATES
  }

  /** How many of the node runs count. */
  function Active(runs: seq<NodeRun>, ids: set<string>, exclude: string): nat {
    if runs == [] then 0
    else Active(runs[..|runs| - 1], ids, exclude) + if Counts(runs[|runs| - 1], ids, exclude) then 1 else 0
  }

  lemma {:induction false} ActiveJoin(a: seq<NodeRun>, b: seq<NodeRun>, ids: set<string>, exclude: string)
    ensures Active(a + b, ids, exclude) == Active(a, ids, exclude) + Active(b, ids, exclude)
  {
    if b == [] {
      assert a + b == a;
    } else {
      assert (a + b)[..|a + b| - 1] == a + b[..|b| - 1];
      ActiveJoin(a, b[..|b| - 1], ids, exclude);
    }
  }

  /** A node run of the actor, in another run than the land run, in one of the
      three states. */
  ghost predicate IsLive(r: NodeRun, ids: set<string>, exclude: string) {
    && r.NodeRun? && r.actorId in ids && r.runId != exclude
    && (r.state == "leased" || r.state == "running" || r.state == "waiting_external")
  }

  /** The places in the listing where such a node run stands. */
  ghost function LivePlaces(runs: seq<NodeRun>, ids: set<string>, exclude: string): set<nat> {
    set i: nat | i < |runs| && IsLive(runs[i], ids, exclude)
  }

  /** The count is the number of those places. */
  lemma {:induction false} ActiveExactly(runs: seq<NodeRun>, ids: set<string>, exclude: string)
    ensures Active(runs, ids, exclude) == |LivePlaces(runs, ids, exclude)|
  {
    if runs != [] {
      var n := |runs| - 1;
      ActiveExactly(runs[..n], ids, exclude);
      assert LivePlaces(runs, ids, exclude) ==
             LivePlaces(runs[..n], ids, exclude) + if IsLive(runs[n], ids, exclude) then {n} else {};
    }
  }

  /** The listing the pages are a split of. */
  function Whole(pages: seq<Page>): seq<NodeRun> {
    if pages == [] then []
    else Whole(pages[..|pages| - 1]) + match pages[|pages| - 1] case Unreadable => [] case Page(items) => items
  }

  /** Each readable page stands in the listing as it is, after those before it. */
  lemma {:induction false} WholeSplits(pages: seq<Page>, i: nat)
    requires i < |pages| && pages[i].Page?
    ensures Whole(pages) == Whole(pages[..i]) + pages[i].items + Whole(pages[i + 1..])
  {
    var front := pages[..|pages| - 1];
    if i < |front| {
      WholeSplits(front, i);
      assert front[..i] == pages[..i] && front[i + 1..] == pages[i + 1..][..|pages| - i - 2];
    } else {
      assert pages[..i] == front;
    }
  }

  method CountPage(items: seq<NodeRun>, ids: set<string>, exclude: string) returns (count: nat)
    ensures count == Active(items, ids, exclude)
  {
    count := 0;
    for k := 0 to |items|
      invariant count == Active(items[..k], ids, exclude)
    {
      assert items[..k + 1][..k] == items[..k];
      if Counts(items[k], ids, exclude) {
        count := count + 1;
      }
    }
    assert items[..|items|] == items;
  }

  lemma {:induction false} OnePageMore(pages: seq<Page>, page: nat, ids: set<string>, exclude: string)
    requires page < |pages| && pages[page].Page?
    ensures Active(Whole(pages[..page + 1]), ids, exclude) ==
            Active(Whole(pages[..page]), ids, exclude) + Active(pages[page].items, ids, exclude)
  {
    assert pages[..page + 1][..page] == pages[..page];
    ActiveJoin(Whole(pages[..page]), pages[page].items, ids, exclude);
  }

  /** A number, if and only if the listing ends within the bound and every page
      of it could be read; and then the number is that of the whole listing. */
  method CountActive(pages: seq<Page>, ids: set<string>, exclude: string) returns (r: Maybe<nat>)
    requires pages != []
    ensures r.Some? <==> |pages| <= 20 && forall i :: 0 <= i < |pages| ==> pages[i].Page?
    ensures r.Some? ==> r.value == |LivePlaces(Whole(pages), ids, exclude)|
  {
    var count := 0;
    for page := 0 to MAX_NODE_RUN_PAGES
      invariant page < |pages|
      invariant forall i :: 0 <= i < page ==> pages[i].Page?
      invariant count == Active(Whole(pages[..page]), ids, exclude)
    {
      if pages[page].Unreadable? {
        return None;
      }
      var onPage := CountPage(pages[page].items, ids, exclude);
      OnePageMore(pages, page, ids, exclude);
      count := count + onPage;
      if page == |pages| - 1 {
        assert pages[..page + 1] == pages;
        ActiveExactly(Whole(pages), ids, exclude);
        return Some(count);
      }
    }
    r := None;
  }

  /** Every registration row that shares the key, and the named row in any case. */
  ghost function Rows(rows: seq<Row>, actorId: string, key: string): set<string> {
    {actorId} + set r | r in rows && r.Row? && r.actorKey == key && r.id != "" :: r.id
  }

  method ActorRows(rows: seq<Row>, actorId: string, key: string) returns (ids: set<string>)
    ensures ids == Rows(rows, actorId, key)
  {
    ids := {actorId};
    for i := 0 to |rows|
      invariant ids == Rows(rows[..i], actorId, key)
    {
      var row := rows[i];
      assert rows[..i + 1] == rows[..i] + [row];
      if row.Row? && row.actorKey == key && row.id != "" {
        ids := ids + {row.id};
      }
    }
    assert rows[..|rows|] == rows;
  }

  /** What the control plane answers: the actor's own key, the registration rows
      and the node-run listing, each of which may fail. */
  datatype ControlPlane = ControlPlane(key: Maybe<string>, rows: Maybe<seq<Row>>, pages: seq<Page>)

  method ActiveAttempts(configured: bool, cp: ControlPlane, actorId: string, exclude: string) returns (p: Probe)
    requires cp.pages != []
    ensures p.count.Some? <==> p.status.Measured?
    ensures p.status.NotConfigured? <==> !configured
    ensures p.status.Measured? <==>
              && configured && cp.key.Some? && cp.key.value != "" && cp.rows.Some?
              && |cp.pages| <= 20 && forall i :: 0 <= i < |cp.pages| ==> cp.pages[i].Page?
    ensures p.status.Measured? ==>
              p.count.value == |LivePlaces(Whole(cp.pages), Rows(cp.rows.value, actorId, cp.key.value), exclude)|
  {
    if !configured {
      return Probe(None, NotConfigured);
    }
    if cp.key.None? || cp.key.value == "" || cp.rows.None? {
      return Probe(None, Unmeasured);
    }
    var ids := ActorRows(cp.rows.value, actorId, cp.key.value);
    var r := CountActive(cp.pages, ids, exclude);
    p := if r.Some? then Probe(r, Measured) else Probe(None, Unmeasured);
  }

  /** A measured zero is a fact about every row of the listing. */
  lemma {:induction false} ZeroMeansIdle(runs: seq<NodeRun>, ids: set<string>, exclude: string)
    ensures |LivePlaces(runs, ids, exclude)| == 0 <==> forall r :: r in runs ==> !IsLive(r, ids, exclude)
  {
    var places := LivePlaces(runs, ids, exclude);
    if r :| r in runs && IsLive(r, ids, exclude) {
      var i :| 0 <= i < |runs| && runs[i] == r;
      assert i in places;
    }
    assert places != {} ==> exists i :: i in places;
  }

  // ---- the reset -----------------------------------------------------------

  datatype ResetOutcome = Skipped | Waiting | Refused | Reset

  /** Nothing was asked, or everything was read and no listed node run counts. */
  ghost predicate Idle(configured: bool, cp: ControlPlane, actorId: string, landRun: string) {
    configured ==>
      && cp.key.Some? && cp.key.value != "" && cp.rows.Some? && |cp.pages| <= 20
      && (forall i :: 0 <= i < |cp.pages| ==> cp.pages[i].Page?)
      && forall r :: r in Whole(cp.pages) ==> !IsLive(r, Rows(cp.rows.value, actorId, cp.key.value), landRun)
  }

  /** The producing checkout. */
  class Checkout {
    var head: Commit
    var locked: bool        // this lander holds the checkout's lock

    constructor (head: Commit)
      ensures this.head == head && !locked
    {
      this.head, locked := head, false;
    }

    /** The checkout moves if and only if the actor is idle, its lock was free
        and its own origin shows the landed commit; and it moves there, under
        the lock. */
    method ResetCheckout(isCheckout: bool, configured: bool, cp: ControlPlane, actorId: string, landRun: string,
                         free: bool, fetched: Maybe<Commit>, landed: Commit) returns (outcome: ResetOutcome)
      requires !locked && cp.pages != []
      modifies this
      ensures outcome.Skipped? <==> !isCheckout
      ensures outcome.Waiting? <==> isCheckout && !(free && Idle(configured, cp, actorId, landRun))
      ensures outcome.Refused? ==> fetched != Some(landed)
      ensures outcome.Reset? ==> fetched == Some(landed)
      ensures head == if outcome.Reset? then landed else old(head)
      ensures locked <==> outcome.Reset? || outcome.Refused?
    {
      var probe := ActiveAttempts(configured, cp, actorId, landRun);
      if !isCheckout {
        return Skipped;
      }
      if probe.status.Measured? {
        ZeroMeansIdle(Whole(cp.pages), Rows(cp.rows.value, actorId, cp.key.value), landRun);
      }
      if probe.status.Unmeasured? || (probe.count.Some? && probe.count.value != 0) {
        return Waiting;
      }
      if !free {
        return Waiting;
      }
      locked := true;
      if fetched != Some(landed) {
        return Refused;
      }
      head := landed;
      outcome := Reset;
    }
  }
}
