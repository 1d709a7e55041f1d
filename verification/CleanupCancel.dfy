/** The cleanup node's second half: cancelling the item's runs that still wait
    at the approval node, against a control plane in which runs move on. */
module CleanupCancel {

  /** A run: whether it has ended, and the nodes at which it has a live node run. */
  datatype Run = Run(terminal: bool, live: set<string>)

  datatype Status = Ok | NotFound | Conflict | PreconditionFailed

  /** The control plane's cancel with a `parked_at` precondition, one transaction. */
  function CancelRun(runs: map<string, Run>, id: string, parkedAt: string): (Status, map<string, Run>) {
    if id !in runs then (NotFound, runs)
    else if runs[id].terminal then (Conflict, runs)
    else if parkedAt !in runs[id].live then (PreconditionFailed, runs)
    else (Ok, runs[id := Run(true, {})])
  }

  datatype Listed = Listed(id: string, terminal: bool)

  /** Which list of the record an id is put on. */
  datatype Kind = Cancelled | Skipped | LeftRunning | Failed
  datatype Report = Report(id: string, kind: Kind)

  /** A cancellation that took effect, with the run as it was at that instant. */
  datatype Hit = Hit(id: string, was: Run)

  /** The listed ids the node must answer for, in order. */
  function Owed(listing: seq<Listed>): seq<string> {
    if listing == [] then []
    else
      var rest := Owed(listing[..|listing| - 1]);
      var last := listing[|listing| - 1].id;
      if last == "" then rest else rest + [last]
  }

  function Ids(log: seq<Report>): seq<string> {
    seq(|log|, i requires 0 <= i < |log| => log[i].id)
  }

  /** What the world does while one run is dealt with: how runs move before the view
      and before the POST, whether the view can be read, and whether the POST
      arrives and its answer is heard. */
  datatype Turn = Turn(
    beforeView: map<string, Run>, readable: bool, beforePost: map<string, Run>, arrives: bool, heard: bool)

  /** Runs that have ended stay ended; a move that is none leaves them alone. */
  function Turned(runs: map<string, Run>, moved: map<string, Run>): map<string, Run> {
    if moved != map[] && forall id :: id in runs && runs[id].terminal ==> id in moved && moved[id].terminal
    then moved else runs
  }

  /** The run has not ended and has a live node run at the node. */
  predicate Waits(runs: map<string, Run>, id: string, parkedAt: string) {
    id in runs && !runs[id].terminal && parkedAt in runs[id].live
  }

  /** Nothing moves and everything is heard. */
  predicate Calm(t: Turn) {
    t.beforeView == map[] && t.readable && t.beforePost == map[] && t.heard
  }

  /** What is put on record for a listed run: seen and found as it was when it was
      viewed, and as it was when the POST came to it. */
  function Outcome(run: Listed, runs: map<string, Run>, parkedAt: string, t: Turn): Kind {
    var viewed := Turned(runs, t.beforeView);
    var posted := Turned(viewed, t.beforePost);
    if run.terminal then Skipped
    else if !t.readable || run.id !in viewed then Failed
    else if parkedAt !in viewed[run.id].live then LeftRunning
    else if !t.heard || run.id !in posted then Failed
    else if posted[run.id].terminal then Skipped
    else if parkedAt in posted[run.id].live then Cancelled
    else LeftRunning
  }

  /** And the runs as they are afterwards. */
  function RunsAfter(run: Listed, runs: map<string, Run>, parkedAt: string, t: Turn): map<string, Run> {
    var viewed := Turned(runs, t.beforeView);
    var posted := Turned(viewed, t.beforePost);
    if run.terminal then runs
    else if !t.readable || run.id !in viewed || parkedAt !in viewed[run.id].live then viewed
    else if (t.heard || t.arrives) && Waits(posted, run.id, parkedAt) then posted[run.id := Run(true, {})]
    else posted
  }

  /** The first `n` listed runs dealt with, those without an id passed over. */
  function Play(listing: seq<Listed>, n: nat, runs: map<string, Run>, parkedAt: string, world: nat -> Turn)
    : (map<string, Run>, seq<Report>)
    requires n <= |listing|
  {
    if n == 0 then (runs, [])
    else
      var (now, log) := Play(listing, n - 1, runs, parkedAt, world);
      var run := listing[n - 1];
      if run.id == "" then (now, log)
      else (RunsAfter(run, now, parkedAt, world(n - 1)),
            log + [Report(run.id, Outcome(run, now, parkedAt, world(n - 1)))])
  }

  /** The listing has the run, not as ended. */
  ghost predicate Open(listing: seq<Listed>, id: string) {
    id != "" && Listed(id, false) in listing
  }

  /** The runs after a cleanup that nothing interferes with. */
  ghost predicate CancelledWaiting(before: map<string, Run>, after: map<string, Run>, listing: seq<Listed>,
                                   parkedAt: string) {
    && after.Keys == before.Keys
    && forall id :: id in before ==>
         after[id] == if Open(listing, id) && Waits(before, id, parkedAt) then Run(true, {}) else before[id]
  }

  lemma {:induction false} OneMoreCancelled(before: map<string, Run>, now: map<string, Run>, after: map<string, Run>,
                                            listing: seq<Listed>, run: Listed, parkedAt: string)
    requires CancelledWaiting(before, now, listing, parkedAt)
    requires run.id != "" && !run.terminal && Waits(now, run.id, parkedAt) ==> after == now[run.id := Run(true, {})]
    requires run.id == "" || run.terminal || !Waits(now, run.id, parkedAt) ==> after == now
    ensures CancelledWaiting(before, after, listing + [run], parkedAt)
  {
    assert forall id :: Open(listing + [run], id) <==> Open(listing, id) || (id != "" && run == Listed(id, false));
  }

  /** Every run with an id is reported exactly once, in the listing's order. */
  lemma {:induction false} PlayReports(listing: seq<Listed>, n: nat, runs: map<string, Run>, parkedAt: string,
                                       world: nat -> Turn)
    requires n <= |listing|
    ensures Ids(Play(listing, n, runs, parkedAt, world).1) == Owed(listing[..n])
  {
    if n > 0 {
      PlayReports(listing, n - 1, runs, parkedAt, world);
      assert listing[..n][..n - 1] == listing[..n - 1];
    }
  }

  /** When nothing interferes, exactly the listed runs that wait are ended. */
  lemma {:induction false} CalmCancelsWaiting(listing: seq<Listed>, n: nat, runs: map<string, Run>, parkedAt: string,
                                              world: nat -> Turn)
    requires n <= |listing| && forall i :: 0 <= i < n ==> Calm(world(i))
    ensures CancelledWaiting(runs, Play(listing, n, runs, parkedAt, world).0, listing[..n], parkedAt)
  {
    if n > 0 {
      CalmCancelsWaiting(listing, n - 1, runs, parkedAt, world);
      assert listing[..n] == listing[..n - 1] + [listing[n - 1]];
      OneMoreCancelled(runs, Play(listing, n - 1, runs, parkedAt, world).0, Play(listing, n, runs, parkedAt, world).0,
                       listing[..n - 1], listing[n - 1], parkedAt);
    }
  }

  class Canceller {
    const parkedAt: string
    var runs: map<string, Run>     // the control plane
    var log: seq<Report>
    ghost var hits: seq<Hit>

    constructor (parkedAt: string, runs: map<string, Run>)
      ensures this.parkedAt == parkedAt && this.runs == runs && log == [] && hits == []
    {
      this.parkedAt, this.runs, log, hits := parkedAt, runs, [], [];
    }

    /** Only runs still waiting at the node were cancelled, everything that was
        cancelled is on record as cancelled or as failed, and what is recorded
        as cancelled was. */
    ghost predicate Valid()
      reads this
    {
      && (forall h :: h in hits ==> !h.was.terminal && parkedAt in h.was.live)
      && (forall h :: h in hits ==> exists r :: r in log && r.id == h.id && (r.kind.Cancelled? || r.kind.Failed?))
      && (forall r :: r in log && r.kind.Cancelled? ==> exists h :: h in hits && h.id == r.id)
    }

    /** The engine gets its turn: runs advance, start and end. */
    method Others(moved: map<string, Run>)
      modifies this`runs
      ensures runs == Turned(old(runs), moved)
    {
      runs := Turned(runs, moved);
    }

    /** POST the cancel; the answer may be lost, before or after it takes effect. */
    method Post(id: string, t: Turn) returns (lost: bool, status: Status, ghost hit: seq<Hit>)
      modifies this`runs
      ensures lost == !t.heard
      ensures var now := Turned(old(runs), t.beforePost);
              var works := (t.heard || t.arrives) && Waits(now, id, parkedAt);
              && runs == (if works then now[id := Run(true, {})] else now)
              && hit == (if works then [Hit(id, now[id])] else [])
              && (t.heard ==> status == if id !in now then NotFound else if now[id].terminal then Conflict
                                        else if parkedAt in now[id].live then Ok else PreconditionFailed)
    {
      Others(t.beforePost);
      hit, lost, status := [], !t.heard, NotFound;
      if lost && !t.arrives {
        return;
      }
      var result := CancelRun(runs, id, parkedAt);
      status := result.0;
      if status.Ok? {
        hit := [Hit(id, runs[id])];
      }
      runs := result.1;
    }

    /** Deal with one listed run: view it, and cancel it if it still waits. */
    method CancelOne(run: Listed, t: Turn) returns (kind: Kind, ghost hit: seq<Hit>)
      modifies this`runs
      ensures hit == [] || (hit == [Hit(run.id, hit[0].was)] && !hit[0].was.terminal && parkedAt in hit[0].was.live)
      ensures kind.Cancelled? ==> hit != []
      ensures hit != [] ==> kind.Cancelled? || kind.Failed?
      ensures kind == Outcome(run, old(runs), parkedAt, t) && runs == RunsAfter(run, old(runs), parkedAt, t)
    {
      hit := [];
      if run.terminal {
        return Skipped, [];
      }
      Others(t.beforeView);
      if !t.readable || run.id !in runs {
        return Failed, [];
      }
      if parkedAt !in runs[run.id].live {
        return LeftRunning, [];
      }
      var lost, status;
      lost, status, hit := Post(run.id, t);
      kind := if lost then Failed
              else match status
                   case Ok => Cancelled
                   case Conflict => Skipped
                   case PreconditionFailed => LeftRunning
                   case NotFound => Failed;
    }

    ghost predicate Backed(r: Report, hit: seq<Hit>)
      reads this
    {
      && (hit == [] || (hit == [Hit(r.id, hit[0].was)] && !hit[0].was.terminal && parkedAt in hit[0].was.live))
      && (r.kind.Cancelled? ==> hit != []) && (hit != [] ==> r.kind.Cancelled? || r.kind.Failed?)
    }

    method Note(r: Report, ghost hit: seq<Hit>)
      requires Valid() && Backed(r, hit)
      modifies this`log, this`hits
      ensures Valid() && log == old(log) + [r] && hits == old(hits) + hit
    {
      log, hits := log + [r], hits + hit;
      forall h | h in hits
        ensures exists q :: q in log && q.id == h.id && (q.kind.Cancelled? || q.kind.Failed?)
      {
        if h in old(hits) {
          var q :| q in old(log) && q.id == h.id && (q.kind.Cancelled? || q.kind.Failed?);
          assert q in log;
        } else {
          assert r in log;
        }
      }
      forall q | q in log && q.kind.Cancelled? ensures exists h :: h in hits && h.id == q.id {
        if q in old(log) {
          var h :| h in old(hits) && h.id == q.id;
          assert h in hits;
        } else {
          assert hit[0] in hits;
        }
      }
    }

    method DealWith(run: Listed, t: Turn)
      requires Valid()
      modifies this`runs, this`log, this`hits
      ensures Valid() && runs == RunsAfter(run, old(runs), parkedAt, t)
      ensures log == old(log) + [Report(run.id, Outcome(run, old(runs), parkedAt, t))]
    {
      ghost var hit;
      var kind;
      kind, hit := CancelOne(run, t);
      Note(Report(run.id, kind), hit);
    }

    /** Every run with an id is dealt with and reported exactly once, in the
        listing's order. */
    method CancelParkedRuns(listing: seq<Listed>, world: nat -> Turn)
      requires log == [] && hits == []
      modifies this`runs, this`log, this`hits
      ensures Valid() && Ids(log) == Owed(listing)
      ensures (runs, log) == Play(listing, |listing|, old(runs), parkedAt, world)
    {
      for i := 0 to |listing|
        invariant Valid() && (runs, log) == Play(listing, i, old(runs), parkedAt, world)
      {
        if listing[i].id == "" {
          continue;
        }
        DealWith(listing[i], world(i));
      }
      PlayReports(listing, |listing|, old(runs), parkedAt, world);
      assert listing[..|listing|] == listing;
    }
  }
}
