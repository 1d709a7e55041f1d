/** The cleanup node as it is written: what it does to the remote is a run of
    the protocol in `Cleanup`, and its record accounts for every ref. */
module CleanupNode {
  import opened Git
  import opened Cleanup

  datatype Why = Erased | Unreachable | NoPushCredential | Moved | PushFailed
  datatype Entry = Entry(ref: string, commit: Commit, why: Why)

  /** What becomes of one deletion: whether it arrived, what the push says, and the
      read that confirms it. */
  datatype Push =
    | Raises(arrived: bool)
    | SaysStale
    | SaysError(arrived: bool)
    | ExitsZero(arrived: bool, check: Check)

  datatype Check = Reads | ReadFails | ReadRaises

  /** As it should be: the push arrives, says so, and the read works. */
  const SMOOTH := ExitsZero(true, Reads)

  method SomePush() returns (p: Push) {
    var arrived: bool := *;
    var raises: bool := *;
    var stale: bool := *;
    var error: bool := *;
    var unread: bool := *;
    var interrupted: bool := *;
    p := if raises then Raises(arrived) else if stale then SaysStale else if error then SaysError(arrived)
         else ExitsZero(arrived, if unread then ReadFails else if interrupted then ReadRaises else Reads);
  }

  /** The listed refs that are (or are not) the item's, in order. */
  function Part(ids: set<string>, listing: seq<string>, mine: bool): seq<string> {
    if listing == [] then []
    else
      var rest := Part(ids, listing[..|listing| - 1], mine);
      var last := listing[|listing| - 1];
      if Mine(ids, last) == mine then rest + [last] else rest
  }

  /** The two parts are the listing: nothing is dropped, doubled or in both. */
  lemma {:induction false} PartsAreTheListing(ids: set<string>, listing: seq<string>)
    ensures multiset(Part(ids, listing, true)) + multiset(Part(ids, listing, false)) == multiset(listing)
    ensures forall r :: r in Part(ids, listing, true) <==> r in listing && Mine(ids, r)
    ensures forall r :: r in Part(ids, listing, false) <==> r in listing && !Mine(ids, r)
  {
    if listing != [] {
      var front, last := listing[..|listing| - 1], listing[|listing| - 1];
      PartsAreTheListing(ids, front);
      assert listing == front + [last];
    }
  }

  method Attribute(ids: set<string>, listing: seq<string>) returns (ours: seq<string>, others: seq<string>)
    ensures ours == Part(ids, listing, true) && others == Part(ids, listing, false)
    ensures multiset(ours) + multiset(others) == multiset(listing)
    ensures forall r :: r in ours <==> r in listing && Belongs(ids, r)
    ensures forall r :: r in others <==> r in listing && !Belongs(ids, r)
  {
    ours, others := [], [];
    for i := 0 to |listing|
      invariant ours == Part(ids, listing[..i], true) && others == Part(ids, listing[..i], false)
    {
      assert listing[..i + 1][..i] == listing[..i];
      if Mine(ids, listing[i]) {
        ours := ours + [listing[i]];
      } else {
        others := others + [listing[i]];
      }
    }
    assert listing[..|listing|] == listing;
    PartsAreTheListing(ids, listing);
    forall r ensures Mine(ids, r) <==> Belongs(ids, r) {
      MineExactly(ids, r);
    }
  }

  /** The fetched refs that the default branch reaches, in order. */
  function Reachable(ours: seq<string>, default: Commit, got: map<string, Commit>): (rs: seq<string>)
    requires forall r :: r in ours ==> r in got
    ensures forall r :: r in rs <==> r in ours && Reaches(default, got[r])
  {
    if ours == [] then []
    else
      var rest := Reachable(ours[..|ours| - 1], default, got);
      var last := ours[|ours| - 1];
      if Reaches(default, got[last]) then rest + [last] else rest
  }

  ghost function Names(rs: seq<string>): set<string> {
    set r | r in rs
  }

  lemma {:induction false} OneLess(refs: map<string, Commit>, done: seq<string>, r: string)
    ensures refs - Names(done) - {r} == refs - Names(done + [r])
  {
    assert Names(done + [r]) == Names(done) + {r};
  }

  ghost predicate Distinct(rs: seq<string>) {
    forall i, j :: 0 <= i < j < |rs| ==> rs[i] != rs[j]
  }

  lemma {:induction false} ReachableDistinct(ours: seq<string>, default: Commit, got: map<string, Commit>)
    requires (forall r :: r in ours ==> r in got) && Distinct(ours)
    ensures Distinct(Reachable(ours, default, got))
  {
    if ours != [] {
      var front, last := ours[..|ours| - 1], ours[|ours| - 1];
      ReachableDistinct(front, default, got);
      assert last !in front && last !in Reachable(front, default, got);
    }
  }

  lemma {:induction false} ReachableSet(ours: seq<string>, default: Commit, got: map<string, Commit>,
                                         refs: map<string, Commit>)
    requires (forall r :: r in ours ==> r in got) && forall r :: r in ours ==> r in refs && refs[r] == got[r]
    ensures Names(Reachable(ours, default, got)) == set r | r in ours && Reaches(default, refs[r])
    ensures Reachable(ours, default, got) != [] <==> exists r :: r in ours && Reaches(default, refs[r])
  {
    var rs := Reachable(ours, default, got);
    assert rs != [] ==> rs[0] in rs;
  }

  lemma {:induction false} PartDistinct(ids: set<string>, listing: seq<string>, mine: bool)
    requires Distinct(listing)
    ensures Distinct(Part(ids, listing, mine))
  {
    if listing != [] {
      var front, last := listing[..|listing| - 1], listing[|listing| - 1];
      PartDistinct(ids, front, mine);
      PartsAreTheListing(ids, front);
      assert last !in front && last !in Part(ids, front, mine);
    }
  }

  /** How often a ref is named in a part of the record. */
  ghost function Named(es: seq<Entry>, r: string): nat {
    if es == [] then 0
    else Named(es[..|es| - 1], r) + if es[|es| - 1].ref == r then 1 else 0
  }

  ghost function Count(rs: seq<string>, r: string): nat {
    if rs == [] then 0
    else Count(rs[..|rs| - 1], r) + if rs[|rs| - 1] == r then 1 else 0
  }

  lemma {:induction false} OneMore(es: seq<Entry>, e: Entry)
    ensures forall r :: Named(es + [e], r) == Named(es, r) + if e.ref == r then 1 else 0
  {
  }

  lemma {:induction false} OneMoreRef(rs: seq<string>, q: string)
    ensures forall r :: Count(rs + [q], r) == Count(rs, r) + if q == r then 1 else 0
  {
  }

  lemma {:induction false} CountSeen(seen: seq<string>, all: seq<string>, r: string)
    requires seen <= all
    ensures Count(seen, r) <= Count(all, r)
  {
    if |seen| < |all| {
      CountSeen(seen, all[..|all| - 1], r);
    } else {
      assert seen == all;
    }
  }

  lemma {:induction false} CountOurs(ids: set<string>, listing: seq<string>, r: string)
    requires forall i, j :: 0 <= i < j < |listing| ==> listing[i] != listing[j]
    ensures Count(Part(ids, listing, true), r) == if r in listing && Mine(ids, r) then 1 else 0
  {
    if listing != [] {
      var front, last := listing[..|listing| - 1], listing[|listing| - 1];
      CountOurs(ids, front, r);
      assert last !in front && (r in listing <==> r in front || r == last);
      OneMoreRef(Part(ids, front, true), last);
    }
  }

  /** An entry names the commit that was fetched, and whether the default branch
      reached it decided how the ref was dealt with. */
  ghost predicate Honest(default: Commit, got: map<string, Commit>, es: seq<Entry>) {
    forall e :: e in es ==>
      e.ref in got && e.commit == got[e.ref] && (e.why.Unreachable? <==> !Reaches(default, e.commit))
  }

  /** `History`, from the last step back. */
  ghost predicate Run(cfg: Config, trace: seq<State>) {
    && trace != []
    && if |trace| == 1 then trace[0].node.Start?
       else Next(cfg, trace[|trace| - 2], trace[|trace| - 1]) && Run(cfg, trace[..|trace| - 1])
  }

  lemma {:induction false} RunIsHistory(cfg: Config, trace: seq<State>)
    requires Run(cfg, trace)
    ensures History(cfg, trace)
  {
    if |trace| > 1 {
      RunIsHistory(cfg, trace[..|trace| - 1]);
    }
  }

  /** So what is proved of the protocol holds of the node as written. */
  lemma {:induction false} RunLosesNoWork(cfg: Config, trace: seq<State>)
    requires Run(cfg, trace) && !Mine(cfg.ids, DefaultRef(cfg))
    ensures SafeRun(trace)
  {
    RunIsHistory(cfg, trace);
    DefaultIsMineExactly(cfg);
    LosesNoWorkExactly(cfg);
  }

  /** At some moment after it was examined the ref of `e` was not there. */
  ghost predicate ReadGone(trace: seq<State>, e: Entry) {
    exists i :: 0 <= i < |trace| && GoneAt(trace[i], e)
  }

  ghost predicate GoneAt(s: State, e: Entry) {
    s.node.Fetched? && e.ref in s.node.got && s.node.got[e.ref] == e.commit && e.ref !in s.refs
  }

  ghost predicate AllGone(trace: seq<State>, es: seq<Entry>) {
    forall e :: e in es ==> ReadGone(trace, e)
  }

  lemma {:induction false} AllGoneStays(trace: seq<State>, longer: seq<State>, es: seq<Entry>)
    requires AllGone(trace, es) && trace <= longer
    ensures AllGone(longer, es)
  {
    forall e | e in es ensures ReadGone(longer, e) {
      var i :| 0 <= i < |trace| && GoneAt(trace[i], e);
      assert GoneAt(longer[i], e);
    }
  }

  /** Every ref that the node's own pushes removed is on record as deleted or as failed. */
  ghost predicate Accounted(erased: set<string>, deleted: seq<Entry>, failed: seq<Entry>) {
    forall r :: r in erased ==> Named(deleted, r) + Named(failed, r) > 0
  }

  lemma {:induction false} FiledIsAccounted(erased: set<string>, erased': set<string>, deleted: seq<Entry>,
                                            failed: seq<Entry>, e: Entry)
    requires Accounted(erased, deleted, failed)
    requires erased' == erased || (erased' == erased + {e.ref} && (e.why.Erased? || e.why.PushFailed?))
    ensures Accounted(erased', if e.why.Erased? then deleted + [e] else deleted,
                      if e.why.PushFailed? then failed + [e] else failed)
  {
    OneMore(deleted, e);
    OneMore(failed, e);
  }

  /** The accounting of one cleanup. */
  class Record {
    var unattributed: seq<string>
    var deleted: seq<Entry>
    var declined: seq<Entry>
    var failed: seq<Entry>            // failures that name a ref
    var errors: nat                   // failures that name none

    constructor ()
      ensures Empty() && unattributed == []
    {
      unattributed, deleted, declined, failed, errors := [], [], [], [], 0;
    }

    ghost predicate Empty()
      reads this
    {
      deleted == [] && declined == [] && failed == [] && errors == 0
    }

    ghost predicate Faithful(default: Commit, got: map<string, Commit>)
      reads this
    {
      && Honest(default, got, deleted) && Honest(default, got, declined) && Honest(default, got, failed)
      && (forall e :: e in deleted ==> e.why.Erased?)
      && (forall e :: e in declined ==> e.why.Unreachable? || e.why.Moved? || e.why.NoPushCredential?)
      && (forall e :: e in failed ==> e.why.PushFailed?)
    }

    ghost predicate Adds(e: Entry, before: seq<Entry>)
      reads this
    {
      deleted == before + [e]
    }

    /** How often a ref is reported. */
    ghost function Reported(r: string): nat
      reads this
    {
      Named(deleted, r) + Named(declined, r) + Named(failed, r)
    }

    /** File an entry under deleted, declined or failed, as its reason says. */
    method File(e: Entry, ghost default: Commit, ghost got: map<string, Commit>)
      requires Faithful(default, got) && Honest(default, got, [e])
      modifies this`deleted, this`declined, this`failed
      ensures Faithful(default, got)
      ensures deleted == if e.why.Erased? then old(deleted) + [e] else old(deleted)
      ensures failed == if e.why.PushFailed? then old(failed) + [e] else old(failed)
      ensures declined == if e.why.Erased? || e.why.PushFailed? then old(declined) else old(declined) + [e]
      ensures forall r :: Reported(r) == old(Reported(r)) + if e.ref == r then 1 else 0
    {
      assert e in [e];
      if e.why.Erased? {
        OneMore(deleted, e);
        deleted := deleted + [e];
      } else if e.why.PushFailed? {
        OneMore(failed, e);
        failed := failed + [e];
      } else {
        OneMore(declined, e);
        declined := declined + [e];
      }
    }
  }

  /** The refs of the two namespaces. */
  ghost predicate IsListing(refs: map<string, Commit>, listed: seq<string>) {
    forall r :: r in listed <==> r in refs && ("refs/culture-nodes/" <= r || "refs/heads/review-fix/" <= r)
  }

  ghost predicate AreOurs(ids: set<string>, refs: map<string, Commit>, ours: seq<string>) {
    forall r :: r in ours <==> r in refs && Belongs(ids, r)
  }

  lemma {:induction false} OursAre(ids: set<string>, refs: map<string, Commit>, listed: seq<string>, ours: seq<string>)
    requires IsListing(refs, listed) && forall r :: r in ours <==> r in listed && Belongs(ids, r)
    ensures AreOurs(ids, refs, ours)
  {
    forall r | r in refs && Belongs(ids, r) ensures r in listed {
      var id, a, part, b :| id in ids && NamedAfter(r, id, a, part, b);
    }
  }

  /** What a cleanup that is left alone has done with the item's fetched refs. */
  ghost predicate Disposed(barred: bool, before: map<string, Commit>, after: map<string, Commit>, ours: seq<string>,
                           default: Commit, record: Record)
    requires forall r :: r in ours ==> r in before
    reads record
  {
    && record.failed == []
    && (!barred ==>
          && after == before - (set r | r in ours && Reaches(default, before[r]))
          && forall e :: e in record.declined ==> e.why.Unreachable?)
    && (barred ==>
          && after == before && (forall e :: e in record.declined ==> !e.why.Moved?)
          && record.errors == if exists r :: r in ours && Reaches(default, before[r]) then 1 else 0)
  }

  /** The item's refs that the default branch reaches. */
  ghost function Doomed(cfg: Config, refs: map<string, Commit>): set<string>
    requires DefaultRef(cfg) in refs
  {
    set r | r in refs && Belongs(cfg.ids, r) && Reaches(refs[DefaultRef(cfg)], refs[r])
  }

  /** What a cleanup that is left alone comes to: without the credential it needs
      nothing goes, without a default branch nothing is decided. */
  ghost predicate Cleaned(cfg: Config, barred: bool, before: map<string, Commit>, after: map<string, Commit>,
                          raised: bool, record: Record)
    reads record
  {
    && record.failed == []
    && (raised <==> DefaultRef(cfg) !in before && exists r :: r in before && Belongs(cfg.ids, r))
    && (raised || barred ==> after == before)
    && (!barred ==> forall e :: e in record.declined ==> e.why.Unreachable?)
    && (!barred && DefaultRef(cfg) in before ==> after == before - Doomed(cfg, before))
  }

  lemma {:induction false} ItIsCleaned(cfg: Config, barred: bool, before: map<string, Commit>,
                                       after: map<string, Commit>, ours: seq<string>, raised: bool, record: Record)
    requires AreOurs(cfg.ids, before, ours) && (raised <==> ours != [] && DefaultRef(cfg) !in before)
    requires ours == [] || raised ==> after == before && record.declined == [] && record.failed == []
    requires ours != [] && !raised ==> Disposed(barred, before, after, ours, before[DefaultRef(cfg)], record)
    ensures Cleaned(cfg, barred, before, after, raised, record)
  {
    assert ours != [] ==> ours[0] in ours;
    if DefaultRef(cfg) in before {
      assert (set r | r in ours && Reaches(before[DefaultRef(cfg)], before[r])) == Doomed(cfg, before);
    }
  }

  class Cleaner {
    const cfg: Config
    const network: bool               // the remote is reached over http(s)
    const token: bool                 // a push credential was granted
    var refs: map<string, Commit>     // the remote, which others write too
    ghost var node: Node
    ghost var trace: seq<State>
    ghost var erased: set<string>     // the refs this node's pushes removed

    constructor (cfg: Config, network: bool, token: bool, refs: map<string, Commit>)
      ensures this.cfg == cfg && this.network == network && this.token == token && this.refs == refs
      ensures Valid() && node.Start? && erased == {}
    {
      this.cfg, this.network, this.token, this.refs := cfg, network, token, refs;
      node, trace, erased := Start, [State(refs, Start)], {};
    }

    /** Everything so far was a step of the protocol. */
    ghost predicate Valid()
      reads this
    {
      Run(cfg, trace) && trace[|trace| - 1] == State(refs, node)
    }

    ghost method Note()
      requires Run(cfg, trace) && Next(cfg, trace[|trace| - 1], State(refs, node))
      modifies this`trace
      ensures Valid() && trace == old(trace) + [State(refs, node)]
    {
      assert (trace + [State(refs, node)])[..|trace|] == trace;
      trace := trace + [State(refs, node)];
    }

    /** Other workers get their turn, unless the run is left alone. */
    method Others(calm: bool)
      requires Valid()
      modifies this`refs, this`trace
      ensures Valid() && old(trace) <= trace
      ensures calm ==> refs == old(refs)
    {
      var written: map<string, Commit> := *;
      var d := DefaultRef(cfg);
      if !calm && (d in refs ==> d in written && Reaches(written[d], refs[d])) {
        refs := written;
        assert OthersWrite(cfg, trace[|trace| - 1], State(refs, node));
        Note();
      }
    }

    /** The refs under the two prefixes the node lists. */
    method ListRefs() returns (listing: seq<string>)
      requires Valid() && node.Start?
      modifies this`node, this`trace
      ensures Valid() && old(trace) <= trace && node.Listed? && Distinct(listing)
      ensures forall r :: r in listing <==> r in refs && (HANDOVER_PREFIX <= r || REVIEW_FIX_PREFIX <= r)
      ensures forall r :: r in node.ours <==> r in listing && Mine(cfg.ids, r)
    {
      listing := [];
      var left := refs.Keys;
      while left != {}
        invariant left <= refs.Keys
        invariant forall r :: r in listing <==>
                    r in refs.Keys - left && (HANDOVER_PREFIX <= r || REVIEW_FIX_PREFIX <= r)
        invariant forall i, j :: 0 <= i < j < |listing| ==> listing[i] != listing[j]
      {
        var r :| r in left;
        assert r !in listing;
        left := left - {r};
        if HANDOVER_PREFIX <= r || REVIEW_FIX_PREFIX <= r {
          listing := listing + [r];
        }
      }
      node := Listed(set r | r in refs && Mine(cfg.ids, r));
      assert Lists(cfg, trace[|trace| - 1], State(refs, node));
      Note();
    }

    /** Fetch the default branch and the item's refs in one go. */
    method Fetch(ours: seq<string>, broken: bool) returns (raised: bool, default: Commit, got: map<string, Commit>)
      requires Valid() && node.Listed?
      requires forall r :: r in ours <==> r in node.ours
      modifies this`node, this`trace
      ensures Valid() && old(trace) <= trace
      ensures raised <==> broken || DefaultRef(cfg) !in refs || exists r :: r in ours && r !in refs
      ensures !raised ==>
                && node == Fetched(default, got) && default == refs[DefaultRef(cfg)]
                && (forall r :: r in got <==> r in ours) && forall r :: r in ours ==> got[r] == refs[r]
    {
      var c: Commit := *;
      default, got := c, map[];
      raised := broken || DefaultRef(cfg) !in refs || exists r :: r in ours && r !in refs;
      if raised {
        return;
      }
      default := refs[DefaultRef(cfg)];
      got := map r | r in ours :: refs[r];
      assert got == (map r | r in node.ours :: refs[r]);
      node := Fetched(default, got);
      assert Fetches(cfg, trace[|trace| - 1], State(refs, node));
      Note();
    }

    /** Decline what the default branch does not reach; the rest may go. Any of
        the git calls may raise. */
    method Examine(record: Record, ours: seq<string>, default: Commit, got: map<string, Commit>, calm: bool)
      returns (raised: bool, reachable: seq<string>, ghost seen: seq<string>)
      requires record.Faithful(default, got)
      requires forall r :: r in ours ==> r in got
      modifies record`deleted, record`declined, record`failed
      ensures record.Faithful(default, got)
      ensures record.deleted == old(record.deleted) && record.failed == old(record.failed)
      ensures seen <= ours && (!raised ==> seen == ours)
      ensures forall r :: record.Reported(r) + Count(reachable, r) == old(record.Reported(r)) + Count(seen, r)
      ensures forall r :: r in reachable ==> r in got && Reaches(default, got[r])
      ensures (calm ==> !raised) && (!raised ==> reachable == Reachable(ours, default, got))
      ensures forall e :: e in record.declined ==> e in old(record.declined) || e.why.Unreachable?
    {
      reachable, seen := [], [];
      for i := 0 to |ours|
        invariant record.Faithful(default, got) && seen == ours[..i]
        invariant record.deleted == old(record.deleted) && record.failed == old(record.failed)
        invariant forall r :: record.Reported(r) + Count(reachable, r) == old(record.Reported(r)) + Count(seen, r)
        invariant reachable == Reachable(ours[..i], default, got)
        invariant forall e :: e in record.declined ==> e in old(record.declined) || e.why.Unreachable?
      {
        raised := *;
        if raised && !calm {
          return;
        }
        raised := false;
        assert ours[..i + 1][..i] == ours[..i];
        var r := ours[i];
        OneMoreRef(seen, r);
        OneMoreRef(reachable, r);
        seen := seen + [r];
        if Reaches(default, got[r]) {
          reachable := reachable + [r];
        } else {
          record.File(Entry(r, got[r], Unreachable), default, got);
        }
      }
      raised := false;
      assert ours[..|ours|] == ours;
    }

    /** Without a credential a network remote is not pushed to. */
    method DeclineAll(record: Record, reachable: seq<string>, ghost default: Commit, got: map<string, Commit>)
      requires record.Faithful(default, got)
      requires forall r :: r in reachable ==> r in got && Reaches(default, got[r])
      modifies record`deleted, record`declined, record`failed
      ensures record.Faithful(default, got)
      ensures record.deleted == old(record.deleted) && record.failed == old(record.failed)
      ensures forall r :: record.Reported(r) == old(record.Reported(r)) + Count(reachable, r)
      ensures forall e :: e in record.declined ==> e in old(record.declined) || e.why.NoPushCredential?
    {
      for i := 0 to |reachable|
        invariant record.Faithful(default, got)
        invariant record.deleted == old(record.deleted) && record.failed == old(record.failed)
        invariant forall r :: record.Reported(r) == old(record.Reported(r)) + Count(reachable[..i], r)
        invariant forall e :: e in record.declined ==> e in old(record.declined) || e.why.NoPushCredential?
      {
        OneMoreRef(reachable[..i], reachable[i]);
        assert reachable[..i + 1] == reachable[..i] + [reachable[i]];
        record.File(Entry(reachable[i], got[reachable[i]], NoPushCredential), default, got);
      }
      assert reachable[..|reachable|] == reachable;
    }

    /** The remote takes the deletion, which its lease allows. */
    method Erase(r: string)
      requires Valid() && node.Fetched? && r in node.got && Reaches(node.default, node.got[r])
      requires r in refs && refs[r] == node.got[r]
      modifies this`refs, this`trace, this`erased
      ensures Valid() && trace == old(trace) + [State(refs, node)] && refs == old(refs) - {r}
      ensures Deletes(trace[|trace| - 2], r, trace[|trace| - 1]) && erased == old(erased) + {r}
    {
      refs := refs - {r};
      erased := erased + {r};
      assert Deletes(trace[|trace| - 1], r, State(refs, node));
      Note();
    }

    /** One leased deletion and the read that confirms it. A push that exits 0
        need not have had an effect, and the read may fail. */
    method DeleteRef(r: string, ghost default: Commit, got: map<string, Commit>, push: Push, calm: bool)
      returns (raised: bool, why: Why)
      requires Valid() && node == Fetched(default, got)
      requires r in got && Reaches(default, got[r])
      modifies this`refs, this`trace, this`erased
      ensures Valid() && old(trace) <= trace
      ensures raised <==> push.Raises? || (push.ExitsZero? && push.check.ReadRaises?)
      ensures !raised ==>
                why == match push
                       case SaysStale => Moved
                       case ExitsZero(_, Reads) => if r in refs then PushFailed else Erased
                       case _ => PushFailed
      ensures !raised && why.Erased? ==> ReadGone(trace, Entry(r, got[r], Erased))
      ensures erased == old(erased) || (erased == old(erased) + {r} && !push.SaysStale?)
      ensures calm && !push.SaysStale? && push.arrived && r in old(refs) && old(refs)[r] == got[r] ==>
                refs == old(refs) - {r} && erased == old(erased) + {r}
    {
      Others(calm);
      if !push.SaysStale? && push.arrived && r in refs && refs[r] == got[r] {
        Erase(r);
      }
      raised, why := push.Raises?, if push.SaysStale? then Moved else PushFailed;
      if push.ExitsZero? {
        Others(calm);
        raised := push.check.ReadRaises?;
        why := if push.check.Reads? && r !in refs then Erased else PushFailed;
        assert r !in refs ==> GoneAt(trace[|trace| - 1], Entry(r, got[r], Erased));
      }
    }

    /** Try one deletion and file the outcome. */
    method DeleteAndFile(record: Record, r: string, ghost default: Commit, got: map<string, Commit>, calm: bool)
      returns (raised: bool)
      requires Valid() && node == Fetched(default, got)
      requires record.Faithful(default, got) && AllGone(trace, record.deleted)
      requires Accounted(erased, record.deleted, record.failed)
      requires r in got && Reaches(default, got[r])
      modifies this`refs, this`trace, this`erased, record`deleted, record`declined, record`failed
      ensures Valid() && old(trace) <= trace
      ensures record.Faithful(default, got) && AllGone(trace, record.deleted)
      ensures !raised ==> Accounted(erased, record.deleted, record.failed)
      ensures forall q :: record.Reported(q) == old(record.Reported(q)) + if q == r && !raised then 1 else 0
      ensures calm && r in old(refs) && old(refs)[r] == got[r] ==>
                !raised && refs == old(refs) - {r} && record.Adds(Entry(r, got[r], Erased), old(record.deleted)) &&
                record.declined == old(record.declined) && record.failed == old(record.failed)
    {
      var push := SomePush();
      if calm {
        push := SMOOTH;
      }
      var why: Why;
      raised, why := DeleteRef(r, default, got, push, calm);
      AllGoneStays(old(trace), trace, record.deleted);
      if !raised {
        var e := Entry(r, got[r], why);
        FiledIsAccounted(old(erased), erased, record.deleted, record.failed, e);
        record.File(e, default, got);
      }
    }

    method DeleteAll(record: Record, reachable: seq<string>, ghost default: Commit, got: map<string, Commit>,
                     calm: bool)
      returns (raised: bool, ghost done: seq<string>)
      requires Valid() && node == Fetched(default, got)
      requires record.Faithful(default, got) && AllGone(trace, record.deleted)
      requires Accounted(erased, record.deleted, record.failed)
      requires forall r :: r in reachable ==> r in got && Reaches(default, got[r])
      requires calm ==> Distinct(reachable) && forall r :: r in reachable ==> r in refs && refs[r] == got[r]
      modifies this`refs, this`trace, this`erased, record`deleted, record`declined, record`failed
      ensures Valid() && old(trace) <= trace
      ensures record.Faithful(default, got) && AllGone(trace, record.deleted)
      ensures !raised ==> Accounted(erased, record.deleted, record.failed)
      ensures done <= reachable && (!raised ==> done == reachable)
      ensures forall r :: record.Reported(r) == old(record.Reported(r)) + Count(done, r)
      ensures calm ==> !raised && refs == old(refs) - Names(reachable)
      ensures calm ==> record.declined == old(record.declined) && record.failed == old(record.failed)
    {
      done := [];
      for i := 0 to |reachable|
        invariant Valid() && old(trace) <= trace
        invariant record.Faithful(default, got) && AllGone(trace, record.deleted)
        invariant Accounted(erased, record.deleted, record.failed)
        invariant done == reachable[..i]
        invariant forall r :: record.Reported(r) == old(record.Reported(r)) + Count(done, r)
        invariant calm ==> refs == old(refs) - Names(done)
        invariant calm ==> record.declined == old(record.declined) && record.failed == old(record.failed)
      {
        OneMoreRef(done, reachable[i]);
        raised := DeleteAndFile(record, reachable[i], default, got, calm);
        if raised {
          return;
        }
        OneLess(old(refs), done, reachable[i]);
        done := done + [reachable[i]];
      }
      raised := false;
      assert reachable[..|reachable|] == reachable;
    }

    /** Delete what is reachable, or decline it all for want of a credential. */
    method Act(record: Record, reachable: seq<string>, ghost default: Commit, got: map<string, Commit>, calm: bool)
      returns (raised: bool, ghost done: seq<string>)
      requires Valid() && node == Fetched(default, got) && erased == {} && record.errors == 0
      requires record.Faithful(default, got) && record.deleted == [] && record.failed == []
      requires forall r :: r in reachable ==> r in got && Reaches(default, got[r])
      requires calm ==> Distinct(reachable) && forall r :: r in reachable ==> r in refs && refs[r] == got[r]
      modifies this`refs, this`trace, this`erased, record`deleted, record`declined, record`failed, record`errors
      ensures Valid() && old(trace) <= trace
      ensures record.Faithful(default, got) && AllGone(trace, record.deleted)
      ensures done <= reachable && (!raised ==> done == reachable)
      ensures forall r :: record.Reported(r) == old(record.Reported(r)) + Count(done, r)
      ensures !raised ==> Accounted(erased, record.deleted, record.failed)
      ensures network && !token ==>
                && !raised && refs == old(refs) && record.deleted == [] && record.failed == [] && erased == {}
                && record.errors == 1
                && forall e :: e in record.declined ==> e in old(record.declined) || e.why.NoPushCredential?
      ensures token || !network ==> record.errors == 0
      ensures calm && (token || !network) ==>
                && !raised && refs == old(refs) - Names(reachable)
                && record.declined == old(record.declined) && record.failed == []
    {
      done := [];
      if network && !token {
        DeclineAll(record, reachable, default, got);
        record.errors := record.errors + 1;
        return false, reachable;
      }
      raised := *;
      if raised && !calm {
        return;
      }
      raised, done := DeleteAll(record, reachable, default, got, calm);
    }

    /** What follows the fetch: examine, then delete what is reachable. */
    method Dispose(record: Record, ours: seq<string>, default: Commit, got: map<string, Commit>, calm: bool)
      returns (raised: bool)
      requires Valid() && node == Fetched(default, got) && record.Empty() && erased == {}
      requires forall r :: r in ours ==> r in got
      requires calm ==> Distinct(ours) && forall r :: r in ours ==> r in refs && refs[r] == got[r]
      modifies this`refs, this`trace, this`erased, record`deleted, record`declined, record`failed, record`errors
      ensures Valid() && old(trace) <= trace
      ensures record.Faithful(default, got) && AllGone(trace, record.deleted)
      ensures forall r :: record.Reported(r) <= Count(ours, r)
      ensures !raised ==> forall r :: record.Reported(r) == Count(ours, r)
      ensures !raised ==> Accounted(erased, record.deleted, record.failed)
      ensures network && !token ==> record.deleted == [] && record.failed == [] && erased == {}
      ensures raised ==> record.errors == 0
      ensures calm ==> !raised && Disposed(network && !token, old(refs), refs, ours, default, record)
    {
      ghost var seen: seq<string>;
      var reachable: seq<string>;
      raised, reachable, seen := Examine(record, ours, default, got, calm);
      forall r ensures Count(seen, r) <= Count(ours, r) {
        CountSeen(seen, ours, r);
      }
      if calm {
        ReachableDistinct(ours, default, got);
        ReachableSet(ours, default, got, refs);
      }
      if raised || reachable == [] {
        return;
      }
      ghost var done: seq<string>;
      raised, done := Act(record, reachable, default, got, calm);
      forall r ensures Count(done, r) <= Count(reachable, r) {
        CountSeen(done, reachable, r);
      }
    }

    method ListAndAttribute(record: Record) returns (ours: seq<string>, listed: seq<string>)
      requires Valid() && node.Start?
      modifies this`node, this`trace, record`unattributed
      ensures Valid() && old(trace) <= trace && node.Listed? && Distinct(ours)
      ensures forall r :: r in ours <==> r in node.ours
      ensures IsListing(refs, listed)
      ensures forall r :: r in ours <==> r in listed && Belongs(cfg.ids, r)
      ensures forall r :: Count(ours, r) == if r in ours then 1 else 0
      ensures forall r :: r in record.unattributed <==> r in listed && !Belongs(cfg.ids, r)
    {
      listed := ListRefs();
      ours, record.unattributed := Attribute(cfg.ids, listed);
      PartsAreTheListing(cfg.ids, listed);
      PartDistinct(cfg.ids, listed, true);
      forall r ensures Count(ours, r) == if r in ours then 1 else 0 {
        CountOurs(cfg.ids, listed, r);
      }
    }

    method FetchAndDispose(record: Record, ours: seq<string>, calm: bool)
      returns (raised: bool, ghost default: Commit, ghost got: map<string, Commit>)
      requires Valid() && node.Listed? && record.Empty() && erased == {} && Distinct(ours)
      requires forall r :: r in ours <==> r in node.ours
      requires calm ==> forall r :: r in ours ==> r in refs
      modifies this`refs, this`node, this`trace, this`erased
      modifies record`deleted, record`declined, record`failed, record`errors
      ensures Valid() && old(trace) <= trace
      ensures record.Faithful(default, got) && AllGone(trace, record.deleted)
      ensures forall r :: record.Reported(r) <= Count(ours, r)
      ensures !raised ==> forall r :: record.Reported(r) == Count(ours, r)
      ensures !raised ==> Accounted(erased, record.deleted, record.failed)
      ensures network && !token ==> record.deleted == [] && record.failed == [] && erased == {}
      ensures raised ==> record.errors == 1
      ensures calm ==> (raised <==> DefaultRef(cfg) !in old(refs))
      ensures calm && raised ==> refs == old(refs) && record.declined == [] && record.failed == []
      ensures calm && !raised ==>
                && default == old(refs)[DefaultRef(cfg)]
                && Disposed(network && !token, old(refs), refs, ours, default, record)
    {
      Others(calm);
      var broken: bool := *;
      var tip, fetched;
      raised, tip, fetched := Fetch(ours, broken && !calm);
      default, got := tip, fetched;
      if !raised {
        raised := Dispose(record, ours, tip, fetched, calm);
      }
      if raised {
        record.errors := record.errors + 1;
      }
    }

    /** List and attribute, then fetch and dispose. */
    method ListAndClean(record: Record, calm: bool)
      returns (raised: bool, ghost listed: seq<string>, ghost ours: seq<string>,
               ghost default: Commit, ghost got: map<string, Commit>)
      requires Valid() && node.Start? && record.Empty() && record.unattributed == [] && erased == {}
      modifies this`refs, this`node, this`trace, this`erased, record
      ensures Valid() && old(trace) <= trace
      ensures record.Faithful(default, got) && AllGone(trace, record.deleted)
      ensures forall r :: r in ours <==> r in listed && Belongs(cfg.ids, r)
      ensures forall r :: record.Reported(r) <= if r in ours then 1 else 0
      ensures !raised ==> forall r :: record.Reported(r) == if r in ours then 1 else 0
      ensures !raised ==> Accounted(erased, record.deleted, record.failed)
      ensures forall r :: r in record.unattributed <==> r in listed && !Belongs(cfg.ids, r)
      ensures raised ==> record.errors == 1
      ensures network && !token ==> record.deleted == [] && record.failed == [] && erased == {}
      ensures IsListing(old(refs), listed)
      ensures calm ==> Cleaned(cfg, network && !token, old(refs), refs, raised, record)
    {
      got, raised := map[], false;
      var tip: Commit := *;
      default := tip;
      var mine: seq<string>;
      mine, listed := ListAndAttribute(record);
      ours := mine;
      OursAre(cfg.ids, refs, listed, mine);
      if mine != [] {
        raised, default, got := FetchAndDispose(record, mine, calm);
      }
      if calm {
        ItIsCleaned(cfg, network && !token, old(refs), refs, mine, raised, record);
      }
    }

    /** Clean the refs. Whatever happens, every step taken is the protocol's,
        every ref recorded as deleted was read as gone, and no ref is reported
        twice; if no git call raises, every ref of the item is reported exactly
        once, and what the node removed is on record as deleted or failed. When
        every call works and nobody else writes, exactly the item's refs that the
        default branch reaches are gone afterwards. */
    method CleanRefs(record: Record, calm: bool)
      returns (raised: bool, ghost listed: seq<string>, ghost default: Commit, ghost got: map<string, Commit>)
      requires Valid() && node.Start? && record.Empty() && record.unattributed == [] && erased == {}
      modifies this`refs, this`node, this`trace, this`erased, record
      ensures Valid() && old(trace) <= trace
      ensures record.Faithful(default, got) && AllGone(trace, record.deleted)
      ensures forall r :: record.Reported(r) <= if r in listed && Belongs(cfg.ids, r) then 1 else 0
      ensures !raised ==> forall r :: record.Reported(r) == if r in listed && Belongs(cfg.ids, r) then 1 else 0
      ensures !raised ==> Accounted(erased, record.deleted, record.failed)
      ensures forall r :: r in record.unattributed <==> r in listed && !Belongs(cfg.ids, r)
      ensures raised ==> record.errors == 1
      ensures network && !token ==> record.deleted == [] && record.failed == [] && erased == {}
      ensures calm ==> IsListing(old(refs), listed)
      ensures calm ==> Cleaned(cfg, network && !token, old(refs), refs, raised, record)
    {
      listed, got := [], map[];
      var tip: Commit := *;
      default := tip;
      Others(calm);
      raised := *;
      if raised && !calm {
        record.errors := record.errors + 1;
        return;
      }
      ghost var ours: seq<string>;
      raised, listed, ours, default, got := ListAndClean(record, calm);
    }
  }
}
