/** `resolve_step` as it is written: resolve each landed finding's thread once,
    over any number of attempts that may stop anywhere. */
module LandResolve {
  import opened LandReply

  function Mark(threads: seq<Thread>, id: string): (r: seq<Thread>)
    ensures |r| == |threads|
  {
    seq(|threads|, i requires 0 <= i < |threads| =>
      if threads[i].id == id then threads[i].(resolved := true) else threads[i])
  }

  /** The same threads, some of them resolved since. */
  ghost predicate OnlyResolved(a: seq<Thread>, b: seq<Thread>) {
    |a| == |b| && forall i :: 0 <= i < |a| ==> b[i] == a[i] || b[i] == a[i].(resolved := true)
  }

  ghost predicate ResolvedAll(threads: seq<Thread>, id: string) {
    forall i :: 0 <= i < |threads| && threads[i].id == id ==> threads[i].resolved
  }

  lemma {:induction false} SameMatch(f: Finding, a: seq<Thread>, b: seq<Thread>)
    requires OnlyResolved(a, b)
    ensures Match(f, a) == Match(f, b)
  {
  }

  /** The thread of finding `k`, if it has one, is resolved. */
  ghost predicate Closed(s: Landing, threads: seq<Thread>, k: nat)
    requires k < |s.findings|
  {
    var m := Match(s.findings[k], threads);
    m < |threads| ==> threads[m].resolved
  }

  lemma {:induction false} ClosedStays(s: Landing, a: seq<Thread>, id: string, n: nat)
    requires n <= |s.findings| && forall k :: 0 <= k < n ==> Closed(s, a, k)
    ensures forall k :: 0 <= k < n ==> Closed(s, Mark(a, id), k)
  {
    forall k | 0 <= k < n ensures Closed(s, Mark(a, id), k) {
      assert Closed(s, a, k);
      SameMatch(s.findings[k], a, Mark(a, id));
    }
  }

  /** Some landed finding's thread. */
  ghost predicate Landed(s: Landing, threads: seq<Thread>, id: string) {
    exists k :: 0 <= k < |s.findings| && ThreadIs(s, threads, k, id)
  }

  ghost predicate ThreadIs(s: Landing, threads: seq<Thread>, k: nat, id: string)
    requires k < |s.findings|
  {
    var m := Match(s.findings[k], threads);
    m < |threads| && threads[m].id == id && !threads[m].resolved
  }

  /** So an attempt after a completed one has no call to make. */
  lemma {:induction false} NothingToResolve(s: Landing, threads: seq<Thread>, id: string)
    requires forall k :: 0 <= k < |s.findings| ==> Closed(s, threads, k)
    ensures !Landed(s, threads, id)
  {
    forall k | 0 <= k < |s.findings| ensures !ThreadIs(s, threads, k, id) {
      assert Closed(s, threads, k);
    }
  }

  /** What an attempt that read `seen` and has resolved `done` has brought about. */
  ghost predicate Since(seen: seq<Thread>, now: seq<Thread>, done: set<string>) {
    && OnlyResolved(seen, now)
    && (forall i :: 0 <= i < |seen| && now[i].resolved && !seen[i].resolved ==> seen[i].id in done)
    && forall i :: 0 <= i < |seen| && seen[i].id in done ==> now[i].resolved
  }

  /** What was resolved since `seen` are threads of landed findings. */
  ghost predicate OnlyLanded(s: Landing, seen: seq<Thread>, now: seq<Thread>) {
    |seen| == |now| && forall i :: 0 <= i < |now| && now[i] != seen[i] ==> Landed(s, seen, now[i].id)
  }

  ghost predicate CalledLanded(s: Landing, seen: seq<Thread>, calls: seq<string>, from: nat) {
    forall i :: from <= i < |calls| ==> Landed(s, seen, calls[i])
  }

  ghost predicate OnlyThreadOf(s: Landing, seen: seq<Thread>, before: seq<Thread>, now: seq<Thread>, k: nat)
    requires k < |s.findings|
  {
    |before| == |now| && forall i :: 0 <= i < |now| && now[i] != before[i] ==> ThreadIs(s, seen, k, now[i].id)
  }

  lemma {:induction false} OneThreadMore(s: Landing, seen: seq<Thread>, before: seq<Thread>, now: seq<Thread>, k: nat)
    requires k < |s.findings| && OnlyLanded(s, seen, before) && OnlyThreadOf(s, seen, before, now, k)
    ensures OnlyLanded(s, seen, now)
  {
  }

  lemma {:induction false} OneCallMore(s: Landing, seen: seq<Thread>, called: seq<string>, calls: seq<string>,
                                       from: nat, k: nat)
    requires k < |s.findings| && from <= |called| && CalledLanded(s, seen, called, from)
    requires called <= calls && (calls == called || (|calls| == |called| + 1 && ThreadIs(s, seen, k, calls[|called|])))
    ensures CalledLanded(s, seen, calls, from)
  {
  }

  class PullRequest {
    var threads: seq<Thread>
    ghost var calls: seq<string>     // the resolutions that took effect, by thread

    constructor (threads: seq<Thread>)
      ensures this.threads == threads && calls == [] && Valid()
    {
      this.threads, calls := threads, [];
    }

    /** No thread was resolved twice, and what was resolved stays so. */
    ghost predicate Valid()
      reads this
    {
      && (forall i, j :: 0 <= i < j < |calls| ==> calls[i] != calls[j])
      && forall i :: 0 <= i < |calls| ==> ResolvedAll(threads, calls[i])
    }

    /** The mutation, which takes effect unless it fails before that. */
    method Resolve(id: string, ok: bool, takes: bool)
      requires Valid() && (exists i :: 0 <= i < |threads| && threads[i].id == id && !threads[i].resolved)
      modifies this`threads, this`calls
      ensures Valid()
      ensures ok || takes ==> calls == old(calls) + [id] && threads == Mark(old(threads), id)
      ensures !ok && !takes ==> calls == old(calls) && threads == old(threads)
    {
      if ok || takes {
        calls := calls + [id];
        threads := Mark(threads, id);
      }
    }

    /** Resolve the thread of finding `k` unless it was resolved before or in
        this attempt; `works` is whether the call succeeds. */
    method CloseThread(s: Landing, seen: seq<Thread>, done: set<string>, k: nat, works: bool, takes: bool)
      returns (ok: bool, done': set<string>)
      requires Valid() && k < |s.findings| && Since(seen, threads, done)
      modifies this`threads, this`calls
      ensures Valid() && old(calls) <= calls && OnlyResolved(seen, threads)
      ensures works ==> ok
      ensures ok ==> Since(seen, threads, done') && Closed(s, threads, k)
      ensures ok ==> threads == old(threads) || exists id :: threads == Mark(old(threads), id)
      ensures calls == old(calls) || (|calls| == |old(calls)| + 1 && ThreadIs(s, seen, k, calls[|old(calls)|]))
      ensures OnlyResolved(old(threads), threads)
      ensures OnlyThreadOf(s, seen, old(threads), threads, k)
    {
      var m := Match(s.findings[k], seen);
      SameMatch(s.findings[k], seen, threads);
      ok, done' := true, done;
      if m < |seen| && !seen[m].resolved && seen[m].id !in done {
        SameMatch(s.findings[k], seen, Mark(threads, seen[m].id));
        Resolve(seen[m].id, works, takes);
        ok := works;
        done' := done + {seen[m].id};
      }
    }

    /** One attempt, in which the call for finding `stop` fails. It resolves only
        open threads of findings, and when it completes every finding's thread is
        resolved. */
    method ResolveStep(s: Landing, stop: nat, takes: bool) returns (completed: bool)
      requires Valid()
      modifies this`threads, this`calls
      ensures Valid() && old(calls) <= calls && OnlyResolved(old(threads), threads)
      ensures CalledLanded(s, old(threads), calls, |old(calls)|) && OnlyLanded(s, old(threads), threads)
      ensures completed ==> forall k :: 0 <= k < |s.findings| ==> Closed(s, threads, k)
      ensures stop >= |s.findings| ==> completed
    {
      var seen := threads;
      var done: set<string> := {};
      for k := 0 to |s.findings|
        invariant Valid() && old(calls) <= calls && Since(seen, threads, done)
        invariant forall j :: 0 <= j < k ==> Closed(s, threads, j)
        invariant CalledLanded(s, seen, calls, |old(calls)|) && OnlyLanded(s, seen, threads)
      {
        ghost var before := threads;
        ghost var called := calls;
        completed, done := CloseThread(s, seen, done, k, k != stop, takes);
        OneThreadMore(s, seen, before, threads, k);
        OneCallMore(s, seen, called, calls, |old(calls)|, k);
        if !completed {
          return;
        }
        if id :| threads == Mark(before, id) {
          ClosedStays(s, before, id, k);
        }
      }
      completed := true;
    }
  }
}
