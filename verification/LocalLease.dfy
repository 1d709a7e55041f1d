/** The lander's local lease: a lock directory with a holder file, reclaimed
    when the holder is a dead process of the same host. Any number of landers
    interleave their file operations and may die between any two of them. */
module LocalLease {

  /** A process that ever uses the lock; process ids are not reused. */
  datatype Proc = Proc(host: nat, pid: nat)

  datatype Holder = Unwritten | Written(writer: Proc)

  /** The lock path: nothing, or a directory made by `owner`. */
  datatype Lock = Absent | Dir(owner: Proc, holder: Holder)

  datatype Pc =
    | Idle
    | Making(reclaimed: bool)   // about to mkdir
    | Reading(reclaimed: bool)  // mkdir found the directory; about to read the holder
    | Reclaiming                // judged the holder stale; about to remove its file
    | ReclaimingDir             // about to remove the directory
    | Writing                   // made the directory; about to write the holder
    | Held                      // acquire returned True
    | Releasing                 // removed its holder file; about to remove the directory
    | Dead

  datatype State = State(lock: Lock, pcs: map<Proc, Pc>)

  ghost predicate At(s: State, p: Proc, pc: Pc) {
    p in s.pcs && s.pcs[p] == pc
  }

  function Go(s: State, p: Proc, pc: Pc): State {
    s.(pcs := s.pcs[p := pc])
  }

  /** Removing the holder file, then the directory: `rmtree` with errors ignored. */
  function Emptied(l: Lock): Lock {
    if l.Dir? then Dir(l.owner, Unwritten) else l
  }

  function Removed(l: Lock): Lock {
    if l.Dir? && l.holder.Unwritten? then Absent else l
  }

  // ---- steps of process `p` ------------------------------------------------

  ghost predicate Starts(s: State, p: Proc, s': State) {
    At(s, p, Idle) && s' == Go(s, p, Making(false))
  }

  ghost predicate Makes(s: State, p: Proc, s': State) {
    && p in s.pcs && s.pcs[p].Making?
    && s' == if s.lock.Absent? then Go(s.(lock := Dir(p, Unwritten)), p, Writing)
             else Go(s, p, Reading(s.pcs[p].reclaimed))
  }

  /** The holder file may be missing, half written or unreadable, which reads
      as no holder; only a holder this host can judge dead is stale. */
  ghost predicate Reads(s: State, p: Proc, seen: Holder, s': State) {
    && p in s.pcs && s.pcs[p].Reading?
    && (seen.Unwritten? || (s.lock.Dir? && s.lock.holder == seen))
    && var stale := seen.Written? && seen.writer.host == p.host && At(s, seen.writer, Dead);
    && s' == Go(s, p, if stale && !s.pcs[p].reclaimed then Reclaiming else Idle)
  }

  ghost predicate ReclaimsFile(s: State, p: Proc, s': State) {
    At(s, p, Reclaiming) && s' == Go(s.(lock := Emptied(s.lock)), p, ReclaimingDir)
  }

  ghost predicate ReclaimsDir(s: State, p: Proc, s': State) {
    At(s, p, ReclaimingDir) && s' == Go(s.(lock := Removed(s.lock)), p, Making(true))
  }

  /** Writing into a directory that has vanished ends the process. */
  ghost predicate Writes(s: State, p: Proc, s': State) {
    && At(s, p, Writing)
    && s' == if s.lock.Dir? then Go(s.(lock := Dir(s.lock.owner, Written(p))), p, Held)
             else Go(s, p, Dead)
  }

  ghost predicate ReleasesFile(s: State, p: Proc, s': State) {
    At(s, p, Held) && s' == Go(s.(lock := Emptied(s.lock)), p, Releasing)
  }

  ghost predicate ReleasesDir(s: State, p: Proc, s': State) {
    At(s, p, Releasing) && s' == Go(s.(lock := Removed(s.lock)), p, Idle)
  }

  ghost predicate Dies(s: State, p: Proc, s': State) {
    p in s.pcs && s' == Go(s, p, Dead)
  }

  ghost predicate Step(s: State, p: Proc, s': State) {
    || Starts(s, p, s') || Makes(s, p, s') || (exists seen :: Reads(s, p, seen, s'))
    || ReclaimsFile(s, p, s') || ReclaimsDir(s, p, s') || Writes(s, p, s')
    || ReleasesFile(s, p, s') || ReleasesDir(s, p, s') || Dies(s, p, s')
  }

  ghost predicate Next(s: State, s': State) {
    exists p :: Step(s, p, s')
  }

  ghost predicate Initial(procs: set<Proc>, s: State) {
    s.lock.Absent? && s.pcs.Keys == procs && forall p :: p in procs ==> s.pcs[p] == Idle
  }

  ghost predicate Steps(trace: seq<State>) {
    forall i :: 0 <= i < |trace| - 1 ==> Next(trace[i], trace[i + 1])
  }

  ghost predicate History(procs: set<Proc>, trace: seq<State>) {
    |trace| > 0 && Initial(procs, trace[0]) && Steps(trace)
  }

  // ---- what is promised ----------------------------------------------------

  /** At most one live lander is between acquire and release. */
  ghost predicate Exclusive(s: State) {
    forall p, q :: At(s, p, Held) && At(s, q, Held) ==> p == q
  }

  /** A step by `p` touches a live lander's directory only if it is `p`'s own. */
  ghost predicate NoTheft(s: State, p: Proc, s': State) {
    s.lock.Dir? && !At(s, s.lock.owner, Dead) && s'.lock != s.lock ==> s.lock.owner == p
  }

  predicate Owns(pc: Pc) {
    pc.Writing? || pc.Held? || pc.Releasing?
  }

  /** Between the stale read and the end of its `rmtree`. */
  predicate Reclaims(pc: Pc) {
    pc.Reclaiming? || pc.ReclaimingDir?
  }

  ghost predicate OneReclaimer(s: State) {
    forall p, q :: p in s.pcs && q in s.pcs && Reclaims(s.pcs[p]) && Reclaims(s.pcs[q]) ==> p == q
  }

  ghost predicate Inv(s: State) {
    && (s.lock.Dir? ==>
          && s.lock.owner in s.pcs
          && (s.lock.holder.Written? ==> s.lock.holder.writer == s.lock.owner))
    && (forall p :: p in s.pcs && Owns(s.pcs[p]) ==> s.lock.Dir? && s.lock.owner == p)
    && (forall p :: p in s.pcs && Reclaims(s.pcs[p]) ==>
          s.lock.Dir? && s.lock.owner.host == p.host && s.pcs[s.lock.owner].Dead?)
  }

  lemma {:induction false} StepKeeps(s: State, p: Proc, s': State)
    requires Inv(s) && OneReclaimer(s) && Step(s, p, s')
    ensures Inv(s')
  {
    if ReclaimsDir(s, p, s') || ReleasesDir(s, p, s') || ReclaimsFile(s, p, s') || ReleasesFile(s, p, s') {
      RemovalKeeps(s, p, s');
    } else {
      OtherStepKeeps(s, p, s');
    }
  }

  lemma {:induction false} RemovalKeeps(s: State, p: Proc, s': State)
    requires Inv(s) && OneReclaimer(s)
    requires || ReclaimsDir(s, p, s') || ReleasesDir(s, p, s')
             || ReclaimsFile(s, p, s') || ReleasesFile(s, p, s')
    ensures Inv(s')
  {
  }

  lemma {:induction false} OtherStepKeeps(s: State, p: Proc, s': State)
    requires Inv(s)
    requires || Starts(s, p, s') || Makes(s, p, s') || (exists seen :: Reads(s, p, seen, s'))
             || Writes(s, p, s') || Dies(s, p, s')
    ensures Inv(s')
  {
  }

  /** As long as no two landers are between a stale read and the end of its
      `rmtree` at once, mutual exclusion holds and no live lander's directory is
      touched by another. */
  lemma {:induction false} ExclusiveWhileOneReclaims(procs: set<Proc>, trace: seq<State>, i: nat)
    requires History(procs, trace) && i < |trace|
    requires forall k :: 0 <= k < i ==> OneReclaimer(trace[k])
    ensures Inv(trace[i]) && Exclusive(trace[i])
  {
    if i > 0 {
      ExclusiveWhileOneReclaims(procs, trace, i - 1);
      assert Next(trace[i - 1], trace[i - 1 + 1]);
      var p :| Step(trace[i - 1], p, trace[i]);
      StepKeeps(trace[i - 1], p, trace[i]);
    }
  }

  lemma {:induction false} NoTheftWhileOneReclaims(procs: set<Proc>, trace: seq<State>, i: nat, p: Proc)
    requires History(procs, trace) && i < |trace| - 1 && Step(trace[i], p, trace[i + 1])
    requires forall k :: 0 <= k <= i ==> OneReclaimer(trace[k])
    ensures NoTheft(trace[i], p, trace[i + 1])
  {
    ExclusiveWhileOneReclaims(procs, trace, i);
  }

  // ---- exactly which deployments are safe ---------------------------------

  /** No host runs three landers that ever use this lock. */
  ghost predicate AtMostTwoPerHost(procs: set<Proc>) {
    forall a, b, c :: a in procs && b in procs && c in procs && a.host == b.host == c.host ==>
      a == b || b == c || a == c
  }

  ghost predicate AlwaysExclusive(procs: set<Proc>) {
    forall trace: seq<State>, i :: History(procs, trace) && 0 <= i < |trace| ==> Exclusive(trace[i])
  }

  lemma {:induction false} TwoPerHostOneReclaimer(procs: set<Proc>, s: State)
    requires AtMostTwoPerHost(procs) && s.pcs.Keys == procs && Inv(s)
    ensures OneReclaimer(s)
  {
  }

  lemma {:induction false} SameProcs(s: State, p: Proc, s': State)
    requires Step(s, p, s')
    ensures s'.pcs.Keys == s.pcs.Keys
  {
  }

  lemma {:induction false} TwoPerHostKeeps(procs: set<Proc>, trace: seq<State>, i: nat)
    requires AtMostTwoPerHost(procs) && History(procs, trace) && i < |trace|
    ensures trace[i].pcs.Keys == procs && Inv(trace[i])
  {
    if i > 0 {
      TwoPerHostKeeps(procs, trace, i - 1);
      assert Next(trace[i - 1], trace[i - 1 + 1]);
      var p :| Step(trace[i - 1], p, trace[i]);
      TwoPerHostOneReclaimer(procs, trace[i - 1]);
      SameProcs(trace[i - 1], p, trace[i]);
      StepKeeps(trace[i - 1], p, trace[i]);
    }
  }

  ghost predicate Leads(t: seq<State>, s: State, s': State) {
    t != [] && t[0] == s && t[|t| - 1] == s' && Steps(t)
  }

  lemma {:induction false} Extend(t: seq<State>, s: State, s': State, p: Proc, s'': State) returns (u: seq<State>)
    requires Leads(t, s, s') && Step(s', p, s'')
    ensures Leads(u, s, s'')
  {
    u := t + [s''];
    forall i | 0 <= i < |u| - 1 ensures Next(u[i], u[i + 1]) {
      if i < |t| - 1 {
        assert Next(t[i], t[i + 1]);
      }
    }
  }

  /** From a free lock to holding it. */
  lemma {:induction false} Acquires(t: seq<State>, s0: State, s: State, p: Proc) returns (u: seq<State>)
    requires Leads(t, s0, s) && p in s.pcs && s.pcs[p].Making? && s.lock.Absent?
    ensures Leads(u, s0, Go(s.(lock := Dir(p, Written(p))), p, Held))
  {
    var s1 := Go(s.(lock := Dir(p, Unwritten)), p, Writing);
    assert Makes(s, p, s1);
    u := Extend(t, s0, s, p, s1);
    var s2 := Go(s1.(lock := Dir(p, Written(p))), p, Held);
    assert Writes(s1, p, s2);
    u := Extend(u, s0, s1, p, s2);
    assert s2 == Go(s.(lock := Dir(p, Written(p))), p, Held);
  }

  /** From nothing to having judged `d`'s holder file stale. */
  lemma {:induction false} JudgesStale(t: seq<State>, s0: State, s: State, p: Proc, d: Proc) returns (u: seq<State>)
    requires Leads(t, s0, s) && At(s, p, Idle) && At(s, d, Dead)
    requires s.lock == Dir(d, Written(d)) && d.host == p.host && d != p
    ensures Leads(u, s0, Go(s, p, Reclaiming))
  {
    var s1 := Go(s, p, Making(false));
    assert Starts(s, p, s1);
    u := Extend(t, s0, s, p, s1);
    var s2 := Go(s1, p, Reading(false));
    assert Makes(s1, p, s2);
    u := Extend(u, s0, s1, p, s2);
    var s3 := Go(s2, p, Reclaiming);
    assert Reads(s2, p, Written(d), s3);
    u := Extend(u, s0, s2, p, s3);
    assert s3 == Go(s, p, Reclaiming);
  }

  /** From a stale judgement, however old, to holding the lock. */
  lemma {:induction false} Replaces(t: seq<State>, s0: State, s: State, p: Proc) returns (u: seq<State>)
    requires Leads(t, s0, s) && At(s, p, Reclaiming) && s.lock.Dir?
    ensures Leads(u, s0, Go(s.(lock := Dir(p, Written(p))), p, Held))
  {
    var s1 := Go(s.(lock := Emptied(s.lock)), p, ReclaimingDir);
    assert ReclaimsFile(s, p, s1);
    u := Extend(t, s0, s, p, s1);
    var s2 := Go(s1.(lock := Absent), p, Making(true));
    assert ReclaimsDir(s1, p, s2);
    u := Extend(u, s0, s1, p, s2);
    u := Acquires(u, s0, s2, p);
    assert Go(s2.(lock := Dir(p, Written(p))), p, Held) == Go(s.(lock := Dir(p, Written(p))), p, Held);
  }

  /** Whatever became of its directory, a lander that holds the lease can give
      it up, and any idle lander can then come to hold it. */
  lemma {:induction false} HandsOn(t: seq<State>, s0: State, s: State, p: Proc, q: Proc) returns (u: seq<State>)
    requires Leads(t, s0, s) && At(s, p, Held) && At(s, q, Idle)
    ensures Leads(u, s0, Go(Go(s.(lock := Dir(q, Written(q))), p, Idle), q, Held))
  {
    var s1 := Go(s.(lock := Emptied(s.lock)), p, Releasing);
    assert ReleasesFile(s, p, s1);
    u := Extend(t, s0, s, p, s1);
    var s2 := Go(s1.(lock := Absent), p, Idle);
    assert ReleasesDir(s1, p, s2);
    u := Extend(u, s0, s1, p, s2);
    var s3 := Go(s2, q, Making(false));
    assert Starts(s2, q, s3);
    u := Extend(u, s0, s2, q, s3);
    u := Acquires(u, s0, s3, q);
    assert Go(s3.(lock := Dir(q, Written(q))), q, Held) == Go(Go(s.(lock := Dir(q, Written(q))), p, Idle), q, Held);
  }

  /** Two landers that both read a dead third one's holder both reclaim: the
      second removes the first one's fresh directory, and both hold the lease. */
  lemma {:induction false} ThreeOnAHostCollide(procs: set<Proc>, d: Proc, a: Proc, b: Proc)
    requires {d, a, b} <= procs && d.host == a.host == b.host && d != a && a != b && d != b
    ensures !AlwaysExclusive(procs)
  {
    var s0 := State(Absent, map p | p in procs :: Idle);
    var s1 := Go(s0, d, Making(false));
    assert Starts(s0, d, s1);
    var t := Extend([s0], s0, s0, d, s1);
    t := Acquires(t, s0, s1, d);
    var s2 := Go(s1.(lock := Dir(d, Written(d))), d, Held);
    var s3 := Go(s2, d, Dead);
    assert Dies(s2, d, s3);
    t := Extend(t, s0, s2, d, s3);
    t := JudgesStale(t, s0, s3, a, d);
    var s4 := Go(s3, a, Reclaiming);
    t := JudgesStale(t, s0, s4, b, d);
    var s5 := Go(s4, b, Reclaiming);
    t := Replaces(t, s0, s5, a);
    var s6 := Go(s5.(lock := Dir(a, Written(a))), a, Held);
    t := Replaces(t, s0, s6, b);
    assert History(procs, t);
    assert At(t[|t| - 1], a, Held) && At(t[|t| - 1], b, Held);
  }

  /** The lease excludes in every history if and only if no host runs three
      landers on it. */
  lemma {:induction false} ExclusiveExactly(procs: set<Proc>)
    ensures AlwaysExclusive(procs) <==> AtMostTwoPerHost(procs)
  {
    if AtMostTwoPerHost(procs) {
      forall trace: seq<State>, i | History(procs, trace) && 0 <= i < |trace| ensures Exclusive(trace[i]) {
        TwoPerHostKeeps(procs, trace, i);
      }
    } else {
      var a, b, c :| a in procs && b in procs && c in procs && a.host == b.host == c.host
        && a != b && b != c && a != c;
      ThreeOnAHostCollide(procs, a, b, c);
    }
  }
}
