/** The lander's lease on another host: one remote shell script makes the lock
    directory and writes the holder, one remote `rm -rf` removes it, and nothing
    is ever reclaimed. A remote command may start and finish long after the
    lander that sent it has given up or died, and its result may be lost. */
module SshLease {

  type Lander = nat
  type ScriptId = nat

  datatype Stage = Sent | Made | Wrote | Failed

  /** An acquire script and the lander that sent it. */
  datatype Script = Script(lander: Lander, stage: Stage)

  datatype Pc = Idle | Asking(script: ScriptId) | Holding(script: ScriptId) | Gone

  datatype Dir = Absent | Present(script: ScriptId)

  /** `removals` are the releases sent and not yet carried out, each named by
      the script that made what it is meant to remove. */
  datatype State = State(dir: Dir, scripts: map<ScriptId, Script>, pcs: map<Lander, Pc>, removals: set<ScriptId>)

  ghost predicate Asks(s: State, p: Lander, k: ScriptId, s': State) {
    && p in s.pcs && s.pcs[p].Idle? && k !in s.scripts
    && s' == s.(scripts := s.scripts[k := Script(p, Sent)], pcs := s.pcs[p := Asking(k)])
  }

  /** `mkdir` on the far side: the directory, or nothing. */
  ghost predicate Makes(s: State, k: ScriptId, s': State) {
    && k in s.scripts && s.scripts[k].stage.Sent?
    && s' == if s.dir.Absent? then s.(dir := Present(k), scripts := s.scripts[k := s.scripts[k].(stage := Made)])
             else s.(scripts := s.scripts[k := s.scripts[k].(stage := Failed)])
  }

  /** The holder file, which may fail with the directory left behind. */
  ghost predicate Writes(s: State, k: ScriptId, s': State) {
    && k in s.scripts && s.scripts[k].stage.Made?
    && (|| s' == s.(scripts := s.scripts[k := s.scripts[k].(stage := Wrote)])
        || s' == s.(scripts := s.scripts[k := s.scripts[k].(stage := Failed)]))
  }

  ghost predicate HearsYes(s: State, p: Lander, s': State) {
    && p in s.pcs && s.pcs[p].Asking? && s.pcs[p].script in s.scripts
    && s.scripts[s.pcs[p].script].stage.Wrote?
    && s' == s.(pcs := s.pcs[p := Holding(s.pcs[p].script)])
  }

  /** Any other answer, and any lost one. */
  ghost predicate HearsNo(s: State, p: Lander, s': State) {
    p in s.pcs && s.pcs[p].Asking? && s' == s.(pcs := s.pcs[p := Idle])
  }

  ghost predicate Releases(s: State, p: Lander, s': State) {
    && p in s.pcs && s.pcs[p].Holding?
    && s' == s.(pcs := s.pcs[p := Idle], removals := s.removals + {s.pcs[p].script})
  }

  /** `rm -rf` of the path, whoever made what is there. */
  ghost predicate Removes(s: State, k: ScriptId, s': State) {
    k in s.removals && s' == s.(dir := Absent, removals := s.removals - {k})
  }

  ghost predicate Dies(s: State, p: Lander, s': State) {
    p in s.pcs && s' == s.(pcs := s.pcs[p := Gone])
  }

  /** A step of a lander. */
  ghost predicate Acts(s: State, p: Lander, s': State) {
    || (exists k :: Asks(s, p, k, s'))
    || HearsYes(s, p, s') || HearsNo(s, p, s') || Releases(s, p, s') || Dies(s, p, s')
  }

  /** A step of a command on the far side. */
  ghost predicate Runs(s: State, k: ScriptId, s': State) {
    Makes(s, k, s') || Writes(s, k, s') || Removes(s, k, s')
  }

  ghost predicate Next(s: State, s': State) {
    (exists p :: Acts(s, p, s')) || (exists k :: Runs(s, k, s'))
  }

  ghost predicate History(trace: seq<State>) {
    && |trace| > 0
    && trace[0].dir.Absent? && trace[0].scripts == map[] && trace[0].removals == {}
    && (forall p :: p in trace[0].pcs ==> trace[0].pcs[p].Idle?)
    && forall i :: 0 <= i < |trace| - 1 ==> Next(trace[i], trace[i + 1])
  }

  ghost predicate Inv(s: State) {
    && (forall p :: p in s.pcs && (s.pcs[p].Asking? || s.pcs[p].Holding?) ==>
          var k := s.pcs[p].script;
          && k in s.scripts && s.scripts[k].lander == p && k !in s.removals
          && (s.pcs[p].Holding? || s.scripts[k].stage.Made? || s.scripts[k].stage.Wrote? ==>
                s.dir == Present(k)))
    && (forall k :: k in s.removals ==> s.dir == Present(k))
    && (s.dir.Present? ==> s.dir.script in s.scripts && !s.scripts[s.dir.script].stage.Sent?)
  }

  lemma {:induction false} ActsKeeps(s: State, p: Lander, s': State)
    requires Inv(s) && Acts(s, p, s')
    ensures Inv(s')
  {
  }

  lemma {:induction false} RunsKeeps(s: State, k: ScriptId, s': State)
    requires Inv(s) && Runs(s, k, s')
    ensures Inv(s')
  {
  }

  lemma {:induction false} NextKeeps(s: State, s': State)
    requires Inv(s) && Next(s, s')
    ensures Inv(s')
  {
    if p :| Acts(s, p, s') {
      ActsKeeps(s, p, s');
    } else {
      var k :| Runs(s, k, s');
      RunsKeeps(s, k, s');
    }
  }

  lemma {:induction false} HistoryKeeps(trace: seq<State>, i: nat)
    requires History(trace) && i < |trace|
    ensures Inv(trace[i])
  {
    if i > 0 {
      HistoryKeeps(trace, i - 1);
      assert Next(trace[i - 1], trace[i - 1 + 1]);
      NextKeeps(trace[i - 1], trace[i]);
    }
  }

  /** With no proviso: at most one lander holds the lease, and the directory of
      one that does is still there. */
  lemma {:induction false} ExclusiveAlways(trace: seq<State>, i: nat, p: Lander, q: Lander)
    requires History(trace) && i < |trace|
    requires p in trace[i].pcs && trace[i].pcs[p].Holding?
    ensures trace[i].dir == Present(trace[i].pcs[p].script)
    ensures q in trace[i].pcs && trace[i].pcs[q].Holding? ==> p == q
  {
    HistoryKeeps(trace, i);
  }

  // ---- handing the lease on, and losing it ---------------------------------

  ghost predicate Leads(t: seq<State>, s: State, s': State) {
    t != [] && t[0] == s && t[|t| - 1] == s' && forall i :: 0 <= i < |t| - 1 ==> Next(t[i], t[i + 1])
  }

  lemma {:induction false} Extend(t: seq<State>, s: State, s': State, s'': State) returns (u: seq<State>)
    requires Leads(t, s, s') && Next(s', s'')
    ensures Leads(u, s, s'')
  {
    u := t + [s''];
    forall i | 0 <= i < |u| - 1 ensures Next(u[i], u[i + 1]) {
      if i < |t| - 1 {
        assert Next(t[i], t[i + 1]);
      }
    }
  }

  /** `s` with the lease held by `p` through script `k`. */
  function Taken(s: State, p: Lander, k: ScriptId): State {
    s.(dir := Present(k), scripts := s.scripts[k := Script(p, Wrote)], pcs := s.pcs[p := Holding(k)])
  }

  /** `s` with script `k` of `p` done and its answer not yet heard. */
  function Answered(s: State, p: Lander, k: ScriptId): State {
    s.(dir := Present(k), scripts := s.scripts[k := Script(p, Wrote)], pcs := s.pcs[p := Asking(k)])
  }

  lemma {:induction false} IsAnswered(t: seq<State>, s0: State, s: State, p: Lander, k: ScriptId)
    returns (u: seq<State>)
    requires Leads(t, s0, s) && s.dir.Absent? && p in s.pcs && s.pcs[p].Idle? && k !in s.scripts
    ensures Leads(u, s0, Answered(s, p, k))
  {
    var s1 := s.(scripts := s.scripts[k := Script(p, Sent)], pcs := s.pcs[p := Asking(k)]);
    assert Asks(s, p, k, s1) && Acts(s, p, s1);
    u := Extend(t, s0, s, s1);
    var s2 := s1.(dir := Present(k), scripts := s1.scripts[k := Script(p, Made)]);
    assert Makes(s1, k, s2) && Runs(s1, k, s2);
    u := Extend(u, s0, s1, s2);
    var s3 := s2.(scripts := s2.scripts[k := Script(p, Wrote)]);
    assert Writes(s2, k, s3) && Runs(s2, k, s3);
    u := Extend(u, s0, s2, s3);
    assert s3 == Answered(s, p, k);
  }

  /** From no directory to holding the lease. */
  lemma {:induction false} Acquires(t: seq<State>, s0: State, s: State, p: Lander, k: ScriptId) returns (u: seq<State>)
    requires Leads(t, s0, s) && s.dir.Absent? && p in s.pcs && s.pcs[p].Idle? && k !in s.scripts
    ensures Leads(u, s0, Taken(s, p, k))
  {
    u := IsAnswered(t, s0, s, p, k);
    var s1 := Answered(s, p, k);
    assert Taken(s, p, k) == s1.(pcs := s1.pcs[p := Holding(k)]);
    assert HearsYes(s1, p, Taken(s, p, k)) && Acts(s1, p, Taken(s, p, k));
    u := Extend(u, s0, s1, Taken(s, p, k));
  }

  /** In every history a lander that holds the lease can give it up, and any
      idle lander can then come to hold it. */
  lemma {:induction false} HandsOn(t: seq<State>, p: Lander, q: Lander, k: ScriptId) returns (u: seq<State>)
    requires History(t) && k !in t[|t| - 1].scripts
    requires p in t[|t| - 1].pcs && t[|t| - 1].pcs[p].Holding? && q in t[|t| - 1].pcs && t[|t| - 1].pcs[q].Idle?
    ensures Leads(u, t[0], Taken(t[|t| - 1].(pcs := t[|t| - 1].pcs[p := Idle]), q, k))
  {
    var s := t[|t| - 1];
    HistoryKeeps(t, |t| - 1);
    var j := s.pcs[p].script;
    var s1 := s.(pcs := s.pcs[p := Idle], removals := s.removals + {j});
    assert Releases(s, p, s1) && Acts(s, p, s1);
    u := Extend(t, t[0], s, s1);
    var s2 := s1.(dir := Absent, removals := s1.removals - {j});
    assert Removes(s1, j, s2) && Runs(s1, j, s2);
    u := Extend(u, t[0], s1, s2);
    u := Acquires(u, t[0], s2, q, k);
    assert s2.removals == s.removals;
    assert Taken(s2, q, k) == Taken(s.(pcs := s.pcs[p := Idle]), q, k);
  }

  /** The directory is there, and no lander that would remove it is left. */
  ghost predicate Orphaned(s: State) {
    && s.dir.Present? && s.dir.script !in s.removals
    && forall p :: p in s.pcs && (s.pcs[p].Asking? || s.pcs[p].Holding?) ==> s.pcs[p].script != s.dir.script
  }

  /** An answer lost after the directory was made, and a death while holding or
      asking after it, orphan the directory. */
  lemma {:induction false} LossOrphans(s: State, p: Lander, s': State)
    requires Inv(s) && (HearsNo(s, p, s') || Dies(s, p, s'))
    requires s.pcs[p].Asking? || s.pcs[p].Holding?
    ensures Orphaned(s') <==> (s.pcs[p].Holding? || s.dir == Present(s.pcs[p].script) || Orphaned(s))
  {
    assert forall q :: q in s.pcs && q != p ==> s'.pcs[q] == s.pcs[q];
  }

  lemma {:induction false} OrphanStays(s: State, s': State)
    requires Inv(s) && Orphaned(s) && Next(s, s')
    ensures Orphaned(s') && s'.dir == s.dir
  {
    if p :| Acts(s, p, s') {
    } else {
      var k :| Runs(s, k, s');
    }
  }

  /** Nothing is reclaimed: once orphaned, the directory stays in every
      continuation and nobody holds the lease again. */
  lemma {:induction false} OrphanBlocks(trace: seq<State>, i: nat, j: nat, p: Lander)
    requires History(trace) && i <= j < |trace| && Orphaned(trace[i])
    ensures Orphaned(trace[j]) && trace[j].dir == trace[i].dir
    ensures p in trace[j].pcs ==> !trace[j].pcs[p].Holding?
    decreases j
  {
    HistoryKeeps(trace, j);
    if i < j {
      OrphanBlocks(trace, i, j - 1, p);
      HistoryKeeps(trace, j - 1);
      assert Next(trace[j - 1], trace[j - 1 + 1]);
      OrphanStays(trace[j - 1], trace[j]);
    }
  }
}
