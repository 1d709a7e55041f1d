/** The worker's runner-service reloader: one file, watched by its mtime, feeds
    two shared structures, the secrets and then the registry, that dispatches
    read while a reload is under way. */
module Reloader {

  /** What the file says; `valid` is whether the registry accepts it. */
  datatype Contents = Contents(services: map<string, int>, valid: bool)

  /** A reading of the file together with the secret files it names. */
  datatype Build = Build(contents: Contents, material: map<string, string>)

  datatype File = File(mtime: nat, contents: Contents)

  datatype Phase =
    | Down                                   // the worker has not loaded the file yet
    | Idle
    | Statted(mtime: nat, booting: bool)
    | Built(mtime: nat, build: Build, booting: bool)
    | Stored(mtime: nat, build: Build)       // secrets swapped, registry not yet

  datatype State = State(
    file: File, registry: map<string, int>, secrets: map<string, string>, lastMod: nat, phase: Phase)

  /** Which readings can happen, and whether a write always advances the mtime. */
  datatype World = World(builds: iset<Build>, strict: bool)

  /** Every secret reference of a reading is there, though its material may be empty. */
  ghost predicate WellBuilt(b: Build) {
    b.material.Keys == b.contents.services.Keys
  }

  /** A lookup that finds a credential. */
  predicate Resolves(secrets: map<string, string>, name: string) {
    name in secrets && secrets[name] != ""
  }

  /** A credential that is put in is found; an empty one, or one taken out, is not. */
  lemma {:induction false} ResolvesExactly(secrets: map<string, string>, name: string, material: string)
    ensures Resolves(secrets[name := material], name) <==> material != ""
    ensures !Resolves(secrets - {name}, name)
    ensures forall other :: other != name ==> (Resolves(secrets[name := material], other) <==> Resolves(secrets, other))
  {
  }

  // ---- steps ---------------------------------------------------------------

  ghost predicate Write(w: World, s: State, s': State) {
    && (s'.file.mtime > s.file.mtime || (!w.strict && s'.file.mtime == s.file.mtime))
    && s' == s.(file := s'.file)
  }

  ghost predicate Stat(s: State, s': State) {
    && (s.phase.Down? || (s.phase.Idle? && s.file.mtime > s.lastMod))
    && s' == s.(phase := Statted(s.file.mtime, s.phase.Down?))
  }

  /** The check finds the mtime not advanced. */
  ghost predicate ReportsUnchanged(s: State) {
    s.phase.Idle? && s.file.mtime <= s.lastMod
  }

  ghost predicate Read(w: World, s: State, s': State) {
    && s.phase.Statted?
    && exists b :: b in w.builds && WellBuilt(b) && b.contents == s.file.contents &&
                   s' == s.(phase := Built(s.phase.mtime, b, s.phase.booting))
  }

  /** An unreadable file, bad JSON or a missing secret file. */
  ghost predicate Fail(s: State, s': State) {
    && (s.phase.Statted? || s.phase.Built?)
    && s' == s.(phase := if s.phase.booting then Down else Idle)
  }

  /** Start-up: nothing dispatches before both are in place. */
  ghost predicate Boot(s: State, s': State) {
    && s.phase.Built? && s.phase.booting && s.phase.build.contents.valid
    && s' == s.(registry := s.phase.build.contents.services, secrets := s.phase.build.material,
                lastMod := s.phase.mtime, phase := Idle)
  }

  ghost predicate Store(s: State, s': State) {
    && s.phase.Built? && !s.phase.booting
    && s' == s.(secrets := s.phase.build.material, phase := Stored(s.phase.mtime, s.phase.build))
  }

  ghost predicate Swap(s: State, s': State) {
    && s.phase.Stored? && s.phase.build.contents.valid
    && s' == s.(registry := s.phase.build.contents.services, lastMod := s.phase.mtime, phase := Idle)
  }

  /** The registry refuses the reading; the secrets are already swapped. */
  ghost predicate Refused(s: State, s': State) {
    && s.phase.Stored? && !s.phase.build.contents.valid
    && s' == s.(phase := Idle)
  }

  ghost predicate Next(w: World, s: State, s': State) {
    || Write(w, s, s') || Stat(s, s') || Read(w, s, s') || Fail(s, s')
    || Boot(s, s') || Store(s, s') || Swap(s, s') || Refused(s, s')
  }

  ghost predicate History(w: World, trace: seq<State>) {
    && trace != [] && trace[0].phase.Down? && trace[0].registry == map[] && trace[0].secrets == map[]
    && forall i :: 0 <= i < |trace| - 1 ==> Next(w, trace[i], trace[i + 1])
  }

  // ---- never stale ---------------------------------------------------------

  ghost predicate Current(s: State) {
    s.registry == s.file.contents.services && s.secrets.Keys == s.file.contents.services.Keys
  }

  ghost predicate NeverStale(w: World) {
    forall trace :: History(w, trace) ==>
      forall i :: 0 <= i < |trace| && ReportsUnchanged(trace[i]) ==> Current(trace[i])
  }

  ghost predicate Loaded(s: State) {
    s.lastMod <= s.file.mtime && (s.lastMod == s.file.mtime ==> Current(s))
  }

  ghost predicate Fresh(s: State) {
    match s.phase
    case Down => true
    case Idle => Loaded(s)
    case Statted(m, booting) => m <= s.file.mtime && (!booting ==> s.lastMod < m)
    case Built(m, b, booting) =>
      && m <= s.file.mtime && (!booting ==> s.lastMod < m)
      && WellBuilt(b) && (m == s.file.mtime ==> b.contents == s.file.contents)
    case Stored(m, b) =>
      && s.lastMod < m <= s.file.mtime && s.secrets == b.material
      && WellBuilt(b) && (m == s.file.mtime ==> b.contents == s.file.contents)
  }

  lemma {:induction false} NextKeepsFresh(w: World, s: State, s': State)
    requires w.strict && Fresh(s) && Next(w, s, s')
    ensures Fresh(s')
  {
  }

  lemma {:induction false} StaysFresh(w: World, trace: seq<State>, i: nat)
    requires w.strict && History(w, trace) && i < |trace|
    ensures Fresh(trace[i])
  {
    if i > 0 {
      StaysFresh(w, trace, i - 1);
      assert Next(w, trace[i - 1], trace[i - 1 + 1]);
      NextKeepsFresh(w, trace[i - 1], trace[i]);
    }
  }

  /** A write in the same clock tick as the one that was loaded is missed. */
  lemma {:induction false} SameTickIsMissed(w: World, b: Build)
    requires !w.strict && b in w.builds && WellBuilt(b) && b.contents.valid
    ensures !NeverStale(w)
  {
    var other := Contents(b.contents.services["missed" := 0], true);
    var c := if "missed" in b.contents.services then Contents(map[], true) else other;
    assert c.services.Keys != b.contents.services.Keys by {
      assert "missed" in c.services.Keys <==> "missed" !in b.contents.services.Keys;
    }
    var s0 := State(File(0, b.contents), map[], map[], 0, Down);
    var s1 := s0.(phase := Statted(0, true));
    var s2 := s1.(phase := Built(0, b, true));
    var s3 := s2.(registry := b.contents.services, secrets := b.material, phase := Idle);
    var s4 := s3.(file := File(0, c));
    assert Write(w, s3, s4);
    var trace := [s0, s1, s2, s3, s4];
    assert History(w, trace);
    assert ReportsUnchanged(trace[4]) && !Current(trace[4]);
  }

  ghost predicate Loadable(w: World) {
    exists b :: b in w.builds && WellBuilt(b) && b.contents.valid
  }

  lemma {:induction false} StaysDown(w: World, trace: seq<State>, i: nat)
    requires !Loadable(w) && History(w, trace) && i < |trace|
    ensures NotUp(trace[i])
    ensures trace[i].phase.Built? ==> trace[i].phase.build in w.builds && WellBuilt(trace[i].phase.build)
  {
    if i > 0 {
      StaysDown(w, trace, i - 1);
      assert Next(w, trace[i - 1], trace[i - 1 + 1]);
    }
  }

  /** "Unchanged" means the registry and the secret names are those of the file
      as it is, in every run, if and only if every write advances the mtime (or
      the worker can never start). */
  lemma {:induction false} NeverStaleExactly(w: World)
    ensures NeverStale(w) <==> w.strict || !Loadable(w)
  {
    if !w.strict && Loadable(w) {
      var b :| b in w.builds && WellBuilt(b) && b.contents.valid;
      SameTickIsMissed(w, b);
    } else {
      forall trace: seq<State> | History(w, trace)
        ensures forall i :: 0 <= i < |trace| && ReportsUnchanged(trace[i]) ==> Current(trace[i])
      {
        forall i | 0 <= i < |trace| && ReportsUnchanged(trace[i]) ensures Current(trace[i]) {
          if w.strict {
            StaysFresh(w, trace, i);
          } else {
            StaysDown(w, trace, i);
          }
        }
      }
    }
  }

  // ---- a dispatch finds its secret -----------------------------------------

  /** An identity read from the registry at some moment finds its secret at any
      later moment. */
  ghost predicate AlwaysResolves(w: World, name: string) {
    forall trace :: History(w, trace) ==> ResolvesThroughout(trace, name)
  }

  ghost predicate ResolvesThroughout(trace: seq<State>, name: string) {
    forall i, k :: 0 <= i <= k < |trace| && name in trace[i].registry ==> Resolves(trace[k].secrets, name)
  }

  ghost predicate Keys(b: Build, name: string) {
    Resolves(b.material, name)
  }

  /** Some reading that the registry would accept serves the name. */
  ghost predicate EverServed(w: World, name: string) {
    exists a :: a in w.builds && WellBuilt(a) && a.contents.valid && name in a.contents.services
  }

  /** Every reading has a credential for the name. */
  ghost predicate AlwaysKeyed(w: World, name: string) {
    forall b :: b in w.builds && WellBuilt(b) ==> Keys(b, name)
  }

  ghost predicate NotUp(s: State) {
    s.phase.Down? || (s.phase.Statted? && s.phase.booting) || (s.phase.Built? && s.phase.booting)
  }

  /** The registry and the secrets each come from some reading. */
  ghost predicate Sourced(w: World, s: State) {
    && (NotUp(s) ==> s.registry == map[])
    && (s.registry == map[] ||
        exists a :: a in w.builds && WellBuilt(a) && a.contents.valid && a.contents.services == s.registry)
    && (NotUp(s) ||
        exists b :: b in w.builds && WellBuilt(b) && b.material == s.secrets)
    && (s.phase.Built? || s.phase.Stored? ==> s.phase.build in w.builds && WellBuilt(s.phase.build))
  }

  lemma {:induction false} NextKeepsSourced(w: World, s: State, s': State)
    requires Sourced(w, s) && Next(w, s, s')
    ensures Sourced(w, s')
  {
    if Boot(s, s') || Store(s, s') || Swap(s, s') {
      var b := s.phase.build;
      assert b in w.builds && WellBuilt(b);
    } else {
      assert s'.registry == s.registry && s'.secrets == s.secrets;
    }
  }

  lemma {:induction false} StaysSourced(w: World, trace: seq<State>, i: nat)
    requires History(w, trace) && i < |trace|
    ensures Sourced(w, trace[i])
  {
    if i > 0 {
      StaysSourced(w, trace, i - 1);
      assert Next(w, trace[i - 1], trace[i - 1 + 1]);
      NextKeepsSourced(w, trace[i - 1], trace[i]);
    }
  }

  lemma {:induction false} StaysUp(w: World, trace: seq<State>, i: nat, k: nat)
    requires History(w, trace) && i <= k < |trace| && !NotUp(trace[i])
    ensures !NotUp(trace[k])
  {
    if i < k {
      StaysUp(w, trace, i, k - 1);
      assert Next(w, trace[k - 1], trace[k - 1 + 1]);
    }
  }

  /** A worker serving the name reads a version without a credential for it:
      the secrets are swapped first, and a dispatch is left without, even one
      that reads the identity after that. If the registry then refuses the
      version, it stays so. */
  lemma {:induction false} DroppedSecretIsMissed(w: World, name: string, a: Build, b: Build) returns (trace: seq<State>)
    requires a in w.builds && WellBuilt(a) && a.contents.valid && name in a.contents.services
    requires b in w.builds && WellBuilt(b) && !Keys(b, name)
    ensures History(w, trace)
    ensures var s := trace[|trace| - 1];
            name in s.registry && !Resolves(s.secrets, name) && (s.phase.Idle? <==> !b.contents.valid)
  {
    var s0 := State(File(0, a.contents), map[], map[], 0, Down);
    var s1 := s0.(phase := Statted(0, true));
    var s2 := s1.(phase := Built(0, a, true));
    var s3 := s2.(registry := a.contents.services, secrets := a.material, phase := Idle);
    var s4 := s3.(file := File(1, b.contents));
    var s5 := s4.(phase := Statted(1, false));
    var s6 := s5.(phase := Built(1, b, false));
    var s7 := s6.(secrets := b.material, phase := Stored(1, b));
    assert Write(w, s3, s4);
    assert Read(w, s5, s6);
    trace := [s0, s1, s2, s3, s4, s5, s6, s7];
    if !b.contents.valid {
      assert Refused(s7, s7.(phase := Idle));
      trace := [s0, s1, s2, s3, s4, s5, s6, s7, s7.(phase := Idle)];
    }
  }

  /** Over every interleaving and any number of reloads a dispatch finds its
      secret, if and only if the name is never served or every version that is
      ever read has a credential for it. */
  lemma {:induction false} AlwaysResolvesExactly(w: World, name: string)
    ensures AlwaysResolves(w, name) <==> !EverServed(w, name) || AlwaysKeyed(w, name)
  {
    if EverServed(w, name) && !AlwaysKeyed(w, name) {
      var a :| a in w.builds && WellBuilt(a) && a.contents.valid && name in a.contents.services;
      var b :| b in w.builds && WellBuilt(b) && !Keys(b, name);
      var trace := DroppedSecretIsMissed(w, name, a, b);
      assert !ResolvesThroughout(trace, name);
    } else {
      forall trace: seq<State> | History(w, trace) ensures ResolvesThroughout(trace, name) {
        forall i, k | 0 <= i <= k < |trace| && name in trace[i].registry ensures Resolves(trace[k].secrets, name) {
          StaysSourced(w, trace, i);
          StaysSourced(w, trace, k);
          StaysUp(w, trace, i, k);
        }
      }
    }
  }

  // ---- one history, and the order of the two swaps --------------------------

  /** The name has been in the registry by moment `k`. */
  ghost predicate Served(trace: seq<State>, k: nat, name: string)
    requires k < |trace|
  {
    exists i :: 0 <= i <= k && name in trace[i].registry
  }

  /** What a step must bring: a version that first serves the name has its
      credential, and so has every version read after that. */
  ghost predicate BringsKey(s: State, s': State, served: bool, name: string) {
    && (Boot(s, s') && name in s.phase.build.contents.services ==> Keys(s.phase.build, name))
    && (Store(s, s') && served ==> Keys(s.phase.build, name))
    && (Swap(s, s') && !served && name in s.phase.build.contents.services ==> Keys(s.phase.build, name))
  }

  ghost predicate KeyedInTime(trace: seq<State>, name: string) {
    forall j :: 0 <= j < |trace| - 1 ==> BringsKey(trace[j], trace[j + 1], Served(trace, j, name), name)
  }

  /** The secrets are in place before the registry is asked. */
  ghost predicate SecretsFirst(s: State) {
    s.phase.Stored? ==> s.secrets == s.phase.build.material
  }

  lemma {:induction false} AlwaysSecretsFirst(w: World, trace: seq<State>, k: nat)
    requires History(w, trace) && k < |trace|
    ensures SecretsFirst(trace[k])
  {
    if k > 0 {
      AlwaysSecretsFirst(w, trace, k - 1);
      assert Next(w, trace[k - 1], trace[k - 1 + 1]);
    }
  }

  lemma {:induction false} NotServedBeforeBoot(w: World, trace: seq<State>, k: nat, name: string)
    requires History(w, trace) && k < |trace| && NotUp(trace[k])
    ensures !Served(trace, k, name)
  {
    forall i | 0 <= i <= k ensures name !in trace[i].registry {
      StaysSourced(w, trace, i);
      if !NotUp(trace[i]) {
        StaysUp(w, trace, i, k);
      }
    }
  }

  lemma {:induction false} ServedStep(trace: seq<State>, k: nat, name: string)
    requires 0 < k < |trace|
    ensures Served(trace, k, name) <==> Served(trace, k - 1, name) || name in trace[k].registry
  {
  }

  lemma {:induction false} KeyedStep(w: World, s: State, s': State, served: bool, name: string)
    requires Next(w, s, s') && SecretsFirst(s) && BringsKey(s, s', served, name)
    requires name in s.registry ==> served
    requires served ==> !NotUp(s) && Resolves(s.secrets, name)
    requires served || name in s'.registry
    ensures Resolves(s'.secrets, name)
  {
  }

  lemma {:induction false} KeyedAt(w: World, trace: seq<State>, k: nat, name: string)
    requires History(w, trace) && KeyedInTime(trace, name) && k < |trace| - 1
    ensures Next(w, trace[k], trace[k + 1]) && SecretsFirst(trace[k])
    ensures BringsKey(trace[k], trace[k + 1], Served(trace, k, name), name)
    ensures Served(trace, k, name) ==> !NotUp(trace[k])
    ensures name in trace[k].registry ==> Served(trace, k, name)
  {
    AlwaysSecretsFirst(w, trace, k);
    if NotUp(trace[k]) {
      NotServedBeforeBoot(w, trace, k, name);
    }
  }

  lemma {:induction false} KeyedResolves(w: World, trace: seq<State>, k: nat, name: string)
    requires History(w, trace) && KeyedInTime(trace, name) && k < |trace| && Served(trace, k, name)
    ensures Resolves(trace[k].secrets, name)
  {
    if k > 0 {
      var s, s', served := trace[k - 1], trace[k], Served(trace, k - 1, name);
      KeyedAt(w, trace, k - 1, name);
      ServedStep(trace, k, name);
      if served {
        KeyedResolves(w, trace, k - 1, name);
      }
      KeyedStep(w, s, s', served, name);
    }
  }

  /** In this history every dispatch for the name finds its secret, at every
      point between the two swaps and across all reloads, if and only if each
      version that first serves the name has its credential and so has every
      version read after that. A version that newly adds the name is safe from
      the moment it is served, because the secrets are swapped first. */
  lemma {:induction false} ResolvesThroughoutExactly(w: World, trace: seq<State>, name: string)
    requires History(w, trace)
    ensures ResolvesThroughout(trace, name) <==> KeyedInTime(trace, name)
  {
    if KeyedInTime(trace, name) {
      forall i, k | 0 <= i <= k < |trace| && name in trace[i].registry ensures Resolves(trace[k].secrets, name) {
        KeyedResolves(w, trace, k, name);
      }
    }
    if ResolvesThroughout(trace, name) {
      forall j | 0 <= j < |trace| - 1 ensures BringsKey(trace[j], trace[j + 1], Served(trace, j, name), name) {
        AlwaysSecretsFirst(w, trace, j);
        if Swap(trace[j], trace[j + 1]) && name in trace[j].phase.build.contents.services {
          assert name in trace[j + 1].registry;
        }
      }
    }
  }

  /** Said of the readings alone, whatever is swapped when: a version that serves
      the name has its credential, and so has every version read once it is
      served. */
  ghost predicate ReadingsKey(trace: seq<State>, name: string) {
    forall i :: 0 <= i < |trace| && trace[i].phase.Built? ==>
      (name in trace[i].phase.build.contents.services || Served(trace, i, name) ==> Keys(trace[i].phase.build, name))
  }

  lemma {:induction false} StoredWasRead(w: World, trace: seq<State>, k: nat) returns (i: nat)
    requires History(w, trace) && k < |trace| && trace[k].phase.Stored?
    ensures i < k && trace[i].phase.Built? && trace[i].phase.build == trace[k].phase.build
  {
    assert Next(w, trace[k - 1], trace[k - 1 + 1]);
    if trace[k - 1].phase.Stored? {
      i := StoredWasRead(w, trace, k - 1);
    } else {
      i := k - 1;
    }
  }

  /** With the secrets first that is enough. */
  lemma {:induction false} SecretsFirstResolves(w: World, trace: seq<State>, name: string)
    requires History(w, trace) && ReadingsKey(trace, name)
    ensures ResolvesThroughout(trace, name)
  {
    forall j | 0 <= j < |trace| - 1 ensures BringsKey(trace[j], trace[j + 1], Served(trace, j, name), name) {
      if trace[j].phase.Stored? {
        var i := StoredWasRead(w, trace, j);
      }
    }
    ResolvesThroughoutExactly(w, trace, name);
  }

  /** The other order: the registry first, then the secrets. */
  ghost predicate SwapFirst(s: State, s': State) {
    && s.phase.Built? && !s.phase.booting && s.phase.build.contents.valid
    && s' == s.(registry := s.phase.build.contents.services, phase := Stored(s.phase.mtime, s.phase.build))
  }

  ghost predicate StoreLast(s: State, s': State) {
    && s.phase.Stored?
    && s' == s.(secrets := s.phase.build.material, lastMod := s.phase.mtime, phase := Idle)
  }

  ghost predicate NextReversed(w: World, s: State, s': State) {
    || Write(w, s, s') || Stat(s, s') || Read(w, s, s') || Fail(s, s')
    || Boot(s, s') || SwapFirst(s, s') || StoreLast(s, s')
  }

  ghost predicate ReversedHistory(w: World, trace: seq<State>) {
    && trace != [] && trace[0].phase.Down? && trace[0].registry == map[] && trace[0].secrets == map[]
    && forall i :: 0 <= i < |trace| - 1 ==> NextReversed(w, trace[i], trace[i + 1])
  }

  /** With the registry first it is not: a version that newly adds a name,
      credential and all, serves it before the secret is there. */
  lemma {:induction false} RegistryFirstMissesANewName(w: World, name: string, a: Build, b: Build)
    returns (trace: seq<State>)
    requires a in w.builds && WellBuilt(a) && a.contents.valid && name !in a.contents.services
    requires b in w.builds && WellBuilt(b) && b.contents.valid && name in b.contents.services && Keys(b, name)
    ensures ReversedHistory(w, trace) && ReadingsKey(trace, name) && !ResolvesThroughout(trace, name)
  {
    var s0 := State(File(0, a.contents), map[], map[], 0, Down);
    var s1 := s0.(phase := Statted(0, true));
    var s2 := s1.(phase := Built(0, a, true));
    var s3 := s2.(registry := a.contents.services, secrets := a.material, phase := Idle);
    var s4 := s3.(file := File(1, b.contents));
    var s5 := s4.(phase := Statted(1, false));
    var s6 := s5.(phase := Built(1, b, false));
    var s7 := s6.(registry := b.contents.services, phase := Stored(1, b));
    assert Stat(s0, s1) && Read(w, s1, s2) && Boot(s2, s3);
    assert Write(w, s3, s4) && Stat(s4, s5) && Read(w, s5, s6) && SwapFirst(s6, s7);
    trace := [s0, s1, s2, s3, s4, s5, s6, s7];
    assert name in trace[7].registry && !Resolves(trace[7].secrets, name);
  }
}
