/** `buildRunnerServices` and `checkAndReload` as they are written, the latter a
    run of the protocol in `Reloader`. */
module ReloaderNode {
  import opened Reloader

  datatype Entry = Entry(name: string, endpoint: int, secretFile: string)

  datatype BuildResult = Unreadable(name: string) | Ready(services: map<string, int>, secrets: map<string, string>)

  datatype Outcome = Unchanged | Applied | Failed

  /** The last entry under a name is the one that counts. */
  function LastNamed(entries: seq<Entry>, name: string): (i: int)
    ensures -1 <= i < |entries|
    ensures i >= 0 ==> entries[i].name == name
    ensures forall j :: i < j < |entries| ==> entries[j].name != name
  {
    if entries == [] then -1
    else if entries[|entries| - 1].name == name then |entries| - 1
    else LastNamed(entries[..|entries| - 1], name)
  }

  ghost predicate BuiltFrom(entries: seq<Entry>, disk: map<string, string>,
                            services: map<string, int>, secrets: map<string, string>) {
    && services.Keys == secrets.Keys
    && forall name ::
         var i := LastNamed(entries, name);
         && (name in services <==> i >= 0)
         && (i >= 0 ==> entries[i].secretFile in disk && services[name] == entries[i].endpoint &&
                        secrets[name] == disk[entries[i].secretFile])
  }

  /** Registry and secrets from one reading: the same names in both. */
  method BuildServices(entries: seq<Entry>, disk: map<string, string>) returns (r: BuildResult)
    ensures r.Unreadable? <==> exists e :: e in entries && e.secretFile !in disk
    ensures r.Ready? ==> BuiltFrom(entries, disk, r.services, r.secrets)
  {
    var services: map<string, int> := map[];
    var secrets: map<string, string> := map[];
    for i := 0 to |entries|
      invariant BuiltFrom(entries[..i], disk, services, secrets)
      invariant forall e :: e in entries[..i] ==> e.secretFile in disk
    {
      var e := entries[i];
      if e.secretFile !in disk {
        return Unreadable(e.name);
      }
      assert entries[..i + 1][..i] == entries[..i];
      secrets := secrets[e.name := disk[e.secretFile]];
      services := services[e.name := e.endpoint];
    }
    assert entries[..|entries|] == entries;
    r := Ready(services, secrets);
  }

  function ServicesOf(entries: seq<Entry>): map<string, int> {
    map name | name in set e | e in entries :: e.name ::
      var i := LastNamed(entries, name); if i >= 0 then entries[i].endpoint else 0
  }

  lemma {:induction false} BuiltIsServicesOf(entries: seq<Entry>, disk: map<string, string>,
                          services: map<string, int>, secrets: map<string, string>)
    requires BuiltFrom(entries, disk, services, secrets)
    ensures services == ServicesOf(entries)
  {
  }

  /** Any reading can happen, and every write advances the mtime. */
  ghost function Anything(): World {
    World(iset b: Build | WellBuilt(b), true)
  }

  /** `History`, from the last step back. */
  ghost predicate Run(trace: seq<State>) {
    && trace != []
    && if |trace| == 1 then trace[0].phase.Down? && trace[0].registry == map[] && trace[0].secrets == map[]
       else Next(Anything(), trace[|trace| - 2], trace[|trace| - 1]) && Run(trace[..|trace| - 1])
  }

  lemma {:induction false} RunIsHistory(trace: seq<State>)
    requires Run(trace)
    ensures History(Anything(), trace)
  {
    if |trace| > 1 {
      RunIsHistory(trace[..|trace| - 1]);
    }
  }

  /** The registry file and the secret files, trimmed, which operators rewrite. */
  datatype Files = Files(mtime: nat, entries: seq<Entry>, valid: bool, disk: map<string, string>)

  /** What an operator's turn comes to: a rewritten registry file has a later mtime,
      and the secret files change as they like. */
  function After(files: Files, written: Files): Files {
    if written.mtime > files.mtime then written else files.(disk := written.disk)
  }

  predicate AllThere(files: Files) {
    forall e :: e in files.entries ==> e.secretFile in files.disk
  }

  class Worker {
    var files: Files
    var registry: map<string, int>
    var secrets: map<string, string>
    var lastMod: nat
    ghost var phase: Phase
    ghost var trace: seq<State>

    /** A worker that has not loaded the file yet. */
    constructor (files: Files)
      ensures Valid() && this.files == files && registry == map[] && secrets == map[] && phase == Down
    {
      this.files, registry, secrets, lastMod, phase := files, map[], map[], 0, Down;
      trace := [State(File(files.mtime, Contents(ServicesOf(files.entries), files.valid)), map[], map[], 0, Down)];
    }

    ghost function View(): State
      reads this
    {
      State(File(files.mtime, Contents(ServicesOf(files.entries), files.valid)), registry, secrets, lastMod, phase)
    }

    ghost predicate Valid()
      reads this
    {
      Run(trace) && trace[|trace| - 1] == View() && Fresh(View())
    }

    ghost method Note()
      requires Run(trace) && Fresh(trace[|trace| - 1]) && Next(Anything(), trace[|trace| - 1], View())
      modifies this`trace
      ensures Valid() && trace == old(trace) + [View()]
    {
      NextKeepsFresh(Anything(), trace[|trace| - 1], View());
      assert (trace + [View()])[..|trace|] == trace;
      trace := trace + [View()];
    }

    ghost method Go(to: Phase)
      requires Valid() && Next(Anything(), View(), View().(phase := to))
      modifies this`phase, this`trace
      ensures Valid() && old(trace) <= trace && phase == to
    {
      phase := to;
      Note();
    }

    /** The operator gets a turn. */
    method Writes(written: Files)
      requires Valid()
      modifies this`files, this`trace
      ensures Valid() && old(trace) <= trace && files == After(old(files), written)
    {
      var rewritten := written.mtime > files.mtime;
      files := After(files, written);
      if rewritten {
        assert Write(Anything(), trace[|trace| - 1], View());
        Note();
      }
    }

    /** Parse the file and read the secret files it names. */
    method ReadAndBuild(m: nat, booting: bool, parses: bool) returns (ok: bool, b: Build)
      requires Valid() && phase == Statted(m, booting)
      modifies this`phase, this`trace
      ensures Valid() && old(trace) <= trace
      ensures phase == if ok then Built(m, b, booting) else if booting then Down else Idle
      ensures ok <==> parses && AllThere(files)
      ensures ok ==> b.contents.valid == files.valid
      ensures ok ==> BuiltFrom(files.entries, files.disk, b.contents.services, b.material)
    {
      var r := BuildServices(files.entries, files.disk);
      if !parses || r.Unreadable? {
        ghost var to := if booting then Down else Idle;
        assert Fail(View(), View().(phase := to));
        Go(to);
        return false, Build(Contents(map[], false), map[]);
      }
      BuiltIsServicesOf(files.entries, files.disk, r.services, r.secrets);
      ok, b := true, Build(Contents(r.services, files.valid), r.secrets);
      assert b in Anything().builds;
      assert Read(Anything(), View(), View().(phase := Built(m, b, booting)));
      Go(Built(m, b, booting));
    }

    /** Swap the secrets, then the registry, which may refuse. */
    method Apply(m: nat, b: Build, written: Files) returns (ok: bool)
      requires Valid() && phase == Built(m, b, false)
      modifies this`files, this`trace, this`registry, this`secrets, this`lastMod, this`phase
      ensures Valid() && old(trace) <= trace && phase.Idle? && files == After(old(files), written)
      ensures ok <==> b.contents.valid
      ensures secrets == b.material
      ensures registry == (if ok then b.contents.services else old(registry))
      ensures lastMod == if ok then m else old(lastMod)
    {
      secrets := b.material;
      phase := Stored(m, b);
      assert Store(trace[|trace| - 1], View());
      Note();
      Writes(written);
      ok := b.contents.valid;
      if ok {
        registry, lastMod := b.contents.services, m;
        phase := Idle;
        assert Swap(trace[|trace| - 1], View());
        Note();
      } else {
        assert Refused(View(), View().(phase := Idle));
        Go(Idle);
      }
    }

    /** Both places at once, or neither. */
    method ComeUp(m: nat, b: Build) returns (up: bool)
      requires Valid() && phase == Built(m, b, true)
      modifies this`trace, this`registry, this`secrets, this`lastMod, this`phase
      ensures Valid() && old(trace) <= trace && (up <==> b.contents.valid)
      ensures up ==> phase == Idle && registry == b.contents.services && secrets == b.material && lastMod == m
      ensures !up ==> phase == Down && registry == old(registry) && secrets == old(secrets)
    {
      up := b.contents.valid;
      if up {
        registry, secrets, lastMod := b.contents.services, b.material, m;
        phase := Idle;
        assert Reloader.Boot(trace[|trace| - 1], View());
        Note();
      } else {
        assert Fail(View(), View().(phase := Down));
        Go(Down);
      }
    }

    /** Start-up: the file as it is read, in both places before anything dispatches. */
    method Boot(stats: bool, parses: bool, afterStat: Files) returns (up: bool)
      requires Valid() && phase.Down?
      modifies this`files, this`trace, this`registry, this`secrets, this`lastMod, this`phase
      ensures Valid() && old(trace) <= trace
      ensures var read := After(old(files), afterStat);
              && (up <==> stats && parses && AllThere(read) && read.valid)
              && (up ==> phase.Idle? && lastMod == old(files).mtime)
              && (up ==> BuiltFrom(read.entries, read.disk, registry, secrets))
              && (!up ==> phase.Down? && registry == old(registry) && secrets == old(secrets))
    {
      if !stats {
        return false;
      }
      var m := files.mtime;
      assert Stat(View(), View().(phase := Statted(m, true)));
      Go(Statted(m, true));
      Writes(afterStat);
      var b;
      up, b := ReadAndBuild(m, true, parses);
      if up {
        up := ComeUp(m, b);
      }
    }

    /** One check; operators write before the stat, before the read, after it and
        between the two swaps. It is unchanged if the file as stat'ed is no newer,
        applied if it is and reads well and is accepted, and failed else. Unchanged
        means up to date at that moment; applied means the reading is in both
        places; a failure leaves the registry, and leaves the secrets too unless it
        was the registry that refused. */
    method CheckAndReload(stats: bool, parses: bool, w0: Files, w1: Files, w2: Files, w3: Files)
      returns (outcome: Outcome)
      requires Valid() && phase.Idle?
      modifies this`files, this`trace, this`registry, this`secrets, this`lastMod, this`phase
      ensures Valid() && old(trace) <= trace && phase.Idle?
      ensures var stat := After(old(files), w0);
              var read := After(stat, w1);
              && (outcome.Unchanged? <==> stats && stat.mtime <= old(lastMod))
              && (outcome.Applied? <==> stats && stat.mtime > old(lastMod) && parses && AllThere(read) && read.valid)
              && (outcome.Applied? ==> BuiltFrom(read.entries, read.disk, registry, secrets) && lastMod == stat.mtime)
              && (!outcome.Applied? ==> registry == old(registry) && lastMod == old(lastMod))
              && (!outcome.Applied? ==>
                    if stats && stat.mtime > old(lastMod) && parses && AllThere(read)
                    then BuiltFrom(read.entries, read.disk, ServicesOf(read.entries), secrets)
                    else secrets == old(secrets))
      ensures outcome.Unchanged? ==> Current(View())
    {
      Writes(w0);
      if !stats {
        return Failed;
      }
      if files.mtime <= lastMod {
        return Unchanged;
      }
      var m := files.mtime;
      assert Stat(View(), View().(phase := Statted(m, false)));
      Go(Statted(m, false));
      Writes(w1);
      var ok, b := ReadAndBuild(m, false, parses);
      if !ok {
        return Failed;
      }
      BuiltIsServicesOf(files.entries, files.disk, b.contents.services, b.material);
      Writes(w2);
      ok := Apply(m, b, w3);
      outcome := if ok then Applied else Failed;
    }
  }
}
