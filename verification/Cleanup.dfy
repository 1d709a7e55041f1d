/** The cleanup node's ref deletion, interleaved with workers who create, move
    and delete refs of their own: list, fetch, test reachability from the
    default branch as fetched, then delete under a lease on the examined commit. */
module Cleanup {
  import opened Git
  import opened Text

  const REVIEW_FIX_PREFIX := "refs/heads/review-fix/"
  const HANDOVER_PREFIX := "refs/culture-nodes/"
  const HEADS_PREFIX := "refs/heads/"

  /** The default branch's name and the lower-case run ids refs are matched against. */
  datatype Config = Config(defaultBranch: string, ids: set<string>)

  function DefaultRef(cfg: Config): string {
    HEADS_PREFIX + cfg.defaultBranch
  }

  /** Whether `attribute` counts a listed ref as the work item's. */
  predicate Mine(ids: set<string>, ref: string) {
    if HANDOVER_PREFIX <= ref then
      exists c :: c in Components(ref[|HANDOVER_PREFIX|..]) && Lower(c) in ids
    else
      REVIEW_FIX_PREFIX <= ref &&
      exists id :: id in ids && Contains(Lower(ref[|REVIEW_FIX_PREFIX|..]), id)
  }

  // ---- whose ref it is, said of the name alone ------------------------------

  /** A component of a handover ref's name, or any part of a review-fix branch's,
      that reads as `id` in small letters. */
  ghost predicate NamedAfter(ref: string, id: string, a: string, part: string, b: string) {
    && ReadsAs(part, id)
    && (|| (ref == "refs/culture-nodes/" + (a + part + b) && IsComponent(a + part + b, a, part, b))
        || ref == "refs/heads/review-fix/" + (a + part + b))
  }

  ghost predicate Belongs(ids: set<string>, ref: string) {
    exists id, a, part, b :: id in ids && NamedAfter(ref, id, a, part, b)
  }

  lemma {:induction false} ComponentReads(ids: set<string>, name: string)
    ensures (exists c :: c in Components(name) && Lower(c) in ids) <==>
            exists id, a, part, b :: id in ids && ReadsAs(part, id) && IsComponent(name, a, part, b)
  {
    if c :| c in Components(name) && Lower(c) in ids {
      ComponentsExactly(name, c);
      LowerExactly(c, Lower(c));
    }
    if id, a, part, b :| id in ids && ReadsAs(part, id) && IsComponent(name, a, part, b) {
      ComponentsExactly(name, part);
      LowerExactly(part, id);
    }
  }

  lemma {:induction false} PartReads(name: string, id: string)
    ensures Contains(Lower(name), id) <==>
            exists a, part, b :: ReadsAs(part, id) && Surrounded(name, a, part, b)
  {
    ContainsExactly(Lower(name), id);
    if a, b :| Surrounded(Lower(name), a, id, b) {
      var i, j := |a|, |a| + |id|;
      var part := name[i..j];
      assert Lower(name)[i..j] == id && Lower(part) == Lower(name)[i..j];
      LowerExactly(part, id);
      assert name == name[..i] + part + name[j..];
      assert Surrounded(name, name[..i], part, name[j..]);
    }
    if a, part, b :| ReadsAs(part, id) && Surrounded(name, a, part, b) {
      LowerExactly(part, id);
      LowerSplits(a, part, b);
      assert Surrounded(Lower(name), Lower(a), id, Lower(b));
    }
  }

  lemma {:induction false} HandoverIsMine(ids: set<string>, name: string)
    ensures Mine(ids, "refs/culture-nodes/" + name) <==> Belongs(ids, "refs/culture-nodes/" + name)
  {
    var ref := "refs/culture-nodes/" + name;
    assert ref[|HANDOVER_PREFIX|..] == name && ref[5] == 'c';
    ComponentReads(ids, name);
    if id, a, part, b :| id in ids && ReadsAs(part, id) && IsComponent(name, a, part, b) {
      assert NamedAfter(ref, id, a, part, b);
    }
    if id, a, part, b :| id in ids && NamedAfter(ref, id, a, part, b) {
      assert ("refs/heads/review-fix/" + (a + part + b))[5] == 'h';
      assert a + part + b == ref[|HANDOVER_PREFIX|..];
    }
  }

  lemma {:induction false} ReviewFixIsMine(ids: set<string>, name: string)
    ensures Mine(ids, "refs/heads/review-fix/" + name) <==> Belongs(ids, "refs/heads/review-fix/" + name)
  {
    var ref := "refs/heads/review-fix/" + name;
    assert ref[|REVIEW_FIX_PREFIX|..] == name && ref[5] == 'h' && HANDOVER_PREFIX[5] == 'c';
    forall id ensures Contains(Lower(name), id) <==>
                      exists a, part, b :: ReadsAs(part, id) && Surrounded(name, a, part, b) {
      PartReads(name, id);
    }
    if id, a, part, b :| id in ids && ReadsAs(part, id) && Surrounded(name, a, part, b) {
      assert NamedAfter(ref, id, a, part, b);
    }
    if id, a, part, b :| id in ids && NamedAfter(ref, id, a, part, b) {
      assert ("refs/culture-nodes/" + (a + part + b))[5] == 'c';
      assert a + part + b == ref[|REVIEW_FIX_PREFIX|..];
      assert Surrounded(name, a, part, b);
    }
  }

  /** Attribution in full: a handover ref with a component, or a review-fix branch
      with a part, that reads as one of the ids, and no other ref. */
  lemma {:induction false} MineExactly(ids: set<string>, ref: string)
    ensures Mine(ids, ref) <==> Belongs(ids, ref)
  {
    if HANDOVER_PREFIX <= ref {
      assert ref == "refs/culture-nodes/" + ref[|HANDOVER_PREFIX|..];
      HandoverIsMine(ids, ref[|HANDOVER_PREFIX|..]);
    } else if REVIEW_FIX_PREFIX <= ref {
      assert ref == "refs/heads/review-fix/" + ref[|REVIEW_FIX_PREFIX|..];
      ReviewFixIsMine(ids, ref[|REVIEW_FIX_PREFIX|..]);
    }
  }

  // ---- the protocol --------------------------------------------------------

  datatype Node =
    | Start
    | Listed(ours: set<string>)
    | Fetched(default: Commit, got: map<string, Commit>)

  datatype State = State(refs: map<string, Commit>, node: Node)

  /** Other workers do as they like with refs, except that the default branch is
      only fast-forwarded. */
  ghost predicate OthersWrite(cfg: Config, s: State, s': State) {
    && (DefaultRef(cfg) in s.refs ==>
          DefaultRef(cfg) in s'.refs && Reaches(s'.refs[DefaultRef(cfg)], s.refs[DefaultRef(cfg)]))
    && s' == s.(refs := s'.refs)
  }

  ghost predicate Lists(cfg: Config, s: State, s': State) {
    s.node.Start? && s' == s.(node := Listed(set r | r in s.refs && Mine(cfg.ids, r)))
  }

  /** One fetch of the default branch and of every listed ref. */
  ghost predicate Fetches(cfg: Config, s: State, s': State) {
    && s.node.Listed? && DefaultRef(cfg) in s.refs && s.node.ours <= s.refs.Keys
    && s' == s.(node := Fetched(s.refs[DefaultRef(cfg)], map r | r in s.node.ours :: s.refs[r]))
  }

  /** A deletion the remote accepts: the ref still points at the examined commit,
      which the fetched default branch reaches. */
  ghost predicate Deletes(s: State, r: string, s': State) {
    && s.node.Fetched? && r in s.node.got && Reaches(s.node.default, s.node.got[r])
    && r in s.refs && s.refs[r] == s.node.got[r]
    && s' == s.(refs := s.refs - {r})
  }

  /** The node ends, fails or is killed. */
  ghost predicate Stops(s: State, s': State) {
    s' == s.(node := Start)
  }

  ghost predicate Next(cfg: Config, s: State, s': State) {
    || OthersWrite(cfg, s, s') || Lists(cfg, s, s') || Fetches(cfg, s, s')
    || (exists r :: Deletes(s, r, s')) || Stops(s, s')
  }

  ghost predicate History(cfg: Config, trace: seq<State>) {
    && |trace| > 0 && trace[0].node.Start?
    && forall i :: 0 <= i < |trace| - 1 ==> Next(cfg, trace[i], trace[i + 1])
  }

  /** Somebody can still get at the commit. */
  ghost predicate Available(s: State, c: Commit) {
    exists r :: r in s.refs && Reaches(s.refs[r], c)
  }

  ghost predicate NothingLost(s: State, s': State) {
    forall c :: Available(s, c) ==> Available(s', c)
  }

  ghost predicate SafeStep(s: State, s': State) {
    (exists r :: Deletes(s, r, s')) ==> NothingLost(s, s')
  }

  ghost predicate SafeRun(trace: seq<State>) {
    forall i :: 0 <= i < |trace| - 1 ==> SafeStep(trace[i], trace[i + 1])
  }

  ghost predicate LosesNoWork(cfg: Config) {
    forall trace :: History(cfg, trace) ==> SafeRun(trace)
  }

  // ---- proof ---------------------------------------------------------------

  ghost predicate Inv(cfg: Config, s: State) {
    match s.node
    case Start => true
    case Listed(ours) => forall r :: r in ours ==> Mine(cfg.ids, r)
    case Fetched(default, got) =>
      && (forall r :: r in got ==> Mine(cfg.ids, r))
      && DefaultRef(cfg) in s.refs && Reaches(s.refs[DefaultRef(cfg)], default)
  }

  lemma {:induction false} NextKeeps(cfg: Config, s: State, s': State)
    requires !Mine(cfg.ids, DefaultRef(cfg)) && Inv(cfg, s) && Next(cfg, s, s')
    ensures Inv(cfg, s')
  {
    if OthersWrite(cfg, s, s') && s.node.Fetched? {
      ReachesTransitive(s'.refs[DefaultRef(cfg)], s.refs[DefaultRef(cfg)], s.node.default);
    }
  }

  lemma {:induction false} HistoryKeeps(cfg: Config, trace: seq<State>, i: nat)
    requires !Mine(cfg.ids, DefaultRef(cfg)) && History(cfg, trace) && i < |trace|
    ensures Inv(cfg, trace[i])
  {
    if i > 0 {
      HistoryKeeps(cfg, trace, i - 1);
      assert Next(cfg, trace[i - 1], trace[i - 1 + 1]);
      NextKeeps(cfg, trace[i - 1], trace[i]);
    }
  }

  /** Whatever a deleted ref reached, the default branch reaches. */
  lemma {:induction false} DeletionLosesNothing(cfg: Config, s: State, r: string, s': State)
    requires !Mine(cfg.ids, DefaultRef(cfg)) && Inv(cfg, s) && Deletes(s, r, s')
    ensures NothingLost(s, s')
  {
    var tip := s.refs[DefaultRef(cfg)];
    assert DefaultRef(cfg) in s'.refs;
    forall c | Available(s, c) ensures Available(s', c) {
      var q :| q in s.refs && Reaches(s.refs[q], c);
      if q == r {
        ReachesTransitive(s.node.default, s.node.got[r], c);
        ReachesTransitive(tip, s.node.default, c);
        assert Reaches(s'.refs[DefaultRef(cfg)], c);
      } else {
        assert q in s'.refs;
      }
    }
  }

  /** A default branch that is itself listed as one of the item's refs is
      deleted, with everything only it reached. */
  lemma {:induction false} ListedDefaultIsDeleted(cfg: Config, c: Commit)
    requires Mine(cfg.ids, DefaultRef(cfg))
    ensures !LosesNoWork(cfg)
  {
    var d := DefaultRef(cfg);
    var s0 := State(map[d := c], Start);
    var s1 := s0.(node := Listed({d}));
    var s2 := s1.(node := Fetched(c, map[d := c]));
    var s3 := s2.(refs := map[]);
    assert (set r | r in s0.refs && Mine(cfg.ids, r)) == {d};
    assert Lists(cfg, s0, s1);
    assert (map r | r in s1.node.ours :: s1.refs[r]) == map[d := c];
    assert Fetches(cfg, s1, s2);
    assert s2.refs - {d} == map[];
    assert Deletes(s2, d, s3);
    var trace := [s0, s1, s2, s3];
    assert History(cfg, trace);
    assert Available(trace[2], c) by {
      assert d in s2.refs && Reaches(s2.refs[d], c);
    }
    assert !Available(trace[3], c);
    assert !SafeStep(trace[2], trace[2 + 1]);
    assert !SafeRun(trace);
  }

  /** The default branches for which the guard is missing. */
  lemma {:induction false} DefaultIsMineExactly(cfg: Config)
    ensures Mine(cfg.ids, DefaultRef(cfg)) <==>
            && "review-fix/" <= cfg.defaultBranch
            && exists id :: id in cfg.ids && Contains(Lower(cfg.defaultBranch[|"review-fix/"|..]), id)
  {
    var d := DefaultRef(cfg);
    assert d[..|HEADS_PREFIX|] == HEADS_PREFIX;
    assert HANDOVER_PREFIX[5] == 'c' && HEADS_PREFIX[5] == 'h' && d[5] == 'h';
    assert REVIEW_FIX_PREFIX == HEADS_PREFIX + "review-fix/";
    if "review-fix/" <= cfg.defaultBranch {
      assert d == REVIEW_FIX_PREFIX + cfg.defaultBranch[|"review-fix/"|..];
    }
    if REVIEW_FIX_PREFIX <= d {
      assert d[|HEADS_PREFIX|..] == cfg.defaultBranch;
      assert d[..|REVIEW_FIX_PREFIX|][|HEADS_PREFIX|..] == "review-fix/";
      assert cfg.defaultBranch[..|"review-fix/"|] == d[|HEADS_PREFIX|..|REVIEW_FIX_PREFIX|];
    }
  }

  /** No deletion, in any interleaving, makes a commit unreachable, if and only
      if the default branch is not itself a `review-fix/` branch named after one
      of the item's runs. */
  lemma {:induction false} LosesNoWorkExactly(cfg: Config)
    ensures LosesNoWork(cfg) <==>
            !("review-fix/" <= cfg.defaultBranch &&
              exists id :: id in cfg.ids && Contains(Lower(cfg.defaultBranch[|"review-fix/"|..]), id))
  {
    DefaultIsMineExactly(cfg);
    if Mine(cfg.ids, DefaultRef(cfg)) {
      ListedDefaultIsDeleted(cfg, Commit(Patch(0, false), map[], [], 0));
    } else {
      forall trace | History(cfg, trace) ensures SafeRun(trace) {
        forall i | 0 <= i < |trace| - 1 ensures SafeStep(trace[i], trace[i + 1]) {
          HistoryKeeps(cfg, trace, i);
          var s, s' := trace[i], trace[i + 1];
          if r :| Deletes(s, r, s') {
            DeletionLosesNothing(cfg, s, r, s');
          }
        }
      }
    }
  }
}
