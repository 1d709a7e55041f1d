/** The combining loop's guard on `.github`: the paths that `git diff --name-only`
    lists between the feature commit and the staged merge. Git pairs a deleted
    path with an added one as a rename, and a rename is listed under its new
    name only. */
module StageGuard {
  import opened Text

  type Tree = map<string, int>

  predicate Guarded(p: string) {
    p == ".github" || ".github/" <= p
  }

  function Added(was: Tree, now: Tree): set<string> {
    now.Keys - was.Keys
  }

  function Deleted(was: Tree, now: Tree): set<string> {
    was.Keys - now.Keys
  }

  function Edited(was: Tree, now: Tree): set<string> {
    set p | p in was && p in now && was[p] != now[p]
  }

  function Changed(was: Tree, now: Tree): set<string> {
    Added(was, now) + Deleted(was, now) + Edited(was, now)
  }

  predicate Injective(m: map<string, string>) {
    forall p, q :: p in m && q in m && m[p] == m[q] ==> p == q
  }

  /** A pairing of deletions with additions that git may report as renames. */
  predicate Renames(was: Tree, now: Tree, moved: map<string, string>) {
    && Injective(moved) && moved.Keys <= Deleted(was, now)
    && forall p :: p in moved ==> moved[p] in Added(was, now)
  }

  /** What the diff lists. */
  function Listed(was: Tree, now: Tree, moved: map<string, string>): set<string> {
    Changed(was, now) - moved.Keys
  }

  /** Nothing listed is guarded, so the merge may become a candidate. */
  ghost predicate Passes(was: Tree, now: Tree, moved: map<string, string>) {
    Renames(was, now, moved) && forall p :: p in Listed(was, now, moved) ==> !Guarded(p)
  }

  ghost predicate Untouched(was: Tree, now: Tree) {
    forall p :: p in Changed(was, now) ==> !Guarded(p)
  }

  /** However git pairs the paths, what passes leaves the guarded paths alone. */
  ghost predicate Sound(was: Tree, now: Tree) {
    forall moved :: Passes(was, now, moved) ==> Untouched(was, now)
  }

  function Inside(ps: set<string>): set<string> {
    set p | p in ps && Guarded(p)
  }

  function Outside(ps: set<string>): set<string> {
    set p | p in ps && !Guarded(p)
  }

  /** The merge touches `.github` only by deleting from it, and adds at least as
      many paths elsewhere. */
  predicate OnlyMovesOut(was: Tree, now: Tree) {
    && Inside(Added(was, now) + Edited(was, now)) == {}
    && 0 < |Inside(Deleted(was, now))| <= |Outside(Added(was, now))|
  }

  // ---- what the two operations come to ---------------------------------------

  /** A path is guarded when its first component is `.github`. */
  lemma {:induction false} GuardedExactly(p: string)
    ensures Guarded(p) <==> Components(p)[0] == ".github"
  {
    var a, b := ComponentAt(p, 0);
    if ".github/" <= p {
      assert p == "" + ".github" + p[7..];
      var i := ComponentIndex(p, "", ".github", p[7..]);
    } else if p == ".github" {
      var i := ComponentIndex(p, "", ".github", "");
    }
  }

  /** The diff lists a path when the two trees have different things there, and it
      is not the old name of a rename. */
  lemma {:induction false} ListedExactly(was: Tree, now: Tree, moved: map<string, string>, p: string)
    ensures p in Listed(was, now, moved) <==>
            p !in moved && (p in was || p in now) && !(p in was && p in now && was[p] == now[p])
  {
  }

  // ---- proof ---------------------------------------------------------------

  lemma {:induction false} PairUp(from: set<string>, to: set<string>) returns (m: map<string, string>)
    requires |from| <= |to|
    ensures Injective(m) && m.Keys == from && forall p :: p in m ==> m[p] in to
  {
    if from == {} {
      m := map[];
    } else {
      var p :| p in from;
      var q :| q in to;
      m := PairUp(from - {p}, to - {q});
      m := m[p := q];
    }
  }

  lemma {:induction false} PairsFit(m: map<string, string>, from: set<string>, to: set<string>)
    requires Injective(m) && from <= m.Keys && forall p :: p in from ==> m[p] in to
    ensures |from| <= |to|
  {
    if from != {} {
      var p :| p in from;
      PairsFit(m, from - {p}, to - {m[p]});
    }
  }

  lemma {:induction false} PassesUntouched(was: Tree, now: Tree, moved: map<string, string>)
    requires Passes(was, now, moved) && !OnlyMovesOut(was, now)
    ensures Untouched(was, now)
  {
    var gone, made := Inside(Deleted(was, now)), Outside(Added(was, now));
    forall p | p in Added(was, now) + Edited(was, now) ensures !Guarded(p) {
      assert p in Listed(was, now, moved);
    }
    if gone != {} {
      forall p | p in gone ensures p in moved {
        assert p in moved || p in Listed(was, now, moved);
      }
      PairsFit(moved, gone, made);
    }
    forall p | p in Changed(was, now) ensures !Guarded(p) {
      assert p in gone || p in Added(was, now) + Edited(was, now) || !Guarded(p);
    }
  }

  lemma {:induction false} MovedOutPasses(was: Tree, now: Tree) returns (moved: map<string, string>)
    requires OnlyMovesOut(was, now)
    ensures Passes(was, now, moved) && !Untouched(was, now)
  {
    var gone := Inside(Deleted(was, now));
    moved := PairUp(gone, Outside(Added(was, now)));
    forall p | p in Listed(was, now, moved) ensures !Guarded(p) {
      assert p !in gone;
      assert Guarded(p) ==> p in Inside(Added(was, now) + Edited(was, now));
    }
    var p :| p in gone;
    assert p in Changed(was, now);
  }

  /** The guard keeps `.github` as it was, whatever git pairs up, exactly when
      the merge does not merely move paths out of it. */
  lemma {:induction false} SoundExactly(was: Tree, now: Tree)
    ensures Sound(was, now) <==> !OnlyMovesOut(was, now)
  {
    if OnlyMovesOut(was, now) {
      var moved := MovedOutPasses(was, now);
    } else {
      forall moved | Passes(was, now, moved) ensures Untouched(was, now) {
        PassesUntouched(was, now, moved);
      }
    }
  }

  /** For the renames git did report: what passes leaves `.github` as it was if
      and only if none of them starts there. */
  lemma {:induction false} PassesExactly(was: Tree, now: Tree, moved: map<string, string>)
    requires Passes(was, now, moved)
    ensures Untouched(was, now) <==> Inside(moved.Keys) == {}
  {
    if p :| p in moved && Guarded(p) {
      assert p in Changed(was, now) && p in Inside(moved.Keys);
    }
    forall p | p in Changed(was, now) && Guarded(p) ensures p in Inside(moved.Keys) {
      assert p in moved || p in Listed(was, now, moved);
    }
  }

  /** A workflow file renamed to a path outside, contents and all. */
  lemma {:induction false} MovingAWorkflowOutPasses(content: int)
    ensures Passes(map[".github/ci.yml" := content], map["ci.yml" := content], map[".github/ci.yml" := "ci.yml"])
    ensures !Untouched(map[".github/ci.yml" := content], map["ci.yml" := content])
  {
    var inside := ".github/ci.yml";
    var outside := "ci.yml";
    var was, now := map[inside := content], map[outside := content];
    assert inside[0] == '.' && outside[0] == 'c';
    assert Changed(was, now) == {inside, outside};
    assert inside[..8] == ".github/";
    assert Guarded(inside) && !Guarded(outside);
  }
}
