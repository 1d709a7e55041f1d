/** Commits as Git sees them: a commit is determined by its content and its
    parents, so equality of values stands for equality of object ids. */
module Git {

  /** What `git patch-id` identifies. `bumps` says whether the patch adds a
      `version = ` line, which is all the land gate reads from a diff. */
  datatype Patch = Patch(id: nat, bumps: bool)

  /** `stamp` is everything else that goes into the object id: dates, message. */
  datatype Commit = Commit(patch: Patch, tree: map<string, int>, parents: seq<Commit>, stamp: nat)

  predicate IsMerge(c: Commit) {
    |c.parents| >= 2
  }

  /** `a` is `c` or one of its ancestors (`git merge-base --is-ancestor a c`). */
  predicate Reaches(c: Commit, a: Commit)
    decreases c
  {
    a == c || exists i :: 0 <= i < |c.parents| && Reaches(c.parents[i], a)
  }

  lemma {:induction false} ReachesTransitive(c: Commit, b: Commit, a: Commit)
    requires Reaches(c, b) && Reaches(b, a)
    ensures Reaches(c, a)
    decreases c
  {
    if b != c {
      var i :| 0 <= i < |c.parents| && Reaches(c.parents[i], b);
      ReachesTransitive(c.parents[i], b, a);
    }
  }

  /** What an ancestor reaches, every descendant reaches. */
  lemma {:induction false} ReachesGrows(c: Commit, b: Commit)
    requires Reaches(c, b)
    ensures forall a :: Reaches(b, a) ==> Reaches(c, a)
  {
    forall a | Reaches(b, a) ensures Reaches(c, a) {
      ReachesTransitive(c, b, a);
    }
  }

  /** The history of a commit as a set. */
  function ReachSet(c: Commit): (r: set<Commit>)
    ensures forall a :: a in r <==> Reaches(c, a)
    decreases c, 1
  {
    {c} + ReachSetAll(c.parents)
  }

  function ReachSetAll(cs: seq<Commit>): (r: set<Commit>)
    ensures forall a :: a in r <==> exists i :: 0 <= i < |cs| && Reaches(cs[i], a)
    decreases cs, 0
  {
    if cs == [] then {}
    else
      assert forall i :: 0 < i < |cs| ==> cs[i] == cs[1..][i - 1];
      assert forall a :: (exists i :: 0 <= i < |cs| && Reaches(cs[i], a)) <==>
                         Reaches(cs[0], a) || exists i :: 0 <= i < |cs[1..]| && Reaches(cs[1..][i], a);
      ReachSet(cs[0]) + ReachSetAll(cs[1..])
  }

  // An upper bound on the stamps of a history, so that a new object can be named.

  ghost function MaxStamp(c: Commit): nat
    decreases c, 1
  {
    var below := MaxStampAll(c.parents);
    if c.stamp > below then c.stamp else below
  }

  ghost function MaxStampAll(cs: seq<Commit>): nat
    decreases cs, 0
  {
    if cs == [] then 0
    else
      var first, rest := MaxStamp(cs[0]), MaxStampAll(cs[1..]);
      if first > rest then first else rest
  }

  lemma {:induction false} MaxStampAllBounds(cs: seq<Commit>, i: nat)
    requires i < |cs|
    ensures MaxStamp(cs[i]) <= MaxStampAll(cs)
  {
    if i > 0 {
      MaxStampAllBounds(cs[1..], i - 1);
    }
  }

  lemma {:induction false} MaxStampBounds(c: Commit, a: Commit)
    requires Reaches(c, a)
    ensures a.stamp <= MaxStamp(c)
    decreases c
  {
    if a != c {
      var i :| 0 <= i < |c.parents| && Reaches(c.parents[i], a);
      MaxStampBounds(c.parents[i], a);
      MaxStampAllBounds(c.parents, i);
    }
  }

  // Height, to tell a commit from its ancestors.

  ghost function Height(c: Commit): nat
    decreases c, 1
  {
    1 + HeightAll(c.parents)
  }

  ghost function HeightAll(cs: seq<Commit>): nat
    decreases cs, 0
  {
    if cs == [] then 0
    else
      var first, rest := Height(cs[0]), HeightAll(cs[1..]);
      if first > rest then first else rest
  }

  lemma {:induction false} HeightAllBounds(cs: seq<Commit>, i: nat)
    requires i < |cs|
    ensures Height(cs[i]) <= HeightAll(cs)
  {
    if i > 0 {
      HeightAllBounds(cs[1..], i - 1);
    }
  }

  /** A proper ancestor is strictly lower: history has no cycle. */
  lemma {:induction false} AncestorIsLower(c: Commit, a: Commit)
    requires Reaches(c, a)
    ensures a == c || Height(a) < Height(c)
    decreases c
  {
    if a != c {
      var i :| 0 <= i < |c.parents| && Reaches(c.parents[i], a);
      AncestorIsLower(c.parents[i], a);
      HeightAllBounds(c.parents, i);
    }
  }
}
