/** The string operations the scripts use. */
module Text {

  /** `part in whole`, as Python reads it. */
  predicate Contains(whole: string, part: string) {
    exists i :: 0 <= i <= |whole| && IsAt(whole, i, part)
  }

  predicate IsAt(whole: string, i: nat, part: string)
    requires i <= |whole|
  {
    i + |part| <= |whole| && whole[i..i + |part|] == part
  }

  lemma {:induction false} ContainsMiddle(before: string, part: string, after: string)
    ensures Contains(before + part + after, part)
  {
    var whole := before + part + after;
    assert whole[|before|..|before| + |part|] == part;
    assert IsAt(whole, |before|, part);
  }

  lemma {:induction false} ContainsGrows(before: string, whole: string, after: string, part: string)
    requires Contains(whole, part)
    ensures Contains(before + whole + after, part)
  {
    var i :| 0 <= i <= |whole| && IsAt(whole, i, part);
    var big := before + whole + after;
    assert big[|before| + i..|before| + i + |part|] == whole[i..i + |part|];
    assert IsAt(big, |before| + i, part);
  }

  function LowerChar(c: char): char {
    if 'A' <= c <= 'Z' then c + ' ' else c
  }

  function Lower(s: string): string {
    seq(|s|, i requires 0 <= i < |s| => LowerChar(s[i]))
  }

  /** The parts of `s` between slashes. */
  function Components(s: string): (parts: seq<string>)
    ensures |parts| > 0
  {
    if s == "" then [""]
    else
      var rest := Components(s[1..]);
      if s[0] == '/' then [""] + rest else [[s[0]] + rest[0]] + rest[1..]
  }

  /** There is something before and after it, maybe nothing. */
  lemma {:induction false} ContainsExactly(whole: string, part: string)
    ensures Contains(whole, part) <==> exists a, b :: Surrounded(whole, a, part, b)
  {
    if i :| 0 <= i <= |whole| && IsAt(whole, i, part) {
      assert whole == whole[..i] + part + whole[i + |part|..];
      assert Surrounded(whole, whole[..i], part, whole[i + |part|..]);
    }
    if a, b :| Surrounded(whole, a, part, b) {
      ContainsMiddle(a, part, b);
    }
  }

  ghost predicate Surrounded(whole: string, a: string, part: string, b: string) {
    whole == a + part + b
  }

  // ---- the same, without the functions -------------------------------------

  const CAPITALS := "ABCDEFGHIJKLMNOPQRSTUVWXYZ"
  const SMALLS := "abcdefghijklmnopqrstuvwxyz"

  /** `low` is `c` with a capital letter made small. */
  ghost predicate MadeSmall(c: char, low: char) {
    (c == low && c !in CAPITALS) || exists k :: 0 <= k < 26 && c == CAPITALS[k] && low == SMALLS[k]
  }

  /** `low` is what `s` reads like in small letters. */
  ghost predicate ReadsAs(s: string, low: string) {
    |s| == |low| && forall i :: 0 <= i < |s| ==> MadeSmall(s[i], low[i])
  }

  lemma {:induction false} CapitalsInOrder(k: nat)
    requires k < 26
    ensures CAPITALS[k] as int == 'A' as int + k && SMALLS[k] as int == 'a' as int + k
  {
  }

  lemma {:induction false} LowerCharExactly(c: char, low: char)
    ensures LowerChar(c) == low <==> MadeSmall(c, low)
  {
    if 'A' <= c <= 'Z' {
      var k := c as int - 'A' as int;
      CapitalsInOrder(k);
      assert c == CAPITALS[k];
    }
    forall k | 0 <= k < 26 ensures 'A' <= CAPITALS[k] <= 'Z' && LowerChar(CAPITALS[k]) == SMALLS[k] {
      CapitalsInOrder(k);
    }
  }

  lemma {:induction false} LowerExactly(s: string, low: string)
    ensures Lower(s) == low <==> ReadsAs(s, low)
  {
    forall i | 0 <= i < |s| && i < |low| ensures LowerChar(s[i]) == low[i] <==> MadeSmall(s[i], low[i]) {
      LowerCharExactly(s[i], low[i]);
    }
  }

  lemma {:induction false} LowerSplits(a: string, p: string, b: string)
    ensures Lower(a + p + b) == Lower(a) + Lower(p) + Lower(b)
  {
  }

  /** `part` is all of `s` between two slashes, or an end and a slash, or the ends. */
  ghost predicate IsComponent(s: string, a: string, part: string, b: string) {
    && s == a + part + b && '/' !in part
    && (a == "" || a[|a| - 1] == '/') && (b == "" || b[0] == '/')
  }

  lemma {:induction false} ComponentAt(s: string, i: nat) returns (a: string, b: string)
    requires i < |Components(s)|
    ensures IsComponent(s, a, Components(s)[i], b) && (a == "" <==> i == 0)
  {
    if s == "" {
      a, b := "", "";
    } else if s[0] == '/' && i == 0 {
      a, b := "", s;
    } else {
      a, b := ComponentAt(s[1..], if s[0] == '/' then i - 1 else i);
      if s[0] == '/' || i > 0 {
        a := [s[0]] + a;
      }
      assert s == [s[0]] + s[1..];
    }
  }

  lemma {:induction false} ComponentIndex(s: string, a: string, part: string, b: string) returns (i: nat)
    requires IsComponent(s, a, part, b)
    ensures i < |Components(s)| && Components(s)[i] == part && (a == "" <==> i == 0)
  {
    if a == "" {
      i := 0;
      if part != "" {
        assert s[1..] == "" + part[1..] + b && s[0] == part[0];
        var j := ComponentIndex(s[1..], "", part[1..], b);
        assert [s[0]] + part[1..] == part;
      }
    } else {
      assert s[1..] == a[1..] + part + b && s[0] == a[0];
      var j := ComponentIndex(s[1..], a[1..], part, b);
      i := if s[0] == '/' then j + 1 else j;
    }
  }

  /** The parts are exactly the components. */
  lemma {:induction false} ComponentsExactly(s: string, part: string)
    ensures part in Components(s) <==> exists a, b :: IsComponent(s, a, part, b)
  {
    if part in Components(s) {
      var i :| 0 <= i < |Components(s)| && Components(s)[i] == part;
      var a, b := ComponentAt(s, i);
    }
    if a, b :| IsComponent(s, a, part, b) {
      var i := ComponentIndex(s, a, part, b);
    }
  }
}
