/** The JavaScript string operations the facet front end relies on:
    `split(',')`, `join(',')` and `trim()`. */
module JsString {

  /** `s.split(',')`: never empty, and no piece contains a comma. */
  function Split(s: string): (r: seq<string>)
    ensures |r| >= 1
    ensures forall i :: 0 <= i < |r| ==> ',' !in r[i]
    decreases |s|
  {
    if |s| == 0 then [""]
    else
      var rest := Split(s[1..]);
      if s[0] == ',' then [""] + rest
      else [[s[0]] + rest[0]] + rest[1..]
  }

  /** `xs.join(',')`; the empty list joins to the empty string. */
  function Join(xs: seq<string>): string
  {
    if |xs| == 0 then ""
    else if |xs| == 1 then xs[0]
    else xs[0] + "," + Join(xs[1..])
  }

  /** Joining the pieces of a split gives the string back. */
  lemma {:induction false} JoinSplit(s: string)
    ensures Join(Split(s)) == s
    decreases |s|
  {
    if |s| > 0 {
      JoinSplit(s[1..]);
      var rest := Split(s[1..]);
      if s[0] == ',' {
        assert Split(s) == [""] + rest;
        assert Join([""] + rest) == "" + "," + Join(rest);
        assert s == [s[0]] + s[1..];
      } else {
        var head := [s[0]] + rest[0];
        assert Split(s) == [head] + rest[1..];
        if |rest| == 1 {
          assert Join(rest) == rest[0];
          assert s == [s[0]] + s[1..];
        } else {
          assert Join(rest) == rest[0] + "," + Join(rest[1..]);
          assert ([head] + rest[1..])[1..] == rest[1..];
          assert s == [s[0]] + s[1..];
        }
      }
    }
  }

  /** A comma-free string splits into itself. */
  lemma {:induction false} SplitNoComma(a: string)
    requires ',' !in a
    ensures Split(a) == [a]
    decreases |a|
  {
    if |a| > 0 {
      assert ',' !in a[1..] by {
        forall i | 0 <= i < |a[1..]| ensures a[1..][i] != ',' {
          assert a[1..][i] == a[i + 1];
        }
      }
      SplitNoComma(a[1..]);
      assert [a[0]] + a[1..] == a;
    }
  }

  /** A comma-free prefix sticks to the first piece of the split. */
  lemma {:induction false} SplitPrefix(a: string, b: string)
    requires ',' !in a
    ensures Split(a + b) == [a + Split(b)[0]] + Split(b)[1..]
    decreases |a|
  {
    if |a| > 0 {
      assert ',' !in a[1..] by {
        forall i | 0 <= i < |a[1..]| ensures a[1..][i] != ',' {
          assert a[1..][i] == a[i + 1];
        }
      }
      SplitPrefix(a[1..], b);
      assert (a + b)[0] == a[0];
      assert (a + b)[1..] == a[1..] + b;
      assert [a[0]] + (a[1..] + Split(b)[0]) == a + Split(b)[0];
    } else {
      assert a + b == b;
      var sb := Split(b);
      assert a + sb[0] == sb[0];
      assert sb == [sb[0]] + sb[1..];
    }
  }

  /** Splitting a join of comma-free pieces gives the pieces back. */
  lemma {:induction false} SplitJoin(xs: seq<string>)
    requires |xs| >= 1
    requires forall i :: 0 <= i < |xs| ==> ',' !in xs[i]
    ensures Split(Join(xs)) == xs
    decreases |xs|
  {
    if |xs| == 1 {
      SplitNoComma(xs[0]);
    } else {
      var tail := Join(xs[1..]);
      SplitJoin(xs[1..]);
      assert Split("," + tail) == [""] + Split(tail) by {
        assert ("," + tail)[0] == ',';
        assert ("," + tail)[1..] == tail;
      }
      assert Join(xs) == xs[0] + ("," + tail);
      SplitPrefix(xs[0], "," + tail);
      var st := Split("," + tail);
      assert st[0] == "" && st[1..] == xs[1..];
      assert xs[0] + st[0] == xs[0];
      assert xs == [xs[0]] + xs[1..];
    }
  }

  /** White space and line terminators as `String.prototype.trim` strips them. */
  const WhiteSpace: set<char> := {
    ' ', '\t', '\n', '\r', '\U{000B}', '\U{000C}', '\U{00A0}', '\U{1680}',
    '\U{2000}', '\U{2001}', '\U{2002}', '\U{2003}', '\U{2004}', '\U{2005}',
    '\U{2006}', '\U{2007}', '\U{2008}', '\U{2009}', '\U{200A}',
    '\U{2028}', '\U{2029}', '\U{202F}', '\U{205F}', '\U{3000}', '\U{FEFF}'
  }

  predicate IsWhiteSpace(c: char) {
    c in WhiteSpace
  }

  /** Neither end of `s` is white space. */
  predicate Trimmed(s: string) {
    |s| == 0 || (!IsWhiteSpace(s[0]) && !IsWhiteSpace(s[|s| - 1]))
  }

  /** The first index at or after `k` that is not white space, or `|s|`. */
  function SkipWhiteSpace(s: string, k: nat): (i: nat)
    requires k <= |s|
    ensures k <= i <= |s|
    ensures forall m :: k <= m < i ==> IsWhiteSpace(s[m])
    ensures i < |s| ==> !IsWhiteSpace(s[i])
    decreases |s| - k
  {
    if k < |s| && IsWhiteSpace(s[k]) then SkipWhiteSpace(s, k + 1) else k
  }

  /** The end of `s[lo..j]` once its trailing white space is dropped. */
  function BackOverWhiteSpace(s: string, lo: nat, j: nat): (e: nat)
    requires lo <= j <= |s|
    ensures lo <= e <= j
    ensures forall m :: e <= m < j ==> IsWhiteSpace(s[m])
    ensures e > lo ==> !IsWhiteSpace(s[e - 1])
    decreases j
  {
    if j > lo && IsWhiteSpace(s[j - 1]) then BackOverWhiteSpace(s, lo, j - 1) else j
  }

  /** All of `s` is white space. */
  predicate AllWhiteSpace(s: string) {
    forall k :: 0 <= k < |s| ==> IsWhiteSpace(s[k])
  }

  /** `s.trim()`: `s` without its leading and trailing white space. */
  function Trim(s: string): (r: string)
    ensures Trimmed(r)
    ensures exists i, j :: (&& 0 <= i <= j <= |s| && r == s[i..j]
                            && (forall k :: 0 <= k < i ==> IsWhiteSpace(s[k]))
                            && (forall k :: j <= k < |s| ==> IsWhiteSpace(s[k])))
    ensures Trimmed(s) ==> r == s
    ensures r == "" <==> AllWhiteSpace(s)
  {
    var i := SkipWhiteSpace(s, 0);
    var j := BackOverWhiteSpace(s, i, |s|);
    assert |s[i..j]| > 0 ==> s[i..j][0] == s[i] && s[i..j][j - i - 1] == s[j - 1];
    s[i..j]
  }

  /** When `s` is white space outside `s[b..e]` and `s[b..e]` is trimmed,
      trimming `s` gives `s[b..e]`. */
  lemma TrimPinned(s: string, b: nat, e: nat)
    requires b <= e <= |s|
    requires forall k :: 0 <= k < b ==> IsWhiteSpace(s[k])
    requires forall k :: e <= k < |s| ==> IsWhiteSpace(s[k])
    requires Trimmed(s[b..e])
    ensures Trim(s) == s[b..e]
  {
    var i := SkipWhiteSpace(s, 0);
    var j := BackOverWhiteSpace(s, i, |s|);
    assert Trim(s) == s[i..j];
    if b < e {
      assert s[b..e][0] == s[b] && s[b..e][e - b - 1] == s[e - 1];
      assert i == b;
      assert j == e;
    }
  }

  /** Trimming removes exactly the white space around a trimmed core, and a
      text of white space only trims to nothing. */
  lemma TrimAround(before: string, core: string, after: string)
    requires AllWhiteSpace(before) && AllWhiteSpace(after) && Trimmed(core)
    ensures Trim(before + core + after) == core
  {
    var s := before + core + after;
    var b, e := |before|, |before| + |core|;
    forall k | 0 <= k < b ensures IsWhiteSpace(s[k]) {
      assert s[k] == before[k];
    }
    forall k | e <= k < |s| ensures IsWhiteSpace(s[k]) {
      assert s[k] == after[k - e];
    }
    assert s[b..e] == core;
    TrimPinned(s, b, e);
  }
}
