/** The handful of JavaScript string primitives the handlers rely on:
    `trim()`, `indexOf`, `lastIndexOf`, `slice` and prefix/suffix tests. */
module JsText {

  /** ECMAScript WhiteSpace and LineTerminator code points: exactly what
      `String.prototype.trim` removes and what the regular-expression class `\s` matches. */
  predicate IsSpace(c: char) {
    var n := c as int;
    n == 0x09 || n == 0x0A || n == 0x0B || n == 0x0C || n == 0x0D || n == 0x20
    || n == 0xA0 || n == 0x1680 || (0x2000 <= n <= 0x200A) || n == 0x2028 || n == 0x2029
    || n == 0x202F || n == 0x205F || n == 0x3000 || n == 0xFEFF
  }

  predicate AllSpace(s: string) {
    forall i :: 0 <= i < |s| ==> IsSpace(s[i])
  }

  /** Neither end of `s` is white space (the shape `trim()` produces). */
  predicate Trimmed(s: string) {
    s == [] || (!IsSpace(s[0]) && !IsSpace(s[|s| - 1]))
  }

  /** `a` occurs in `b` as a contiguous run of characters. */
  ghost predicate Infix(a: string, b: string) {
    exists i, j :: 0 <= i <= j <= |b| && b[i..j] == a
  }

  predicate StartsWith(s: string, p: string) {
    |p| <= |s| && s[..|p|] == p
  }

  predicate EndsWith(s: string, p: string) {
    |p| <= |s| && s[|s| - |p|..] == p
  }

  /** How many white-space characters `s` starts with. */
  function LeadingSpaces(s: string): (n: nat)
    ensures n <= |s| && AllSpace(s[..n])
    ensures n < |s| ==> !IsSpace(s[n])
  {
    if |s| > 0 && IsSpace(s[0]) then
      var n := 1 + LeadingSpaces(s[1..]);
      assert s[..n] == [s[0]] + s[1..][..n - 1];
      n
    else 0
  }

  /** How many white-space characters `s` ends with. */
  function TrailingSpaces(s: string): (n: nat)
    ensures n <= |s| && AllSpace(s[|s| - n..])
    ensures n < |s| ==> !IsSpace(s[|s| - n - 1])
  {
    if |s| > 0 && IsSpace(s[|s| - 1]) then
      var p := s[..|s| - 1];
      var n := 1 + TrailingSpaces(p);
      assert AllSpace(s[|s| - n..]) by {
        var w, v := s[|s| - n..], p[|p| - (n - 1)..];
        forall k | 0 <= k < |w|
          ensures IsSpace(w[k])
        {
          if k < n - 1 {
            assert w[k] == v[k];
          }
        }
      }
      n
    else 0
  }

  /** The regular-expression prefix `^\s*` removed. */
  function TrimStart(s: string): (r: string)
    ensures r == [] || !IsSpace(r[0])
  {
    s[LeadingSpaces(s)..]
  }

  /** The regular-expression suffix `\s*$` removed. */
  function TrimEnd(s: string): (r: string)
    ensures r == [] || !IsSpace(r[|r| - 1])
  {
    s[..|s| - TrailingSpaces(s)]
  }

  /** `String.prototype.trim`: the leading and the trailing white space removed. */
  function Trim(s: string): (r: string)
    ensures Trimmed(r)
    ensures var i := LeadingSpaces(s);
      && i + |r| <= |s| && s[i..i + |r|] == r
      && AllSpace(s[..i]) && AllSpace(s[i + |r|..])
    ensures Trimmed(s) ==> r == s
  {
    var a := TrimStart(s);
    var r := TrimEnd(a);
    assert Trimmed(r) by {
      if r != [] {
        assert r[0] == a[0];
      }
    }
    var i := LeadingSpaces(s);
    assert s[i + |r|..] == a[|r|..];
    r
  }

  /** Any position that ends a white-space prefix and starts non-space text is the leading count. */
  lemma {:induction false} LeadingSpacesUnique(s: string, n: nat)
    requires n <= |s| && AllSpace(s[..n]) && (n < |s| ==> !IsSpace(s[n]))
    ensures LeadingSpaces(s) == n
    decreases n
  {
    if n > 0 {
      assert s[..n][0] == s[0];
      assert s[1..][..n - 1] == s[..n][1..];
      LeadingSpacesUnique(s[1..], n - 1);
    }
  }

  lemma {:induction false} TrailingSpacesUnique(s: string, n: nat)
    requires n <= |s| && AllSpace(s[|s| - n..]) && (n < |s| ==> !IsSpace(s[|s| - n - 1]))
    ensures TrailingSpaces(s) == n
    decreases n
  {
    if n > 0 {
      var p := s[..|s| - 1];
      var w := s[|s| - n..];
      assert w[n - 1] == s[|s| - 1];
      var v := p[|p| - (n - 1)..];
      forall k | 0 <= k < |v|
        ensures IsSpace(v[k])
      {
        assert v[k] == s[|s| - n + k] == w[k];
      }
      assert n - 1 < |p| ==> p[|p| - (n - 1) - 1] == s[|s| - n - 1];
      TrailingSpacesUnique(p, n - 1);
    }
  }

  /** Removing leading white space from `w + q` leaves `q` when `q` does not start with any. */
  lemma TrimStartAfterSpace(w: string, q: string)
    requires AllSpace(w) && (q == [] || !IsSpace(q[0]))
    ensures TrimStart(w + q) == q
  {
    var s := w + q;
    assert s[..|w|] == w;
    LeadingSpacesUnique(s, |w|);
    assert s[|w|..] == q;
  }

  /** Removing trailing white space from `q + w` leaves `q` when `q` does not end with any. */
  lemma TrimEndBeforeSpace(q: string, w: string)
    requires AllSpace(w) && (q == [] || !IsSpace(q[|q| - 1]))
    ensures TrimEnd(q + w) == q
  {
    var s := q + w;
    assert s[|s| - |w|..] == w;
    TrailingSpacesUnique(s, |w|);
    assert s[..|q|] == q;
  }

  /** White space around trimmed text is exactly what `trim()` removes. */
  lemma TrimPadded(w1: string, x: string, w2: string)
    requires AllSpace(w1) && AllSpace(w2) && Trimmed(x) && x != []
    ensures Trim(w1 + x + w2) == x
  {
    assert w1 + x + w2 == w1 + (x + w2);
    assert (x + w2)[0] == x[0];
    TrimStartAfterSpace(w1, x + w2);
    TrimEndBeforeSpace(x, w2);
  }

  lemma TrimInfix(s: string)
    ensures Infix(Trim(s), s)
  {
    var i := LeadingSpaces(s);
    assert s[i..i + |Trim(s)|] == Trim(s);
  }

  /** `s.indexOf(c)`: the first position of `c`, or -1 when `c` does not occur. */
  function IndexOf(s: string, c: char): (r: int)
    ensures -1 <= r < |s|
    ensures r == -1 <==> c !in s
    ensures r >= 0 ==> s[r] == c && forall k :: 0 <= k < r ==> s[k] != c
  {
    IndexFrom(s, c, 0)
  }

  /** The first position at or after `from` holding `c`, or -1. */
  function IndexFrom(s: string, c: char, from: nat): (r: int)
    requires from <= |s|
    ensures -1 <= r < |s|
    ensures r == -1 <==> forall k :: from <= k < |s| ==> s[k] != c
    ensures r >= 0 ==> from <= r && s[r] == c && forall k :: from <= k < r ==> s[k] != c
    decreases |s| - from
  {
    if from == |s| then -1
    else if s[from] == c then from
    else IndexFrom(s, c, from + 1)
  }

  /** `s.lastIndexOf(c)`: the last position of `c`, or -1 when `c` does not occur. */
  function LastIndexOf(s: string, c: char): (r: int)
    ensures -1 <= r < |s|
    ensures r == -1 <==> c !in s
    ensures r >= 0 ==> s[r] == c && forall k :: r < k < |s| ==> s[k] != c
  {
    LastIndexBefore(s, c, |s|)
  }

  /** The last position before `upto` holding `c`, or -1. */
  function LastIndexBefore(s: string, c: char, upto: nat): (r: int)
    requires upto <= |s|
    ensures -1 <= r < upto
    ensures r == -1 <==> forall k :: 0 <= k < upto ==> s[k] != c
    ensures r >= 0 ==> s[r] == c && forall k :: r < k < upto ==> s[k] != c
  {
    if upto == 0 then -1
    else if s[upto - 1] == c then upto - 1
    else LastIndexBefore(s, c, upto - 1)
  }

  /** `s.slice(0, n)`: the first `n` characters, or all of `s` when it is shorter. */
  function Take(s: string, n: nat): (r: string)
    ensures |r| == if |s| < n then |s| else n
    ensures StartsWith(s, r)
  {
    if |s| < n then s else s[..n]
  }

  lemma InfixOfSlice(s: string, i: int, j: int)
    requires 0 <= i <= j <= |s|
    ensures Infix(s[i..j], s)
  {
    assert s[i..j] == s[i..j];
  }

  lemma {:induction false} InfixTransitive(a: string, b: string, c: string)
    requires Infix(a, b) && Infix(b, c)
    ensures Infix(a, c)
  {
    var i, j :| 0 <= i <= j <= |b| && b[i..j] == a;
    var k, l :| 0 <= k <= l <= |c| && c[k..l] == b;
    assert |b| == l - k;
    forall t | 0 <= t < j - i
      ensures c[k + i..k + j][t] == a[t]
    {
      assert a[t] == b[i + t];
    }
    assert c[k + i..k + j] == a;
  }

  lemma InfixReflexive(a: string)
    ensures Infix(a, a)
  {
    assert a[0..|a|] == a;
  }
}
