/**
 * String helpers with JavaScript semantics, over `string = seq<char>`.
 * Whitespace is the set JavaScript's `\s` and `String.prototype.trim` agree on
 * (WhiteSpace plus LineTerminator); lower-casing covers ASCII letters only.
 */
module Text {

  /** JavaScript LineTerminator: what `.` does not match and what `^`/`$` see in multiline mode. */
  predicate IsLineTerminator(c: char) {
    c == '\n' || c == '\r' || c == '\U{2028}' || c == '\U{2029}'
  }

  /** JavaScript `\s`: WhiteSpace (tab, vertical tab, form feed, space, no-break space, BOM, category Zs) or LineTerminator. */
  predicate IsWhitespace(c: char) {
    || c == '\t' || c == '\U{000B}' || c == '\U{000C}' || c == ' '
    || c == '\U{00A0}' || c == '\U{FEFF}' || c == '\U{1680}'
    || ('\U{2000}' <= c <= '\U{200A}')
    || c == '\U{202F}' || c == '\U{205F}' || c == '\U{3000}'
    || IsLineTerminator(c)
  }

  function LowerChar(c: char): (r: char)
    ensures 'A' <= c <= 'Z' ==> 'a' <= r <= 'z'
    ensures !('A' <= c <= 'Z') ==> r == c
  {
    if 'A' <= c <= 'Z' then (c as int + 32) as char else c
  }

  /** `String.prototype.toLowerCase`, restricted to ASCII letters. */
  function Lower(s: string): (r: string)
    ensures |r| == |s|
    ensures forall i :: 0 <= i < |s| ==> r[i] == LowerChar(s[i])
  {
    seq(|s|, i requires 0 <= i < |s| => LowerChar(s[i]))
  }

  lemma LowerKeepsWhitespace(c: char)
    ensures IsWhitespace(LowerChar(c)) <==> IsWhitespace(c)
  {
  }

  /** No whitespace at either end. */
  predicate IsTrimmed(s: string) {
    s == [] || (!IsWhitespace(s[0]) && !IsWhitespace(s[|s| - 1]))
  }

  /** Drops the leading whitespace. */
  function TrimStart(s: string): (r: string)
    ensures |r| <= |s| && r == s[|s| - |r|..]
    ensures r == [] || !IsWhitespace(r[0])
    ensures forall i :: 0 <= i < |s| - |r| ==> IsWhitespace(s[i])
  {
    if s != [] && IsWhitespace(s[0]) then TrimStart(s[1..]) else s
  }

  /** Drops the trailing whitespace. */
  function TrimEnd(s: string): (r: string)
    ensures |r| <= |s| && r == s[..|r|]
    ensures r == [] || !IsWhitespace(r[|r| - 1])
    ensures forall i :: |r| <= i < |s| ==> IsWhitespace(s[i])
  {
    if s != [] && IsWhitespace(s[|s| - 1]) then TrimEnd(s[..|s| - 1]) else s
  }

  /**
   * `String.prototype.trim`: the result is `s[lo..hi]` for the only `lo`, `hi`
   * with whitespace outside and none at the ends of the kept part.
   */
  function Trim(s: string): (r: string)
    ensures IsTrimmed(r)
    ensures exists lo, hi ::
              && 0 <= lo <= hi <= |s| && r == s[lo..hi]
              && (forall i :: 0 <= i < lo ==> IsWhitespace(s[i]))
              && (forall i :: hi <= i < |s| ==> IsWhitespace(s[i]))
  {
    var t := TrimStart(s);
    var r := TrimEnd(t);
    assert r == s[|s| - |t|..|s| - |t| + |r|];
    r
  }

  /** Trimming a trimmed string changes nothing. */
  lemma TrimOfTrimmed(s: string)
    requires IsTrimmed(s)
    ensures Trim(s) == s
  {
    assert TrimStart(s) == s;
    assert TrimEnd(s) == s;
  }

  /** Trimming is idempotent. */
  lemma TrimIdempotent(s: string)
    ensures Trim(Trim(s)) == Trim(s)
  {
    TrimOfTrimmed(Trim(s));
  }

  /** Lower-casing (ASCII) and trimming commute, since lower-casing neither makes nor unmakes whitespace. */
  lemma {:induction false} TrimStartLower(s: string)
    ensures TrimStart(Lower(s)) == Lower(TrimStart(s))
    decreases |s|
  {
    if s != [] {
      LowerKeepsWhitespace(s[0]);
      if IsWhitespace(s[0]) {
        assert Lower(s)[1..] == Lower(s[1..]);
        TrimStartLower(s[1..]);
      }
    }
  }

  lemma {:induction false} TrimEndLower(s: string)
    ensures TrimEnd(Lower(s)) == Lower(TrimEnd(s))
    decreases |s|
  {
    if s != [] {
      LowerKeepsWhitespace(s[|s| - 1]);
      if IsWhitespace(s[|s| - 1]) {
        assert Lower(s)[..|s| - 1] == Lower(s[..|s| - 1]);
        TrimEndLower(s[..|s| - 1]);
      }
    }
  }

  lemma TrimLower(s: string)
    ensures Trim(Lower(s)) == Lower(Trim(s))
  {
    TrimStartLower(s);
    TrimEndLower(TrimStart(s));
  }

  lemma LowerIdempotent(s: string)
    ensures Lower(Lower(s)) == Lower(s)
  {
  }

  /** `pat` occurs in `s` starting at index `i`. */
  ghost predicate OccursAt(s: string, pat: string, i: int) {
    0 <= i && i + |pat| <= |s| && s[i..i + |pat|] == pat
  }

  /** `a` is a contiguous piece of `b`. */
  ghost predicate IsInfix(a: string, b: string) {
    exists i :: OccursAt(b, a, i)
  }

  /** Trimming leaves a contiguous piece of the input, and adds no character. */
  lemma TrimIsInfix(s: string)
    ensures IsInfix(Trim(s), s)
    ensures forall c :: c in Trim(s) ==> c in s
  {
    var t := TrimStart(s);
    var r := TrimEnd(t);
    var lo := |s| - |t|;
    assert r == Trim(s);
    assert r == s[lo..lo + |r|];
    assert OccursAt(s, r, lo);
    forall c | c in r
      ensures c in s
    {
      var k :| 0 <= k < |r| && r[k] == c;
      assert s[lo + k] == c;
    }
  }

  /** Trimming the first `n` characters keeps `s[lo..hi]`, with only whitespace in `s[..lo]` and `s[hi..n]`. */
  lemma TrimOfPrefix(s: string, n: nat)
    requires n <= |s|
    ensures exists lo, hi ::
              && 0 <= lo <= hi <= n && Trim(s[..n]) == s[lo..hi]
              && (forall i :: 0 <= i < lo ==> IsWhitespace(s[i]))
              && (forall i :: hi <= i < n ==> IsWhitespace(s[i]))
  {
    var u := s[..n];
    var lo, hi :|
      && 0 <= lo <= hi <= |u| && Trim(u) == u[lo..hi]
      && (forall i :: 0 <= i < lo ==> IsWhitespace(u[i]))
      && (forall i :: hi <= i < |u| ==> IsWhitespace(u[i]));
    WindowOfPrefix(s, n, lo, hi, Trim(u));
  }

  /** A window of `s[..n]` with whitespace around it is the same window of `s`. */
  lemma WindowOfPrefix(s: string, n: nat, lo: nat, hi: nat, b: string)
    requires lo <= hi <= n <= |s| && b == s[..n][lo..hi]
    requires forall i :: 0 <= i < lo ==> IsWhitespace(s[..n][i])
    requires forall i :: hi <= i < n ==> IsWhitespace(s[..n][i])
    ensures b == s[lo..hi]
    ensures forall i :: 0 <= i < lo ==> IsWhitespace(s[i])
    ensures forall i :: hi <= i < n ==> IsWhitespace(s[i])
  {
    forall i | 0 <= i < lo
      ensures IsWhitespace(s[i])
    {
      assert s[i] == s[..n][i];
    }
    forall i | hi <= i < n
      ensures IsWhitespace(s[i])
    {
      assert s[i] == s[..n][i];
    }
  }

  /** A piece of the middle part is a piece of the whole. */
  lemma InfixOfMiddle(x: string, a: string, mid: string, b: string)
    requires IsInfix(x, mid)
    ensures IsInfix(x, a + mid + b)
  {
    var i :| OccursAt(mid, x, i);
    var r := a + mid + b;
    assert r[|a| + i..|a| + i + |x|] == mid[i..i + |x|];
    assert OccursAt(r, x, |a| + i);
  }

  /** Where `indexOf` starts searching: `fromIndex` clamped to `[0, |s|]`. */
  function ClampFrom(s: string, from: int): (k: nat)
    ensures k <= |s|
  {
    if from < 0 then 0 else if from > |s| then |s| else from
  }

  /** The first occurrence of `pat` in `s` at or after `k`, as a natural index, or -1. */
  function IndexFrom(s: string, pat: string, k: nat): (r: int)
    requires k <= |s|
    ensures r == -1 || (k <= r && OccursAt(s, pat, r))
    decreases |s| - k
  {
    if k + |pat| > |s| then -1
    else if s[k..k + |pat|] == pat then k
    else IndexFrom(s, pat, k + 1)
  }

  /** The search stops at the first occurrence, and gives -1 only when there is none. */
  lemma {:induction false} IndexFromIsFirst(s: string, pat: string, k: nat)
    requires k <= |s|
    ensures IndexFrom(s, pat, k) == -1 ==> forall i :: k <= i ==> !OccursAt(s, pat, i)
    ensures IndexFrom(s, pat, k) != -1 ==> forall i :: k <= i < IndexFrom(s, pat, k) ==> !OccursAt(s, pat, i)
    decreases |s| - k
  {
    if k + |pat| <= |s| && s[k..k + |pat|] != pat {
      IndexFromIsFirst(s, pat, k + 1);
    }
  }

  /** `String.prototype.indexOf(pat, from)`: the first occurrence at or after the clamped `from`, or -1. */
  function IndexOf(s: string, pat: string, from: int): (r: int)
    ensures r == -1 || (ClampFrom(s, from) <= r && OccursAt(s, pat, r))
  {
    IndexFrom(s, pat, ClampFrom(s, from))
  }

  /** `indexOf` finds the first occurrence at or after the clamped `from`, and -1 exactly when there is none. */
  lemma IndexOfIsFirst(s: string, pat: string, from: int)
    ensures IndexOf(s, pat, from) == -1 <==> forall i :: ClampFrom(s, from) <= i ==> !OccursAt(s, pat, i)
    ensures IndexOf(s, pat, from) != -1 ==>
              forall i :: ClampFrom(s, from) <= i < IndexOf(s, pat, from) ==> !OccursAt(s, pat, i)
  {
    IndexFromIsFirst(s, pat, ClampFrom(s, from));
  }

  /** The first occurrence at or after the clamped `from` is what `indexOf` returns. */
  lemma IndexOfFindsFirst(s: string, pat: string, from: int, p: int)
    requires ClampFrom(s, from) <= p && OccursAt(s, pat, p)
    requires forall q :: ClampFrom(s, from) <= q < p ==> !OccursAt(s, pat, q)
    ensures IndexOf(s, pat, from) == p
  {
    IndexOfIsFirst(s, pat, from);
  }

  /** `String.prototype.includes(pat)`. */
  predicate Contains(s: string, pat: string)
  {
    IndexOf(s, pat, 0) != -1
  }

  lemma ContainsIff(s: string, pat: string)
    ensures Contains(s, pat) <==> exists i :: OccursAt(s, pat, i)
  {
    IndexOfIsFirst(s, pat, 0);
    if !Contains(s, pat) {
      forall i ensures !OccursAt(s, pat, i) {
        if 0 <= i {
          assert ClampFrom(s, 0) <= i;
        }
      }
    }
  }

  /** `Array.prototype.join(sep)` on strings. */
  function Join(parts: seq<string>, sep: string): (r: string)
  {
    if parts == [] then ""
    else if |parts| == 1 then parts[0]
    else parts[0] + sep + Join(parts[1..], sep)
  }

  /** Every joined part occurs in the result. */
  lemma {:induction false} JoinContainsParts(parts: seq<string>, sep: string, k: nat)
    requires k < |parts|
    ensures exists i :: OccursAt(Join(parts, sep), parts[k], i)
    decreases |parts|
  {
    var r := Join(parts, sep);
    if |parts| == 1 {
      assert OccursAt(r, parts[0], 0);
    } else if k == 0 {
      assert r[..|parts[0]|] == parts[0];
      assert OccursAt(r, parts[0], 0);
    } else {
      JoinContainsParts(parts[1..], sep, k - 1);
      var rest := Join(parts[1..], sep);
      var i :| OccursAt(rest, parts[1..][k - 1], i);
      var off := |parts[0] + sep|;
      assert r == (parts[0] + sep) + rest;
      assert r[off + i..off + i + |parts[k]|] == rest[i..i + |parts[k]|];
      assert OccursAt(r, parts[k], off + i);
    }
  }
}
