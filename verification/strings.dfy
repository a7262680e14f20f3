/**
 * The string primitives the extension leans on: JavaScript's `\s` class and
 * `trim`, ASCII case mapping, `startsWith` and `includes`, and the `||`
 * fallback for empty strings.
 */
module Strings {

  /** The whitespace modelled for `\s` and `String.prototype.trim`: the ASCII
      space, tab, line feed, carriage return, vertical tab and form feed. */
  predicate IsWs(c: char) {
    c == ' ' || c == '\t' || c == '\n' || c == '\r' || c == '\U{B}' || c == '\U{C}'
  }

  predicate AllWs(s: string) {
    forall i :: 0 <= i < |s| ==> IsWs(s[i])
  }

  predicate NoWs(s: string) {
    forall i :: 0 <= i < |s| ==> !IsWs(s[i])
  }

  /** Drops the leading whitespace (the first half of `trim`). */
  function TrimStart(s: string): (r: string)
    ensures |r| <= |s| && r == s[|s| - |r|..]
    ensures |r| == 0 || !IsWs(r[0])
    decreases |s|
  {
    if |s| > 0 && IsWs(s[0]) then TrimStart(s[1..]) else s
  }

  /** Drops the trailing whitespace (the second half of `trim`). */
  function TrimEnd(s: string): (r: string)
    ensures |r| <= |s| && r == s[..|r|]
    ensures |r| == 0 || !IsWs(r[|r| - 1])
    decreases |s|
  {
    if |s| > 0 && IsWs(s[|s| - 1]) then TrimEnd(s[..|s| - 1]) else s
  }

  /** What `TrimStart` drops is whitespace. */
  lemma TrimStartDropsWs(s: string)
    ensures AllWs(s[..|s| - |TrimStart(s)|])
    decreases |s|
  {
    if |s| > 0 && IsWs(s[0]) {
      TrimStartDropsWs(s[1..]);
      var k := |s| - |TrimStart(s)|;
      forall i | 0 <= i < k ensures IsWs(s[..k][i]) {
        if i > 0 {
          assert s[..k][i] == s[1..][..k - 1][i - 1];
        }
      }
    }
  }

  /** A string with a non-whitespace character keeps one after `TrimStart`. */
  lemma TrimStartOfNotAllWs(s: string)
    requires !AllWs(s)
    ensures |TrimStart(s)| > 0
    decreases |s|
  {
    if IsWs(s[0]) {
      var i :| 0 <= i < |s| && !IsWs(s[i]);
      assert s[1..][i - 1] == s[i];
      TrimStartOfNotAllWs(s[1..]);
    }
  }

  /** What `TrimEnd` drops is whitespace. */
  lemma TrimEndDropsWs(s: string)
    ensures AllWs(s[|TrimEnd(s)|..])
    decreases |s|
  {
    if |s| > 0 && IsWs(s[|s| - 1]) {
      TrimEndDropsWs(s[..|s| - 1]);
      assert s[|TrimEnd(s)|..] == s[..|s| - 1][|TrimEnd(s[..|s| - 1])|..] + [s[|s| - 1]];
    }
  }

  /** `s.trim()` */
  function Trim(s: string): string {
    TrimEnd(TrimStart(s))
  }

  /** `trim` only removes whitespace: the string is the trimmed text with
      whitespace before and after it. */
  lemma TrimSplits(s: string)
    ensures exists a, b :: s == a + Trim(s) + b && AllWs(a) && AllWs(b)
  {
    var t := TrimStart(s);
    var u := TrimEnd(t);
    var a := s[..|s| - |t|];
    var b := t[|u|..];
    TrimStartDropsWs(s);
    TrimEndDropsWs(t);
    SplitAround(s, t, u);
    assert s == a + u + b && AllWs(a) && AllWs(b);
  }

  /** A string is what comes before a suffix `t`, a prefix `u` of that
      suffix, and the rest of it. */
  lemma SplitAround(s: string, t: string, u: string)
    requires |t| <= |s| && t == s[|s| - |t|..]
    requires |u| <= |t| && u == t[..|u|]
    ensures s == s[..|s| - |t|] + u + t[|u|..]
  {
    assert t == u + t[|u|..];
    assert s == s[..|s| - |t|] + t;
    assert s[..|s| - |t|] + (u + t[|u|..]) == s[..|s| - |t|] + u + t[|u|..];
  }

  function UpperChar(c: char): char {
    if 'a' <= c <= 'z' then (c as int - 'a' as int + 'A' as int) as char else c
  }

  function LowerChar(c: char): char {
    if 'A' <= c <= 'Z' then (c as int - 'A' as int + 'a' as int) as char else c
  }

  /** `s.toUpperCase()` on ASCII letters; every other character is kept. */
  function Upper(s: string): (r: string)
    ensures |r| == |s|
    ensures forall i :: 0 <= i < |s| ==> r[i] == UpperChar(s[i])
  {
    seq(|s|, i requires 0 <= i < |s| => UpperChar(s[i]))
  }

  /** `s.toLowerCase()` on ASCII letters; every other character is kept. */
  function Lower(s: string): (r: string)
    ensures |r| == |s|
    ensures forall i :: 0 <= i < |s| ==> r[i] == LowerChar(s[i])
  {
    seq(|s|, i requires 0 <= i < |s| => LowerChar(s[i]))
  }

  /** `s.startsWith(p)` */
  predicate StartsWith(s: string, p: string) {
    |p| <= |s| && s[..|p|] == p
  }

  /** `s.includes(p)`: some position of `s` starts an occurrence of `p`. */
  predicate Contains(s: string, p: string)
    decreases |s|
  {
    StartsWith(s, p) || (|s| > 0 && Contains(s[1..], p))
  }

  /** `s || d` for a string `s`: the empty string is falsy. */
  function OrElse(s: string, d: string): string {
    if |s| == 0 then d else s
  }

  /** `trim` keeps the first non-whitespace character at its head, and is
      empty exactly for an all-whitespace string. */
  lemma TrimHead(s: string)
    ensures |Trim(s)| > 0 <==> !AllWs(s)
    ensures |Trim(s)| > 0 ==> Trim(s)[0] == s[|s| - |TrimStart(s)|]
  {
    var t := TrimStart(s);
    if |t| > 0 {
      TrimEndKeepsHead(t);
      assert s[|s| - |t|] == t[0];
    } else {
      TrimStartDropsWs(s);
      assert s[..|s| - |t|] == s;
    }
  }

  /** `TrimEnd` keeps a non-whitespace first character. */
  lemma TrimEndKeepsHead(t: string)
    requires |t| > 0 && !IsWs(t[0])
    ensures |TrimEnd(t)| > 0 && TrimEnd(t)[0] == t[0]
  {
    TrimEndDropsWs(t);
  }

  /** The first non-whitespace character of `s` is at `k`. */
  predicate FirstNonWsAt(s: string, k: int) {
    0 <= k < |s| && AllWs(s[..k]) && !IsWs(s[k])
  }

  /** There is at most one first non-whitespace position. */
  lemma FirstNonWsUnique(s: string, j: int, k: int)
    requires FirstNonWsAt(s, j) && FirstNonWsAt(s, k)
    ensures j == k
  {
  }

  /** `p` occurs in `s` at position `k`. */
  predicate OccursAt(s: string, p: string, k: int) {
    0 <= k && k + |p| <= |s| && s[k..k + |p|] == p
  }

  /** `s.includes(p)` holds exactly when `p` occurs at some position. */
  lemma {:induction false} ContainsIff(s: string, p: string)
    ensures Contains(s, p) <==> exists k :: OccursAt(s, p, k)
    decreases |s|
  {
    if StartsWith(s, p) {
      assert OccursAt(s, p, 0);
    } else if |s| > 0 {
      ContainsIff(s[1..], p);
      if Contains(s[1..], p) {
        var k :| OccursAt(s[1..], p, k);
        assert s[k + 1..k + 1 + |p|] == s[1..][k..k + |p|];
        assert OccursAt(s, p, k + 1);
      }
      if exists k :: OccursAt(s, p, k) {
        var k :| OccursAt(s, p, k);
        if k > 0 {
          assert s[1..][k - 1..k - 1 + |p|] == s[k..k + |p|];
          assert OccursAt(s[1..], p, k - 1);
        }
      }
    }
  }

  /** A pattern with a character that `s` lacks does not occur in `s`. */
  lemma NotContainsMissingChar(s: string, p: string, j: nat)
    requires j < |p| && p[j] !in s
    ensures !Contains(s, p)
  {
    ContainsIff(s, p);
  }
}
