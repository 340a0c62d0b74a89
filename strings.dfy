/** String primitives the renderer is built from: JavaScript's literal
    `replace`/`replaceAll`, substring search, decimal formatting and the
    ASCII case folding its case-insensitive regular expressions use. */
module Strings {

  datatype Option<T> = None | Some(value: T)

  /** `p` is a prefix of `s`. */
  predicate StartsWith(s: string, p: string) {
    |s| >= |p| && s[..|p|] == p
  }

  /** `p` is a suffix of `s`. */
  predicate EndsWith(s: string, p: string) {
    |s| >= |p| && s[|s| - |p|..] == p
  }

  /** `p` occurs somewhere in `s`. */
  predicate Occurs(p: string, s: string)
    decreases |s|
  {
    StartsWith(s, p) || (|s| > 0 && Occurs(p, s[1..]))
  }

  /** `s.replace(/pat/g, rep)` and `s.replaceAll(pat, rep)` for a literal,
      non-empty pattern: every occurrence, scanning left to right without
      overlap, is replaced. */
  function ReplaceAll(s: string, pat: string, rep: string): string
    requires |pat| > 0
    decreases |s|
  {
    if |s| < |pat| then s
    else if s[..|pat|] == pat then rep + ReplaceAll(s[|pat|..], pat, rep)
    else [s[0]] + ReplaceAll(s[1..], pat, rep)
  }

  /** `s.replace(pat, rep)` with a string (or non-global regular expression
      that only matches `pat` literally): the first occurrence only. */
  function ReplaceFirst(s: string, pat: string, rep: string): string
    requires |pat| > 0
    decreases |s|
  {
    if |s| < |pat| then s
    else if s[..|pat|] == pat then rep + s[|pat|..]
    else [s[0]] + ReplaceFirst(s[1..], pat, rep)
  }

  /** Every character equal to `c` replaced by `rep`. */
  function MapChar(s: string, c: char, rep: string): string {
    if s == [] then [] else (if s[0] == c then rep else [s[0]]) + MapChar(s[1..], c, rep)
  }

  /** Number of occurrences of the character `c` in `s`. */
  function Count(s: string, c: char): nat {
    if s == [] then 0 else (if s[0] == c then 1 else 0) + Count(s[1..], c)
  }

  predicate IsDigit(c: char) {
    '0' <= c <= '9'
  }

  /** The regular expression `^[0-9]+$`. */
  predicate IsDigits(s: string) {
    |s| > 0 && forall i :: 0 <= i < |s| ==> IsDigit(s[i])
  }

  function DigitValue(c: char): nat
    requires IsDigit(c)
  {
    c as nat - '0' as nat
  }

  /** Decimal value of a string of digits (the reverse of NatToString on canonical strings). */
  function DigitsValue(s: string): nat
    requires forall i :: 0 <= i < |s| ==> IsDigit(s[i])
  {
    if s == [] then 0 else DigitsValue(s[..|s| - 1]) * 10 + DigitValue(s[|s| - 1])
  }

  /** `String(n)` for a non-negative integer: its decimal digits. */
  function NatToString(n: nat): (r: string)
    ensures IsDigits(r)
    ensures DigitsValue(r) == n
    ensures |r| > 1 ==> r[0] != '0'
  {
    if n < 10 then [('0' as nat + n) as char]
    else
      var r := NatToString(n / 10) + [('0' as nat + n % 10) as char];
      assert r[..|r| - 1] == NatToString(n / 10);
      r
  }

  /** `String(i)` for an integer: a minus sign before negative values. */
  function IntToString(i: int): string {
    if i < 0 then "-" + NatToString(-i) else NatToString(i)
  }

  /** `String.prototype.toLowerCase` on the ASCII letters; other characters are kept. */
  function ToLowerAscii(s: string): (r: string)
    ensures |r| == |s|
  {
    if s == [] then []
    else [if 'A' <= s[0] <= 'Z' then (s[0] as int + 32) as char else s[0]] + ToLowerAscii(s[1..])
  }

  /** `s.split(sep)` for a one-character separator. */
  function Split(s: string, sep: char): (r: seq<string>)
    ensures |r| == Count(s, sep) + 1
    ensures forall k :: 0 <= k < |r| ==> sep !in r[k]
    ensures Join(r, [sep]) == s
  {
    if s == [] then [""]
    else
      var rest := Split(s[1..], sep);
      if s[0] == sep then
        JoinEmptyHead(rest, [sep]);
        assert s == [s[0]] + s[1..];
        [""] + rest
      else
        JoinGrowHead(s[0], rest, [sep]);
        assert s == [s[0]] + s[1..];
        [[s[0]] + rest[0]] + rest[1..]
  }

  /** An empty first piece contributes only its separator. */
  lemma JoinEmptyHead(rest: seq<string>, sep: string)
    requires rest != []
    ensures Join([""] + rest, sep) == sep + Join(rest, sep)
  {
    assert ([""] + rest)[1..] == rest;
  }

  /** A character put in front of the first piece comes first in the join. */
  lemma JoinGrowHead(c: char, rest: seq<string>, sep: string)
    requires rest != []
    ensures Join([[c] + rest[0]] + rest[1..], sep) == [c] + Join(rest, sep)
  {
    var parts := [[c] + rest[0]] + rest[1..];
    assert parts[1..] == rest[1..];
    if |rest| > 1 {
      assert Join(rest, sep) == rest[0] + sep + Join(rest[1..], sep);
      assert Join(parts, sep) == ([c] + rest[0]) + sep + Join(rest[1..], sep);
    }
  }

  /** `c.repeat(n)`. */
  function Repeat(c: char, n: nat): (r: string)
    ensures |r| == n
    ensures forall i :: 0 <= i < n ==> r[i] == c
  {
    if n == 0 then [] else [c] + Repeat(c, n - 1)
  }

  /** `parts.join(sep)`. */
  function Join(parts: seq<string>, sep: string): string {
    if parts == [] then ""
    else if |parts| == 1 then parts[0]
    else parts[0] + sep + Join(parts[1..], sep)
  }

  // ---------------------------------------------------------------------
  // Facts about the primitives

  /** A concatenation starts with its first part and ends with its second. */
  lemma ConcatAffixes(a: string, b: string)
    ensures StartsWith(a + b, a) && EndsWith(a + b, b)
  {
    assert (a + b)[..|a|] == a;
    assert (a + b)[|a + b| - |b|..] == b;
  }

  lemma MapCharAbsent(s: string, c: char, rep: string)
    requires c !in s
    ensures MapChar(s, c, rep) == s
  {
  }

  lemma {:induction false} MapCharAppend(a: string, b: string, c: char, rep: string)
    ensures MapChar(a + b, c, rep) == MapChar(a, c, rep) + MapChar(b, c, rep)
  {
    if a == [] {
      assert a + b == b;
    } else {
      assert (a + b)[0] == a[0];
      assert (a + b)[1..] == a[1..] + b;
      MapCharAppend(a[1..], b, c, rep);
      assert MapChar(a, c, rep) == (if a[0] == c then rep else [a[0]]) + MapChar(a[1..], c, rep);
    }
  }

  /** Replacing a one-character pattern is a per-character map. */
  lemma {:induction false} ReplaceAllOneChar(s: string, c: char, rep: string)
    ensures ReplaceAll(s, [c], rep) == MapChar(s, c, rep)
  {
    if s != [] {
      ReplaceAllOneChar(s[1..], c, rep);
    }
  }

  /** ReplaceAll leaves a prefix alone when no occurrence of the pattern
      starts inside it (the pattern starts with `&` and no `&` follows the
      prefix's first character). */
  lemma {:induction false} ReplaceAllSkip(t: string, rest: string, pat: string, rep: string)
    requires |pat| > 0
    requires forall i :: 1 <= i < |t| ==> t[i] != pat[0]
    requires |t| > 0 ==> !StartsWith(t + rest, pat)
    ensures ReplaceAll(t + rest, pat, rep) == t + ReplaceAll(rest, pat, rep)
  {
    if t == [] {
      assert t + rest == rest;
    } else {
      var s := t + rest;
      assert s[0] == t[0];
      assert s[1..] == t[1..] + rest;
      if |s| < |pat| {
        assert ReplaceAll(rest, pat, rep) == rest;
        assert ReplaceAll(s, pat, rep) == s;
      } else {
        assert s[..|pat|] != pat;
        assert ReplaceAll(s, pat, rep) == [t[0]] + ReplaceAll(t[1..] + rest, pat, rep);
        if |t| > 1 {
          assert (t[1..] + rest)[0] == t[1];
          assert !StartsWith(t[1..] + rest, pat);
        }
        ReplaceAllSkip(t[1..], rest, pat, rep);
        assert [t[0]] + (t[1..] + ReplaceAll(rest, pat, rep)) == t + ReplaceAll(rest, pat, rep);
      }
    }
  }

  /** ReplaceAll leaves a prefix alone when no occurrence of the pattern
      starts inside it. */
  lemma {:induction false} ReplaceAllPast(t: string, rest: string, pat: string, rep: string)
    requires |pat| > 0
    requires forall i :: 0 <= i < |t| ==> !StartsWith((t + rest)[i..], pat)
    ensures ReplaceAll(t + rest, pat, rep) == t + ReplaceAll(rest, pat, rep)
  {
    if t == [] {
      assert t + rest == rest;
    } else {
      var s := t + rest;
      assert s[0..] == s && s[0] == t[0];
      assert s[1..] == t[1..] + rest;
      if |s| < |pat| {
        assert ReplaceAll(rest, pat, rep) == rest;
        assert ReplaceAll(s, pat, rep) == s;
      } else {
        assert ReplaceAll(s, pat, rep) == [t[0]] + ReplaceAll(t[1..] + rest, pat, rep);
        forall i | 0 <= i < |t[1..]| ensures !StartsWith((t[1..] + rest)[i..], pat) {
          assert (t[1..] + rest)[i..] == s[i + 1..];
        }
        ReplaceAllPast(t[1..], rest, pat, rep);
        assert [t[0]] + (t[1..] + ReplaceAll(rest, pat, rep)) == t + ReplaceAll(rest, pat, rep);
      }
    }
  }

  /** Where `p` does not occur, no position starts it. */
  lemma {:induction false} NotOccursAt(p: string, s: string, i: nat)
    requires !Occurs(p, s) && i <= |s|
    ensures !StartsWith(s[i..], p)
    decreases i
  {
    if i == 0 {
      assert s[0..] == s;
    } else {
      assert s[1..][i - 1..] == s[i..];
      NotOccursAt(p, s[1..], i - 1);
    }
  }

  /** A suffix holds no occurrence its text lacks. */
  lemma {:induction false} NotOccursSuffix(p: string, s: string, k: nat)
    requires !Occurs(p, s) && k <= |s|
    ensures !Occurs(p, s[k..])
    decreases k
  {
    if k == 0 {
      assert s[0..] == s;
    } else {
      assert s[1..][k - 1..] == s[k..];
      NotOccursSuffix(p, s[1..], k - 1);
    }
  }

  /** A prefix holds no occurrence its text lacks. */
  lemma {:induction false} NotOccursPrefix(p: string, s: string, e: nat)
    requires !Occurs(p, s) && e <= |s|
    ensures !Occurs(p, s[..e])
    decreases e
  {
    assert |p| > 0;
    if e > 0 {
      assert s[..e][1..] == s[1..][..e - 1];
      NotOccursPrefix(p, s[1..], e - 1);
    }
  }

  /** An occurrence of the pattern at the front is replaced. */
  lemma ReplaceAllHit(rest: string, pat: string, rep: string)
    requires |pat| > 0
    ensures ReplaceAll(pat + rest, pat, rep) == rep + ReplaceAll(rest, pat, rep)
  {
    assert (pat + rest)[..|pat|] == pat;
    assert (pat + rest)[|pat|..] == rest;
  }

  /** A string without the pattern's first character is left unchanged. */
  lemma ReplaceAllAbsent(s: string, pat: string, rep: string)
    requires |pat| > 0 && pat[0] !in s
    ensures ReplaceAll(s, pat, rep) == s
  {
    assert s + [] == s;
    if s != [] {
      assert s[0] != pat[0];
    }
    ReplaceAllSkip(s, [], pat, rep);
  }

  /** Occurrences in `t + rest` that start in `t` are the only ones that
      `rest` alone does not have. */
  lemma {:induction false} OccursSkip(t: string, rest: string, p: string)
    requires forall i :: 0 <= i < |t| ==> !StartsWith((t + rest)[i..], p)
    requires !Occurs(p, rest)
    ensures !Occurs(p, t + rest)
  {
    if t != [] {
      assert (t + rest)[0..] == t + rest;
      forall i | 0 <= i < |t| - 1 ensures !StartsWith((t[1..] + rest)[i..], p) {
        assert (t[1..] + rest)[i..] == (t + rest)[i + 1..];
      }
      OccursSkip(t[1..], rest, p);
      assert (t + rest)[1..] == t[1..] + rest;
    }
  }
}
