/** The handful of Python `str` operations the analyser relies on:
    `strip`, `lower`, `in` (substring test) and `split` on one character.
    Strings are sequences of Unicode code points, as Python's are. */
module Strings {

  /** The characters Python's `str.isspace()` accepts, i.e. the ones a
      no-argument `str.strip()` removes: ASCII tab through carriage return,
      the four information separators, space, NEL, NBSP and the Unicode
      space separators. */
  predicate IsSpace(c: char) {
    || c == ' '
    || '\t' <= c <= '\r'
    || '\U{1C}' <= c <= '\U{1F}'
    || c == '\U{85}'
    || c == '\U{A0}'
    || c == '\U{1680}'
    || '\U{2000}' <= c <= '\U{200A}'
    || c == '\U{2028}'
    || c == '\U{2029}'
    || c == '\U{202F}'
    || c == '\U{205F}'
    || c == '\U{3000}'
  }

  /** Length of the longest prefix of `s` made of characters satisfying `p`. */
  function LeadingCount(s: string, p: char -> bool): (n: nat)
    ensures n <= |s|
    ensures forall k :: 0 <= k < n ==> p(s[k])
    ensures n < |s| ==> !p(s[n])
  {
    if |s| > 0 && p(s[0]) then
      var m := LeadingCount(s[1..], p);
      assert forall k :: 1 <= k < 1 + m ==> s[k] == s[1..][k - 1];
      1 + m
    else 0
  }

  /** Length of the longest suffix of `s` made of characters satisfying `p`. */
  function TrailingCount(s: string, p: char -> bool): (n: nat)
    ensures n <= |s|
    ensures forall k :: |s| - n <= k < |s| ==> p(s[k])
    ensures n < |s| ==> !p(s[|s| - n - 1])
  {
    if |s| > 0 && p(s[|s| - 1]) then
      var m := TrailingCount(s[..|s| - 1], p);
      assert forall k :: |s| - 1 - m <= k < |s| - 1 ==> s[k] == s[..|s| - 1][k];
      1 + m
    else 0
  }

  /** Where `s.strip(chars)` cuts: `lo` is past every leading character of
      the set, `hi` before every trailing one, and neither end of the
      slice between them is a character of the set. */
  function TrimBounds(s: string, p: char -> bool): (b: (nat, nat))
    ensures b.0 <= b.1 <= |s|
    ensures forall k :: 0 <= k < b.0 ==> p(s[k])
    ensures forall k :: b.1 <= k < |s| ==> p(s[k])
    ensures b.0 < b.1 ==> !p(s[b.0]) && !p(s[b.1 - 1])
  {
    var i := LeadingCount(s, p);
    var rest := s[i..];
    var n := TrailingCount(rest, p);
    assert forall k :: i + |rest| - n <= k < |s| ==> s[k] == rest[k - i];
    (i, i + |rest| - n)
  }

  /** Python's `s.strip(chars)` with the character set given as a predicate:
      the result is the slice of `s` left after removing every leading and
      every trailing character of the set. */
  function Trim(s: string, p: char -> bool): (r: string)
    ensures exists i, j ::
              && 0 <= i <= j <= |s|
              && r == s[i..j]
              && (forall k :: 0 <= k < i ==> p(s[k]))
              && (forall k :: j <= k < |s| ==> p(s[k]))
              && (i < j ==> !p(s[i]) && !p(s[j - 1]))
  {
    var b := TrimBounds(s, p);
    s[b.0..b.1]
  }

  /** Python's no-argument `s.strip()`. */
  function Strip(s: string): (r: string)
    ensures |r| <= |s|
    ensures r == [] <==> forall k :: 0 <= k < |s| ==> IsSpace(s[k])
  {
    var r := Trim(s, IsSpace);
    if r == [] then r
    else
      assert !IsSpace(r[0]);
      r
  }

  /** The capitals `str.lower()` is modelled on: ASCII `A`-`Z` and the
      Latin-1 capitals U+00C0 to U+00DE except the multiplication sign. */
  predicate IsCapital(c: char) {
    'A' <= c <= 'Z' || ('\U{C0}' <= c <= '\U{DE}' && c != '\U{D7}')
  }

  /** Python's `str.lower()` on one character: a capital becomes its small
      letter (32 code points on), anything else is left alone. */
  function LowerChar(c: char): (r: char)
    ensures r == c <==> !IsCapital(c)
    ensures !IsCapital(r)
    ensures 'A' <= c <= 'Z' ==> 'a' <= r <= 'z'
  {
    if IsCapital(c) then (c as int + 32) as char else c
  }

  /** Python's `str.lower()`, character by character. */
  function Lower(s: string): (r: string)
    ensures |r| == |s|
    ensures forall k :: 0 <= k < |s| ==> r[k] == LowerChar(s[k])
  {
    seq(|s|, k requires 0 <= k < |s| => LowerChar(s[k]))
  }

  /** A text without capitals is its own lower-cased form. */
  lemma LowerFixesSmallText(s: string)
    requires forall k :: 0 <= k < |s| ==> !IsCapital(s[k])
    ensures Lower(s) == s
  {
  }

  /** Lower-casing twice is lower-casing once. */
  lemma LowerIdempotent(s: string)
    ensures Lower(Lower(s)) == Lower(s)
  {
    LowerFixesSmallText(Lower(s));
  }

  /** `k` occurs in `s` starting at index `i`. */
  ghost predicate OccursAt(s: string, k: string, i: int) {
    0 <= i && i + |k| <= |s| && s[i..i + |k|] == k
  }

  /** Python's `k in s` for strings: `k` is a (contiguous) substring of `s`.
      The empty string is a substring of every string. */
  predicate Contains(s: string, k: string) {
    k <= s || (|s| > 0 && Contains(s[1..], k))
  }

  /** The executable test agrees with the positional definition. */
  lemma {:induction false} ContainsIff(s: string, k: string)
    ensures Contains(s, k) <==> exists i :: OccursAt(s, k, i)
  {
    if k <= s {
      assert OccursAt(s, k, 0);
    } else if |s| > 0 {
      ContainsIff(s[1..], k);
      if exists i :: OccursAt(s[1..], k, i) {
        var i :| OccursAt(s[1..], k, i);
        assert s[1..][i..i + |k|] == s[i + 1..i + 1 + |k|];
        assert OccursAt(s, k, i + 1);
      }
      if exists i :: OccursAt(s, k, i) {
        var i :| OccursAt(s, k, i) && i > 0;
        assert s[1..][i - 1..i - 1 + |k|] == s[i..i + |k|];
        assert OccursAt(s[1..], k, i - 1);
      }
    }
  }

  /** Lower-casing preserves occurrences: if `k` occurs in `s`, then the
      lower-cased `k` occurs in the lower-cased `s`. */
  lemma ContainsLower(s: string, k: string)
    requires Contains(s, k)
    ensures Contains(Lower(s), Lower(k))
  {
    ContainsIff(s, k);
    var i :| OccursAt(s, k, i);
    assert Lower(s)[i..i + |k|] == Lower(k) by {
      forall t | 0 <= t < |k| ensures Lower(s)[i..i + |k|][t] == Lower(k)[t] {
        assert s[i..i + |k|][t] == k[t];
      }
    }
    assert OccursAt(Lower(s), Lower(k), i);
    ContainsIff(Lower(s), Lower(k));
  }

  /** Being a substring is transitive: whatever contains `m` contains every
      substring of `m`. */
  lemma ContainsTransitive(s: string, m: string, k: string)
    requires Contains(s, m) && Contains(m, k)
    ensures Contains(s, k)
  {
    ContainsIff(s, m);
    ContainsIff(m, k);
    var i :| OccursAt(s, m, i);
    var j :| OccursAt(m, k, j);
    forall t | 0 <= t < |k|
      ensures s[i + j + t] == k[t]
    {
      assert k[t] == m[j..j + |k|][t] == m[j + t];
      assert m[j + t] == s[i..i + |m|][j + t] == s[i + j + t];
    }
    assert s[i + j..i + j + |k|] == k;
    assert OccursAt(s, k, i + j);
    ContainsIff(s, k);
  }

  /** Number of occurrences of the character `c` in `s`. */
  function CountChar(s: string, c: char): nat {
    if |s| == 0 then 0 else (if s[0] == c then 1 else 0) + CountChar(s[1..], c)
  }

  /** Python's `s.split(sep)` for a one-character separator: the pieces
      between separators, keeping empty pieces at both ends. */
  function Split(s: string, sep: char): (r: seq<string>)
    ensures |r| == CountChar(s, sep) + 1
    ensures forall i :: 0 <= i < |r| ==> sep !in r[i]
  {
    if |s| == 0 then [""]
    else
      var rest := Split(s[1..], sep);
      if s[0] == sep then [""] + rest
      else [[s[0]] + rest[0]] + rest[1..]
  }

  /** Python's `sep.join(parts)` for a one-character separator. */
  function Join(parts: seq<string>, sep: char): string
    requires |parts| >= 1
  {
    if |parts| == 1 then parts[0] else parts[0] + [sep] + Join(parts[1..], sep)
  }

  /** Prefixing the first piece prefixes the joined string. */
  lemma {:induction false} JoinPrefixFirst(x: string, parts: seq<string>, sep: char)
    requires |parts| >= 1
    ensures Join([x + parts[0]] + parts[1..], sep) == x + Join(parts, sep)
  {
    var ps := [x + parts[0]] + parts[1..];
    assert ps[1..] == parts[1..];
  }

  /** Splitting loses nothing: joining the pieces gives the string back. */
  lemma {:induction false} JoinSplit(s: string, sep: char)
    ensures Join(Split(s, sep), sep) == s
  {
    if |s| > 0 {
      var rest := Split(s[1..], sep);
      JoinSplit(s[1..], sep);
      if s[0] == sep {
        assert ([""] + rest)[1..] == rest;
        assert s == [sep] + s[1..];
      } else {
        JoinPrefixFirst([s[0]], rest, sep);
        assert s == [s[0]] + s[1..];
      }
    }
  }

  /** A separator-free string followed by a separator splits off as one piece. */
  lemma {:induction false} SplitPiece(p: string, t: string, sep: char)
    requires sep !in p
    ensures Split(p + [sep] + t, sep) == [p] + Split(t, sep)
  {
    if |p| > 0 {
      var s := p + [sep] + t;
      assert s[1..] == p[1..] + [sep] + t;
      SplitPiece(p[1..], t, sep);
      assert [p[0]] + p[1..] == p;
    } else {
      assert p + [sep] + t == [sep] + t;
      assert ([sep] + t)[1..] == t;
    }
  }

  /** A separator-free string is a single piece. */
  lemma {:induction false} SplitWhole(p: string, sep: char)
    requires sep !in p
    ensures Split(p, sep) == [p]
  {
    if |p| > 0 {
      SplitWhole(p[1..], sep);
      assert [p[0]] + p[1..] == p;
    }
  }

  /** Joining separator-free pieces and splitting again gives the pieces back. */
  lemma {:induction false} SplitJoin(parts: seq<string>, sep: char)
    requires |parts| >= 1
    requires forall i :: 0 <= i < |parts| ==> sep !in parts[i]
    ensures Split(Join(parts, sep), sep) == parts
  {
    if |parts| == 1 {
      SplitWhole(parts[0], sep);
    } else {
      SplitJoin(parts[1..], sep);
      SplitPiece(parts[0], Join(parts[1..], sep), sep);
      assert [parts[0]] + parts[1..] == parts;
    }
  }
}
