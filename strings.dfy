/** Text operations the application borrows from Python's `str`: `strip`, `lower`,
    `startswith`, `in`, `replace(c, '')`, `split(sep)`, and the decimal digits
    that `str(int)` writes and `int(str)` reads. */
module Strings {

  // ---------------------------------------------------------------- characters

  /** The characters for which Python's `str.isspace()` holds; `str.strip()`
      drops them at both ends of a string. */
  predicate IsSpace(c: char) {
    c == ' ' || ('\t' <= c <= '\r') || ('\U{1c}' <= c <= '\U{1f}') || c == '\U{85}' || c == '\U{a0}'
    || c == '\U{1680}' || ('\U{2000}' <= c <= '\U{200a}') || c == '\U{2028}' || c == '\U{2029}'
    || c == '\U{202f}' || c == '\U{205f}' || c == '\U{3000}'
  }

  /** The ASCII whitespace of C's `isspace`: space, tab, line feed, vertical
      tab, form feed and carriage return. */
  predicate IsAsciiSpace(c: char) {
    c == ' ' || ('\t' <= c <= '\r')
  }

  predicate IsDigit(c: char) {
    '0' <= c <= '9'
  }

  predicate AllDigits(s: string) {
    forall i :: 0 <= i < |s| ==> IsDigit(s[i])
  }

  /** Python's `str.lower()` on one character, for the ASCII and Latin-1 capitals. */
  function LowerChar(c: char): char {
    if 'A' <= c <= 'Z' || ('\U{c0}' <= c <= '\U{de}' && c != '\U{d7}') then (c as int + 32) as char else c
  }

  function Lower(s: string): (t: string)
    ensures |t| == |s|
  {
    seq(|s|, i requires 0 <= i < |s| => LowerChar(s[i]))
  }

  lemma LowerConcat(a: string, b: string)
    ensures Lower(a + b) == Lower(a) + Lower(b)
  {
    assert forall i :: 0 <= i < |a + b| ==> Lower(a + b)[i] == (Lower(a) + Lower(b))[i];
  }

  // ---------------------------------------------------------------- searching

  predicate StartsWith(s: string, prefix: string) {
    |prefix| <= |s| && s[..|prefix|] == prefix
  }

  /** Python's `needle in s` for strings, as a left-to-right search. */
  predicate Contains(s: string, needle: string)
    decreases |s|
  {
    StartsWith(s, needle) || (|s| > 0 && Contains(s[1..], needle))
  }

  /** `needle` occurs in `s` starting at position `i`. */
  predicate OccursAt(s: string, needle: string, i: int) {
    0 <= i <= |s| - |needle| && s[i..i + |needle|] == needle
  }

  /** The search finds the needle exactly when it occurs at some position. */
  lemma {:induction false} ContainsAt(s: string, needle: string)
    ensures Contains(s, needle) <==> exists i :: OccursAt(s, needle, i)
    decreases |s|
  {
    if StartsWith(s, needle) {
      assert OccursAt(s, needle, 0) by { assert s[0..|needle|] == s[..|needle|]; }
    } else if |s| == 0 {
    } else {
      ContainsAt(s[1..], needle);
      if Contains(s[1..], needle) {
        var i :| OccursAt(s[1..], needle, i);
        assert s[i + 1..i + 1 + |needle|] == s[1..][i..i + |needle|];
        assert OccursAt(s, needle, i + 1);
      }
      if exists i :: OccursAt(s, needle, i) {
        var i :| OccursAt(s, needle, i);
        assert i != 0 by { assert s[..|needle|] == s[0..|needle|]; }
        assert s[1..][i - 1..i - 1 + |needle|] == s[i..i + |needle|];
        assert OccursAt(s[1..], needle, i - 1);
      }
    }
  }

  /** The first position of a character from `cs`, or `|s|` when there is none. */
  function IndexOfAny(s: string, cs: set<char>): (k: nat)
    ensures k <= |s|
    ensures k < |s| ==> s[k] in cs
    ensures forall j :: 0 <= j < k ==> s[j] !in cs
    decreases |s|
  {
    if |s| == 0 then 0 else if s[0] in cs then 0 else 1 + IndexOfAny(s[1..], cs)
  }

  // ---------------------------------------------------------------- stripping

  function StripLeftOf(s: string, space: char -> bool): (t: string)
    ensures |t| <= |s| && t == s[|s| - |t|..]
    decreases |s|
  {
    if |s| > 0 && space(s[0]) then StripLeftOf(s[1..], space) else s
  }

  function StripRightOf(s: string, space: char -> bool): (t: string)
    ensures |t| <= |s| && t == s[..|t|]
    decreases |s|
  {
    if |s| > 0 && space(s[|s| - 1]) then StripRightOf(s[..|s| - 1], space) else s
  }

  /** `s` without the characters `space` holds for at either end. */
  function StripOf(s: string, space: char -> bool): string {
    StripRightOf(StripLeftOf(s, space), space)
  }

  /** Python's `s.strip()`. */
  function Strip(s: string): string {
    StripOf(s, IsSpace)
  }

  /** `StripLeftOf` drops only characters `space` holds for, and all of those in front. */
  lemma {:induction false} StripLeftDropsSpace(s: string, space: char -> bool)
    ensures forall i :: 0 <= i < |s| - |StripLeftOf(s, space)| ==> space(s[i])
    ensures |StripLeftOf(s, space)| == 0 || !space(StripLeftOf(s, space)[0])
    decreases |s|
  {
    if |s| > 0 && space(s[0]) {
      var r := StripLeftOf(s[1..], space);
      assert StripLeftOf(s, space) == r;
      StripLeftDropsSpace(s[1..], space);
      forall i | 0 <= i < |s| - |r| ensures space(s[i]) {
        if i > 0 {
          assert s[i] == s[1..][i - 1];
        }
      }
    }
  }

  /** `StripRightOf` drops only characters `space` holds for, and all of those at the end. */
  lemma {:induction false} StripRightDropsSpace(s: string, space: char -> bool)
    ensures forall i :: |StripRightOf(s, space)| <= i < |s| ==> space(s[i])
    ensures |StripRightOf(s, space)| == 0 || !space(StripRightOf(s, space)[|StripRightOf(s, space)| - 1])
    decreases |s|
  {
    if |s| > 0 && space(s[|s| - 1]) {
      var r := StripRightOf(s[..|s| - 1], space);
      assert StripRightOf(s, space) == r;
      StripRightDropsSpace(s[..|s| - 1], space);
      forall i | |r| <= i < |s| ensures space(s[i]) {
        if i < |s| - 1 {
          assert s[i] == s[..|s| - 1][i];
        }
      }
    }
  }

  /** Where the stripped string sits in `s`: at `off`, with only characters
      `space` holds for before and after it. */
  lemma StripOfBounds(s: string, space: char -> bool) returns (off: nat)
    ensures var t := StripOf(s, space);
            && off + |t| <= |s| && t == s[off..off + |t|]
            && (forall k :: 0 <= k < off ==> space(s[k]))
            && (forall k :: off + |t| <= k < |s| ==> space(s[k]))
  {
    var l := StripLeftOf(s, space);
    off := |s| - |l|;
    StripOfSlice(s, space, off);
    LeftDropped(s, space, off);
    RightDropped(s, space, off, l, StripOf(s, space));
  }

  /** The strip is the slice of `s` after the `off` characters dropped on the left. */
  lemma StripOfSlice(s: string, space: char -> bool, off: nat)
    requires off == |s| - |StripLeftOf(s, space)|
    ensures off + |StripOf(s, space)| <= |s|
    ensures StripOf(s, space) == s[off..off + |StripOf(s, space)|]
  {
    var l := StripLeftOf(s, space);
    var t := StripRightOf(l, space);
    assert l == s[off..];
    assert t == l[..|t|];
    assert s[off..][..|t|] == s[off..off + |t|];
  }

  lemma LeftDropped(s: string, space: char -> bool, off: nat)
    requires off == |s| - |StripLeftOf(s, space)|
    ensures forall k :: 0 <= k < off ==> space(s[k])
  {
    StripLeftDropsSpace(s, space);
  }

  lemma RightDropped(s: string, space: char -> bool, off: nat, l: string, t: string)
    requires off <= |s| && l == s[off..] && t == StripRightOf(l, space)
    ensures forall k :: off + |t| <= k < |s| ==> space(s[k])
  {
    StripRightDropsSpace(l, space);
    forall k | off + |t| <= k < |s| ensures space(s[k]) {
      assert s[k] == l[k - off];
    }
  }

  /** Stripping removes only whitespace: every other character of `s` survives. */
  lemma StripKeeps(s: string, k: nat)
    requires k < |s| && !IsSpace(s[k])
    ensures s[k] in Strip(s)
  {
    var off := StripOfBounds(s, IsSpace);
    assert s[k] == Strip(s)[k - off];
  }

  /** Any character between two that are not whitespace survives `strip()`,
      whitespace or not. */
  lemma StripKeepsInside(s: string, i: nat, k: nat, j: nat)
    requires i <= k <= j < |s| && !IsSpace(s[i]) && !IsSpace(s[j])
    ensures s[k] in Strip(s)
  {
    var off := StripOfBounds(s, IsSpace);
    assert off <= i && j < off + |Strip(s)|;
    assert s[k] == Strip(s)[k - off];
  }

  /** `strip()` only removes characters. */
  lemma StripWithin(s: string)
    ensures forall x :: x in Strip(s) ==> x in s
  {
    var off := StripOfBounds(s, IsSpace);
    forall x | x in Strip(s)
      ensures x in s
    {
      var i :| 0 <= i < |Strip(s)| && Strip(s)[i] == x;
      assert s[off + i] == x;
    }
  }

  /** A string with nothing to strip at either end is its own strip. */
  lemma StripOfUnchanged(s: string, space: char -> bool)
    requires |s| > 0 ==> !space(s[0]) && !space(s[|s| - 1])
    ensures StripOf(s, space) == s
  {
    assert StripLeftOf(s, space) == s;
    assert StripRightOf(s, space) == s;
  }

  /** A string without whitespace at either end is its own strip. */
  lemma StripUnchanged(s: string)
    requires |s| > 0 ==> !IsSpace(s[0]) && !IsSpace(s[|s| - 1])
    ensures Strip(s) == s
  {
    StripOfUnchanged(s, IsSpace);
  }

  /** Python's `s.replace(c, '')`. */
  function RemoveChar(s: string, c: char): (t: string)
    ensures c !in t
    ensures forall x :: x in t ==> x in s
    decreases |s|
  {
    if |s| == 0 then [] else (if s[0] == c then [] else [s[0]]) + RemoveChar(s[1..], c)
  }

  /** Removing a character keeps every other character. */
  lemma {:induction false} RemoveCharKeeps(s: string, c: char, x: char)
    requires x in s && x != c
    ensures x in RemoveChar(s, c)
    decreases |s|
  {
    if s[0] != x {
      RemoveCharKeeps(s[1..], c, x);
    }
  }

  // ---------------------------------------------------------------- split and join

  /** Python's `s.split(sep)` for a one-character separator: the empty string
      gives one empty part, and the parts never contain the separator. */
  function Split(s: string, sep: char): (parts: seq<string>)
    ensures |parts| >= 1
    ensures forall k :: 0 <= k < |parts| ==> sep !in parts[k]
    decreases |s|
  {
    var k := IndexOfAny(s, {sep});
    if k == |s| then [s] else [s[..k]] + Split(s[k + 1..], sep)
  }

  /** Python's `sep.join(parts)`. */
  function Join(parts: seq<string>, sep: char): string
    requires |parts| >= 1
    decreases |parts|
  {
    if |parts| == 1 then parts[0] else parts[0] + [sep] + Join(parts[1..], sep)
  }

  lemma {:induction false} JoinSplit(s: string, sep: char)
    ensures Join(Split(s, sep), sep) == s
    decreases |s|
  {
    var k := IndexOfAny(s, {sep});
    var parts := Split(s, sep);
    if k < |s| {
      var tail := Split(s[k + 1..], sep);
      assert parts == [s[..k]] + tail;
      assert parts[0] == s[..k] && parts[1..] == tail;
      assert Join(parts, sep) == s[..k] + [sep] + Join(tail, sep);
      JoinSplit(s[k + 1..], sep);
      assert s == s[..k] + [sep] + s[k + 1..];
    } else {
      assert parts == [s];
    }
  }

  lemma {:induction false} SplitJoin(parts: seq<string>, sep: char)
    requires |parts| >= 1
    requires forall k :: 0 <= k < |parts| ==> sep !in parts[k]
    ensures Split(Join(parts, sep), sep) == parts
    decreases |parts|
  {
    var s := Join(parts, sep);
    var k := IndexOfAny(s, {sep});
    if |parts| == 1 {
      assert k == |s|;
    } else {
      var head := parts[0];
      assert s == head + [sep] + Join(parts[1..], sep);
      assert s[|head|] == sep;
      assert k == |head|;
      assert s[..k] == head;
      assert s[k + 1..] == Join(parts[1..], sep);
      SplitJoin(parts[1..], sep);
      assert parts == [head] + parts[1..];
    }
  }

  // ---------------------------------------------------------------- decimal numerals

  function DigitValue(c: char): nat
    requires IsDigit(c)
  {
    c as int - '0' as int
  }

  function DigitChar(d: nat): (c: char)
    requires d < 10
    ensures IsDigit(c) && DigitValue(c) == d
  {
    ('0' as int + d) as char
  }

  /** The value of a numeral, read most significant digit first. */
  function DigitsValue(s: string): nat
    requires AllDigits(s)
    decreases |s|
  {
    if |s| == 0 then 0 else DigitsValue(s[..|s| - 1]) * 10 + DigitValue(s[|s| - 1])
  }

  /** Python's `str(n)` for a natural number: a numeral without leading zeros
      that reads back as `n`. */
  function NatToString(n: nat): (s: string)
    ensures |s| > 0 && AllDigits(s)
    ensures DigitsValue(s) == n
    ensures |s| > 1 ==> s[0] != '0'
    decreases n
  {
    if n < 10 then [DigitChar(n)]
    else
      var front := NatToString(n / 10);
      var s := front + [DigitChar(n % 10)];
      assert s[..|s| - 1] == front;
      s
  }

  /** Two digits with a leading zero, as `:02d` writes them. */
  function TwoDigits(n: nat): (s: string)
    requires n < 100
    ensures |s| == 2 && AllDigits(s) && DigitsValue(s) == n
  {
    var s := [DigitChar(n / 10), DigitChar(n % 10)];
    assert s[..1] == [DigitChar(n / 10)];
    assert DigitsValue(s[..1]) == n / 10 by {
      assert s[..1][..0] == [];
    }
    s
  }
}
