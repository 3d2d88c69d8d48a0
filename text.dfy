/**
 * String helpers shared by the backend and the frontend: the ASCII part of
 * JavaScript's toLowerCase/toUpperCase, String.prototype.trim, includes,
 * the `s || default` idiom and the decimal rendering of numbers.
 */
module Text {
  import opened Outcomes

  function LowerChar(c: char): char {
    if 'A' <= c <= 'Z' then (c as int + 32) as char else c
  }

  function UpperChar(c: char): char {
    if 'a' <= c <= 'z' then (c as int - 32) as char else c
  }

  /** `s.toLowerCase()` on ASCII letters. */
  function ToLower(s: string): (r: string)
    ensures |r| == |s|
    ensures forall i :: 0 <= i < |s| ==> r[i] == LowerChar(s[i])
  {
    if s == [] then [] else [LowerChar(s[0])] + ToLower(s[1..])
  }

  /** `s.toUpperCase()` on ASCII letters. */
  function ToUpper(s: string): (r: string)
    ensures |r| == |s|
    ensures forall i :: 0 <= i < |s| ==> r[i] == UpperChar(s[i])
  {
    if s == [] then [] else [UpperChar(s[0])] + ToUpper(s[1..])
  }

  /** Lower-casing twice is lower-casing once. */
  lemma {:induction false} ToLowerIdempotent(s: string)
    ensures ToLower(ToLower(s)) == ToLower(s)
  {
    if s != [] {
      ToLowerIdempotent(s[1..]);
      assert ToLower(s)[1..] == ToLower(s[1..]);
    }
  }

  /** Upper-casing twice is upper-casing once (the schema's `uppercase` setter
      after `currency.toUpperCase()` changes nothing). */
  lemma {:induction false} ToUpperIdempotent(s: string)
    ensures ToUpper(ToUpper(s)) == ToUpper(s)
  {
    if s != [] {
      ToUpperIdempotent(s[1..]);
      assert ToUpper(s)[1..] == ToUpper(s[1..]);
    }
  }

  /** The characters String.prototype.trim removes: white space and line terminators. */
  predicate IsSpace(c: char) {
    || c == ' ' || c == '\t' || c == '\n' || c == '\r'
    || c as int == 0x0B || c as int == 0x0C || c as int == 0xA0 || c as int == 0x1680
    || (0x2000 <= c as int <= 0x200A)
    || c as int == 0x2028 || c as int == 0x2029 || c as int == 0x202F
    || c as int == 0x205F || c as int == 0x3000 || c as int == 0xFEFF
  }

  function TrimStart(s: string): (r: string)
    ensures |r| <= |s|
    ensures r == [] || !IsSpace(r[0])
  {
    if s != [] && IsSpace(s[0]) then TrimStart(s[1..]) else s
  }

  function TrimEnd(s: string): (r: string)
    ensures |r| <= |s| && (r == [] || r[0] == s[0])
    ensures r == [] || !IsSpace(r[|r| - 1])
  {
    if s != [] && IsSpace(s[|s| - 1]) then TrimEnd(s[..|s| - 1]) else s
  }

  /** Neither end of `s` is white space. */
  predicate Trimmed(s: string) {
    s == [] || (!IsSpace(s[0]) && !IsSpace(s[|s| - 1]))
  }

  /** `s.trim()`: no white space is left at either end, and what is left is no longer than `s`. */
  function Trim(s: string): (r: string)
    ensures |r| <= |s|
    ensures Trimmed(r)
  {
    TrimEnd(TrimStart(s))
  }

  /** Trimming a string with no white space at either end changes nothing. */
  lemma TrimOfTrimmed(s: string)
    requires Trimmed(s)
    ensures Trim(s) == s
  {
    assert TrimStart(s) == s;
    assert TrimEnd(s) == s;
  }

  /** Trimming the start drops a run of white space from the front and keeps the rest as it is. */
  lemma {:induction false} TrimStartDropsSpace(s: string)
    ensures var r := TrimStart(s);
      r == s[|s| - |r|..] && forall k :: 0 <= k < |s| - |r| ==> IsSpace(s[k])
  {
    if s != [] && IsSpace(s[0]) {
      TrimStartDropsSpace(s[1..]);
    }
  }

  /** Trimming the end drops a run of white space from the back and keeps the rest as it is. */
  lemma {:induction false} TrimEndDropsSpace(s: string)
    ensures var r := TrimEnd(s);
      r == s[..|r|] && forall k :: |r| <= k < |s| ==> IsSpace(s[k])
  {
    if s != [] && IsSpace(s[|s| - 1]) {
      TrimEndDropsSpace(s[..|s| - 1]);
    }
  }

  /**
   * `s.trim()` is the part of `s` between its leading and its trailing white
   * space: everything before offset `i` and everything after the result is
   * white space, and neither end of the result is.
   */
  lemma TrimRemovesOnlyEnds(s: string)
    ensures var i, r := |s| - |TrimStart(s)|, Trim(s);
      && i + |r| <= |s| && r == s[i..i + |r|] && Trimmed(r)
      && (forall k :: 0 <= k < i ==> IsSpace(s[k]))
      && (forall k :: i + |r| <= k < |s| ==> IsSpace(s[k]))
  {
    var t := TrimStart(s);
    var r := TrimEnd(t);
    var i := |s| - |t|;
    assert r == Trim(s);
    assert t == s[i..] && forall k :: 0 <= k < i ==> IsSpace(s[k]) by {
      TrimStartDropsSpace(s);
    }
    assert r == t[..|r|] && forall k :: |r| <= k < |t| ==> IsSpace(t[k]) by {
      TrimEndDropsSpace(t);
    }
    assert r == s[i..i + |r|];
    forall k | i + |r| <= k < |s|
      ensures IsSpace(s[k])
    {
      assert s[k] == t[k - i];
    }
  }

  /** Trimming twice is trimming once. */
  lemma TrimIdempotent(s: string)
    ensures Trim(Trim(s)) == Trim(s)
  {
    TrimOfTrimmed(Trim(s));
  }

  predicate OccursAt(hay: string, needle: string, i: nat) {
    i + |needle| <= |hay| && hay[i..i + |needle|] == needle
  }

  /** `hay.includes(needle)`. */
  predicate Contains(hay: string, needle: string) {
    exists i: nat | i <= |hay| :: OccursAt(hay, needle, i)
  }

  /** JavaScript's `s || fallback` on a string: the empty string is falsy. */
  function OrDefault(s: string, fallback: string): (r: string)
    ensures s != "" ==> r == s
    ensures s == "" ==> r == fallback
    ensures r == "" <==> s == "" && fallback == ""
  {
    if s == "" then fallback else s
  }

  function DigitChar(d: nat): char
    requires d < 10
  {
    ['0', '1', '2', '3', '4', '5', '6', '7', '8', '9'][d]
  }

  predicate IsDigit(c: char) {
    '0' <= c <= '9'
  }

  /** The number a string of decimal digits denotes. */
  function DigitsValue(s: string): nat
    requires forall i :: 0 <= i < |s| ==> IsDigit(s[i])
  {
    if s == [] then 0
    else
      assert IsDigit(s[|s| - 1]);
      DigitsValue(s[..|s| - 1]) * 10 + (s[|s| - 1] as int - '0' as int)
  }

  /** Decimal rendering of a natural number, as `String(n)` gives it. */
  function NatToString(n: nat): (s: string)
    ensures 1 <= |s|
    ensures forall i :: 0 <= i < |s| ==> IsDigit(s[i])
    ensures |s| > 1 ==> s[0] != '0'
  {
    if n < 10 then [DigitChar(n)] else NatToString(n / 10) + [DigitChar(n % 10)]
  }

  /** Reading back the digits of `NatToString(n)` gives `n`. */
  lemma {:induction false} NatToStringRoundTrip(n: nat)
    ensures DigitsValue(NatToString(n)) == n
  {
    var s := NatToString(n);
    if n >= 10 {
      NatToStringRoundTrip(n / 10);
      assert s[..|s| - 1] == NatToString(n / 10);
    }
  }

  /** The positions of the characters outside the Basic Multilingual Plane. */
  function AstralPositions(s: string): set<nat> {
    set i: nat | i < |s| && s[i] as int >= 0x1_0000
  }

  /**
   * JavaScript's `length`: the number of UTF-16 code units, one per
   * character and one more for each character outside the Basic
   * Multilingual Plane (a surrogate pair).
   */
  function Utf16Length(s: string): nat {
    |s| + |AstralPositions(s)|
  }

  lemma {:induction false} AstralPositionsBound(s: string)
    ensures |AstralPositions(s)| <= |s|
  {
    if s != [] {
      var init := s[..|s| - 1];
      AstralPositionsBound(init);
      var last: set<nat> := if s[|s| - 1] as int >= 0x1_0000 then {|s| - 1} else {};
      assert AstralPositions(s) == AstralPositions(init) + last;
    }
  }

  /**
   * Every character counts one or two code units, and one exactly when no
   * character lies outside the Basic Multilingual Plane.
   */
  lemma Utf16LengthBounds(s: string)
    ensures |s| <= Utf16Length(s) <= 2 * |s|
    ensures Utf16Length(s) == |s| <==> forall i :: 0 <= i < |s| ==> s[i] as int < 0x1_0000
  {
    AstralPositionsBound(s);
    if exists i :: 0 <= i < |s| && s[i] as int >= 0x1_0000 {
      var i :| 0 <= i < |s| && s[i] as int >= 0x1_0000;
      assert i in AstralPositions(s);
    }
  }

  /** Decimal rendering of an integer, with a leading '-' when negative. */
  function IntToString(n: int): (s: string)
    ensures 1 <= |s|
    ensures n < 0 <==> s[0] == '-'
  {
    if n < 0 then "-" + NatToString(-n) else NatToString(n)
  }

  /**
   * `Number.prototype.toString` of an amount held in cents, read as dollars:
   * no trailing zeros after the point and no point for whole dollars
   * (1250 -> "12.5", 1205 -> "12.05", 1200 -> "12").
   */
  function CentsToString(cents: int): (s: string)
    ensures 1 <= |s|
    ensures cents < 0 <==> s[0] == '-'
    decreases if cents < 0 then 1 else 0
  {
    if cents < 0 then "-" + CentsToString(-cents)
    else
      var whole, frac := cents / 100, cents % 100;
      if frac == 0 then NatToString(whole) else NatToString(whole) + "." + FractionText(frac)
  }

  /** The digits after the point: one for a whole number of dimes, else two. */
  function FractionText(frac: nat): string
    requires 0 < frac < 100
  {
    if frac % 10 == 0 then [DigitChar(frac / 10)] else [DigitChar(frac / 10), DigitChar(frac % 10)]
  }

  predicate AllDigits(s: string) {
    forall i :: 0 <= i < |s| ==> IsDigit(s[i])
  }

  /** The position of the first '.' in `s`, or `|s|` when there is none. */
  function DotIndex(s: string): (i: nat)
    ensures i <= |s| && (i < |s| ==> s[i] == '.')
    ensures forall k :: 0 <= k < i ==> s[k] != '.'
  {
    if s == [] || s[0] == '.' then 0 else 1 + DotIndex(s[1..])
  }

  /**
   * Reading a non-negative dollar amount back as cents: whole dollars in
   * decimal digits, then optionally a point and one or two digits of cents.
   */
  function ReadCents(s: string): Option<nat> {
    var i := DotIndex(s);
    if i == |s| then ReadDollars(s) else ReadDollarsPoint(s[..i], s[i + 1..])
  }

  function ReadDollars(w: string): Option<nat> {
    if w == [] || !AllDigits(w) then None else Some(DigitsValue(w) * 100)
  }

  function ReadDollarsPoint(w: string, f: string): Option<nat> {
    if w == [] || !AllDigits(w) || !AllDigits(f) || !(1 <= |f| <= 2) then None
    else Some(DigitsValue(w) * 100 + FractionValue(f))
  }

  /** Cents of one or two digits after the point: "5" is 50, "05" is 5. */
  function FractionValue(f: string): nat
    requires AllDigits(f)
  {
    if |f| == 1 then DigitsValue(f) * 10 else DigitsValue(f)
  }

  lemma DigitCharValue(d: nat)
    requires d < 10
    ensures IsDigit(DigitChar(d)) && DigitChar(d) as int - '0' as int == d
  {
  }

  /** The digits after the point read back as the cents, and the last is not 0. */
  lemma FractionDigits(frac: nat)
    requires 0 < frac < 100
    ensures var f := FractionText(frac);
      AllDigits(f) && 1 <= |f| <= 2 && f[|f| - 1] != '0' && FractionValue(f) == frac
  {
    DigitCharValue(frac / 10);
    DigitCharValue(frac % 10);
    var hi := [DigitChar(frac / 10)];
    assert hi[..0] == [];
    assert DigitsValue(hi) == frac / 10;
    if frac % 10 == 0 {
      assert FractionText(frac) == hi;
    } else {
      var f := hi + [DigitChar(frac % 10)];
      assert FractionText(frac) == f;
      assert f[..1] == hi;
      assert DigitsValue(f) == (frac / 10) * 10 + frac % 10;
    }
  }

  /** The first point of digits followed by `t` is the first point of `t`. */
  lemma {:induction false} DotIndexAfterDigits(w: string, t: string)
    requires AllDigits(w)
    ensures DotIndex(w + t) == |w| + DotIndex(t)
  {
    if w != [] {
      assert IsDigit(w[0]) && (w + t)[0] == w[0];
      assert (w + t)[1..] == w[1..] + t;
      DotIndexAfterDigits(w[1..], t);
    } else {
      assert w + t == t;
    }
  }

  /** Digits alone read as whole dollars. */
  lemma ReadWholeDollars(w: string)
    requires w != [] && AllDigits(w)
    ensures ReadCents(w) == Some(DigitsValue(w) * 100)
  {
    DotIndexAfterDigits(w, "");
    assert w + "" == w;
  }

  /** Digits, a point, and one or two digits read as dollars and cents. */
  lemma ReadDollarsAndCents(w: string, f: string)
    requires w != [] && AllDigits(w) && AllDigits(f) && 1 <= |f| <= 2
    ensures ReadCents(w + "." + f) == Some(DigitsValue(w) * 100 + FractionValue(f))
  {
    var s := w + "." + f;
    PointSplit(w, f);
    DotIndexAfterDigits(w, "." + f);
    assert ReadCents(s) == ReadDollarsPoint(s[..|w|], s[|w| + 1..]);
  }

  /** Cutting `w + "." + f` at the point gives back `w` and `f`. */
  lemma PointSplit(w: string, f: string)
    ensures var s := w + "." + f;
      s == w + ("." + f) && s[..|w|] == w && s[|w| + 1..] == f
  {
  }

  lemma WholeDollarsRoundTrip(cents: nat)
    requires cents % 100 == 0
    ensures ReadCents(CentsToString(cents)) == Some(cents)
  {
    var w := NatToString(cents / 100);
    NatToStringRoundTrip(cents / 100);
    assert CentsToString(cents) == w;
    ReadWholeDollars(w);
  }

  lemma DollarsAndCentsRoundTrip(cents: nat)
    requires cents % 100 != 0
    ensures ReadCents(CentsToString(cents)) == Some(cents)
    ensures CentsToString(cents)[|CentsToString(cents)| - 1] != '0'
  {
    var w, f := NatToString(cents / 100), FractionText(cents % 100);
    NatToStringRoundTrip(cents / 100);
    FractionDigits(cents % 100);
    var s := w + "." + f;
    assert CentsToString(cents) == s;
    assert s[|s| - 1] == f[|f| - 1];
    ReadDollarsAndCents(w, f);
  }

  /**
   * The text of a non-negative amount reads back as that amount, and when
   * it has a point its last digit is not 0.
   */
  lemma CentsToStringRoundTrip(cents: nat)
    ensures ReadCents(CentsToString(cents)) == Some(cents)
    ensures cents % 100 != 0 ==> CentsToString(cents)[|CentsToString(cents)| - 1] != '0'
  {
    if cents % 100 == 0 {
      WholeDollarsRoundTrip(cents);
    } else {
      DollarsAndCentsRoundTrip(cents);
    }
  }
}
