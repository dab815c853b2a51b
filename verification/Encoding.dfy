/** The transport form of a share, decimal text
    (packages/mpc-crypto/src/shamir.ts). */
module Encoding {
  import opened Wrappers
  import opened Polynomial

  const DIGITS := "0123456789"

  datatype Text = Text(x: string, y: string)

  predicate IsDigit(c: char) { '0' <= c <= '9' }

  // ----- `toString` of a bigint -----

  function ShowNat(n: nat): string {
    if n < 10 then [DIGITS[n]] else ShowNat(n / 10) + [DIGITS[n % 10]]
  }

  function Show(x: int): string {
    if x < 0 then "-" + ShowNat(-x) else ShowNat(x)
  }

  // ----- `BigInt` of a text, section 7.1.14 of ECMA-262 -----

  /** White space and line terminators, sections 12.2 and 12.3 of ECMA-262. */
  predicate IsSpace(c: char) {
    || '\U{0009}' <= c <= '\U{000D}' || c == ' ' || c == '\U{00A0}' || c == '\U{FEFF}'
    || c == '\U{1680}' || '\U{2000}' <= c <= '\U{200A}' || c == '\U{2028}' || c == '\U{2029}'
    || c == '\U{202F}' || c == '\U{205F}' || c == '\U{3000}'
  }

  function TrimStart(s: string): string {
    if s != "" && IsSpace(s[0]) then TrimStart(s[1..]) else s
  }

  function TrimEnd(s: string): string {
    if s != "" && IsSpace(s[|s| - 1]) then TrimEnd(s[..|s| - 1]) else s
  }

  /** The value of a digit, whatever the base; 16 for other characters. */
  function DigitValue(c: char): (d: nat)
    ensures d <= 16 && (IsDigit(c) <==> d < 10) && (IsDigit(c) ==> DIGITS[d] == c)
  {
    if '0' <= c <= '9' then (c - '0') as nat
    else if 'a' <= c <= 'f' then 10 + (c - 'a') as nat
    else if 'A' <= c <= 'F' then 10 + (c - 'A') as nat
    else 16
  }

  /** Digits of a base, most significant first. */
  function ReadDigits(s: string, base: nat): Option<nat> {
    if s == "" then Some(0)
    else
      var last, high := DigitValue(s[|s| - 1]), ReadDigits(s[..|s| - 1], base);
      if last < base && high.Some? then Some(base * high.value + last) else None
  }

  /** The base that a prefix of the text announces, or 10. */
  function BaseOf(s: string): nat {
    if |s| < 2 || s[0] != '0' then 10
    else if s[1] in "xX" then 16
    else if s[1] in "oO" then 8
    else if s[1] in "bB" then 2
    else 10
  }

  function Negated(n: Option<nat>): Option<int> {
    if n.None? then None else Some(0 - n.value)
  }

  function Kept(n: Option<nat>): Option<int> {
    if n.None? then None else Some(0 + n.value)
  }

  /** None where BigInt throws. */
  function Read(s: string): Option<int> { ReadTrimmed(TrimEnd(TrimStart(s))) }

  function ReadTrimmed(t: string): Option<int> {
    if t == "" then Some(0)
    else if BaseOf(t) != 10 then if |t| == 2 then None else Kept(ReadDigits(t[2..], BaseOf(t)))
    else if t[0] in "+-" then
      if |t| == 1 then None else if t[0] == '-' then Negated(ReadDigits(t[1..], 10)) else Kept(ReadDigits(t[1..], 10))
    else Kept(ReadDigits(t, 10))
  }

  // ----- shares -----

  function EncodeShare(share: Point): Text { Text(Show(share.x), Show(share.y)) }

  /** None where it throws. */
  function DecodeShare(t: Text): Option<Point> {
    var x, y := Read(t.x), Read(t.y);
    if x.Some? && y.Some? then Some(Point(x.value, y.value)) else None
  }

  predicate Decodable(ts: seq<Text>) {
    forall i :: 0 <= i < |ts| ==> DecodeShare(ts[i]).Some?
  }

  /** `map(decodeShare)`: throws if one of them does. */
  function DecodeAll(ts: seq<Text>): (r: Option<seq<Point>>)
    ensures r.Some? ==> |r.value| == |ts|
  {
    if Decodable(ts) then Some(seq(|ts|, i requires 0 <= i < |ts| => DecodeShare(ts[i]).value)) else None
  }

  // ----- round trips -----

  predicate AllDigits(s: string) { forall i :: 0 <= i < |s| ==> IsDigit(s[i]) }

  lemma {:induction false} ReadShowNat(n: nat)
    ensures ReadDigits(ShowNat(n), 10) == Some(n) && ShowNat(n) != "" && AllDigits(ShowNat(n))
  {
    var s := ShowNat(n);
    if n >= 10 {
      ReadShowNat(n / 10);
      assert s[..|s| - 1] == ShowNat(n / 10) && s[|s| - 1] == DIGITS[n % 10];
      DigitOf(n % 10);
    } else {
      assert s[..0] == "" && s[0] == DIGITS[n];
      DigitOf(n);
    }
  }

  lemma DigitOf(d: nat)
    requires d < 10
    ensures IsDigit(DIGITS[d]) && DigitValue(DIGITS[d]) == d
  {
  }

  /** Digits, with or without a minus, are read as they stand. */
  lemma ReadPlain(t: string)
    requires t != "" && AllDigits(t)
    ensures Read(t) == Kept(ReadDigits(t, 10)) && Read("-" + t) == Negated(ReadDigits(t, 10))
  {
    var m := "-" + t;
    assert m[1..] == t && m[|m| - 1] == t[|t| - 1] && BaseOf(m) == 10;
    assert !IsSpace(t[0]) && !IsSpace(t[|t| - 1]) && BaseOf(t) == 10;
  }

  lemma ReadShow(x: int)
    ensures Read(Show(x)) == Some(x)
  {
    var n: nat := if x < 0 then -x else x;
    ReadShowNat(n);
    ReadPlain(ShowNat(n));
  }

  /** As printed: digits without leading zero, with a minus only before a
      positive number. */
  predicate Canonical(s: string) {
    if s != "" && s[0] == '-' then CanonicalNat(s[1..]) && s != "-0" else CanonicalNat(s)
  }

  predicate CanonicalNat(s: string) {
    s != "" && AllDigits(s) && (s[0] == '0' ==> |s| == 1)
  }

  lemma ShowStep(h: nat, c: char)
    requires h > 0 && IsDigit(c)
    ensures ShowNat(10 * h + DigitValue(c)) == ShowNat(h) + [c]
  {
    TensAndOnes(h, DigitValue(c));
  }

  lemma TensAndOnes(h: nat, d: nat)
    requires d < 10
    ensures (10 * h + d) / 10 == h && (10 * h + d) % 10 == d
  {
  }

  lemma ReadStep(high: string, c: char)
    requires ReadDigits(high, 10).Some? && IsDigit(c)
    ensures ReadDigits(high + [c], 10) == Some(10 * ReadDigits(high, 10).value + DigitValue(c))
  {
    assert (high + [c])[..|high|] == high;
  }

  lemma ReadOne(c: char)
    requires IsDigit(c)
    ensures ReadDigits([c], 10) == Some(DigitValue(c)) && ShowNat(DigitValue(c)) == [c] && (c != '0' ==> DigitValue(c) > 0)
  {
    assert [c][..0] == "";
  }

  /** What is read prints back as s, and is not 0 unless s starts with 0. */
  predicate PrintsBack(s: string) {
    s != "" && ReadDigits(s, 10).Some? && ShowNat(ReadDigits(s, 10).value) == s && (s[0] != '0' ==> ReadDigits(s, 10).value > 0)
  }

  lemma PrintsBackOne(c: char)
    requires IsDigit(c)
    ensures PrintsBack([c])
  {
    ReadOne(c);
  }

  lemma PrintsBackMore(high: string, c: char)
    requires PrintsBack(high) && high[0] != '0' && IsDigit(c)
    ensures PrintsBack(high + [c])
  {
    var h := ReadDigits(high, 10).value;
    assert h > 0;
    ReadStep(high, c);
    ShowStep(h, c);
    assert (high + [c])[0] == high[0];
  }

  lemma CanonicalInit(s: string)
    requires CanonicalNat(s) && |s| > 1
    ensures CanonicalNat(s[..|s| - 1]) && s[..|s| - 1][0] != '0' && IsDigit(s[|s| - 1])
  {
    assert s[..|s| - 1][0] == s[0];
  }

  lemma {:induction false} ShowReadNat(s: string)
    requires CanonicalNat(s)
    ensures PrintsBack(s)
  {
    if |s| == 1 {
      assert s == [s[0]];
      PrintsBackOne(s[0]);
    } else {
      CanonicalInit(s);
      ShowReadNat(s[..|s| - 1]);
      PrintsBackMore(s[..|s| - 1], s[|s| - 1]);
      assert s == s[..|s| - 1] + [s[|s| - 1]];
    }
  }

  lemma PlainBack(t: string)
    requires CanonicalNat(t)
    ensures Read(t).Some? && Show(Read(t).value) == t
  {
    ShowReadNat(t);
    ReadPlain(t);
  }

  lemma MinusBack(t: string)
    requires CanonicalNat(t) && t[0] != '0'
    ensures Read("-" + t).Some? && Show(Read("-" + t).value) == "-" + t
  {
    ShowReadNat(t);
    ReadPlain(t);
    assert PrintsBack(t);
  }

  lemma ShowRead(s: string)
    requires Canonical(s)
    ensures Read(s).Some? && Show(Read(s).value) == s
  {
    if s[0] == '-' {
      var t := s[1..];
      assert s == "-" + t;
      assert t == "0" ==> s == "-0";
      assert t[0] == '0' ==> t == "0";
      MinusBack(t);
    } else {
      PlainBack(s);
    }
  }

  lemma DecodeEncode(share: Point)
    ensures DecodeShare(EncodeShare(share)) == Some(share)
  {
    ReadShow(share.x);
    ReadShow(share.y);
  }

  /** A text that is no number makes decoding throw. */
  lemma OopsThrows(x: string)
    ensures DecodeShare(Text(x, "oops")).None?
  {
    var t := "oops";
    assert TrimEnd(TrimStart(t)) == t;
    assert DigitValue(t[3]) == 16;
  }

  // ----- what is read -----

  /** The digits, one by one. */
  lemma DigitsAre()
    ensures forall i :: 0 <= i < 10 ==> DigitValue("0123456789"[i]) == i
    ensures forall i :: 0 <= i < 6 ==> DigitValue("abcdef"[i]) == 10 + i && DigitValue("ABCDEF"[i]) == 10 + i
    ensures forall c :: c !in "0123456789abcdefABCDEF" ==> DigitValue(c) == 16
  {
    forall c | DigitValue(c) < 16 ensures c in "0123456789abcdefABCDEF" {
      IsListed(c);
    }
  }

  lemma IsListed(c: char)
    requires DigitValue(c) < 16
    ensures c in "0123456789abcdefABCDEF"
  {
    var d := DigitValue(c);
    if '0' <= c <= '9' {
      assert c == "0123456789abcdefABCDEF"[d];
    } else if 'a' <= c <= 'f' {
      assert c == "0123456789abcdefABCDEF"[d];
    } else {
      assert c == "0123456789abcdefABCDEF"[d + 6];
    }
  }

  function PowerOf(base: nat, k: nat): nat {
    if k == 0 then 1 else base * PowerOf(base, k - 1)
  }

  lemma ScaleStep(base: int, w: int, d: int, v: int, l: int)
    ensures base * (d * w + v) + l == d * (base * w) + (base * v + l)
  {
    assert base * (d * w) == d * (base * w);
  }

  /** Place value: the first digit counts base to the power of the digits after
      it. */
  lemma {:induction false} PlaceValue(c: char, rest: string, base: nat)
    ensures var all, tail := ReadDigits([c] + rest, base), ReadDigits(rest, base);
      if DigitValue(c) < base && tail.Some? then all == Some(DigitValue(c) * PowerOf(base, |rest|) + tail.value)
      else all.None?
  {
    var s := [c] + rest;
    if rest == "" {
      assert s[..0] == "" && s[0] == c;
      assert ReadDigits(s[..0], base) == Some(0);
    } else {
      var init, last := rest[..|rest| - 1], rest[|rest| - 1];
      PlaceValue(c, init, base);
      assert s[..|s| - 1] == [c] + init && s[|s| - 1] == last;
      if DigitValue(c) < base && ReadDigits(init, base).Some? && DigitValue(last) < base {
        ScaleStep(base, PowerOf(base, |init|), DigitValue(c), ReadDigits(init, base).value, DigitValue(last));
      }
    }
  }

  /** White space and line terminators. */
  lemma SpacesAre(c: char)
    ensures IsSpace(c) <==>
      c in "\t\n\r \U{000B}\U{000C}\U{00A0}\U{FEFF}\U{1680}\U{2000}\U{2001}\U{2002}\U{2003}\U{2004}\U{2005}\U{2006}\U{2007}\U{2008}\U{2009}\U{200A}\U{2028}\U{2029}\U{202F}\U{205F}\U{3000}"
  {
  }

  predicate AllSpace(s: string) { forall i :: 0 <= i < |s| ==> IsSpace(s[i]) }

  /** Neither end is white space. */
  predicate Trimmed(t: string) { t != "" ==> !IsSpace(t[0]) && !IsSpace(t[|t| - 1]) }

  lemma {:induction false} TrimStartIs(before: string, t: string)
    requires AllSpace(before) && (t != "" ==> !IsSpace(t[0]))
    ensures TrimStart(before + t) == t
  {
    if before == "" {
      assert before + t == t;
    } else {
      TrimStartIs(before[1..], t);
      assert (before + t)[1..] == before[1..] + t;
    }
  }

  lemma {:induction false} TrimEndIs(t: string, after: string)
    requires AllSpace(after) && (t != "" ==> !IsSpace(t[|t| - 1]))
    ensures TrimEnd(t + after) == t
  {
    if after == "" {
      assert t + after == t;
    } else {
      var init := after[..|after| - 1];
      TrimEndIs(t, init);
      assert (t + after)[..|t + after| - 1] == t + init;
    }
  }

  /** White space around a text does not matter, and white space alone reads as
      0. */
  lemma ReadTrims(before: string, t: string, after: string)
    requires AllSpace(before) && AllSpace(after) && Trimmed(t)
    ensures TrimEnd(TrimStart(before + (t + after))) == t
    ensures Read(before + (t + after)) == Read(t)
  {
    TrimBoth(before, t, after);
    TrimBoth("", t, "");
    assert "" + (t + "") == t;
  }

  lemma TrimBoth(before: string, t: string, after: string)
    requires AllSpace(before) && AllSpace(after) && Trimmed(t)
    ensures TrimEnd(TrimStart(before + (t + after))) == t
  {
    if t == "" {
      AllTrimmed(before + (t + after));
    } else {
      TrimStartIs(before, t + after);
      TrimEndIs(t, after);
    }
  }

  lemma AllTrimmed(s: string)
    requires AllSpace(s)
    ensures TrimEnd(TrimStart(s)) == ""
  {
    TrimStartIs(s, "");
    assert s + "" == s;
  }

  /** A trimmed text by its first characters: a base prefix needs digits of that
      base after it, a sign needs decimal digits, and no sign precedes a prefix. */
  lemma ReadForms(t: string)
    ensures Trimmed(t) ==> Read(t) == ReadTrimmed(t)
    ensures t == "" ==> ReadTrimmed(t) == Some(0)
    ensures |t| >= 2 && t[0] == '0' && (t[1] == 'x' || t[1] == 'X') ==> ReadTrimmed(t) == AfterPrefix(t, 16)
    ensures |t| >= 2 && t[0] == '0' && (t[1] == 'o' || t[1] == 'O') ==> ReadTrimmed(t) == AfterPrefix(t, 8)
    ensures |t| >= 2 && t[0] == '0' && (t[1] == 'b' || t[1] == 'B') ==> ReadTrimmed(t) == AfterPrefix(t, 2)
    ensures t == "+" || t == "-" ==> ReadTrimmed(t).None?
    ensures |t| >= 2 && t[0] == '+' ==> ReadTrimmed(t) == Kept(ReadDigits(t[1..], 10))
    ensures |t| >= 2 && t[0] == '-' ==> ReadTrimmed(t) == Negated(ReadDigits(t[1..], 10))
    ensures t != "" && t[0] !in "+-" && !(|t| >= 2 && t[0] == '0' && t[1] in "xXoObB") ==> ReadTrimmed(t) == Kept(ReadDigits(t, 10))
  {
    if Trimmed(t) {
      TrimmedReads(t);
    }
  }

  lemma TrimmedReads(t: string)
    requires Trimmed(t)
    ensures Read(t) == ReadTrimmed(t)
  {
    TrimBoth("", t, "");
    assert "" + (t + "") == t;
  }

  function AfterPrefix(t: string, base: nat): Option<int>
    requires |t| >= 2
  {
    if |t| == 2 then None else Kept(ReadDigits(t[2..], base))
  }
}
