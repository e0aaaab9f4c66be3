/**
 Byte strings and the unsigned-integer parsing of Rust's standard library.
 A byte string is a `string` holding one character per byte.
 */
module Numerals {
  import opened Basics

  type Bytes = string

  const USIZE_MAX := 0xFFFF_FFFF_FFFF_FFFF
  const ISIZE_MAX := 0x7FFF_FFFF_FFFF_FFFF

  /** The value of a digit, in any radix up to sixteen. */
  function DigitValue(c: char): Option<nat> {
    if '0' <= c <= '9' then Some(c as int - '0' as int)
    else if 'a' <= c <= 'f' then Some(c as int - 'a' as int + 10)
    else if 'A' <= c <= 'F' then Some(c as int - 'A' as int + 10)
    else None
  }

  predicate AllDigits(s: Bytes, radix: nat) {
    forall c :: c in s ==> match DigitValue(c) { case Some(d) => d < radix case None => false }
  }

  function Value(s: Bytes, radix: nat): nat
    requires AllDigits(s, radix)
  {
    if s == "" then 0 else Value(s[..|s| - 1], radix) * radix + DigitValue(s[|s| - 1]).value
  }

  /** An optional plus sign, then at least one digit, no more than `max`. */
  function ParseNat(s: Bytes, radix: nat, max: nat): (r: Option<nat>)
    ensures r.Some? ==> r.value <= max
  {
    var digits := if s != "" && s[0] == '+' then s[1..] else s;
    if digits == "" || !AllDigits(digits, radix) then None
    else var v := Value(digits, radix); if v > max then None else Some(v)
  }

  function PrintDigit(d: nat): char
    requires d < 16
  {
    if d < 10 then ('0' as int + d) as char else ('a' as int + d - 10) as char
  }

  function PrintNat(n: nat, radix: nat): Bytes
    requires 2 <= radix <= 16
  {
    if n < radix then [PrintDigit(n)] else PrintNat(n / radix, radix) + [PrintDigit(n % radix)]
  }

  lemma PrintDigitValue(d: nat)
    requires d < 16
    ensures DigitValue(PrintDigit(d)) == Some(d)
    ensures PrintDigit(d) != '+' && (PrintDigit(d) as int) < 128
  {
  }

  lemma DivMod(n: nat, radix: nat)
    requires radix > 0
    ensures n / radix * radix + n % radix == n
  {
  }

  lemma AppendDigit(front: Bytes, d: nat, radix: nat)
    requires AllDigits(front, radix) && d < radix <= 16
    ensures var s := front + [PrintDigit(d)];
            AllDigits(s, radix) && Value(s, radix) == Value(front, radix) * radix + d
  {
    var s := front + [PrintDigit(d)];
    PrintDigitValue(d);
    assert s[..|s| - 1] == front;
  }

  lemma {:induction false} PrintNatDigits(n: nat, radix: nat)
    requires 2 <= radix <= 16
    ensures var s := PrintNat(n, radix);
            s != "" && AllDigits(s, radix) && Value(s, radix) == n
  {
    hide AllDigits, Value, PrintDigit;
    if n < radix {
      EmptyValue(radix);
      AppendDigit("", n, radix);
      assert PrintNat(n, radix) == "" + [PrintDigit(n)];
    } else {
      PrintNatDigits(n / radix, radix);
      AppendDigit(PrintNat(n / radix, radix), n % radix, radix);
      DivMod(n, radix);
    }
  }

  lemma EmptyValue(radix: nat)
    ensures AllDigits("", radix) && Value("", radix) * radix == 0
  {
  }

  /** Printing then parsing a number that fits gives it back. */
  lemma ParsePrinted(n: nat, radix: nat, max: nat)
    requires 2 <= radix <= 16 && n <= max
    ensures ParseNat(PrintNat(n, radix), radix, max) == Some(n)
  {
    PrintNatDigits(n, radix);
    assert DigitValue('+') == None;
    var s := PrintNat(n, radix);
    assert s[0] in s;
  }

  const LowerDigits: Bytes := "0123456789abcdef"
  const UpperDigits: Bytes := "0123456789ABCDEF"

  lemma DigitAt(d: nat)
    requires d < 16
    ensures LowerDigits[d] == (if d < 10 then ('0' as int + d) as char else ('a' as int + d - 10) as char)
    ensures UpperDigits[d] == (if d < 10 then ('0' as int + d) as char else ('A' as int + d - 10) as char)
  {
    match d
    case 0 =>
    case 1 =>
    case 2 =>
    case 3 =>
    case 4 =>
    case 5 =>
    case 6 =>
    case 7 =>
    case 8 =>
    case 9 =>
    case 10 =>
    case 11 =>
    case 12 =>
    case 13 =>
    case 14 =>
    case _ => assert d == 15;
  }

  /** The sixteen digits, letters of either case, and no other character. */
  lemma DigitTable(c: char, d: nat)
    ensures DigitValue(c) == Some(d) <==> d < 16 && (c == LowerDigits[d] || c == UpperDigits[d])
    ensures d < 16 ==> PrintDigit(d) == LowerDigits[d]
  {
    if d < 16 {
      DigitAt(d);
    }
  }

  lemma {:induction false} LeadingZero(s: Bytes, radix: nat)
    requires radix >= 2 && AllDigits(s, radix)
    ensures AllDigits("0" + s, radix) && Value("0" + s, radix) == Value(s, radix)
  {
    var t := "0" + s;
    assert forall c :: c in t ==> c == '0' || c in s;
    if s == "" {
      assert t[..|t| - 1] == "" && Value("", radix) == 0;
    } else {
      assert t[..|t| - 1] == "0" + s[..|s| - 1] && forall c :: c in s[..|s| - 1] ==> c in s;
      LeadingZero(s[..|s| - 1], radix);
    }
  }

  /** A sign in front changes nothing, nor do zeros; what is no numeral or too large is refused. */
  lemma ParseNatForms(s: Bytes, radix: nat, max: nat)
    requires 2 <= radix <= 16
    ensures s != "" && s[0] != '+' ==> ParseNat("+" + s, radix, max) == ParseNat(s, radix, max)
    ensures s != "" && s[0] != '+' ==> ParseNat("0" + s, radix, max) == ParseNat(s, radix, max)
    ensures ParseNat("", radix, max) == None && ParseNat("+", radix, max) == None
    ensures ParseNat(s, radix, max).Some? ==> forall i :: 0 < i < |s| ==> DigitValue(s[i]).Some?
  {
    assert ParseNat(s, radix, max).Some? && s[0] == '+' ==> forall i :: 0 < i < |s| ==> s[i] == s[1..][i - 1];
    assert ("+" + s)[1..] == s && "+"[1..] == "";
    if s != "" && s[0] != '+' {
      var t := "0" + s;
      assert forall c :: c in s ==> c in t by {
        forall c | c in s ensures c in t {
          var i :| 0 <= i < |s| && s[i] == c;
          assert t[i + 1] == c;
        }
      }
      if AllDigits(s, radix) {
        LeadingZero(s, radix);
      }
    }
  }

  lemma TooLargeIsRefused(n: nat, radix: nat, max: nat)
    requires 2 <= radix <= 16 && n > max
    ensures ParseNat(PrintNat(n, radix), radix, max) == None
  {
    PrintNatDigits(n, radix);
    assert DigitValue('+') == None;
    var s := PrintNat(n, radix);
    assert s[0] in s;
  }

  // ----- Searching -----

  function Find(s: Bytes, c: char): (r: Option<nat>)
    ensures r.Some? ==> r.value < |s| && s[r.value] == c && c !in s[..r.value]
    ensures r.None? ==> c !in s
  {
    if s == "" then None
    else if s[0] == c then Some(0)
    else
      match Find(s[1..], c)
      case None => None
      case Some(i) =>
        assert s[..i + 1] == [s[0]] + s[1..][..i];
        Some(i + 1)
  }

  lemma FindFirst(a: Bytes, c: char, b: Bytes)
    requires c !in a
    ensures Find(a + [c] + b, c) == Some(|a|)
  {
    var s := a + [c] + b;
    assert s[|a|] == c;
    assert forall k :: 0 <= k < |a| ==> s[k] == a[k] && a[k] in a;
    assert forall k :: |a| < k <= |s| ==> s[..k][|a|] == c;
  }

  /** What comes before the first `c`, or everything. */
  function Before(s: Bytes, c: char): Bytes {
    match Find(s, c)
    case None => s
    case Some(i) => s[..i]
  }

  lemma BeforeSplits(s: Bytes, c: char)
    ensures Before(s, c) <= s && c !in Before(s, c)
    ensures Before(s, c) == s || s[|Before(s, c)|] == c
  { }

  lemma BeforeWritten(a: Bytes, c: char, b: Bytes)
    requires c !in a
    ensures Before(a, c) == a
    ensures Before(a + [c] + b, c) == a
  {
    FindFirst(a, c, b);
    assert (a + [c] + b)[..|a|] == a;
    assert Find(a, c) == None;
  }

  // ----- Text -----

  predicate Continuation(c: char) {
    0x80 <= c as int <= 0xBF
  }

  /** The length of the first well-formed UTF-8 sequence of `s`, or 0. */
  function Utf8Head(s: Bytes): (n: nat)
    ensures n <= |s|
  {
    if s == "" then 0
    else
      var b := s[0] as int;
      if b < 0x80 then 1
      else if 0xC2 <= b <= 0xDF then if |s| >= 2 && Continuation(s[1]) then 2 else 0
      else if 0xE0 <= b <= 0xEF then
        if |s| >= 3 && Continuation(s[1]) && Continuation(s[2])
           && (b == 0xE0 ==> s[1] as int >= 0xA0) && (b == 0xED ==> s[1] as int <= 0x9F)
        then 3 else 0
      else if 0xF0 <= b <= 0xF4 then
        if |s| >= 4 && Continuation(s[1]) && Continuation(s[2]) && Continuation(s[3])
           && (b == 0xF0 ==> s[1] as int >= 0x90) && (b == 0xF4 ==> s[1] as int <= 0x8F)
        then 4 else 0
      else 0
  }

  predicate ValidUtf8(s: Bytes) {
    s == "" || (Utf8Head(s) > 0 && ValidUtf8(s[Utf8Head(s)..]))
  }

  lemma AsciiIsValid(s: Bytes)
    requires forall c :: c in s ==> (c as int) < 128
    ensures ValidUtf8(s)
  {
    if s != "" {
      assert s[0] in s && forall c :: c in s[1..] ==> c in s;
      AsciiIsValid(s[1..]);
    }
  }

  /** The length of the Unicode white-space character `s` starts with, or 0. */
  function SpaceHead(s: Bytes): (n: nat)
    ensures n <= |s|
  {
    if s == "" then 0
    else
      var b := s[0] as int;
      if 9 <= b <= 13 || b == 32 then 1
      else if |s| >= 2 && b == 0xC2 && (s[1] as int == 0x85 || s[1] as int == 0xA0) then 2
      else if |s| >= 3 && WideSpace(s[..3]) then 3
      else 0
  }

  predicate WideSpace(s: Bytes)
    requires |s| == 3
  {
    var a, b, c := s[0] as int, s[1] as int, s[2] as int;
    || (a == 0xE1 && b == 0x9A && c == 0x80)
    || (a == 0xE2 && b == 0x80 && (0x80 <= c <= 0x8A || c == 0xA8 || c == 0xA9 || c == 0xAF))
    || (a == 0xE2 && b == 0x81 && c == 0x9F)
    || (a == 0xE3 && b == 0x80 && c == 0x80)
  }

  function SpaceTail(s: Bytes): (n: nat)
    ensures n <= |s|
  {
    var k := |s|;
    if k >= 1 && SpaceHead(s[k - 1..]) == 1 then 1
    else if k >= 2 && SpaceHead(s[k - 2..]) == 2 then 2
    else if k >= 3 && SpaceHead(s[k - 3..]) == 3 then 3
    else 0
  }

  function TrimStart(s: Bytes): Bytes {
    if SpaceHead(s) > 0 then TrimStart(s[SpaceHead(s)..]) else s
  }

  function TrimEnd(s: Bytes): Bytes {
    if SpaceTail(s) > 0 then TrimEnd(s[..|s| - SpaceTail(s)]) else s
  }

  function Trim(s: Bytes): Bytes {
    TrimEnd(TrimStart(s))
  }

  predicate IsLineEnd(c: char) {
    c == '\r' || c == '\n'
  }

  /** Without its trailing carriage returns and line feeds. */
  function Chomp(s: Bytes): Bytes {
    if s != "" && IsLineEnd(s[|s| - 1]) then Chomp(s[..|s| - 1]) else s
  }

  function Lower(c: char): char {
    if 'A' <= c <= 'Z' then (c as int + 32) as char else c
  }

  predicate EqIgnoreCase(a: Bytes, b: Bytes) {
    |a| == |b| && forall i :: 0 <= i < |a| ==> Lower(a[i]) == Lower(b[i])
  }

  /** Printed numbers are ASCII without white space, so trimming leaves them alone. */
  lemma DigitsNeedNoTrim(s: Bytes)
    requires s != "" && forall c :: c in s ==> DigitValue(c).Some?
    ensures Trim(s) == s
  {
    forall k | 0 <= k < |s| ensures SpaceHead(s[k..]) == 0 {
      assert s[k] in s;
    }
    assert s[0..] == s;
    assert SpaceTail(s) == 0;
  }

  predicate IsAsciiSpace(c: char) {
    '\t' <= c <= '\r' || c == ' '
  }

  /** Trimming an ASCII text takes one leading space and stops at the text. */
  lemma TrimSpaced(s: Bytes)
    requires s != "" && (forall c :: c in s ==> (c as int) < 128) && !IsAsciiSpace(s[0]) && !IsAsciiSpace(s[|s| - 1])
    ensures Trim(s) == s && Trim(" " + s) == s
  {
    var t := " " + s;
    assert t[1..] == s && SpaceHead(t) == 1;
    forall k | 0 <= k < |s| ensures SpaceHead(s[k..]) <= 1 && (SpaceHead(s[k..]) == 1 <==> IsAsciiSpace(s[k])) {
      assert s[k] in s;
    }
    assert s[0..] == s;
    assert SpaceHead(s) == 0 && SpaceTail(s) == 0;
  }

  lemma DigitsAreAscii(s: Bytes, radix: nat)
    requires AllDigits(s, radix)
    ensures forall c :: c in s ==> DigitValue(c).Some? && (c as int) < 128
  {
  }

  lemma PrintedIsPlain(n: nat, radix: nat)
    requires 2 <= radix <= 16
    ensures forall c :: c in PrintNat(n, radix) ==> (c as int) < 128
    ensures Trim(PrintNat(n, radix)) == PrintNat(n, radix)
  {
    hide Trim, Value;
    PrintNatDigits(n, radix);
    DigitsAreAscii(PrintNat(n, radix), radix);
    DigitsNeedNoTrim(PrintNat(n, radix));
  }

  lemma {:induction false} ChompKeepsFront(a: Bytes, c: char, b: Bytes)
    requires !IsLineEnd(c)
    ensures exists k: nat :: k <= |b| && Chomp(a + [c] + b) == a + [c] + b[..k]
  {
    var s := a + [c] + b;
    if b == "" {
      assert Chomp(s) == a + [c] + b[..0];
    } else if IsLineEnd(b[|b| - 1]) {
      var front := b[..|b| - 1];
      assert s[..|s| - 1] == a + [c] + front;
      ChompKeepsFront(a, c, front);
      var k: nat :| k <= |front| && Chomp(a + [c] + front) == a + [c] + front[..k];
      assert b[..k] == front[..k];
    } else {
      assert Chomp(s) == a + [c] + b[..|b|] by { assert b[..|b|] == b; }
    }
  }
}
