/** UTF-8 validity and white space against the code points the bytes stand for. */
module Utf8Laws {
  import opened Basics
  import opened Numerals

  /** A Unicode scalar value: a code point that is no surrogate. */
  predicate IsScalar(cp: nat) {
    cp < 0xD800 || 0xDFFF < cp <= 0x10FFFF
  }

  function Byte(n: nat): char
    requires n < 256
  {
    n as char
  }

  /** The bytes of a code point (section 3 of RFC 3629). */
  function Encode(cp: nat): Bytes
    requires IsScalar(cp)
  {
    if cp < 0x80 then [Byte(cp)]
    else if cp < 0x800 then [Byte(0xC0 + cp / 64), Byte(0x80 + cp % 64)]
    else if cp < 0x10000 then [Byte(0xE0 + cp / 4096), Byte(0x80 + cp / 64 % 64), Byte(0x80 + cp % 64)]
    else [Byte(0xF0 + cp / 262144), Byte(0x80 + cp / 4096 % 64), Byte(0x80 + cp / 64 % 64), Byte(0x80 + cp % 64)]
  }

  ghost predicate AllScalars(cps: seq<nat>) {
    forall i :: 0 <= i < |cps| ==> IsScalar(cps[i])
  }

  function EncodeAll(cps: seq<nat>): Bytes
    requires AllScalars(cps)
  {
    if cps == [] then "" else Encode(cps[0]) + EncodeAll(cps[1..])
  }

  lemma EncodedHead(cp: nat, rest: Bytes)
    requires IsScalar(cp)
    ensures Utf8Head(Encode(cp) + rest) == |Encode(cp)|
  {
    var e := Encode(cp);
    var s := e + rest;
    assert forall k :: 0 <= k < |e| ==> s[k] == e[k];
  }

  lemma TwoBytes(a: nat, b: nat) returns (cp: nat)
    requires 0xC2 <= a <= 0xDF && 0x80 <= b <= 0xBF
    ensures IsScalar(cp) && Encode(cp) == [Byte(a), Byte(b)]
  {
    cp := (a - 0xC0) * 64 + (b - 0x80);
    assert cp / 64 == a - 0xC0 && cp % 64 == b - 0x80;
  }

  lemma ThreeBytes(a: nat, b: nat, c: nat) returns (cp: nat)
    requires 0xE0 <= a <= 0xEF && 0x80 <= b <= 0xBF && 0x80 <= c <= 0xBF && (a == 0xE0 ==> b >= 0xA0) && (a == 0xED ==> b <= 0x9F)
    ensures IsScalar(cp) && Encode(cp) == [Byte(a), Byte(b), Byte(c)]
  {
    var high := (a - 0xE0) * 64 + (b - 0x80);
    cp := high * 64 + (c - 0x80);
    assert cp / 64 == high && cp % 64 == c - 0x80;
    assert high / 64 == a - 0xE0 && high % 64 == b - 0x80;
    assert cp / 4096 == high / 64;
  }

  lemma FourBytes(a: nat, b: nat, c: nat, d: nat) returns (cp: nat)
    requires 0xF0 <= a <= 0xF4 && 0x80 <= b <= 0xBF && 0x80 <= c <= 0xBF && 0x80 <= d <= 0xBF
    requires (a == 0xF0 ==> b >= 0x90) && (a == 0xF4 ==> b <= 0x8F)
    ensures IsScalar(cp) && Encode(cp) == [Byte(a), Byte(b), Byte(c), Byte(d)]
  {
    var top := (a - 0xF0) * 64 + (b - 0x80);
    var high := top * 64 + (c - 0x80);
    cp := high * 64 + (d - 0x80);
    assert cp / 64 == high && cp % 64 == d - 0x80;
    assert high / 64 == top && high % 64 == c - 0x80;
    assert top / 64 == a - 0xF0 && top % 64 == b - 0x80;
    assert cp / 4096 == top && cp / 262144 == top / 64;
  }

  /** Every well-formed head stands for a code point. */
  lemma HeadIsEncoded(s: Bytes) returns (cp: nat)
    requires Utf8Head(s) > 0
    ensures IsScalar(cp) && s[..Utf8Head(s)] == Encode(cp)
  {
    var n := Utf8Head(s);
    if n == 1 {
      cp := s[0] as int;
    } else {
      hide Encode, IsScalar;
      if n == 2 {
        cp := TwoBytes(s[0] as int, s[1] as int);
        assert s[..2] == [s[0], s[1]];
      } else if n == 3 {
        cp := ThreeBytes(s[0] as int, s[1] as int, s[2] as int);
        assert s[..3] == [s[0], s[1], s[2]];
      } else {
        cp := FourBytes(s[0] as int, s[1] as int, s[2] as int, s[3] as int);
        assert s[..4] == [s[0], s[1], s[2], s[3]];
      }
    }
  }

  lemma {:induction false} EncodedIsValid(cps: seq<nat>)
    requires AllScalars(cps)
    ensures ValidUtf8(EncodeAll(cps))
  {
    hide Encode, Utf8Head;
    if cps != [] {
      var e, rest := Encode(cps[0]), EncodeAll(cps[1..]);
      EncodedIsValid(cps[1..]);
      EncodedHead(cps[0], rest);
      EncodeIsNotEmpty(cps[0]);
      assert (e + rest)[|e|..] == rest;
    }
  }

  lemma EncodeIsNotEmpty(cp: nat)
    requires IsScalar(cp)
    ensures Encode(cp) != ""
  { }

  lemma {:induction false} ValidIsEncoded(s: Bytes) returns (cps: seq<nat>)
    requires ValidUtf8(s)
    ensures AllScalars(cps) && EncodeAll(cps) == s
    decreases |s|
  {
    hide Encode, Utf8Head;
    if s == "" {
      cps := [];
    } else {
      var n := Utf8Head(s);
      var cp := HeadIsEncoded(s);
      var rest := ValidIsEncoded(s[n..]);
      cps := [cp] + rest;
      assert cps[1..] == rest && s == s[..n] + s[n..];
    }
  }

  /** Bytes are valid UTF-8 exactly when they encode some scalar values. */
  lemma ValidUtf8Iff(s: Bytes)
    ensures ValidUtf8(s) <==> exists cps :: AllScalars(cps) && EncodeAll(cps) == s
  {
    if ValidUtf8(s) {
      var cps := ValidIsEncoded(s);
    }
    if cps :| AllScalars(cps) && EncodeAll(cps) == s {
      EncodedIsValid(cps);
    }
  }

  /** The code points with the White_Space property. */
  predicate IsWhiteSpace(cp: nat) {
    || 0x09 <= cp <= 0x0D || cp == 0x20 || cp == 0x85 || cp == 0xA0 || cp == 0x1680 || 0x2000 <= cp <= 0x200A
    || cp == 0x2028 || cp == 0x2029 || cp == 0x202F || cp == 0x205F || cp == 0x3000
  }

  /** Trimming from the front takes a whole code point exactly when it is white space. */
  lemma SpaceHeadIff(cp: nat, rest: Bytes)
    requires IsScalar(cp)
    ensures SpaceHead(Encode(cp) + rest) == if IsWhiteSpace(cp) then |Encode(cp)| else 0
  {
    var e := Encode(cp);
    var s := e + rest;
    assert forall k :: 0 <= k < |e| ==> s[k] == e[k];
    assert |e| == 3 ==> s[..3] == e;
    assert |s| >= 3 ==> s[..3][0] == s[0] && s[..3][1] == s[1] && s[..3][2] == s[2];
  }

  lemma TrimStartStep(cp: nat, rest: Bytes)
    requires IsScalar(cp)
    ensures TrimStart(Encode(cp) + rest) == if IsWhiteSpace(cp) then TrimStart(rest) else Encode(cp) + rest
  {
    hide Encode, SpaceHead;
    SpaceHeadIff(cp, rest);
    EncodeIsNotEmpty(cp);
    var e := Encode(cp);
    assert (e + rest)[|e|..] == rest;
  }

  /** Trimming from the back likewise, whatever stands in front. */
  lemma SpaceTailIff(front: Bytes, cp: nat)
    requires IsScalar(cp)
    ensures SpaceTail(front + Encode(cp)) == if IsWhiteSpace(cp) then |Encode(cp)| else 0
  {
    var e := Encode(cp);
    var s := front + e;
    SpaceHeadIff(cp, "");
    EncodedBytes(cp);
    assert e + "" == e && s[|s| - |e|..] == e;
    TailDecides(s, e, IsWhiteSpace(cp));
    hide *;
  }

  /** The bytes at the end decide, whatever stands in front. */
  lemma TailDecides(s: Bytes, e: Bytes, white: bool)
    requires 1 <= |e| <= 4 && |e| <= |s| && s[|s| - |e|..] == e
    requires |e| == 1 ==> (e[0] as int) < 0x80
    requires |e| > 1 ==> e[0] as int >= 0xC2
    requires forall i :: 1 <= i < |e| ==> 0x80 <= e[i] as int <= 0xBF
    requires SpaceHead(e) == if white then |e| else 0
    requires |e| == 4 ==> !white
    ensures SpaceTail(s) == if white then |e| else 0
  {
    hide SpaceHead, SpaceTail, WideSpace;
    TailHeads(s);
    assert s[|s| - 1] == e[|e| - 1];
    if |e| == 2 {
      assert s[|s| - 2] == e[0];
    } else if |e| > 2 {
      assert s[|s| - 2] == e[|e| - 2] && s[|s| - 3] == e[|e| - 3];
    }
  }

  /** The first byte of a longer encoding is large, and the others lie between 0x80 and 0xBF. */
  lemma EncodedBytes(cp: nat)
    requires IsScalar(cp)
    ensures var e := Encode(cp);
            && 1 <= |e| <= 4
            && (|e| == 1 <==> cp < 0x80) && (|e| == 1 ==> (e[0] as int) < 0x80)
            && (|e| > 1 ==> e[0] as int >= 0xC2)
            && (forall i :: 1 <= i < |e| ==> 0x80 <= e[i] as int <= 0xBF)
            && (|e| == 4 ==> !IsWhiteSpace(cp))
  { }

  /** What the three looks from the back can find, byte by byte. */
  lemma TailHeads(s: Bytes)
    ensures |s| >= 1 ==> (SpaceHead(s[|s| - 1..]) == 1 <==> 9 <= s[|s| - 1] as int <= 13 || s[|s| - 1] as int == 32)
    ensures |s| >= 2 && SpaceHead(s[|s| - 2..]) == 2 ==> s[|s| - 2] as int == 0xC2 && s[|s| - 1] as int >= 0x80
    ensures |s| >= 3 && SpaceHead(s[|s| - 3..]) == 3 ==>
              0xE1 <= s[|s| - 3] as int <= 0xE3 && 0x80 <= s[|s| - 2] as int <= 0x9A && s[|s| - 1] as int >= 0x80
    ensures SpaceTail(s)
         == if |s| >= 1 && SpaceHead(s[|s| - 1..]) == 1 then 1
            else if |s| >= 2 && SpaceHead(s[|s| - 2..]) == 2 then 2
            else if |s| >= 3 && SpaceHead(s[|s| - 3..]) == 3 then 3 else 0
  { }

  lemma TrimEndStep(front: Bytes, cp: nat)
    requires IsScalar(cp)
    ensures TrimEnd(front + Encode(cp)) == if IsWhiteSpace(cp) then TrimEnd(front) else front + Encode(cp)
  {
    hide Encode, SpaceTail;
    SpaceTailIff(front, cp);
    EncodeIsNotEmpty(cp);
    var e := Encode(cp);
    assert (front + e)[..|front|] == front;
  }

  /** All line ends at the end of a line go, in whatever number and order, and nothing else. */
  lemma {:induction false} ChompTakesAll(l: Bytes, ends: Bytes)
    requires l == "" || (l[|l| - 1] != '\r' && l[|l| - 1] != '\n')
    requires forall c :: c in ends ==> c == '\r' || c == '\n'
    ensures Chomp(l + ends) == l
  {
    if ends == "" {
      assert l + ends == l;
    } else {
      var front := ends[..|ends| - 1];
      assert ends[|ends| - 1] in ends && forall c :: c in front ==> c in ends;
      assert (l + ends)[..|l + ends| - 1] == l + front;
      ChompTakesAll(l, front);
    }
  }
}
