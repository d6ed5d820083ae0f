/** UTF-8, decoding with replacement of every maximal ill-formed part. */
module Utf8 {
  import opened Wrappers
  import opened Text

  const REPLACEMENT: char := '\U{FFFD}'

  function EncodeChar(c: char): (bs: seq<byte>)
    ensures 1 <= |bs| <= 4
  {
    var n := c as int;
    if n < 0x80 then [n as byte]
    else if n < 0x800 then [(0xC0 + n / 0x40) as byte, (0x80 + n % 0x40) as byte]
    else if n < 0x1_0000 then
      [(0xE0 + n / 0x1000) as byte, (0x80 + n / 0x40 % 0x40) as byte, (0x80 + n % 0x40) as byte]
    else
      [(0xF0 + n / 0x4_0000) as byte, (0x80 + n / 0x1000 % 0x40) as byte, (0x80 + n / 0x40 % 0x40) as byte,
          (0x80 + n % 0x40) as byte]
  }

  function Encode(s: string): seq<byte> {
    if s == "" then [] else EncodeChar(s[0]) + Encode(s[1..])
  }

  /** How many bytes a sequence with this lead byte has; 0 when no sequence starts so. */
  function Width(lead: byte): nat {
    if lead < 0x80 then 1
    else if 0xC2 <= lead < 0xE0 then 2
    else if 0xE0 <= lead < 0xF0 then 3
    else if 0xF0 <= lead <= 0xF4 then 4
    else 0
  }

  /** The second byte's range excludes overlong forms, surrogates and values past the last. */
  predicate SecondFits(b: seq<byte>)
    requires b != []
  {
    && 1 < |b|
    && (if b[0] == 0xE0 then 0xA0 else if b[0] == 0xF0 then 0x90 else 0x80) <= b[1]
    && b[1] <= (if b[0] == 0xED then 0x9F else if b[0] == 0xF4 then 0x8F else 0xBF)
  }

  predicate Continues(b: seq<byte>, i: nat) { i < |b| && 0x80 <= b[i] <= 0xBF }

  datatype Step = Step(c: char, used: nat)

  /** The first character of b and the bytes it takes. */
  function DecodeStep(b: seq<byte>): (r: Step)
    requires b != []
    ensures 1 <= r.used <= |b|
  {
    var w := Width(b[0]);
    var lead := b[0] as int;
    if w == 0 then Step(REPLACEMENT, 1)
    else if w == 1 then Step(lead as char, 1)
    else if !SecondFits(b) then Step(REPLACEMENT, 1)
    else
      var second := b[1] as int - 0x80;
      if w == 2 then Step(((lead - 0xC0) * 0x40 + second) as char, 2)
      else if !Continues(b, 2) then Step(REPLACEMENT, 2)
      else
        var third := b[2] as int - 0x80;
        if w == 3 then Step(((lead - 0xE0) * 0x1000 + second * 0x40 + third) as char, 3)
        else if !Continues(b, 3) then Step(REPLACEMENT, 3)
        else Step(((lead - 0xF0) * 0x4_0000 + second * 0x1000 + third * 0x40 + (b[3] as int - 0x80)) as char, 4)
  }

  function Decode(b: seq<byte>): string {
    if b == [] then "" else var r := DecodeStep(b); [r.c] + Decode(b[r.used..])
  }

  /** The digits of a number in base 64. */
  lemma Base64Digits(n: nat)
    ensures n == (n / 0x40) * 0x40 + n % 0x40
    ensures n / 0x1000 == n / 0x40 / 0x40 && n / 0x4_0000 == n / 0x40 / 0x40 / 0x40
  {
  }

  lemma ThreeDigits(n: nat)
    ensures n == (n / 0x1000) * 0x1000 + (n / 0x40 % 0x40) * 0x40 + n % 0x40
  {
    Base64Digits(n);
    Base64Digits(n / 0x40);
  }

  lemma FourDigits(n: nat)
    ensures n == (n / 0x4_0000) * 0x4_0000 + (n / 0x1000 % 0x40) * 0x1000 + (n / 0x40 % 0x40) * 0x40 + n % 0x40
  {
    Base64Digits(n);
    ThreeDigits(n / 0x40);
  }

  lemma DecodeThreeDigits(n: int, lead: int, second: int, third: int, b: seq<byte>)
    requires 0x800 <= n < 0x1_0000 && (n < 0xD800 || 0xE000 <= n) && |b| >= 3
    requires 0 <= lead && 0 <= second < 0x40 && 0 <= third < 0x40 && n == lead * 0x1000 + second * 0x40 + third
    requires b[0] as int == 0xE0 + lead && b[1] as int == 0x80 + second && b[2] as int == 0x80 + third
    ensures DecodeStep(b) == Step(n as char, 3)
  {
  }

  lemma DecodeFourDigits(n: int, lead: int, second: int, third: int, fourth: int, b: seq<byte>)
    requires 0x1_0000 <= n < 0x11_0000 && |b| >= 4
    requires 0 <= lead && 0 <= second < 0x40 && 0 <= third < 0x40 && 0 <= fourth < 0x40
    requires n == lead * 0x4_0000 + second * 0x1000 + third * 0x40 + fourth
    requires b[0] as int == 0xF0 + lead && b[1] as int == 0x80 + second
    requires b[2] as int == 0x80 + third && b[3] as int == 0x80 + fourth
    ensures DecodeStep(b) == Step(n as char, 4)
  {
  }

  lemma DecodeThreeBytes(n: int, b: seq<byte>)
    requires 0x800 <= n < 0x1_0000 && (n < 0xD800 || 0xE000 <= n) && |b| >= 3
    requires b[0] as int == 0xE0 + n / 0x1000 && b[1] as int == 0x80 + n / 0x40 % 0x40 && b[2] as int == 0x80 + n % 0x40
    ensures DecodeStep(b) == Step(n as char, 3)
  {
    hide DecodeStep;
    ThreeDigits(n);
    DecodeThreeDigits(n, n / 0x1000, n / 0x40 % 0x40, n % 0x40, b);
  }

  lemma DecodeFourBytes(n: int, b: seq<byte>)
    requires 0x1_0000 <= n < 0x11_0000 && |b| >= 4
    requires b[0] as int == 0xF0 + n / 0x4_0000 && b[1] as int == 0x80 + n / 0x1000 % 0x40
    requires b[2] as int == 0x80 + n / 0x40 % 0x40 && b[3] as int == 0x80 + n % 0x40
    ensures DecodeStep(b) == Step(n as char, 4)
  {
    hide DecodeStep;
    FourDigits(n);
    DecodeFourDigits(n, n / 0x4_0000, n / 0x1000 % 0x40, n / 0x40 % 0x40, n % 0x40, b);
  }

  lemma DecodeTwoBytes(n: int, b: seq<byte>)
    requires n < 0x800 && |b| >= 2 && n >= 0x80
    requires b[0] as int == 0xC0 + n / 0x40 && b[1] as int == 0x80 + n % 0x40
    ensures DecodeStep(b) == Step(n as char, 2)
  {
  }

  /** An encoded character decodes to itself, whatever follows. */
  lemma DecodeEncodedChar(c: char, rest: seq<byte>)
    ensures DecodeStep(EncodeChar(c) + rest) == Step(c, |EncodeChar(c)|)
  {
    var n := c as int;
    var b := EncodeChar(c) + rest;
    if n < 0x80 {
      assert b[0] as int == n;
    } else {
      hide DecodeStep;
      if n < 0x800 { DecodeTwoBytes(n, b); }
      else if n < 0x1_0000 { DecodeThreeBytes(n, b); }
      else { DecodeFourBytes(n, b); }
    }
  }

  lemma {:induction false} DecodeEncode(s: string, rest: seq<byte>)
    ensures Decode(Encode(s) + rest) == s + Decode(rest)
  {
    hide DecodeStep, EncodeChar;
    if s == "" {
      assert Encode(s) + rest == rest;
    } else {
      var first, tail := EncodeChar(s[0]), Encode(s[1..]) + rest;
      assert Encode(s) + rest == first + tail;
      DecodeEncodedChar(s[0], tail);
      assert (first + tail)[|first|..] == tail;
      DecodeEncode(s[1..], rest);
    }
  }

  lemma {:induction false} EncodeConcat(s: string, t: string)
    ensures Encode(s + t) == Encode(s) + Encode(t)
  {
    hide EncodeChar;
    if s == "" {
      assert s + t == t;
    } else {
      EncodeConcat(s[1..], t);
      assert (s + t)[0] == s[0] && (s + t)[1..] == s[1..] + t;
      Associates(EncodeChar(s[0]), Encode(s[1..]), Encode(t));
    }
  }
}
