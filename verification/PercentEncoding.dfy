/** Percent-encoding with no extra safe characters (sections 2.1 and 2.3 of RFC 3986). */
module PercentEncoding {
  import opened Wrappers
  import opened Text
  import opened Utf8

  predicate Unreserved(c: char) {
    'a' <= c <= 'z' || 'A' <= c <= 'Z' || '0' <= c <= '9' || c == '_' || c == '.' || c == '-' || c == '~'
  }

  function QuoteByte(b: byte): (s: string)
  {
    if Unreserved(b as int as char) then [b as int as char]
    else ['%', UpperHex(b as int / 16), UpperHex(b as int % 16)]
  }

  function QuoteBytes(bs: seq<byte>): string {
    if bs == [] then "" else QuoteByte(bs[0]) + QuoteBytes(bs[1..])
  }

  function Quote(s: string): string { QuoteBytes(Encode(s)) }

  predicate Ascii(s: string) { forall i :: 0 <= i < |s| ==> s[i] as int < 0x80 }

  /** Replaces every % followed by two hexadecimal digits; any other % stands for itself. */
  function UnquoteToBytes(s: string): seq<byte>
    requires Ascii(s)
  {
    if s == "" then []
    else if s[0] == '%' && |s| >= 3 && HexValue(s[1]).Some? && HexValue(s[2]).Some? then
      [(16 * HexValue(s[1]).value + HexValue(s[2]).value) as byte] + UnquoteToBytes(s[3..])
    else [s[0] as int as byte] + UnquoteToBytes(s[1..])
  }

  function AsciiPrefix(s: string): (n: nat)
    ensures n <= |s| && Ascii(s[..n])
    ensures n == |s| || s[n] as int >= 0x80
  {
    if s == "" || s[0] as int >= 0x80 then 0 else 1 + AsciiPrefix(s[1..])
  }

  /** Runs of ASCII characters are unquoted to bytes and decoded; other characters are kept. */
  function UnquoteParts(s: string): string
    decreases |s|
  {
    if s == "" then ""
    else
      var n := AsciiPrefix(s);
      if n == 0 then [s[0]] + UnquoteParts(s[1..])
      else Decode(UnquoteToBytes(s[..n])) + UnquoteParts(s[n..])
  }

  function Unquote(s: string): string { if '%' !in s then s else UnquoteParts(s) }

  // ---- Laws ----------------------------------------------------------------------------

  predicate Quoted(c: char) { Unreserved(c) || c == '%' }

  lemma {:induction false} QuoteBytesQuoted(bs: seq<byte>)
    ensures forall i :: 0 <= i < |QuoteBytes(bs)| ==> Quoted(QuoteBytes(bs)[i])
  {
    if bs != [] { QuoteBytesQuoted(bs[1..]); }
  }

  lemma UnquoteQuotedByte(b: byte, rest: string)
    requires Ascii(rest)
    ensures Ascii(QuoteByte(b) + rest) && UnquoteToBytes(QuoteByte(b) + rest) == [b] + UnquoteToBytes(rest)
  {
    var s := QuoteByte(b) + rest;
    if Unreserved(b as int as char) {
      assert s[1..] == rest;
    } else {
      assert s[3..] == rest && s[1] == UpperHex(b as int / 16) && s[2] == UpperHex(b as int % 16);
    }
  }

  /** Quoted bytes come back, whatever ASCII text follows. */
  lemma {:induction false} UnquoteQuotedBytes(bs: seq<byte>, rest: string)
    requires Ascii(rest)
    ensures Ascii(QuoteBytes(bs) + rest) && UnquoteToBytes(QuoteBytes(bs) + rest) == bs + UnquoteToBytes(rest)
  {
    hide QuoteByte, UnquoteToBytes;
    if bs == [] {
      assert QuoteBytes(bs) + rest == rest;
    } else {
      UnquoteQuotedBytes(bs[1..], rest);
      UnquoteQuotedByte(bs[0], QuoteBytes(bs[1..]) + rest);
      assert QuoteBytes(bs) + rest == QuoteByte(bs[0]) + (QuoteBytes(bs[1..]) + rest);
    }
  }

  lemma {:induction false} PlainDecodes(s: string)
    requires Ascii(s) && '%' !in s
    ensures Decode(UnquoteToBytes(s)) == s
  {
    if s != "" {
      PlainDecodes(s[1..]);
      var b := UnquoteToBytes(s);
      assert b == [s[0] as int as byte] + UnquoteToBytes(s[1..]);
      assert b[1..] == UnquoteToBytes(s[1..]);
    }
  }

  /** On ASCII text unquoting is: to bytes, then decode. */
  lemma UnquoteAscii(s: string)
    requires Ascii(s)
    ensures Unquote(s) == Decode(UnquoteToBytes(s))
  {
    if '%' !in s {
      PlainDecodes(s);
    } else {
      var n := AsciiPrefix(s);
      assert n == |s| && n > 0 && s[..n] == s && s[n..] == "";
      assert UnquoteParts(s) == Decode(UnquoteToBytes(s[..n])) + UnquoteParts(s[n..]);
    }
  }

  /** Unquoting undoes quoting, for every string. */
  lemma UnquoteQuote(s: string)
    ensures Unquote(Quote(s)) == s
  {
    UnquoteQuotedBytes(Encode(s), "");
    assert Quote(s) + "" == Quote(s);
    UnquoteAscii(Quote(s));
    DecodeEncode(s, []);
    assert Encode(s) + [] == Encode(s);
  }
}
