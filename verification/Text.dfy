/** Splitting and joining text, and printing and reading integers and hexadecimal digits. */
module Text {
  import opened Wrappers

  lemma Associates<T>(a: seq<T>, b: seq<T>, c: seq<T>)
    ensures (a + b) + c == a + (b + c)
  {
  }

  // ---- Split and join -------------------------------------------------------------------

  /** The pieces between separators; always at least one piece. */
  function Split(s: string, sep: char): (parts: seq<string>)
    ensures parts != []
  {
    if s == "" then [""] else Prepend(s[0], Split(s[1..], sep), sep)
  }

  function Join(parts: seq<string>, sep: char): string {
    if parts == [] then ""
    else if |parts| == 1 then parts[0]
    else parts[0] + [sep] + Join(parts[1..], sep)
  }

  ghost predicate AllFree(parts: seq<string>, sep: char) {
    forall i :: 0 <= i < |parts| ==> sep !in parts[i]
  }

  /** Puts one more character in front of split text. */
  function Prepend(c: char, parts: seq<string>, sep: char): seq<string>
    requires parts != []
  {
    if c == sep then [""] + parts else [[c] + parts[0]] + parts[1..]
  }

  lemma PrependConcat(c: char, r: seq<string>, t: seq<string>, sep: char)
    requires r != []
    ensures Prepend(c, r + t, sep) == Prepend(c, r, sep) + t
  {
  }

  lemma {:induction false} SplitConcat(x: string, y: string, sep: char)
    ensures Split(x + [sep] + y, sep) == Split(x, sep) + Split(y, sep)
  {
    hide Prepend;
    var s := x + [sep] + y;
    if x == "" {
      assert s[1..] == y;
      PrependSep(Split(y, sep), sep);
    } else {
      SplitConcat(x[1..], y, sep);
      assert s[0] == x[0] && s[1..] == x[1..] + [sep] + y;
      PrependConcat(x[0], Split(x[1..], sep), Split(y, sep), sep);
    }
  }

  lemma PrependSep(parts: seq<string>, sep: char)
    requires parts != []
    ensures Prepend(sep, parts, sep) == [""] + parts
  {
  }

  lemma {:induction false} SplitFree(s: string, sep: char)
    requires sep !in s
    ensures Split(s, sep) == [s]
  {
    if s != "" {
      SplitFree(s[1..], sep);
      assert [s[0]] + s[1..] == s;
    }
  }

  lemma {:induction false} SplitIsFree(s: string, sep: char)
    ensures AllFree(Split(s, sep), sep)
  {
    if s != "" { SplitIsFree(s[1..], sep); }
  }

  /** Splitting undoes joining exactly when no part holds the separator. */
  lemma {:induction false} SplitJoin(parts: seq<string>, sep: char)
    requires parts != []
    ensures Split(Join(parts, sep), sep) == parts <==> AllFree(parts, sep)
  {
    if AllFree(parts, sep) { SplitJoinFree(parts, sep); }
    SplitIsFree(Join(parts, sep), sep);
  }

  lemma {:induction false} SplitJoinFree(parts: seq<string>, sep: char)
    requires parts != [] && AllFree(parts, sep)
    ensures Split(Join(parts, sep), sep) == parts
  {
    SplitFree(parts[0], sep);
    if |parts| > 1 {
      SplitJoinFree(parts[1..], sep);
      SplitConcat(parts[0], Join(parts[1..], sep), sep);
    }
  }

  // ---- Cutting at the first occurrence -----------------------------------------------------

  /** What stands before and after the first sep, if there is one. */
  function Cut(s: string, sep: char): (r: Option<(string, string)>)
    ensures r.None? <==> sep !in s
    ensures r.Some? ==> s == r.value.0 + [sep] + r.value.1 && sep !in r.value.0
  {
    if s == "" then None
    else if s[0] == sep then Some(("", s[1..]))
    else
      match Cut(s[1..], sep)
      case None => None
      case Some((before, after)) => Some(([s[0]] + before, after))
  }

  lemma {:induction false} CutUnique(before: string, after: string, sep: char)
    requires sep !in before
    ensures Cut(before + [sep] + after, sep) == Some((before, after))
  {
    var s := before + [sep] + after;
    if before != "" {
      CutUnique(before[1..], after, sep);
      assert s[1..] == before[1..] + [sep] + after;
      assert [before[0]] + before[1..] == before;
    }
  }

  // ---- Decimal integers ---------------------------------------------------------------------

  predicate IsDigit(c: char) { '0' <= c <= '9' }

  function DigitValue(c: char): nat
    requires IsDigit(c)
  {
    c as int - '0' as int
  }

  function PrintNat(n: nat): (s: string)
    ensures s != "" && forall i :: 0 <= i < |s| ==> IsDigit(s[i])
  {
    var digit := [('0' as int + n % 10) as char];
    if n < 10 then digit else PrintNat(n / 10) + digit
  }

  function PrintInt(n: int): string { if n < 0 then "-" + PrintNat(-n) else PrintNat(n) }

  predicate IsSpace(c: char) {
    c == ' ' || '\U{0009}' <= c <= '\U{000D}' || '\U{001C}' <= c <= '\U{001F}'
  }

  function StripLeft(s: string): string { if s != "" && IsSpace(s[0]) then StripLeft(s[1..]) else s }

  function StripRight(s: string): string
    decreases |s|
  {
    if s != "" && IsSpace(s[|s| - 1]) then StripRight(s[..|s| - 1]) else s
  }

  /** Digits, with single underscores allowed between them. */
  predicate IsNumeral(s: string) {
    && s != "" && IsDigit(s[0]) && IsDigit(s[|s| - 1])
    && (forall i :: 0 <= i < |s| ==> IsDigit(s[i]) || s[i] == '_')
    && (forall i :: 0 < i < |s| ==> s[i] != '_' || s[i - 1] != '_')
  }

  function NumeralValue(s: string): nat
    requires forall i :: 0 <= i < |s| ==> IsDigit(s[i]) || s[i] == '_'
  {
    if s == "" then 0
    else
      var n := |s| - 1;
      var before := NumeralValue(s[..n]);
      if s[n] == '_' then before else assert IsDigit(s[n]); 10 * before + DigitValue(s[n])
  }

  /** Reads an integer the way the host language does: blanks around it, a sign, underscores. */
  function ParseInt(s: string): Option<int> {
    var t := StripRight(StripLeft(s));
    var signed := t != "" && (t[0] == '-' || t[0] == '+');
    var u := if signed then t[1..] else t;
    if !IsNumeral(u) then None
    else
      var value: int := NumeralValue(u);
      Some(if signed && t[0] == '-' then -value else value)
  }

  lemma {:induction false} PrintedNat(n: nat)
    ensures IsNumeral(PrintNat(n)) && NumeralValue(PrintNat(n)) == n
  {
    var s := PrintNat(n);
    var digit := ('0' as int + n % 10) as char;
    if n >= 10 {
      PrintedNat(n / 10);
      assert s == PrintNat(n / 10) + [digit] && s[..|s| - 1] == PrintNat(n / 10);
    } else {
      assert s == [digit] && s[..0] == "";
    }
  }

  /** Reading a printed integer gives it back. */
  lemma PrintedInt(n: int)
    ensures ParseInt(PrintInt(n)) == Some(n) && forall i :: 0 <= i < |PrintInt(n)| ==>
        IsDigit(PrintInt(n)[i]) || PrintInt(n)[i] == '-'
  {
    hide NumeralValue, PrintNat;
    var m: nat := if n < 0 then -n else n;
    PrintedNat(m);
    var s := PrintInt(n);
    assert StripLeft(s) == s && StripRight(s) == s;
    if n < 0 { assert s[1..] == PrintNat(m); }
  }

  // ---- Hexadecimal ---------------------------------------------------------------------------

  function LowerHex(n: nat): (c: char)
    requires n < 16
  {
    if n < 10 then ('0' as int + n) as char else ('a' as int + n - 10) as char
  }

  function UpperHex(n: nat): (c: char)
    requires n < 16
  {
    if n < 10 then ('0' as int + n) as char else ('A' as int + n - 10) as char
  }

  function HexValue(c: char): (r: Option<nat>)
    ensures r.Some? ==> r.value < 16
  {
    if '0' <= c <= '9' then Some(c as int - '0' as int)
    else if 'a' <= c <= 'f' then Some(c as int - 'a' as int + 10)
    else if 'A' <= c <= 'F' then Some(c as int - 'A' as int + 10)
    else None
  }

  predicate IsLowerHex(c: char) { '0' <= c <= '9' || 'a' <= c <= 'f' }

  function Hex(bs: seq<byte>): (s: string)
    ensures |s| == 2 * |bs| && forall i :: 0 <= i < |s| ==> IsLowerHex(s[i])
  {
    if bs == [] then "" else [LowerHex(bs[0] as int / 16), LowerHex(bs[0] as int % 16)] + Hex(bs[1..])
  }

  function FromHex(s: string): (bs: seq<byte>)
    requires |s| % 2 == 0 && forall i :: 0 <= i < |s| ==> IsLowerHex(s[i])
    ensures |s| == 2 * |bs|
  {
    if s == "" then []
    else
      assert IsLowerHex(s[0]) && IsLowerHex(s[1]);
      [(16 * HexValue(s[0]).value + HexValue(s[1]).value) as byte] + FromHex(s[2..])
  }

  lemma {:induction false} FromHexHex(bs: seq<byte>)
    ensures FromHex(Hex(bs)) == bs
  {
    if bs != [] {
      FromHexHex(bs[1..]);
      assert Hex(bs)[2..] == Hex(bs[1..]);
    }
  }

  lemma {:induction false} HexFromHex(s: string)
    requires |s| % 2 == 0 && forall i :: 0 <= i < |s| ==> IsLowerHex(s[i])
    ensures Hex(FromHex(s)) == s
  {
    if s != "" {
      HexFromHex(s[2..]);
      HexPair(s[0], s[1]);
      assert FromHex(s)[1..] == FromHex(s[2..]);
      assert s == [s[0], s[1]] + s[2..];
    }
  }

  lemma HexPair(c: char, d: char)
    requires IsLowerHex(c) && IsLowerHex(d)
    ensures HexValue(c).Some? && HexValue(d).Some?
    ensures var n := 16 * HexValue(c).value + HexValue(d).value; LowerHex(n / 16) == c && LowerHex(n % 16) == d
  {
  }
}
