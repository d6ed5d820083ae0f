/**
 * Magnet URIs: printing a link in canonical order and reading any URI back. Keys outside the
 * grammar, empty segments and segments without '=' are skipped.
 */
module Magnet {
  import opened Wrappers
  import opened Text
  import opened Utf8
  import opened PercentEncoding

  const SCHEME: string := "quinkgl:?"
  const XT_PREFIX: string := "urn:qgl:"

  datatype MagnetLink = MagnetLink(
    swarmId: seq<byte>,
    displayName: Option<string>,
    keywords: seq<string>,
    trackers: seq<string>,
    bootstrapPeers: seq<string>,
    protocolVersion: int)

  datatype MagnetError =
    | BadScheme
    | BadXt
    | Duplicate(param: string)
    | BadVersion

  type Field = (string, string)

  // ---- Reading ------------------------------------------------------------------------

  /** A segment is a field when it holds '='; the key ends at the first one. */
  function FieldOf(segment: string): seq<Field> {
    match Cut(segment, '=')
    case None => []
    case Some(field) => [field]
  }

  /** The key=value segments, in order. */
  function Fields(segments: seq<string>): seq<Field> {
    if segments == [] then []
    else Fields(segments[..|segments| - 1]) + FieldOf(segments[|segments| - 1])
  }

  function ValuesOf(fields: seq<Field>, key: string): seq<string> {
    if fields == [] then []
    else
      var n := |fields| - 1;
      if fields[n].0 == key then ValuesOf(fields[..n], key) + [fields[n].1] else ValuesOf(fields[..n], key)
  }

  function ParseXt(value: string): Result<seq<byte>, MagnetError> {
    if !(XT_PREFIX <= value) then Err(BadXt)
    else
      var hex := value[|XT_PREFIX|..];
      if |hex| != 64 || exists i :: 0 <= i < |hex| && !IsLowerHex(hex[i]) then Err(BadXt)
      else Ok(FromHex(hex))
  }

  function UnquoteAll(values: seq<string>): (r: seq<string>)
    ensures |r| == |values| && forall i :: 0 <= i < |r| ==> r[i] == Unquote(values[i])
  {
    seq(|values|, i requires 0 <= i < |values| => Unquote(values[i]))
  }

  function NonEmpty(parts: seq<string>): (r: seq<string>)
    ensures forall i :: 0 <= i < |r| ==> r[i] != "" && r[i] in parts
    ensures (forall i :: 0 <= i < |parts| ==> parts[i] != "") ==> r == parts
  {
    if parts == [] then []
    else
      var n := |parts| - 1;
      var before := NonEmpty(parts[..n]);
      assert parts == parts[..n] + [parts[n]];
      if parts[n] == "" then before else before + [parts[n]]
  }

  /** The values under the six known keys. */
  datatype Values = Values(xt: seq<string>, dn: seq<string>, kw: seq<string>, v: seq<string>, tr: seq<string>,
      bs: seq<string>)

  function Sort(fields: seq<Field>): Values {
    Values(ValuesOf(fields, "xt"), ValuesOf(fields, "dn"), ValuesOf(fields, "kw"), ValuesOf(fields, "v"),
        ValuesOf(fields, "tr"), ValuesOf(fields, "bs"))
  }

  function Assemble(f: Values): Result<MagnetLink, MagnetError> {
    if |f.xt| != 1 then Err(BadXt)
    else
      match ParseXt(f.xt[0])
      case Err(e) => Err(e)
      case Ok(id) =>
        if |f.dn| > 1 then Err(Duplicate("dn"))
        else if |f.kw| > 1 then Err(Duplicate("kw"))
        else if |f.v| > 1 then Err(Duplicate("v"))
        else
          var version := if f.v == [] then Some(1) else ParseInt(f.v[0]);
          if version.None? then Err(BadVersion)
          else
            Ok(MagnetLink(
              id,
              if f.dn == [] then None else Some(Unquote(f.dn[0])),
              if f.kw == [] then [] else NonEmpty(Split(Unquote(f.kw[0]), ',')),
              UnquoteAll(f.tr),
              UnquoteAll(f.bs),
              version.value))
  }

  function ParseQuery(query: string): Result<MagnetLink, MagnetError> {
    Assemble(Sort(Fields(Split(query, '&'))))
  }

  function Parse(uri: string): Result<MagnetLink, MagnetError> {
    if !(SCHEME <= uri) then Err(BadScheme) else ParseQuery(uri[|SCHEME|..])
  }

  // ---- Printing -------------------------------------------------------------------------

  function QuoteAll(values: seq<string>): (r: seq<string>)
    ensures |r| == |values| && forall i :: 0 <= i < |r| ==> r[i] == Quote(values[i])
  {
    seq(|values|, i requires 0 <= i < |values| => Quote(values[i]))
  }

  function Group(key: string, values: seq<string>): (fields: seq<Field>)
    ensures |fields| == |values| && forall i :: 0 <= i < |fields| ==> fields[i] == (key, values[i])
  {
    seq(|values|, i requires 0 <= i < |values| => (key, values[i]))
  }

  /** What a link prints under each key. */
  function Printed(link: MagnetLink): Values {
    Values(
      [XT_PREFIX + Hex(link.swarmId)],
      if link.displayName.None? then [] else [Quote(link.displayName.value)],
      if link.keywords == [] then [] else [Join(QuoteAll(link.keywords), ',')],
      if link.protocolVersion == 1 then [] else [PrintInt(link.protocolVersion)],
      QuoteAll(link.trackers),
      QuoteAll(link.bootstrapPeers))
  }

  /** The canonical order. */
  function InOrder(f: Values): seq<Field> {
    Group("xt", f.xt) + Group("dn", f.dn) + Group("kw", f.kw) + Group("v", f.v) + Group("tr", f.tr) + Group("bs", f.bs)
  }

  function Row(key: string, value: string): string { key + "=" + value }

  function Segments(fields: seq<Field>): (r: seq<string>)
    ensures |r| == |fields| && forall i :: 0 <= i < |r| ==> r[i] == Row(fields[i].0, fields[i].1)
  {
    seq(|fields|, i requires 0 <= i < |fields| => Row(fields[i].0, fields[i].1))
  }

  function Format(link: MagnetLink): Result<string, MagnetError> {
    if |link.swarmId| != 32 then Err(BadXt) else Ok(SCHEME + Join(Segments(InOrder(Printed(link))), '&'))
  }

  // ---- Structure of a printed link ----------------------------------------------------------

  lemma FieldsSnoc(s: seq<string>, last: string)
    ensures Fields(s + [last]) == Fields(s) + FieldOf(last)
  {
    hide FieldOf;
    assert (s + [last])[..|s|] == s;
  }

  lemma {:induction false} FieldsConcat(s: seq<string>, t: seq<string>)
    ensures Fields(s + t) == Fields(s) + Fields(t)
    decreases |t|
  {
    if t == [] {
      assert s + t == s;
    } else {
      hide Fields, FieldOf;
      var front, last := t[..|t| - 1], t[|t| - 1];
      FieldsConcat(s, front);
      FieldsSnoc(front, last);
      FieldsSnoc(s + front, last);
      Associates(s, front, [last]);
      Associates(Fields(s), Fields(front), FieldOf(last));
      assert t == front + [last];
    }
  }

  lemma {:induction false} ValuesConcat(s: seq<Field>, t: seq<Field>, key: string)
    ensures ValuesOf(s + t, key) == ValuesOf(s, key) + ValuesOf(t, key)
    decreases |t|
  {
    if t == [] {
      assert s + t == s;
    } else {
      var n := |t| - 1;
      ValuesConcat(s, t[..n], key);
      assert (s + t)[..|s| + n] == s + t[..n];
    }
  }

  lemma {:induction false} ValuesOfGroup(k: string, values: seq<string>, key: string)
    ensures ValuesOf(Group(k, values), key) == if k == key then values else []
  {
    if values != [] {
      var n := |values| - 1;
      ValuesOfGroup(k, values[..n], key);
      assert Group(k, values)[..n] == Group(k, values[..n]);
      assert values[..n] + [values[n]] == values;
    }
  }

  lemma ValuesInOrder(f: Values, key: string)
    ensures ValuesOf(InOrder(f), key) ==
            (if key == "xt" then f.xt else []) + (if key == "dn" then f.dn else []) + (if key == "kw" then f.kw else [])
            + (if key == "v" then f.v else []) + (if key == "tr" then f.tr else []) + (if key == "bs" then f.bs else [])
  {
    hide ValuesOf, Group;
    var a, b, c, d, e, g := Group("xt", f.xt), Group("dn", f.dn), Group("kw", f.kw), Group("v", f.v),
        Group("tr", f.tr), Group("bs", f.bs);
    ValuesConcat(a + b + c + d + e, g, key);
    ValuesConcat(a + b + c + d, e, key);
    ValuesConcat(a + b + c, d, key);
    ValuesConcat(a + b, c, key);
    ValuesConcat(a, b, key);
    ValuesOfGroup("xt", f.xt, key);
    ValuesOfGroup("dn", f.dn, key);
    ValuesOfGroup("kw", f.kw, key);
    ValuesOfGroup("v", f.v, key);
    ValuesOfGroup("tr", f.tr, key);
    ValuesOfGroup("bs", f.bs, key);
  }

  /** Sorting undoes ordering. */
  lemma SortInOrder(f: Values)
    ensures Sort(InOrder(f)) == f
  {
    hide InOrder, ValuesOf;
    ValuesInOrder(f, "xt");
    ValuesInOrder(f, "dn");
    ValuesInOrder(f, "kw");
    ValuesInOrder(f, "v");
    ValuesInOrder(f, "tr");
    ValuesInOrder(f, "bs");
  }

  lemma FieldOfRow(field: Field)
    requires '=' !in field.0
    ensures FieldOf(Row(field.0, field.1)) == [field]
  {
    CutUnique(field.0, field.1, '=');
  }

  lemma {:induction false} FieldsOfSegments(fields: seq<Field>)
    requires forall i :: 0 <= i < |fields| ==> '=' !in fields[i].0
    ensures Fields(Segments(fields)) == fields
  {
    if fields != [] {
      hide Fields, FieldOf, Row, Segments;
      var front, last := fields[..|fields| - 1], fields[|fields| - 1];
      FieldsOfSegments(front);
      FieldOfRow(last);
      SegmentsSnoc(front, last);
      FieldsSnoc(Segments(front), Row(last.0, last.1));
      assert fields == front + [last];
    }
  }

  lemma SegmentsSnoc(front: seq<Field>, last: Field)
    ensures Segments(front + [last]) == Segments(front) + [Row(last.0, last.1)]
  {
  }

  ghost predicate NoAmp(values: seq<string>) { AllFree(values, '&') }

  lemma QuoteIsPlain(s: string)
    ensures '&' !in Quote(s) && ',' !in Quote(s) && Ascii(Quote(s))
  {
    QuoteBytesQuoted(Encode(s));
  }

  lemma {:induction false} JoinHasNoAmp(parts: seq<string>, sep: char)
    requires NoAmp(parts) && sep != '&'
    ensures '&' !in Join(parts, sep)
  {
    if |parts| > 1 { JoinHasNoAmp(parts[1..], sep); }
  }

  lemma PrintedHasNoAmp(link: MagnetLink)
    ensures var f := Printed(link);
            NoAmp(f.xt) && NoAmp(f.dn) && NoAmp(f.kw) && NoAmp(f.v) && NoAmp(f.tr) && NoAmp(f.bs)
  {
    hide Quote, Join, ParseInt, PrintInt;
    forall s: string ensures '&' !in Quote(s) { QuoteIsPlain(s); }
    JoinHasNoAmp(QuoteAll(link.keywords), ',');
    PrintedInt(link.protocolVersion);
  }

  /** The fields of a printed link are what was printed. */
  lemma PrintedFields(link: MagnetLink)
    ensures Sort(Fields(Split(Join(Segments(InOrder(Printed(link))), '&'), '&'))) == Printed(link)
  {
    hide Sort, Fields, Split, Join, Printed, InOrder, Row;
    var f := Printed(link);
    var fields := InOrder(f);
    PrintedHasNoAmp(link);
    PrintsOneXt(link);
    InOrderIsClean(f);
    RowsAreClean(fields);
    SplitJoinFree(Segments(fields), '&');
    FieldsOfSegments(fields);
    SortInOrder(f);
  }

  ghost predicate CleanKeys(fields: seq<Field>) {
    forall i :: 0 <= i < |fields| ==> '=' !in fields[i].0 && '&' !in fields[i].0 && '&' !in fields[i].1
  }

  lemma GroupIsClean(key: string, values: seq<string>)
    requires NoAmp(values) && '=' !in key && '&' !in key
    ensures CleanKeys(Group(key, values))
  {
  }

  lemma CleanConcat(a: seq<Field>, b: seq<Field>)
    requires CleanKeys(a) && CleanKeys(b)
    ensures CleanKeys(a + b)
  {
  }

  lemma InOrderIsClean(f: Values)
    requires NoAmp(f.xt) && NoAmp(f.dn) && NoAmp(f.kw) && NoAmp(f.v) && NoAmp(f.tr) && NoAmp(f.bs)
    ensures CleanKeys(InOrder(f)) && (f.xt != [] ==> InOrder(f) != [])
  {
    hide CleanKeys, NoAmp, Group;
    GroupIsClean("xt", f.xt);
    GroupIsClean("dn", f.dn);
    GroupIsClean("kw", f.kw);
    GroupIsClean("v", f.v);
    GroupIsClean("tr", f.tr);
    GroupIsClean("bs", f.bs);
    CleanConcat(Group("xt", f.xt), Group("dn", f.dn));
    CleanConcat(Group("xt", f.xt) + Group("dn", f.dn), Group("kw", f.kw));
    CleanConcat(Group("xt", f.xt) + Group("dn", f.dn) + Group("kw", f.kw), Group("v", f.v));
    CleanConcat(Group("xt", f.xt) + Group("dn", f.dn) + Group("kw", f.kw) + Group("v", f.v), Group("tr", f.tr));
    CleanConcat(Group("xt", f.xt) + Group("dn", f.dn) + Group("kw", f.kw) + Group("v", f.v) + Group("tr", f.tr),
                Group("bs", f.bs));
  }

  lemma RowsAreClean(fields: seq<Field>)
    requires CleanKeys(fields)
    ensures AllFree(Segments(fields), '&')
  {
  }

  lemma PrintsOneXt(link: MagnetLink)
    ensures |Printed(link).xt| == 1
  {
  }

  // ---- Values come back ----------------------------------------------------------------------

  /** The xt parser accepts exactly the printed forms of 32-byte identifiers. */
  lemma ParseXtExact(value: string, id: seq<byte>)
    ensures ParseXt(value) == Ok(id) <==> |id| == 32 && value == XT_PREFIX + Hex(id)
  {
    hide Hex, FromHex;
    if ParseXt(value) == Ok(id) {
      HexFromHex(value[|XT_PREFIX|..]);
    }
    if |id| == 32 && value == XT_PREFIX + Hex(id) {
      assert value[|XT_PREFIX|..] == Hex(id);
      FromHexHex(id);
    }
  }

  lemma UnquoteQuoteAll(values: seq<string>)
    ensures UnquoteAll(QuoteAll(values)) == values
  {
    hide Quote, Unquote;
    forall i | 0 <= i < |values|
      ensures UnquoteAll(QuoteAll(values))[i] == values[i]
    {
      UnquoteQuote(values[i]);
    }
  }

  /** Joining quoted tags with commas and unquoting the whole is joining the tags. */
  lemma {:induction false} QuotedTagsToBytes(tags: seq<string>)
    ensures Ascii(Join(QuoteAll(tags), ',')) && UnquoteToBytes(Join(QuoteAll(tags), ',')) == Encode(Join(tags, ','))
  {
    hide Encode, QuoteBytes, UnquoteToBytes, Unquote;
    if tags == [] {
      assert QuoteAll(tags) == [];
      EmptyText();
    } else {
      var first := Encode(tags[0]);
      if |tags| == 1 {
        EmptyText();
        UnquoteQuotedBytes(first, "");
        assert QuoteBytes(first) + "" == QuoteBytes(first);
      } else {
        var rest := tags[1..];
        QuotedTagsToBytes(rest);
        assert QuoteAll(tags)[1..] == QuoteAll(rest);
        var tail := Join(QuoteAll(rest), ',');
        CommaToBytes(tail, Join(rest, ','));
        UnquoteQuotedBytes(first, "," + tail);
        assert Join(QuoteAll(tags), ',') == QuoteBytes(first) + ("," + tail);
        EncodeConcat(tags[0], "," + Join(rest, ','));
        assert Join(tags, ',') == tags[0] + ("," + Join(rest, ','));
      }
    }
  }

  lemma EmptyText()
    ensures Encode("") == [] && UnquoteToBytes("") == []
  {
  }

  lemma CommaToBytes(tail: string, text: string)
    requires Ascii(tail) && UnquoteToBytes(tail) == Encode(text)
    ensures Ascii("," + tail) && UnquoteToBytes("," + tail) == Encode("," + text)
  {
    var s := "," + tail;
    assert s[0] == ',' && s[1..] == tail;
    assert ("," + text)[1..] == text && EncodeChar(',') == [0x2C];
  }

  lemma TagsComeBack(tags: seq<string>)
    ensures Unquote(Join(QuoteAll(tags), ',')) == Join(tags, ',')
  {
    hide Join, Encode, UnquoteToBytes, Unquote, Decode;
    QuotedTagsToBytes(tags);
    UnquoteAscii(Join(QuoteAll(tags), ','));
    var text := Join(tags, ',');
    DecodeEncode(text, []);
    assert Encode(text) + [] == Encode(text);
    DecodeNothing();
  }

  lemma DecodeNothing()
    ensures Decode([]) == ""
  {
  }

  // ---- Round trips -----------------------------------------------------------------------------

  /** What keywords become when printed and read: cut at commas, empty ones dropped. */
  function Reread(keywords: seq<string>): seq<string> {
    if keywords == [] then [] else NonEmpty(Split(Join(keywords, ','), ','))
  }

  ghost predicate GoodKeywords(keywords: seq<string>) {
    forall i :: 0 <= i < |keywords| ==> keywords[i] != "" && ',' !in keywords[i]
  }

  lemma AssemblePrinted(link: MagnetLink)
    requires |link.swarmId| == 32
    ensures Assemble(Printed(link)) == Ok(link.(keywords := Reread(link.keywords)))
  {
    hide ParseXt, ParseInt, PrintInt, Unquote, Quote, Join, Split, Hex, NonEmpty;
    ParseXtExact(XT_PREFIX + Hex(link.swarmId), link.swarmId);
    if link.displayName.Some? { UnquoteQuote(link.displayName.value); }
    TagsComeBack(link.keywords);
    PrintedInt(link.protocolVersion);
    UnquoteQuoteAll(link.trackers);
    UnquoteQuoteAll(link.bootstrapPeers);
  }

  /**
   * Reading a printed link gives back its id, name, trackers, peers and version, whatever text
   * they hold, and the keywords cut at their commas.
   */
  lemma PrintThenParse(link: MagnetLink)
    requires |link.swarmId| == 32
    ensures Parse(Format(link).value) == Ok(link.(keywords := Reread(link.keywords)))
  {
    hide Sort, Fields, Split, Join, Printed, InOrder, Segments, Assemble, Reread;
    var query := Join(Segments(InOrder(Printed(link))), '&');
    assert (SCHEME + query)[|SCHEME|..] == query;
    PrintedFields(link);
    AssemblePrinted(link);
  }

  lemma RereadFixpoint(keywords: seq<string>)
    ensures Reread(keywords) == keywords <==> GoodKeywords(keywords)
    ensures GoodKeywords(Reread(keywords))
  {
    hide Join, Split;
    if keywords != [] {
      var parts := Split(Join(keywords, ','), ',');
      SplitIsFree(Join(keywords, ','), ',');
      assert GoodKeywords(NonEmpty(parts));
      if GoodKeywords(keywords) { SplitJoinFree(keywords, ','); }
    }
  }

  /** A link is read back unchanged if and only if its keywords are non-empty and comma-free. */
  lemma RoundTripIff(link: MagnetLink)
    requires |link.swarmId| == 32
    ensures Parse(Format(link).value) == Ok(link) <==> GoodKeywords(link.keywords)
  {
    hide Parse, Format, Reread;
    PrintThenParse(link);
    RereadFixpoint(link.keywords);
  }

  lemma ParsedIsGood(uri: string)
    requires Parse(uri).Ok?
    ensures |Parse(uri).value.swarmId| == 32 && GoodKeywords(Parse(uri).value.keywords)
  {
    hide Unquote, Split, Fields, ParseInt, NonEmpty, ParseXt, ValuesOf;
    var f := Sort(Fields(Split(uri[|SCHEME|..], '&')));
    ParseXtExact(f.xt[0], Parse(uri).value.swarmId);
    if f.kw != [] { SplitIsFree(Unquote(f.kw[0]), ','); }
  }

  /** Whatever URI a link was read from, printing it in canonical form and reading again gives the same link. */
  lemma ParsedLinksRoundTrip(uri: string)
    requires Parse(uri).Ok?
    ensures Format(Parse(uri).value).Ok? && Parse(Format(Parse(uri).value).value) == Parse(uri)
  {
    hide Parse;
    ParsedIsGood(uri);
    RoundTripIff(Parse(uri).value);
  }

  // ---- Ignorable text --------------------------------------------------------------------------------

  predicate Known(key: string) { key in ["xt", "dn", "kw", "v", "tr", "bs"] }

  /** Every segment of text is empty, has no '=', or has an unknown key. */
  ghost predicate Ignorable(text: string) {
    var fields := Fields(Split(text, '&'));
    forall i :: 0 <= i < |fields| ==> !Known(fields[i].0)
  }

  lemma {:induction false} NothingUnder(fields: seq<Field>, key: string)
    requires Known(key) && forall i :: 0 <= i < |fields| ==> !Known(fields[i].0)
    ensures ValuesOf(fields, key) == []
  {
    if fields != [] { NothingUnder(fields[..|fields| - 1], key); }
  }

  lemma SortAround(a: seq<Field>, x: seq<Field>, b: seq<Field>)
    requires forall i :: 0 <= i < |x| ==> !Known(x[i].0)
    ensures Sort(a + x + b) == Sort(a + b)
  {
    hide ValuesOf;
    forall key | Known(key)
      ensures ValuesOf(a + x + b, key) == ValuesOf(a + b, key)
    {
      ValuesConcat(a + x, b, key);
      ValuesConcat(a, x, key);
      ValuesConcat(a, b, key);
      NothingUnder(x, key);
    }
    assert Known("xt") && Known("dn") && Known("kw") && Known("v") && Known("tr") && Known("bs");
  }

  /** Unknown parameters and empty segments in the middle, at the front or at the end never change the result. */
  lemma UnknownParametersIgnored(before: string, extra: string, after: string)
    requires Ignorable(extra)
    ensures Parse(SCHEME + (before + "&" + extra + "&" + after)) == Parse(SCHEME + (before + "&" + after))
    ensures Parse(SCHEME + (extra + "&" + after)) == Parse(SCHEME + after)
    ensures Parse(SCHEME + (before + "&" + extra)) == Parse(SCHEME + before)
  {
    hide ParseQuery, Ignorable;
    forall q: string ensures Parse(SCHEME + q) == ParseQuery(q) {
      assert (SCHEME + q)[|SCHEME|..] == q;
    }
    IgnorableChangesNothing(before, extra, after);
  }

  lemma IgnorableChangesNothing(before: string, extra: string, after: string)
    requires Ignorable(extra)
    ensures ParseQuery(before + "&" + extra + "&" + after) == ParseQuery(before + "&" + after)
    ensures ParseQuery(extra + "&" + after) == ParseQuery(after)
    ensures ParseQuery(before + "&" + extra) == ParseQuery(before)
  {
    hide Assemble, Sort, Fields, Split;
    var a, x, b := Split(before, '&'), Split(extra, '&'), Split(after, '&');
    SplitConcat(before, extra, '&');
    SplitConcat(before + "&" + extra, after, '&');
    SplitConcat(before, after, '&');
    SplitConcat(extra, after, '&');
    FieldsConcat(a, x);
    FieldsConcat(a + x, b);
    FieldsConcat(a, b);
    FieldsConcat(x, b);
    var fa, fx, fb := Fields(a), Fields(x), Fields(b);
    SortAround(fa, fx, fb);
    SortAround([], fx, fb);
    SortAround(fa, fx, []);
    assert [] + fx + fb == fx + fb && [] + fb == fb;
    assert fa + fx + [] == fa + fx && fa + [] == fa;
  }

  // ---- The loops ----------------------------------------------------------------------------------------

  method ParseMagnet(uri: string) returns (r: Result<MagnetLink, MagnetError>)
    ensures r == Parse(uri)
    ensures r.Ok? ==> |r.value.swarmId| == 32 && GoodKeywords(r.value.keywords)
  {
    hide ParseXt, Unquote, NonEmpty, ParseInt;
    if !(SCHEME <= uri) { return Err(BadScheme); }
    var segments := Split(uri[|SCHEME|..], '&');
    var fields: seq<Field> := [];
    for i := 0 to |segments|
      invariant fields == Fields(segments[..i])
    {
      assert segments[..i + 1][..i] == segments[..i];
      var cut := Cut(segments[i], '=');
      if cut.Some? { fields := fields + [cut.value]; }
    }
    assert segments[..|segments|] == segments;
    var xt, dn, kw, v, tr, bs := [], [], [], [], [], [];
    for i := 0 to |fields|
      invariant Values(xt, dn, kw, v, tr, bs) == Sort(fields[..i])
    {
      assert fields[..i + 1][..i] == fields[..i];
      var (key, value) := fields[i];
      if key == "xt" { xt := xt + [value]; }
      else if key == "dn" { dn := dn + [value]; }
      else if key == "kw" { kw := kw + [value]; }
      else if key == "v" { v := v + [value]; }
      else if key == "tr" { tr := tr + [value]; }
      else if key == "bs" { bs := bs + [value]; }
    }
    assert fields[..|fields|] == fields;
    r := Assemble(Values(xt, dn, kw, v, tr, bs));
    if r.Ok? { ParsedIsGood(uri); }
  }

  lemma OneRow(key: string, values: seq<string>)
    ensures values == [] ==> Rows(key, values) == []
    ensures |values| == 1 ==> Rows(key, values) == [Row(key, values[0])]
  {
  }

  function Rows(key: string, values: seq<string>): (r: seq<string>)
    ensures |r| == |values| && forall i :: 0 <= i < |r| ==> r[i] == Row(key, values[i])
  {
    Segments(Group(key, values))
  }

  lemma SegmentsConcat(a: seq<Field>, b: seq<Field>)
    ensures Segments(a + b) == Segments(a) + Segments(b)
  {
  }

  lemma SegmentsInOrder(f: Values)
    ensures Segments(InOrder(f)) == Rows("xt", f.xt) + Rows("dn", f.dn) + Rows("kw", f.kw) + Rows("v", f.v)
        + Rows("tr", f.tr) + Rows("bs", f.bs)
  {
    hide Group, Segments;
    var a, b, c, d, e, g := Group("xt", f.xt), Group("dn", f.dn), Group("kw", f.kw), Group("v", f.v),
        Group("tr", f.tr), Group("bs", f.bs);
    SegmentsConcat(a + b + c + d + e, g);
    SegmentsConcat(a + b + c + d, e);
    SegmentsConcat(a + b + c, d);
    SegmentsConcat(a + b, c);
    SegmentsConcat(a, b);
  }

  lemma RowsSnoc(key: string, values: seq<string>, i: nat)
    requires i < |values|
    ensures Rows(key, values[..i + 1]) == Rows(key, values[..i]) + [Row(key, values[i])]
  {
  }

  method PrintRows(key: string, values: seq<string>) returns (parts: seq<string>)
    ensures parts == Rows(key, QuoteAll(values))
  {
    hide Rows, Quote;
    parts := [];
    for i := 0 to |values|
      invariant parts == Rows(key, QuoteAll(values)[..i])
    {
      RowsSnoc(key, QuoteAll(values), i);
      parts := parts + [Row(key, Quote(values[i]))];
    }
    assert QuoteAll(values)[..|values|] == QuoteAll(values);
  }

  method FormatMagnet(link: MagnetLink) returns (r: Result<string, MagnetError>)
    ensures r.Ok? <==> |link.swarmId| == 32
    ensures r == Format(link)
    ensures r.Ok? && GoodKeywords(link.keywords) ==> Parse(r.value) == Ok(link)
  {
    hide Join, Quote, Hex, PrintInt, Parse, Segments, InOrder, Rows, Row, Reread;
    if |link.swarmId| != 32 { return Err(BadXt); }
    ghost var f := Printed(link);
    var parts := [Row("xt", XT_PREFIX + Hex(link.swarmId))];
    OneRow("xt", f.xt);
    OneRow("dn", f.dn);
    OneRow("kw", f.kw);
    OneRow("v", f.v);
    if link.displayName.Some? { parts := parts + [Row("dn", Quote(link.displayName.value))]; }
    assert parts == Rows("xt", f.xt) + Rows("dn", f.dn);
    if link.keywords != [] { parts := parts + [Row("kw", Join(QuoteAll(link.keywords), ','))]; }
    assert parts == Rows("xt", f.xt) + Rows("dn", f.dn) + Rows("kw", f.kw);
    if link.protocolVersion != 1 { parts := parts + [Row("v", PrintInt(link.protocolVersion))]; }
    assert parts == Rows("xt", f.xt) + Rows("dn", f.dn) + Rows("kw", f.kw) + Rows("v", f.v);
    var trackers := PrintRows("tr", link.trackers);
    var peers := PrintRows("bs", link.bootstrapPeers);
    SegmentsInOrder(f);
    r := Ok(SCHEME + Join(parts + trackers + peers, '&'));
    RoundTripIff(link);
  }
}
