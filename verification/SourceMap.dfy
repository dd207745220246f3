/** Solidity source maps: `s:l:f:j:m` entries, separated by semicolons, with repeated fields left out. */
module SourceMap {
  import opened Basics

  datatype Entry = Entry(offset: nat, length: nat, sourceIndex: int, jumpType: char, modifierDepth: nat)

  /** The entry before the first one; its jump type is the NUL character. */
  const DEFAULT := Entry(0, 0, 0, 0 as char, 0)

  const TWO_63 := 0x8000_0000_0000_0000

  // ---- Splitting and joining --------------------------------------------------------------

  /** Always at least one part; an empty text is one empty part. */
  function Split(s: string, separator: char): (r: seq<string>)
    ensures |r| > 0
  {
    if s == "" then [""]
    else
      var n, before := |s| - 1, Split(s[..|s| - 1], separator);
      if s[n] == separator then before + [""] else before[|before| - 1 := before[|before| - 1] + [s[n]]]
  }

  function Join(parts: seq<string>, separator: char): string
    requires |parts| > 0
  {
    if |parts| == 1 then parts[0] else Join(parts[..|parts| - 1], separator) + [separator] + parts[|parts| - 1]
  }

  function ExtendLast(parts: seq<string>, t: string): seq<string>
    requires |parts| > 0
  {
    parts[..|parts| - 1] + [parts[|parts| - 1] + t]
  }

  lemma {:induction false} SplitAppend(s: string, t: string, separator: char)
    requires separator !in t
    ensures Split(s + t, separator) == ExtendLast(Split(s, separator), t)
    decreases |t|
  {
    var n := |t| - 1;
    var parts := Split(s, separator);
    if |t| == 0 {
      assert s + t == s;
      assert parts[|parts| - 1] + t == parts[|parts| - 1];
    } else {
      SplitAppend(s, t[..n], separator);
      assert (s + t)[..|s + t| - 1] == s + t[..n];
      assert parts[|parts| - 1] + t[..n] + [t[n]] == parts[|parts| - 1] + t;
    }
  }

  lemma SplitSeparator(s: string, t: string, separator: char)
    requires separator !in t
    ensures Split(s + [separator] + t, separator) == Split(s, separator) + [t]
  {
    var head := s + [separator];
    assert head[..|head| - 1] == s;
    SplitAppend(head, t, separator);
    assert "" + t == t;
  }

  lemma SplitPlain(t: string, separator: char)
    requires separator !in t
    ensures Split(t, separator) == [t]
  {
    SplitAppend("", t, separator);
    assert "" + t == t;
  }

  /** Splitting undoes joining, for parts free of the separator. */
  lemma {:induction false} SplitJoin(parts: seq<string>, separator: char)
    requires |parts| > 0 && forall k :: 0 <= k < |parts| ==> separator !in parts[k]
    ensures Split(Join(parts, separator), separator) == parts
  {
    var n := |parts| - 1;
    if n == 0 {
      SplitPlain(parts[0], separator);
    } else {
      SplitJoin(parts[..n], separator);
      SplitSeparator(Join(parts[..n], separator), parts[n], separator);
      assert parts == parts[..n] + [parts[n]];
    }
  }

  // ---- Numbers ------------------------------------------------------------------------------

  predicate IsDigit(c: char) {
    '0' <= c <= '9'
  }

  function ParseDigits(s: string): Option<nat> {
    if s == "" then Some(0)
    else
      var n := |s| - 1;
      match ParseDigits(s[..n])
      case None => None
      case Some(high) => if IsDigit(s[n]) then Some(10 * high + (s[n] - '0') as nat) else None
  }

  /** An unsigned integer below `limit`, with an optional plus sign. */
  function ParseUnsigned(s: string, limit: nat): Option<nat> {
    var digits := if s != "" && s[0] == '+' then s[1..] else s;
    if digits == "" then None
    else
      match ParseDigits(digits)
      case None => None
      case Some(n) => if n < limit then Some(n) else None
  }

  /** A 64-bit signed integer. */
  function ParseSigned(s: string): Option<int> {
    if s != "" && s[0] == '-' then
      if s[1..] == "" || !IsDigit(s[1]) then None
      else
        match ParseUnsigned(s[1..], TWO_63 + 1)
        case None => None
        case Some(n) => Some(-(n as int))
    else
      match ParseUnsigned(s, TWO_63)
      case None => None
      case Some(n) => Some(n as int)
  }

  function Decimal(n: nat): string {
    if n < 10 then ['0' + n as char] else Decimal(n / 10) + ['0' + (n % 10) as char]
  }

  function SignedDecimal(n: int): string {
    if n < 0 then "-" + Decimal(-n) else Decimal(n)
  }

  lemma {:induction false} ParseDecimal(n: nat)
    ensures ParseDigits(Decimal(n)) == Some(n) && Decimal(n) != ""
    ensures forall k :: 0 <= k < |Decimal(n)| ==> IsDigit(Decimal(n)[k])
  {
    if n < 10 {
      assert Decimal(n)[..0] == "";
    } else {
      ParseDecimal(n / 10);
      assert Decimal(n)[..|Decimal(n)| - 1] == Decimal(n / 10);
    }
  }

  // ---- The parser -----------------------------------------------------------------------------

  /** Field `k` is present and not empty. */
  predicate Has(parts: seq<string>, k: nat) {
    k < |parts| && parts[k] != ""
  }

  /** An entry from the parts of its segment; a part that does not parse reads as zero. */
  function Updated(current: Entry, parts: seq<string>): Entry {
    Entry(
      if Has(parts, 0) then ParseUnsigned(parts[0], TWO_64).Or(0) else current.offset,
      if Has(parts, 1) then ParseUnsigned(parts[1], TWO_64).Or(0) else current.length,
      if Has(parts, 2) then ParseSigned(parts[2]).Or(0) else current.sourceIndex,
      if Has(parts, 3) then parts[3][0] else current.jumpType,
      if Has(parts, 4) then ParseUnsigned(parts[4], TWO_64).Or(0) else current.modifierDepth)
  }

  /** The running entry after some segments. */
  function Current(segments: seq<string>): Entry {
    if segments == [] then DEFAULT
    else Updated(Current(segments[..|segments| - 1]), Split(segments[|segments| - 1], ':'))
  }

  /** The entries of some segments: the running entry after each. */
  function Expand(segments: seq<string>): seq<Entry> {
    if segments == [] then [] else Expand(segments[..|segments| - 1]) + [Current(segments)]
  }

  function Parsed(text: string): seq<Entry> {
    if text == "" then [] else Expand(Split(text, ';'))
  }

  method ReadSegment(current: Entry, segment: string) returns (next: Entry)
    ensures next == Updated(current, Split(segment, ':'))
  {
    next := current;
    if segment == "" {
      return;
    }
    var parts := Split(segment, ':');
    if parts[0] != "" {
      next := next.(offset := ParseUnsigned(parts[0], TWO_64).Or(0));
    }
    if |parts| > 1 && parts[1] != "" {
      next := next.(length := ParseUnsigned(parts[1], TWO_64).Or(0));
    }
    if |parts| > 2 && parts[2] != "" {
      next := next.(sourceIndex := ParseSigned(parts[2]).Or(0));
    }
    if |parts| > 3 && parts[3] != "" {
      next := next.(jumpType := parts[3][0]);
    }
    if |parts| > 4 && parts[4] != "" {
      next := next.(modifierDepth := ParseUnsigned(parts[4], TWO_64).Or(0));
    }
  }

  method ParseSourceMap(text: string) returns (entries: seq<Entry>)
    ensures entries == Parsed(text)
  {
    entries := [];
    if text == "" {
      return;
    }
    var current := DEFAULT;
    var segments := Split(text, ';');
    for i := 0 to |segments|
      invariant current == Current(segments[..i]) && entries == Expand(segments[..i])
    {
      assert segments[..i + 1][..i] == segments[..i];
      current := ReadSegment(current, segments[i]);
      entries := entries + [current];
    }
    assert segments[..|segments|] == segments;
  }

  // ---- Malformed fields ----------------------------------------------------------------------

  lemma {:induction false} DigitsOnly(s: string)
    ensures ParseDigits(s).Some? <==> forall k :: 0 <= k < |s| ==> IsDigit(s[k])
  {
    if |s| > 0 {
      DigitsOnly(s[..|s| - 1]);
    }
  }

  /** Some character beyond the first is no digit, or the first is neither a digit nor a sign. */
  predicate Malformed(s: string) {
    exists k :: 0 <= k < |s| && !('0' <= s[k] <= '9') && (k > 0 || (s[0] != '+' && s[0] != '-'))
  }

  lemma MalformedUnsigned(s: string, limit: nat)
    requires Malformed(s)
    ensures ParseUnsigned(s, limit) == None
  {
    var digits := if s[0] == '+' then s[1..] else s;
    DigitsOnly(digits);
    var k :| 0 <= k < |s| && !('0' <= s[k] <= '9') && (k > 0 || (s[0] != '+' && s[0] != '-'));
    assert digits[if s[0] == '+' then k - 1 else k] == s[k];
  }

  lemma MalformedSigned(s: string)
    requires Malformed(s)
    ensures ParseSigned(s) == None
  {
    if s[0] != '-' {
      MalformedUnsigned(s, TWO_63);
    } else if s[1..] != "" && IsDigit(s[1]) {
      var k :| 0 <= k < |s| && !('0' <= s[k] <= '9') && (k > 0 || (s[0] != '+' && s[0] != '-'));
      assert s[1..][k - 1] == s[k] && k > 1;
      MalformedUnsigned(s[1..], TWO_63 + 1);
    }
  }

  /** A field that is not a number reads as zero, the jump type is the first character of its field, and fields past the fifth do not count. */
  lemma MalformedReadsZero(current: Entry, parts: seq<string>)
    ensures |parts| > 0 && Malformed(parts[0]) ==> Updated(current, parts).offset == 0
    ensures |parts| > 1 && Malformed(parts[1]) ==> Updated(current, parts).length == 0
    ensures |parts| > 2 && Malformed(parts[2]) ==> Updated(current, parts).sourceIndex == 0
    ensures |parts| > 3 && parts[3] != "" ==> Updated(current, parts).jumpType == parts[3][0]
    ensures |parts| > 4 && Malformed(parts[4]) ==> Updated(current, parts).modifierDepth == 0
    ensures |parts| > 5 ==> Updated(current, parts) == Updated(current, parts[..5])
  {
    if |parts| > 0 && Malformed(parts[0]) {
      MalformedUnsigned(parts[0], TWO_64);
    }
    if |parts| > 1 && Malformed(parts[1]) {
      MalformedUnsigned(parts[1], TWO_64);
    }
    if |parts| > 2 && Malformed(parts[2]) {
      MalformedSigned(parts[2]);
    }
    if |parts| > 4 && Malformed(parts[4]) {
      MalformedUnsigned(parts[4], TWO_64);
    }
  }

  /** An empty number, or one past the range, reads as zero; a plus sign is allowed. */
  lemma NumberIsRead(n: nat, limit: nat)
    ensures ParseUnsigned(Decimal(n), limit) == ParseUnsigned("+" + Decimal(n), limit) == if n < limit then Some(n) else None
    ensures ParseUnsigned("", limit) == ParseUnsigned("+", limit) == None
  {
    ParseDecimal(n);
    assert ("+" + Decimal(n))[1..] == Decimal(n) && "+"[1..] == "";
  }

  /** Before any entry every number is zero and the jump type is the NUL character. */
  lemma NothingWrittenReadsDefault()
    ensures Parsed(";") == [Entry(0, 0, 0, 0 as char, 0), Entry(0, 0, 0, 0 as char, 0)]
  {
    assert ";"[..0] == "" && Split(";", ';') == [""] + [""];
    assert [""][..0] == [] && ["", ""][..1] == [""];
    SplitPlain("", ':');
    assert Current([""]) == DEFAULT && Current(["", ""]) == DEFAULT;
  }

  // ---- Rendering --------------------------------------------------------------------------------

  /** Which fields are written, and after which one the entry is cut short. */
  datatype Style = Style(offset: bool, length: bool, sourceIndex: bool, jumpType: bool, modifierDepth: bool, parts: nat)

  /** A field left empty or cut off must repeat the entry before. */
  predicate Honest(previous: Entry, e: Entry, style: Style) {
    && 1 <= style.parts <= 5
    && (style.offset || e.offset == previous.offset)
    && ((style.length && style.parts > 1) || e.length == previous.length)
    && ((style.sourceIndex && style.parts > 2) || e.sourceIndex == previous.sourceIndex)
    && ((style.jumpType && style.parts > 3) || e.jumpType == previous.jumpType)
    && ((style.modifierDepth && style.parts > 4) || e.modifierDepth == previous.modifierDepth)
  }

  /** Values in the parser's integer ranges, and a jump type that is not a separator. */
  predicate InRange(e: Entry) {
    && e.offset < TWO_64 && e.length < TWO_64 && e.modifierDepth < TWO_64 && -TWO_63 <= e.sourceIndex < TWO_63
    && e.jumpType != ':' && e.jumpType != ';'
  }

  function NatField(written: bool, n: nat): string {
    if written then Decimal(n) else ""
  }

  function IntField(written: bool, n: int): string {
    if written then SignedDecimal(n) else ""
  }

  function CharField(written: bool, c: char): string {
    if written then [c] else ""
  }

  function Fields(e: Entry, style: Style): seq<string> {
    [NatField(style.offset, e.offset), NatField(style.length, e.length), IntField(style.sourceIndex, e.sourceIndex),
     CharField(style.jumpType, e.jumpType), NatField(style.modifierDepth, e.modifierDepth)]
  }

  function Segment(e: Entry, style: Style): string
    requires 1 <= style.parts <= 5
  {
    Join(Fields(e, style)[..style.parts], ':')
  }

  lemma DigitsAreParsed(n: nat, limit: nat)
    requires n < limit
    ensures ParseUnsigned(Decimal(n), limit) == Some(n)
    ensures ':' !in Decimal(n) && ';' !in Decimal(n) && Decimal(n) != "" && IsDigit(Decimal(n)[0])
  {
    ParseDecimal(n);
  }

  lemma SignedIsParsed(n: int)
    requires -TWO_63 <= n < TWO_63
    ensures ParseSigned(SignedDecimal(n)) == Some(n)
    ensures ':' !in SignedDecimal(n) && ';' !in SignedDecimal(n) && SignedDecimal(n) != ""
  {
    if n < 0 {
      DigitsAreParsed(-n, TWO_63 + 1);
      assert SignedDecimal(n)[1..] == Decimal(-n);
      assert SignedDecimal(n)[1] == Decimal(-n)[0];
    } else {
      DigitsAreParsed(n, TWO_63);
    }
  }

  predicate Clean(s: string) {
    ':' !in s && ';' !in s
  }

  lemma NatFieldReadsBack(written: bool, n: nat)
    requires n < TWO_64
    ensures Clean(NatField(written, n))
    ensures NatField(written, n) != "" <==> written
    ensures written ==> ParseUnsigned(NatField(written, n), TWO_64) == Some(n)
  {
    DigitsAreParsed(n, TWO_64);
  }

  lemma IntFieldReadsBack(written: bool, n: int)
    requires -TWO_63 <= n < TWO_63
    ensures Clean(IntField(written, n))
    ensures IntField(written, n) != "" <==> written
    ensures written ==> ParseSigned(IntField(written, n)) == Some(n)
  {
    SignedIsParsed(n);
  }

  lemma FieldsAreClean(e: Entry, style: Style)
    requires InRange(e)
    ensures forall k :: 0 <= k < 5 ==> Clean(Fields(e, style)[k])
  {
    NatFieldReadsBack(style.offset, e.offset);
    NatFieldReadsBack(style.length, e.length);
    IntFieldReadsBack(style.sourceIndex, e.sourceIndex);
    NatFieldReadsBack(style.modifierDepth, e.modifierDepth);
  }

  lemma FieldsUpdate(previous: Entry, e: Entry, style: Style)
    requires InRange(e) && Honest(previous, e, style)
    ensures Updated(previous, Fields(e, style)[..style.parts]) == e
  {
    NatFieldReadsBack(style.offset, e.offset);
    NatFieldReadsBack(style.length, e.length);
    IntFieldReadsBack(style.sourceIndex, e.sourceIndex);
    NatFieldReadsBack(style.modifierDepth, e.modifierDepth);
  }

  lemma {:induction false} JoinIsClean(parts: seq<string>, separator: char, c: char)
    requires |parts| > 0 && c != separator && forall k :: 0 <= k < |parts| ==> c !in parts[k]
    ensures c !in Join(parts, separator)
  {
    if |parts| > 1 {
      JoinIsClean(parts[..|parts| - 1], separator, c);
    }
  }

  lemma SegmentReadsBack(previous: Entry, e: Entry, style: Style)
    requires InRange(e) && Honest(previous, e, style)
    ensures Updated(previous, Split(Segment(e, style), ':')) == e
    ensures ';' !in Segment(e, style)
  {
    var parts := Fields(e, style)[..style.parts];
    FieldsAreClean(e, style);
    assert forall k :: 0 <= k < |parts| ==> Clean(parts[k]);
    SplitJoin(parts, ':');
    JoinIsClean(parts, ':', ';');
    FieldsUpdate(previous, e, style);
  }

  /** An entry and how it is written. */
  datatype Item = Item(entry: Entry, style: Style)

  function Last(items: seq<Item>): Entry {
    if items == [] then DEFAULT else items[|items| - 1].entry
  }

  function EntriesOf(items: seq<Item>): seq<Entry> {
    if items == [] then [] else EntriesOf(items[..|items| - 1]) + [Last(items)]
  }

  predicate AllHonest(items: seq<Item>) {
    items != [] ==>
      var n := |items| - 1;
      AllHonest(items[..n]) && InRange(items[n].entry) && Honest(Last(items[..n]), items[n].entry, items[n].style)
  }

  function Segments(items: seq<Item>): (r: seq<string>)
    requires AllHonest(items)
    ensures |r| == |items|
  {
    if items == [] then []
    else Segments(items[..|items| - 1]) + [Segment(items[|items| - 1].entry, items[|items| - 1].style)]
  }

  function Render(items: seq<Item>): string
    requires AllHonest(items)
  {
    if items == [] then "" else Join(Segments(items), ';')
  }

  /** Reading one more segment. */
  lemma ExpandStep(before: seq<string>, segment: string)
    ensures Current(before + [segment]) == Updated(Current(before), Split(segment, ':'))
    ensures Expand(before + [segment]) == Expand(before) + [Updated(Current(before), Split(segment, ':'))]
  {
    assert (before + [segment])[..|before|] == before;
  }

  lemma {:induction false} SegmentsReadBack(items: seq<Item>)
    requires AllHonest(items)
    ensures Current(Segments(items)) == Last(items) && Expand(Segments(items)) == EntriesOf(items)
    ensures forall k :: 0 <= k < |items| ==> ';' !in Segments(items)[k]
  {
    if |items| > 0 {
      var n := |items| - 1;
      SegmentsReadBack(items[..n]);
      SegmentReadsBack(Last(items[..n]), items[n].entry, items[n].style);
      ExpandStep(Segments(items[..n]), Segment(items[n].entry, items[n].style));
    }
  }

  /**
   However repeated fields are elided, parsing gives the entries back, exactly unless
   everything was elided away: a single entry equal to the default, written as nothing.
   */
  lemma ElisionIsTransparent(items: seq<Item>)
    requires AllHonest(items)
    ensures Parsed(Render(items)) == EntriesOf(items)
       <==> !(|items| == 1 && items[0].style.parts == 1 && !items[0].style.offset)
  {
    RenderEmptyIff(items);
    if items != [] && Render(items) != "" {
      SegmentsReadBack(items);
      SplitJoin(Segments(items), ';');
    }
  }

  /** The rendering is empty for no entries, or for one with its first field elided and the rest cut off. */
  lemma RenderEmptyIff(items: seq<Item>)
    requires AllHonest(items)
    ensures Render(items) == "" <==> items == [] || (|items| == 1 && items[0].style.parts == 1 && !items[0].style.offset)
  {
    if |items| == 1 {
      var e, style := items[0].entry, items[0].style;
      NatFieldReadsBack(style.offset, e.offset);
      assert Segments(items[..0]) == [];
      assert Render(items) == Segment(e, style);
    }
  }

  /** Two renderings of the same entries, one writing what the other elides, parse to the same. */
  lemma ElisionDoesNotMatter(items: seq<Item>, others: seq<Item>)
    requires AllHonest(items) && AllHonest(others) && EntriesOf(items) == EntriesOf(others)
    requires Render(items) != "" && Render(others) != ""
    ensures Parsed(Render(items)) == Parsed(Render(others))
  {
    RenderEmptyIff(items);
    RenderEmptyIff(others);
    ElisionIsTransparent(items);
    ElisionIsTransparent(others);
  }
}
