/** Finding the contract a bytecode was compiled from, with link, immutable and library bytes masked out. */
module BytecodeIndex {
  import opened Basics
  import opened Hex

  datatype Range = Range(start: nat, len: nat)

  predicate Covers(positions: seq<Range>, i: nat) {
    exists k :: 0 <= k < |positions| && positions[k].start <= i < positions[k].start + positions[k].len
  }

  /** Zero at every covered byte; positions may overlap and may reach past the end. */
  function Masked(code: seq<Byte>, positions: seq<Range>): seq<Byte> {
    seq(|code|, i requires 0 <= i < |code| => if Covers(positions, i) then 0 else code[i])
  }

  /** Writes `from` (or zero) into one range of the buffer, byte by byte. */
  method FillRange(buf: array<Byte>, r: Range, source: seq<Byte>)
    requires |source| == buf.Length
    modifies buf
    ensures forall i :: 0 <= i < buf.Length ==> buf[i] == if r.start <= i < r.start + r.len then source[i] else old(buf[i])
  {
    for i := r.start to r.start + r.len
      invariant forall j :: 0 <= j < buf.Length ==> buf[j] == if r.start <= j < i then source[j] else old(buf[j])
    {
      if i < buf.Length {
        buf[i] := source[i];
      }
    }
  }

  lemma CoversMore(positions: seq<Range>, n: nat, i: nat)
    requires n < |positions|
    ensures Covers(positions[..n + 1], i) <==> Covers(positions[..n], i) || positions[n].start <= i < positions[n].start + positions[n].len
  {
    var more := positions[..n + 1];
    if Covers(positions[..n], i) {
      var k :| 0 <= k < n && positions[..n][k].start <= i < positions[..n][k].start + positions[..n][k].len;
      assert more[k] == positions[k];
    }
    if positions[n].start <= i < positions[n].start + positions[n].len {
      assert more[n] == positions[n];
    }
    if Covers(more, i) {
      var k :| 0 <= k < n + 1 && more[k].start <= i < more[k].start + more[k].len;
      assert k < n ==> positions[..n][k] == more[k];
    }
  }

  /** Overwrites every covered byte with the one in `source`: zeros to mask, the raw bytecode to restore. */
  method Fill(buf: array<Byte>, positions: seq<Range>, source: seq<Byte>)
    requires |source| == buf.Length
    modifies buf
    ensures forall i :: 0 <= i < buf.Length ==> buf[i] == if Covers(positions, i) then source[i] else old(buf[i])
  {
    for k := 0 to |positions|
      invariant forall i :: 0 <= i < buf.Length ==> buf[i] == if Covers(positions[..k], i) then source[i] else old(buf[i])
    {
      FillRange(buf, positions[k], source);
      forall i | 0 <= i < buf.Length
        ensures Covers(positions[..k + 1], i) <==> Covers(positions[..k], i) || positions[k].start <= i < positions[k].start + positions[k].len
      {
        CoversMore(positions, k, i);
      }
    }
    assert positions[..|positions|] == positions;
  }

  function Zeros(n: nat): seq<Byte> {
    seq(n, _ => 0)
  }

  method ZeroOutPositions(buf: array<Byte>, positions: seq<Range>)
    modifies buf
    ensures buf[..] == Masked(old(buf[..]), positions)
  {
    Fill(buf, positions, Zeros(buf.Length));
  }

  method RestorePositions(buf: array<Byte>, positions: seq<Range>, raw: seq<Byte>)
    requires |raw| == buf.Length && buf[..] == Masked(raw, positions)
    modifies buf
    ensures buf[..] == raw
  {
    forall i | 0 <= i < buf.Length && !Covers(positions, i) ensures buf[i] == raw[i] {
      assert buf[..][i] == Masked(raw, positions)[i];
    }
    Fill(buf, positions, raw);
  }

  // ---- The index -----------------------------------------------------------------------

  datatype IndexEntry = IndexEntry(contract: nat, hash: nat, positions: seq<Range>, isInitcode: bool, codeLen: nat)

  type Hash = seq<Byte> -> nat

  /** One contract's code, parsed with its link placeholders zeroed, and the positions to mask in it. */
  datatype Compiled = Compiled(
    deployed: seq<Byte>,
    deployedLinks: seq<Range>,
    immutables: seq<Range>,
    initcode: seq<Byte>,
    initcodeLinks: seq<Range>,
    isLibrary: bool)

  /** A deployed library starts by pushing its own address, which differs per deployment. */
  function DeployedPositions(c: Compiled): seq<Range> {
    c.deployedLinks + c.immutables + if c.isLibrary && c.deployed != [] && c.deployed[0] == 0x73 then [Range(1, 20)] else []
  }

  function EntryFor(hash: Hash, contract: nat, code: seq<Byte>, positions: seq<Range>, isInitcode: bool): seq<IndexEntry> {
    if code == [] then [] else [IndexEntry(contract, hash(Masked(code, positions)), positions, isInitcode, |code|)]
  }

  function EntriesOf(hash: Hash, contract: nat, c: Compiled): seq<IndexEntry> {
    EntryFor(hash, contract, c.deployed, DeployedPositions(c), false) + EntryFor(hash, contract, c.initcode, c.initcodeLinks, true)
  }

  function AllEntries(hash: Hash, contracts: seq<Compiled>): seq<IndexEntry> {
    if contracts == [] then []
    else
      var n := |contracts| - 1;
      AllEntries(hash, contracts[..n]) + EntriesOf(hash, n, contracts[n])
  }

  /** Indices of the entries of one length, ascending. */
  function OfLength(entries: seq<IndexEntry>, len: nat): (r: seq<nat>)
    ensures forall k :: 0 <= k < |r| ==> r[k] < |entries|
  {
    if entries == [] then []
    else
      var n := |entries| - 1;
      OfLength(entries[..n], len) + if entries[n].codeLen == len then [n] else []
  }

  predicate Matches(hash: Hash, e: IndexEntry, raw: seq<Byte>) {
    e.codeLen == |raw| && hash(Masked(raw, e.positions)) == e.hash
  }

  /** What a search that masks a fresh copy for each candidate finds: the first matching entry. */
  function FindFresh(hash: Hash, entries: seq<IndexEntry>, raw: seq<Byte>): Option<(nat, bool)> {
    if entries == [] then None
    else
      var n := |entries| - 1;
      var before := FindFresh(hash, entries[..n], raw);
      if before.None? && Matches(hash, entries[n], raw) then Some((entries[n].contract, entries[n].isInitcode)) else before
  }

  function Found(entries: seq<IndexEntry>, candidates: seq<nat>, k: nat): Option<(nat, bool)>
    requires forall j :: 0 <= j < |candidates| ==> candidates[j] < |entries|
  {
    if k < |candidates| then Some((entries[candidates[k]].contract, entries[candidates[k]].isInitcode)) else None
  }

  /** Looking only at the entries of the right length misses nothing. */
  lemma {:induction false} FindAmongCandidates(hash: Hash, entries: seq<IndexEntry>, raw: seq<Byte>, k: nat)
    requires k <= |OfLength(entries, |raw|)|
    requires forall j :: 0 <= j < k ==> !Matches(hash, entries[OfLength(entries, |raw|)[j]], raw)
    requires k < |OfLength(entries, |raw|)| ==> Matches(hash, entries[OfLength(entries, |raw|)[k]], raw)
    ensures FindFresh(hash, entries, raw) == Found(entries, OfLength(entries, |raw|), k)
  {
    if |entries| > 0 {
      var n := |entries| - 1;
      var before, after := OfLength(entries[..n], |raw|), OfLength(entries, |raw|);
      assert after == before + if entries[n].codeLen == |raw| then [n] else [];
      assert forall j :: 0 <= j < |before| ==> after[j] == before[j] && entries[..n][before[j]] == entries[after[j]];
      FindAmongCandidates(hash, entries[..n], raw, if k <= |before| then k else |before|);
      if k >= |before| {
        assert FindFresh(hash, entries[..n], raw) == None;
        if entries[n].codeLen == |raw| {
          assert after[|before|] == n;
          assert Matches(hash, entries[n], raw) <==> k == |before|;
        }
      }
    }
  }

  /** `byLen` holds the indices of every length that occurs. */
  ghost predicate Groups(entries: seq<IndexEntry>, byLen: map<nat, seq<nat>>) {
    && (forall len :: len in byLen ==> byLen[len] == OfLength(entries, len))
    && (forall len :: len !in byLen ==> OfLength(entries, len) == [])
  }

  lemma OneMoreGrouped(entries: seq<IndexEntry>, byLen: map<nat, seq<nat>>)
    requires |entries| > 0 && Groups(entries[..|entries| - 1], byLen)
    ensures var n, len := |entries| - 1, entries[|entries| - 1].codeLen;
            Groups(entries, byLen[len := (if len in byLen then byLen[len] else []) + [n]])
  {}

  method GroupByLength(entries: seq<IndexEntry>) returns (byLen: map<nat, seq<nat>>)
    ensures Groups(entries, byLen)
  {
    byLen := map[];
    for i := 0 to |entries|
      invariant Groups(entries[..i], byLen)
    {
      assert entries[..i + 1][..i] == entries[..i];
      OneMoreGrouped(entries[..i + 1], byLen);
      var len := entries[i].codeLen;
      byLen := byLen[len := (if len in byLen then byLen[len] else []) + [i]];
    }
    assert entries[..|entries|] == entries;
  }

  class Index {
    const hash: Hash
    const entries: seq<IndexEntry>
    const entriesByLen: map<nat, seq<nat>>

    ghost predicate Valid() {
      Groups(entries, entriesByLen)
    }

    constructor (hash: Hash, entries: seq<IndexEntry>)
      ensures Valid() && this.hash == hash && this.entries == entries
    {
      var byLen := GroupByLength(entries);
      this.hash, this.entries, this.entriesByLen := hash, entries, byLen;
    }

    /** Masks and restores one scratch buffer, which is the raw bytecode again before every candidate. */
    method Find(raw: seq<Byte>) returns (found: Option<(nat, bool)>)
      requires Valid()
      ensures found == FindFresh(hash, entries, raw)
    {
      if |raw| !in entriesByLen {
        FindAmongCandidates(hash, entries, raw, 0);
        return None;
      }
      var candidates := entriesByLen[|raw|];
      LengthsAgree(entries, |raw|);
      var masked := new Byte[|raw|](i requires 0 <= i < |raw| => raw[i]);
      for k := 0 to |candidates|
        invariant masked[..] == raw
        invariant forall j :: 0 <= j < k ==> !Matches(hash, entries[candidates[j]], raw)
      {
        var entry := entries[candidates[k]];
        ZeroOutPositions(masked, entry.positions);
        if hash(masked[..]) == entry.hash {
          FindAmongCandidates(hash, entries, raw, k);
          return Some((entry.contract, entry.isInitcode));
        }
        RestorePositions(masked, entry.positions, raw);
      }
      FindAmongCandidates(hash, entries, raw, |candidates|);
      found := None;
    }
  }

  lemma {:induction false} LengthsAgree(entries: seq<IndexEntry>, len: nat)
    ensures forall k :: 0 <= k < |OfLength(entries, len)| ==> entries[OfLength(entries, len)[k]].codeLen == len
  {
    if |entries| > 0 {
      LengthsAgree(entries[..|entries| - 1], len);
    }
  }

  // ---- What a match means ----------------------------------------------------------------

  ghost predicate Injective(hash: Hash) {
    forall a, b :: hash(a) == hash(b) ==> a == b
  }

  /** Same length, and the same byte wherever nothing is masked. */
  predicate Agrees(raw: seq<Byte>, code: seq<Byte>, positions: seq<Range>) {
    |raw| == |code| && forall i :: 0 <= i < |raw| && !Covers(positions, i) ==> raw[i] == code[i]
  }

  lemma MaskedEqualIff(raw: seq<Byte>, code: seq<Byte>, positions: seq<Range>)
    ensures Masked(raw, positions) == Masked(code, positions) <==> Agrees(raw, code, positions)
  {
    if Masked(raw, positions) == Masked(code, positions) {
      assert |Masked(raw, positions)| == |raw| && |Masked(code, positions)| == |code|;
      forall i | 0 <= i < |raw| && !Covers(positions, i) ensures raw[i] == code[i] {
        assert Masked(raw, positions)[i] == raw[i] && Masked(code, positions)[i] == code[i];
      }
    }
  }

  predicate AgreesWith(code: seq<Byte>, positions: seq<Range>, raw: seq<Byte>) {
    code != [] && Agrees(raw, code, positions)
  }

  /** Whether a contract's deployed code, or else its initcode, agrees with the bytecode. */
  function AgreeingIn(contract: nat, c: Compiled, raw: seq<Byte>): Option<(nat, bool)> {
    if AgreesWith(c.deployed, DeployedPositions(c), raw) then Some((contract, false))
    else if AgreesWith(c.initcode, c.initcodeLinks, raw) then Some((contract, true))
    else None
  }

  /** What `find` is for, without hashes: the first contract, deployed code before initcode, that agrees with the bytecode. */
  function FirstAgreeing(contracts: seq<Compiled>, raw: seq<Byte>): Option<(nat, bool)> {
    if contracts == [] then None
    else
      var n := |contracts| - 1;
      var before := FirstAgreeing(contracts[..n], raw);
      if before.Some? then before else AgreeingIn(n, contracts[n], raw)
  }

  lemma {:induction false} FindFreshConcat(hash: Hash, a: seq<IndexEntry>, b: seq<IndexEntry>, raw: seq<Byte>)
    ensures FindFresh(hash, a + b, raw) == if FindFresh(hash, a, raw).Some? then FindFresh(hash, a, raw) else FindFresh(hash, b, raw)
    decreases |b|
  {
    if |b| == 0 {
      assert a + b == a;
    } else {
      assert (a + b)[..|a + b| - 1] == a + b[..|b| - 1];
      FindFreshConcat(hash, a, b[..|b| - 1], raw);
    }
  }

  lemma FindOneEntry(hash: Hash, contract: nat, code: seq<Byte>, positions: seq<Range>, isInitcode: bool, raw: seq<Byte>)
    requires Injective(hash)
    ensures FindFresh(hash, EntryFor(hash, contract, code, positions, isInitcode), raw)
         == if AgreesWith(code, positions, raw) then Some((contract, isInitcode)) else None
  {
    MaskedEqualIff(raw, code, positions);
    if code != [] {
      assert EntryFor(hash, contract, code, positions, isInitcode)[..0] == [];
    }
  }

  lemma FindInContract(hash: Hash, contract: nat, c: Compiled, raw: seq<Byte>)
    requires Injective(hash)
    ensures FindFresh(hash, EntriesOf(hash, contract, c), raw) == AgreeingIn(contract, c, raw)
  {
    var deployed := EntryFor(hash, contract, c.deployed, DeployedPositions(c), false);
    FindFreshConcat(hash, deployed, EntryFor(hash, contract, c.initcode, c.initcodeLinks, true), raw);
    FindOneEntry(hash, contract, c.deployed, DeployedPositions(c), false, raw);
    FindOneEntry(hash, contract, c.initcode, c.initcodeLinks, true, raw);
  }

  /** Under an injective hash, `find` returns exactly the first contract that agrees at every unmasked byte. */
  lemma {:induction false} FindMeansAgreement(hash: Hash, contracts: seq<Compiled>, raw: seq<Byte>)
    requires Injective(hash)
    ensures FindFresh(hash, AllEntries(hash, contracts), raw) == FirstAgreeing(contracts, raw)
  {
    if |contracts| > 0 {
      var n := |contracts| - 1;
      FindMeansAgreement(hash, contracts[..n], raw);
      FindFreshConcat(hash, AllEntries(hash, contracts[..n]), EntriesOf(hash, n, contracts[n]), raw);
      FindInContract(hash, n, contracts[n], raw);
    }
  }

  // ---- Placeholders ------------------------------------------------------------------------

  /** Ranges in order, apart from one another, within a text of `len` characters. */
  predicate Apart(ranges: seq<Range>, len: nat) {
    && (forall k :: 0 <= k < |ranges| ==> ranges[k].start + ranges[k].len <= len)
    && (forall j, k :: 0 <= j < k < |ranges| ==> ranges[j].start + ranges[j].len <= ranges[k].start)
  }

  function Doubled(ranges: seq<Range>): seq<Range> {
    seq(|ranges|, k requires 0 <= k < |ranges| => Range(2 * ranges[k].start, 2 * ranges[k].len))
  }

  function Blanked(text: string, ranges: seq<Range>): string {
    seq(|text|, i requires 0 <= i < |text| => if Covers(ranges, i) then '0' else text[i])
  }

  function ZeroText(n: nat): string {
    seq(n, _ => '0')
  }

  /** The ranges by ascending start, equal starts in their old order. */
  function SortByStart(ranges: seq<Range>): seq<Range> {
    if ranges == [] then [] else InsertByStart(SortByStart(ranges[..|ranges| - 1]), ranges[|ranges| - 1])
  }

  function InsertByStart(sorted: seq<Range>, r: Range): seq<Range> {
    if sorted == [] || sorted[|sorted| - 1].start <= r.start then sorted + [r]
    else InsertByStart(sorted[..|sorted| - 1], r) + [sorted[|sorted| - 1]]
  }

  lemma {:induction false} InsertHolds(sorted: seq<Range>, r: Range)
    ensures forall x :: x in InsertByStart(sorted, r) <==> x == r || x in sorted
  {
    if !(sorted == [] || sorted[|sorted| - 1].start <= r.start) {
      InsertHolds(sorted[..|sorted| - 1], r);
      assert sorted == sorted[..|sorted| - 1] + [sorted[|sorted| - 1]];
    }
  }

  lemma {:induction false} SortHolds(ranges: seq<Range>)
    ensures forall x :: x in SortByStart(ranges) <==> x in ranges
  {
    if |ranges| > 0 {
      SortHolds(ranges[..|ranges| - 1]);
      InsertHolds(SortByStart(ranges[..|ranges| - 1]), ranges[|ranges| - 1]);
      assert ranges == ranges[..|ranges| - 1] + [ranges[|ranges| - 1]];
    }
  }

  lemma SameRangesCover(a: seq<Range>, b: seq<Range>, i: nat)
    requires forall x :: x in a <==> x in b
    ensures Covers(a, i) <==> Covers(b, i)
  {
    if Covers(a, i) {
      var k :| 0 <= k < |a| && a[k].start <= i < a[k].start + a[k].len;
      assert a[k] in b;
    }
    if Covers(b, i) {
      var k :| 0 <= k < |b| && b[k].start <= i < b[k].start + b[k].len;
      assert b[k] in a;
    }
  }

  /** Sorting the positions does not change what is blanked. */
  lemma SortedBlanks(text: string, ranges: seq<Range>)
    ensures Blanked(text, SortByStart(ranges)) == Blanked(text, ranges)
  {
    SortHolds(ranges);
    forall i | 0 <= i < |text| ensures Blanked(text, SortByStart(ranges))[i] == Blanked(text, ranges)[i] {
      SameRangesCover(SortByStart(ranges), ranges, i);
    }
  }

  /**
   Cuts out each placeholder and pastes zeros: the loop over the sorted positions, in
   hex characters. `None` is the panic of slicing an overlap or past the end.
   */
  method CleanPlaceholders(text: string, ranges: seq<Range>) returns (cleaned: Option<string>)
    ensures cleaned == if Apart(ranges, |text|) then Some(Blanked(text, ranges)) else None
  {
    var done, lastEnd := "", 0;
    for k := 0 to |ranges|
      invariant 0 <= lastEnd <= |text| && |done| == lastEnd
      invariant Apart(ranges[..k], lastEnd)
      invariant lastEnd == if k == 0 then 0 else ranges[k - 1].start + ranges[k - 1].len
      invariant done == Blanked(text[..lastEnd], ranges[..k])
    {
      var r := ranges[k];
      if r.start < lastEnd || r.start + r.len > |text| {
        assert k > 0 && r.start < lastEnd ==> ranges[k - 1].start + ranges[k - 1].len > ranges[k].start;
        return None;
      }
      OneMoreBlanked(text, ranges, k, lastEnd);
      done := done + text[lastEnd..r.start] + ZeroText(r.len);
      lastEnd := r.start + r.len;
    }
    assert ranges[..|ranges|] == ranges;
    forall i | lastEnd <= i < |text| ensures !Covers(ranges, i) {}
    assert Blanked(text, ranges) == done + text[lastEnd..];
    cleaned := Some(done + text[lastEnd..]);
  }

  lemma OneMoreBlanked(text: string, ranges: seq<Range>, k: nat, lastEnd: nat)
    requires k < |ranges| && lastEnd <= ranges[k].start && ranges[k].start + ranges[k].len <= |text|
    requires Apart(ranges[..k], lastEnd)
    ensures Apart(ranges[..k + 1], ranges[k].start + ranges[k].len)
    ensures Blanked(text[..ranges[k].start + ranges[k].len], ranges[..k + 1])
         == Blanked(text[..lastEnd], ranges[..k]) + text[lastEnd..ranges[k].start] + ZeroText(ranges[k].len)
  {
    var r := ranges[k];
    assert ranges[..k + 1] == ranges[..k] + [r];
    forall i | 0 <= i < r.start + r.len
      ensures Covers(ranges[..k + 1], i) <==> if i < lastEnd then Covers(ranges[..k], i) else r.start <= i
    {
      CoversMore(ranges, k, i);
    }
  }

  /** `parse_bytecode_with_placeholders`: no code when what is left is not hexadecimal. */
  method ParseBytecode(text: string, links: seq<Range>) returns (code: Option<seq<Byte>>)
    ensures code == if Apart(SortByStart(Doubled(links)), |HexPart(text)|)
                    then Some(Decode(Blanked(HexPart(text), Doubled(links))).Or([]))
                    else None
  {
    var cleaned := CleanPlaceholders(HexPart(text), SortByStart(Doubled(links)));
    SortedBlanks(HexPart(text), Doubled(links));
    code := if cleaned.Some? then Some(Decode(cleaned.value).Or([])) else None;
  }

  function HexPart(text: string): string {
    if "0x" <= text then text[2..] else text
  }

  lemma {:induction false} DecodeAt(s: string, k: nat)
    requires Decode(s).Some? && k < |Decode(s).value|
    ensures |s| == 2 * |Decode(s).value|
    ensures DigitValue(s[2 * k]).Some? && DigitValue(s[2 * k + 1]).Some?
    ensures Decode(s).value[k] == 16 * DigitValue(s[2 * k]).value + DigitValue(s[2 * k + 1]).value
    decreases |s|
  {
    if k > 0 {
      DecodeAt(s[2..], k - 1);
    } else if |Decode(s).value| > 1 {
      DecodeAt(s[2..], 0);
    } else {
      assert Decode(s[2..]).value == [];
      DecodeNothing(s[2..]);
    }
  }

  lemma DecodeNothing(s: string)
    requires Decode(s) == Some([])
    ensures s == ""
  {}

  lemma {:induction false} DecodeDefined(s: string)
    ensures Decode(s).Some?
       <==> |s| % 2 == 0 && forall i :: 0 <= i < |s| ==> DigitValue(s[i]).Some? && DigitValue(s[i]).value < 16
    decreases |s|
  {
    if |s| > 1 {
      DecodeDefined(s[2..]);
      assert forall i :: 2 <= i < |s| ==> s[i] == s[2..][i - 2];
    }
  }

  lemma CoversDoubled(ranges: seq<Range>, k: nat)
    ensures Covers(Doubled(ranges), 2 * k) == Covers(ranges, k) == Covers(Doubled(ranges), 2 * k + 1)
  {
    if Covers(ranges, k) {
      var j :| 0 <= j < |ranges| && ranges[j].start <= k < ranges[j].start + ranges[j].len;
      assert Doubled(ranges)[j] == Range(2 * ranges[j].start, 2 * ranges[j].len);
    }
  }

  lemma DecodedLength(s: string)
    requires Decode(s).Some?
    ensures |s| == 2 * |Decode(s).value|
  {
    if Decode(s).value == [] {
      DecodeNothing(s);
    } else {
      DecodeAt(s, 0);
    }
  }

  /**
   Whatever library addresses are later linked in at the placeholders, the text
   parsed with its placeholders blanked is the linked code with those bytes zeroed.
   */
  lemma ParsedIsLinkedMasked(unlinked: string, linked: string, links: seq<Range>)
    requires |unlinked| == |linked| && Decode(linked).Some?
    requires forall i :: 0 <= i < |unlinked| && !Covers(Doubled(links), i) ==> unlinked[i] == linked[i]
    ensures Decode(Blanked(unlinked, Doubled(links))) == Some(Masked(Decode(linked).value, links))
  {
    var blank := Blanked(unlinked, Doubled(links));
    DecodeDefined(linked);
    forall i | 0 <= i < |blank| ensures DigitValue(blank[i]).Some? && DigitValue(blank[i]).value < 16 {
      assert DigitValue('0') == Some(0);
    }
    DecodeDefined(blank);
    DecodedLength(linked);
    DecodedLength(blank);
    forall k | 0 <= k < |Decode(blank).value| ensures Decode(blank).value[k] == Masked(Decode(linked).value, links)[k] {
      DecodeAt(blank, k);
      DecodeAt(linked, k);
      CoversDoubled(links, k);
    }
    assert Decode(blank).value == Masked(Decode(linked).value, links);
  }

  // ---- From compiler artefacts to entries -------------------------------------------------------

  /** Link references by file and by library, in the order the hash maps happen to yield them. */
  type LinkReferences = seq<seq<seq<Range>>>

  /** A bytecode object of the compiler output; `None` where the output leaves the field out. */
  datatype Artefact = Artefact(text: Option<string>, links: LinkReferences, immutables: seq<seq<Range>>)

  datatype Contract = Contract(bytecode: Option<Artefact>, deployed: Option<Artefact>, isLibrary: bool)

  function Concat<T>(parts: seq<seq<T>>): seq<T> {
    if parts == [] then [] else Concat(parts[..|parts| - 1]) + parts[|parts| - 1]
  }

  lemma {:induction false} ConcatAppend<T>(a: seq<seq<T>>, b: seq<seq<T>>)
    ensures Concat(a + b) == Concat(a) + Concat(b)
    decreases |b|
  {
    if |b| == 0 {
      assert a + b == a;
    } else {
      assert (a + b)[..|a + b| - 1] == a + b[..|b| - 1];
      ConcatAppend(a, b[..|b| - 1]);
    }
  }

  /** Every range of every group is in the flattened list, and nothing else is. */
  lemma {:induction false} ConcatHolds<T>(parts: seq<seq<T>>)
    ensures forall x :: x in Concat(parts) <==> exists k :: 0 <= k < |parts| && x in parts[k]
  {
    if |parts| > 0 {
      var n := |parts| - 1;
      ConcatHolds(parts[..n]);
      forall x ensures x in Concat(parts) <==> exists k :: 0 <= k < |parts| && x in parts[k] {
        if x in Concat(parts[..n]) {
          var k :| 0 <= k < n && x in parts[..n][k];
          assert x in parts[k];
        }
        if x in parts[n] {
          assert x in parts[|parts| - 1];
        }
        if k :| 0 <= k < |parts| && x in parts[k] {
          assert k < n ==> x in parts[..n][k];
        }
      }
    }
  }

  function LinkPositions(links: LinkReferences): seq<Range> {
    Concat(Concat(links))
  }

  /** A position is collected exactly when some library of some file lists it. */
  lemma LinkPositionsHold(links: LinkReferences, r: Range)
    ensures r in LinkPositions(links) <==> exists i, j :: 0 <= i < |links| && 0 <= j < |links[i]| && r in links[i][j]
  {
    ConcatHolds(links);
    ConcatHolds(Concat(links));
    if r in LinkPositions(links) {
      var k :| 0 <= k < |Concat(links)| && r in Concat(links)[k];
      var part := Concat(links)[k];
      assert part in Concat(links);
      var i :| 0 <= i < |links| && part in links[i];
      var j :| 0 <= j < |links[i]| && links[i][j] == part;
      assert r in links[i][j];
    }
    if i, j :| 0 <= i < |links| && 0 <= j < |links[i]| && r in links[i][j] {
      assert links[i][j] in Concat(links);
    }
  }

  method Flatten<T>(parts: seq<seq<T>>) returns (all: seq<T>)
    ensures all == Concat(parts)
  {
    all := [];
    for i := 0 to |parts|
      invariant all == Concat(parts[..i])
    {
      assert parts[..i + 1][..i] == parts[..i];
      all := all + parts[i];
    }
    assert parts[..|parts|] == parts;
  }

  method CollectLinkPositions(links: LinkReferences) returns (all: seq<Range>)
    ensures all == LinkPositions(links)
  {
    all := [];
    for i := 0 to |links|
      invariant all == Concat(Concat(links[..i]))
    {
      assert links[..i + 1][..i] == links[..i];
      ConcatAppend(Concat(links[..i]), links[i]);
      var positions := Flatten(links[i]);
      all := all + positions;
    }
    assert links[..|links|] == links;
  }

  /** What an artefact parses to; an absent one is no code, and `None` is the panic on overlapping placeholders. */
  function ParsedCode(artefact: Option<Artefact>): Option<seq<Byte>> {
    if artefact.None? then Some([])
    else
      var text, links := HexPart(artefact.value.text.Or("")), LinkPositions(artefact.value.links);
      if Apart(SortByStart(Doubled(links)), |text|) then Some(Decode(Blanked(text, Doubled(links))).Or([])) else None
  }

  function LinksOf(artefact: Option<Artefact>): seq<Range> {
    if artefact.None? then [] else LinkPositions(artefact.value.links)
  }

  function CompiledOf(c: Contract): Option<Compiled> {
    var deployed, initcode := ParsedCode(c.deployed), ParsedCode(c.bytecode);
    if deployed.None? || initcode.None? then None
    else
      Some(Compiled(deployed.value, LinksOf(c.deployed), if c.deployed.Some? then Concat(c.deployed.value.immutables) else [],
                    initcode.value, LinksOf(c.bytecode), c.isLibrary))
  }

  function AllCompiled(contracts: seq<Contract>): Option<seq<Compiled>> {
    if contracts == [] then Some([])
    else
      var before, last := AllCompiled(contracts[..|contracts| - 1]), CompiledOf(contracts[|contracts| - 1]);
      if before.None? || last.None? then None else Some(before.value + [last.value])
  }

  method ParseArtefact(artefact: Option<Artefact>) returns (code: Option<seq<Byte>>, links: seq<Range>)
    ensures code == ParsedCode(artefact) && links == LinksOf(artefact)
  {
    if artefact.None? {
      return Some([]), [];
    }
    links := CollectLinkPositions(artefact.value.links);
    code := ParseBytecode(artefact.value.text.Or(""), links);
  }

  /** Masks a copy of the code in place and hashes it; no entry for empty code. */
  method IndexEntryFor(hash: Hash, contract: nat, code: seq<Byte>, positions: seq<Range>, isInitcode: bool) returns (entry: seq<IndexEntry>)
    ensures entry == EntryFor(hash, contract, code, positions, isInitcode)
  {
    if code == [] {
      return [];
    }
    var masked := new Byte[|code|](i requires 0 <= i < |code| => code[i]);
    assert masked[..] == code;
    ZeroOutPositions(masked, positions);
    entry := [IndexEntry(contract, hash(masked[..]), positions, isInitcode, |code|)];
  }

  method ContractEntries(hash: Hash, contract: nat, c: Contract) returns (entries: Option<seq<IndexEntry>>)
    ensures entries == if CompiledOf(c).Some? then Some(EntriesOf(hash, contract, CompiledOf(c).value)) else None
  {
    var deployed, deployedLinks := ParseArtefact(c.deployed);
    var initcode, initcodeLinks := ParseArtefact(c.bytecode);
    if deployed.None? || initcode.None? {
      return None;
    }
    var positions := deployedLinks;
    if c.deployed.Some? {
      var immutables := Flatten(c.deployed.value.immutables);
      positions := positions + immutables;
    }
    if c.isLibrary && deployed.value != [] && deployed.value[0] == 0x73 {
      positions := positions + [Range(1, 20)];
    }
    assert positions == DeployedPositions(CompiledOf(c).value);
    var first := IndexEntryFor(hash, contract, deployed.value, positions, false);
    var second := IndexEntryFor(hash, contract, initcode.value, initcodeLinks, true);
    entries := Some(first + second);
  }

  /** The entries of a list of contracts; `None` when one of them panics. */
  function EntriesFrom(hash: Hash, contracts: seq<Contract>): Option<seq<IndexEntry>> {
    if AllCompiled(contracts).None? then None else Some(AllEntries(hash, AllCompiled(contracts).value))
  }

  lemma {:induction false} CompiledLength(contracts: seq<Contract>)
    ensures AllCompiled(contracts).Some? ==> |AllCompiled(contracts).value| == |contracts|
  {
    if |contracts| > 0 {
      CompiledLength(contracts[..|contracts| - 1]);
    }
  }

  lemma EntriesGrow(hash: Hash, contracts: seq<Contract>, c: Contract)
    ensures EntriesFrom(hash, contracts + [c])
         == if EntriesFrom(hash, contracts).None? || CompiledOf(c).None? then None
            else Some(EntriesFrom(hash, contracts).value + EntriesOf(hash, |contracts|, CompiledOf(c).value))
  {
    assert (contracts + [c])[..|contracts|] == contracts;
    CompiledLength(contracts);
    if AllCompiled(contracts).Some? && CompiledOf(c).Some? {
      var before := AllCompiled(contracts).value;
      assert (before + [CompiledOf(c).value])[..|before|] == before;
    }
  }

  /** The entries of all contracts in order, from the compiler's artefacts. */
  method CollectEntries(hash: Hash, contracts: seq<Contract>) returns (all: Option<seq<IndexEntry>>)
    ensures all == EntriesFrom(hash, contracts)
  {
    all := Some([]);
    ghost var done := [];
    for c := 0 to |contracts|
      invariant done == contracts[..c] && all == EntriesFrom(hash, done)
    {
      var entries := ContractEntries(hash, c, contracts[c]);
      EntriesGrow(hash, done, contracts[c]);
      all := if all.None? || entries.None? then None else Some(all.value + entries.value);
      done := done + [contracts[c]];
    }
    assert done == contracts;
  }

  /** `BytecodeIndex::new`. */
  method NewIndex(hash: Hash, contracts: seq<Contract>) returns (index: Option<Index>)
    ensures index.Some? <==> AllCompiled(contracts).Some?
    ensures index.Some? ==> index.value.Valid() && index.value.hash == hash
                            && index.value.entries == AllEntries(hash, AllCompiled(contracts).value)
  {
    var entries := CollectEntries(hash, contracts);
    if entries.None? {
      return None;
    }
    var made := new Index(hash, entries.value);
    index := Some(made);
  }

  /** The `0x` in front of an object is optional, and an object without text has no code. */
  lemma PrefixIsOptional(links: LinkReferences, immutables: seq<seq<Range>>, text: string)
    requires !("0x" <= text)
    ensures ParsedCode(Some(Artefact(Some("0x" + text), links, immutables))) == ParsedCode(Some(Artefact(Some(text), links, immutables)))
    ensures ParsedCode(Some(Artefact(None, [], immutables))) == Some([]) == ParsedCode(None)
  {
    assert ("0x" + text)[2..] == text && LinkPositions([]) == [] && SortByStart(Doubled([])) == [];
    assert Blanked("", []) == "";
  }

  /** The code an object parses to is the code with any libraries linked into it, with the linked bytes zeroed. */
  lemma ParsedCodeIsLinked(artefact: Artefact, unlinked: string, linked: string)
    requires artefact.text == Some("0x" + unlinked) && |unlinked| == |linked| && Decode(linked).Some?
    requires Apart(SortByStart(Doubled(LinkPositions(artefact.links))), |unlinked|)
    requires forall i :: 0 <= i < |unlinked| && !Linked(artefact.links, i / 2) ==> unlinked[i] == linked[i]
    ensures var code := ParsedCode(Some(artefact));
            && code.Some? && |code.value| == |Decode(linked).value|
            && forall i :: 0 <= i < |code.value| ==> code.value[i] == if Linked(artefact.links, i) then 0 else Decode(linked).value[i]
  {
    var positions := LinkPositions(artefact.links);
    assert ("0x" + unlinked)[2..] == unlinked;
    forall i | 0 <= i < |unlinked| && !Covers(Doubled(positions), i) ensures unlinked[i] == linked[i] {
      CoversDoubled(positions, i / 2);
      CoversLinks(artefact.links, i / 2);
      assert i == 2 * (i / 2) || i == 2 * (i / 2) + 1;
    }
    ParsedIsLinkedMasked(unlinked, linked, positions);
    forall i: nat ensures Covers(positions, i) <==> Linked(artefact.links, i) {
      CoversLinks(artefact.links, i);
    }
  }

  // ---- What a match means, from the compiler's artefacts -----------------------------------------

  /** Byte `i` lies in a link reference of some library of some file. */
  predicate Linked(links: LinkReferences, i: nat) {
    exists f, l, k :: 0 <= f < |links| && 0 <= l < |links[f]| && 0 <= k < |links[f][l]|
                      && links[f][l][k].start <= i < links[f][l][k].start + links[f][l][k].len
  }

  /** Byte `i` lies in a reference to some immutable. */
  predicate Immutable(immutables: seq<seq<Range>>, i: nat) {
    exists g, k :: 0 <= g < |immutables| && 0 <= k < |immutables[g]|
                   && immutables[g][k].start <= i < immutables[g][k].start + immutables[g][k].len
  }

  /** The bytecode is the contract's deployed code, but for linked bytes, immutables, and the address a library pushes first. */
  ghost predicate RunsDeployed(c: Contract, raw: seq<Byte>) {
    && c.deployed.Some? && ParsedCode(c.deployed).Some?
    && var code := ParsedCode(c.deployed).value;
       && code != [] && |raw| == |code|
       && forall i :: 0 <= i < |raw| ==>
            raw[i] == code[i] || Linked(c.deployed.value.links, i) || Immutable(c.deployed.value.immutables, i)
            || (c.isLibrary && code[0] == 0x73 && 1 <= i <= 20)
  }

  /** The bytecode is the contract's initcode, but for linked bytes. */
  ghost predicate RunsInitcode(c: Contract, raw: seq<Byte>) {
    && c.bytecode.Some? && ParsedCode(c.bytecode).Some?
    && var code := ParsedCode(c.bytecode).value;
       && code != [] && |raw| == |code|
       && forall i :: 0 <= i < |raw| ==> raw[i] == code[i] || Linked(c.bytecode.value.links, i)
  }

  lemma CoversMember(positions: seq<Range>, i: nat)
    ensures Covers(positions, i) <==> exists r :: r in positions && r.start <= i < r.start + r.len
  {
    if r :| r in positions && r.start <= i < r.start + r.len {
      var k :| 0 <= k < |positions| && positions[k] == r;
      assert positions[k].start <= i < positions[k].start + positions[k].len;
    }
  }

  lemma CoversConcat(a: seq<Range>, b: seq<Range>, i: nat)
    ensures Covers(a + b, i) <==> Covers(a, i) || Covers(b, i)
  {
    CoversMember(a, i);
    CoversMember(b, i);
    CoversMember(a + b, i);
  }

  lemma CoversLinks(links: LinkReferences, i: nat)
    ensures Covers(LinkPositions(links), i) <==> Linked(links, i)
  {
    CoversMember(LinkPositions(links), i);
    if Covers(LinkPositions(links), i) {
      var r :| r in LinkPositions(links) && r.start <= i < r.start + r.len;
      LinkPositionsHold(links, r);
      var f, l :| 0 <= f < |links| && 0 <= l < |links[f]| && r in links[f][l];
      var k :| 0 <= k < |links[f][l]| && links[f][l][k] == r;
      assert links[f][l][k].start <= i < links[f][l][k].start + links[f][l][k].len;
    }
    if Linked(links, i) {
      var f, l, k :| 0 <= f < |links| && 0 <= l < |links[f]| && 0 <= k < |links[f][l]|
                     && links[f][l][k].start <= i < links[f][l][k].start + links[f][l][k].len;
      LinkPositionsHold(links, links[f][l][k]);
    }
  }

  lemma CoversImmutables(immutables: seq<seq<Range>>, i: nat)
    ensures Covers(Concat(immutables), i) <==> Immutable(immutables, i)
  {
    CoversMember(Concat(immutables), i);
    ConcatHolds(immutables);
    if Covers(Concat(immutables), i) {
      var r :| r in Concat(immutables) && r.start <= i < r.start + r.len;
      var g :| 0 <= g < |immutables| && r in immutables[g];
      var k :| 0 <= k < |immutables[g]| && immutables[g][k] == r;
      assert immutables[g][k].start <= i < immutables[g][k].start + immutables[g][k].len;
    }
    if Immutable(immutables, i) {
      var g, k :| 0 <= g < |immutables| && 0 <= k < |immutables[g]|
                  && immutables[g][k].start <= i < immutables[g][k].start + immutables[g][k].len;
      assert immutables[g][k] in Concat(immutables);
    }
  }

  lemma CoversDeployed(c: Contract, i: nat)
    requires CompiledOf(c).Some? && c.deployed.Some? && ParsedCode(c.deployed).value != []
    ensures Covers(DeployedPositions(CompiledOf(c).value), i)
       <==> Linked(c.deployed.value.links, i) || Immutable(c.deployed.value.immutables, i)
            || (c.isLibrary && ParsedCode(c.deployed).value[0] == 0x73 && 1 <= i <= 20)
  {
    var compiled := CompiledOf(c).value;
    var own := if c.isLibrary && compiled.deployed[0] == 0x73 then [Range(1, 20)] else [];
    assert DeployedPositions(compiled) == compiled.deployedLinks + compiled.immutables + own;
    CoversConcat(compiled.deployedLinks + compiled.immutables, own, i);
    CoversConcat(compiled.deployedLinks, compiled.immutables, i);
    CoversLinks(c.deployed.value.links, i);
    CoversImmutables(c.deployed.value.immutables, i);
    CoversMember(own, i);
    assert own != [] ==> own[0] in own;
  }

  lemma DeployedAgreesIff(c: Contract, raw: seq<Byte>)
    requires CompiledOf(c).Some?
    ensures AgreesWith(CompiledOf(c).value.deployed, DeployedPositions(CompiledOf(c).value), raw) <==> RunsDeployed(c, raw)
  {
    var code := CompiledOf(c).value.deployed;
    if code != [] && |raw| == |code| {
      forall i: nat
        ensures Covers(DeployedPositions(CompiledOf(c).value), i)
           <==> Linked(c.deployed.value.links, i) || Immutable(c.deployed.value.immutables, i) || (c.isLibrary && code[0] == 0x73 && 1 <= i <= 20)
      {
        CoversDeployed(c, i);
      }
    }
  }

  lemma InitcodeAgreesIff(c: Contract, raw: seq<Byte>)
    requires CompiledOf(c).Some?
    ensures AgreesWith(CompiledOf(c).value.initcode, CompiledOf(c).value.initcodeLinks, raw) <==> RunsInitcode(c, raw)
  {
    var code := CompiledOf(c).value.initcode;
    if code != [] && |raw| == |code| {
      forall i: nat ensures Covers(CompiledOf(c).value.initcodeLinks, i) <==> Linked(c.bytecode.value.links, i) {
        CoversLinks(c.bytecode.value.links, i);
      }
    }
  }

  /** The first contract whose deployed code, or else whose initcode, the bytecode is. */
  ghost predicate FirstMatch(contracts: seq<Contract>, raw: seq<Byte>, found: Option<(nat, bool)>) {
    match found
    case None => forall n :: 0 <= n < |contracts| ==> !RunsDeployed(contracts[n], raw) && !RunsInitcode(contracts[n], raw)
    case Some((m, isInitcode)) =>
      && m < |contracts|
      && (if isInitcode then RunsInitcode(contracts[m], raw) && !RunsDeployed(contracts[m], raw) else RunsDeployed(contracts[m], raw))
      && forall n :: 0 <= n < m ==> !RunsDeployed(contracts[n], raw) && !RunsInitcode(contracts[n], raw)
  }

  ghost function MatchIn(n: nat, c: Contract, raw: seq<Byte>): Option<(nat, bool)> {
    if RunsDeployed(c, raw) then Some((n, false)) else if RunsInitcode(c, raw) then Some((n, true)) else None
  }

  lemma FirstMatchExtends(contracts: seq<Contract>, raw: seq<Byte>, found: Option<(nat, bool)>)
    requires |contracts| > 0 && FirstMatch(contracts[..|contracts| - 1], raw, found)
    ensures FirstMatch(contracts, raw, if found.Some? then found else MatchIn(|contracts| - 1, contracts[|contracts| - 1], raw))
  {
    assert forall n :: 0 <= n < |contracts| - 1 ==> contracts[..|contracts| - 1][n] == contracts[n];
  }

  lemma LastCompiled(contracts: seq<Contract>)
    requires |contracts| > 0 && AllCompiled(contracts).Some?
    ensures var n, compiled := |contracts| - 1, AllCompiled(contracts).value;
            && CompiledOf(contracts[n]).Some? && AllCompiled(contracts[..n]).Some? && |compiled| == |contracts|
            && compiled[..n] == AllCompiled(contracts[..n]).value && compiled[n] == CompiledOf(contracts[n]).value
  {
    CompiledLength(contracts[..|contracts| - 1]);
  }

  lemma {:induction false} FirstAgreeingIsFirstMatch(contracts: seq<Contract>, raw: seq<Byte>)
    requires AllCompiled(contracts).Some?
    ensures FirstMatch(contracts, raw, FirstAgreeing(AllCompiled(contracts).value, raw))
  {
    if |contracts| == 0 {
      assert contracts == [];
    } else {
      var n := |contracts| - 1;
      LastCompiled(contracts);
      FirstAgreeingIsFirstMatch(contracts[..n], raw);
      DeployedAgreesIff(contracts[n], raw);
      InitcodeAgreesIff(contracts[n], raw);
      FirstMatchExtends(contracts, raw, FirstAgreeing(AllCompiled(contracts[..n]).value, raw));
    }
  }

  /**
   Under an injective hash, searching an index built from the compiler's artefacts finds the first contract whose
   code the bytecode is, deployed code before initcode, wherever libraries were linked and immutables set.
   */
  lemma FindMeansFirstMatch(hash: Hash, contracts: seq<Contract>, raw: seq<Byte>)
    requires Injective(hash) && AllCompiled(contracts).Some?
    ensures FirstMatch(contracts, raw, FindFresh(hash, AllEntries(hash, AllCompiled(contracts).value), raw))
  {
    FindMeansAgreement(hash, AllCompiled(contracts).value, raw);
    FirstAgreeingIsFirstMatch(contracts, raw);
  }
}
