/** Stop filters and the finding ids they record; an id must identify its failure when parsed back. */
module StopFilters {
  import opened Basics
  import opened Hex

  datatype TxResult = TxResult(success: bool, output: Option<seq<Byte>>, reportsBroken: bool)

  type Selector = s: seq<Byte> | |s| == 4 witness [0, 0, 0, 0]

  /** `Panic::abi_decode`, as some fixed partial function of the output. */
  type PanicDecoder = seq<Byte> -> Option<U256>

  const REVERT := "REVERT:"
  const PANIC := "PANIC:"

  function StripPrefix(s: string, prefix: string): Option<string> {
    if prefix <= s then Some(s[|prefix|..]) else None
  }

  lemma Stripped(prefix: string, suffix: string)
    ensures StripPrefix(prefix + suffix, prefix) == Some(suffix)
  {}

  // ---- Reverts ------------------------------------------------------------------------

  datatype StopOnRevert = AnyRevert | OnSelector(selector: Selector)

  predicate Reverts(f: StopOnRevert, r: TxResult) {
    !r.success &&
    match f
    case AnyRevert => !r.reportsBroken
    case OnSelector(selector) => r.output.Some? && |r.output.value| >= 4 && r.output.value[..4] == selector
  }

  function RevertSuffix(r: TxResult): string {
    match r.output
    case Some(output) =>
      if |output| >= 4 then "0x" + Encode(output[..4])
      else if output == [] then "empty"
      else "0x" + Encode(output)
    case None => "halt"
  }

  function RevertId(r: TxResult): string {
    REVERT + RevertSuffix(r)
  }

  predicate MatchesRevertId(r: TxResult, id: string) {
    var suffix := StripPrefix(id, REVERT);
    if suffix.None? || r.success then false
    else if suffix.value == "halt" then r.output.None?
    else if suffix.value == "empty" then r.output == Some([])
    else
      var digits := StripPrefix(suffix.value, "0x");
      if digits.None? || Decode(digits.value).None? then false
      else
        var selector := Decode(digits.value).value;
        r.output.Some? &&
        if |selector| == 4 then |r.output.value| >= 4 && r.output.value[..4] == selector
        else r.output.value == selector
  }

  lemma SuffixKinds(hex: string)
    ensures "0x" + hex != "halt" && "0x" + hex != "empty"
  {
    assert ("0x" + hex)[0] == '0';
  }

  /** The bytes an id names: the selector of a long output, or all of a short one. */
  function Named(output: seq<Byte>): seq<Byte> {
    if |output| >= 4 then output[..4] else output
  }

  lemma RevertSuffixesEqual(r1: TxResult, r2: TxResult)
    ensures RevertSuffix(r1) == RevertSuffix(r2)
       <==> (match (r1.output, r2.output)
             case (Some(a), Some(b)) => Named(a) == Named(b)
             case (None, None) => true
             case _ => false)
  {
    if r1.output.Some? {
      SuffixKinds(Encode(Named(r1.output.value)));
    }
    if r2.output.Some? {
      SuffixKinds(Encode(Named(r2.output.value)));
    }
    if r1.output.Some? && r2.output.Some? {
      var a, b := Named(r1.output.value), Named(r2.output.value);
      EncodeInjective(a, b);
      if a != [] {
        Stripped("0x", Encode(a));
      }
      if b != [] {
        Stripped("0x", Encode(b));
      }
    }
  }

  lemma MatchesNamed(r1: TxResult, r2: TxResult)
    requires !r2.success
    ensures MatchesRevertId(r2, RevertId(r1))
       <==> (match (r1.output, r2.output)
             case (Some(a), Some(b)) => Named(a) == Named(b)
             case (None, None) => true
             case _ => false)
  {
    Stripped(REVERT, RevertSuffix(r1));
    if r1.output.Some? && r1.output.value != [] {
      var a := Named(r1.output.value);
      SuffixKinds(Encode(a));
      Stripped("0x", Encode(a));
      DecodeEncode(a);
    }
  }

  /** Replaying a failure reproduces a revert finding exactly when it would be recorded under the same id. */
  lemma RevertIdIdentifies(r1: TxResult, r2: TxResult)
    requires !r1.success && !r2.success
    ensures MatchesRevertId(r2, RevertId(r1)) <==> RevertId(r1) == RevertId(r2)
  {
    RevertSuffixesEqual(r1, r2);
    MatchesNamed(r1, r2);
    Stripped(REVERT, RevertSuffix(r1));
    Stripped(REVERT, RevertSuffix(r2));
  }

  function PrintRevertFilter(f: StopOnRevert): string {
    match f
    case AnyRevert => "any"
    case OnSelector(selector) => "0x" + Encode(selector)
  }

  function ParseRevertFilter(s: string): Option<StopOnRevert> {
    if s == "any" || s == "*" then Some(AnyRevert)
    else
      var digits := StripPrefix(s, "0x");
      if digits.None? || |digits.value| != 8 then None
      else
        match Decode(digits.value)
        case Some(bytes) => if |bytes| == 4 then Some(OnSelector(bytes)) else None
        case None => None
  }

  lemma RevertFilterRoundTrip(f: StopOnRevert)
    ensures ParseRevertFilter(PrintRevertFilter(f)) == Some(f)
  {
    if f.OnSelector? {
      Stripped("0x", Encode(f.selector));
      DecodeEncode(f.selector);
      assert PrintRevertFilter(f)[0] == '0';
    }
  }

  /** A selector filter halts on exactly the failures whose id is its own printed form. */
  lemma SelectorFilterMeansId(selector: Selector, r: TxResult)
    ensures Reverts(OnSelector(selector), r) <==> !r.success && RevertId(r) == REVERT + PrintRevertFilter(OnSelector(selector))
  {
    var named := TxResult(false, Some(selector), false);
    assert selector[..4] == selector;
    RevertSuffixesEqual(r, named);
    Stripped(REVERT, RevertSuffix(r));
    Stripped(REVERT, RevertSuffix(named));
    if r.output.Some? {
      assert |Named(r.output.value)| == 4 ==> Named(r.output.value) == r.output.value[..4];
    }
  }

  // ---- Panics ---------------------------------------------------------------------------

  datatype StopOnPanic = AnyPanic | OnCode(code: U256)

  function PanicCode(decoder: PanicDecoder, r: TxResult): Option<U256> {
    if r.output.Some? then decoder(r.output.value) else None
  }

  predicate Panics(decoder: PanicDecoder, f: StopOnPanic, r: TxResult) {
    && !r.success && PanicCode(decoder, r).Some?
    && (f.OnCode? ==> PanicCode(decoder, r).value == f.code)
  }

  function PanicSuffix(decoder: PanicDecoder, r: TxResult): string {
    match PanicCode(decoder, r)
    case Some(code) => "0x" + LowerHex2(code)
    case None => "unknown"
  }

  function PanicId(decoder: PanicDecoder, r: TxResult): string {
    PANIC + PanicSuffix(decoder, r)
  }

  predicate MatchesPanicId(decoder: PanicDecoder, r: TxResult, id: string) {
    var suffix := StripPrefix(id, PANIC);
    if suffix.None? || r.success then false
    else if suffix.value == "unknown" then PanicCode(decoder, r).Some?
    else
      var digits := StripPrefix(suffix.value, "0x");
      if digits.None? || ParseU256(digits.value, 16).None? then false
      else
        var code := ParseU256(digits.value, 16).value;
        PanicCode(decoder, r) == Some(code)
  }

  lemma LowerHex2Injective(a: U256, b: U256)
    ensures LowerHex2(a) == LowerHex2(b) <==> a == b
  {
    ParseLowerHex2(a);
    ParseLowerHex2(b);
  }

  lemma CodeIsNotUnknown(code: U256)
    ensures "0x" + LowerHex2(code) != "unknown"
  {
    assert ("0x" + LowerHex2(code))[0] == '0';
  }

  lemma PanicIdsEqual(decoder: PanicDecoder, r1: TxResult, r2: TxResult)
    ensures PanicId(decoder, r1) == PanicId(decoder, r2) <==> PanicCode(decoder, r1) == PanicCode(decoder, r2)
  {
    var p1, p2 := PanicCode(decoder, r1), PanicCode(decoder, r2);
    Stripped(PANIC, PanicSuffix(decoder, r1));
    Stripped(PANIC, PanicSuffix(decoder, r2));
    if p1.Some? {
      CodeIsNotUnknown(p1.value);
      Stripped("0x", LowerHex2(p1.value));
    }
    if p2.Some? {
      CodeIsNotUnknown(p2.value);
      Stripped("0x", LowerHex2(p2.value));
    }
    if p1.Some? && p2.Some? {
      LowerHex2Injective(p1.value, p2.value);
    }
  }

  /**
   Over failing results, matching a panic id means having the same id exactly when
   the recorded result was a decodable panic, which is all the filter ever records.
   */
  lemma PanicIdIdentifiesIff(decoder: PanicDecoder, r1: TxResult, r2: TxResult)
    requires !r1.success && !r2.success
    ensures (MatchesPanicId(decoder, r2, PanicId(decoder, r1)) <==> PanicId(decoder, r1) == PanicId(decoder, r2))
       <==> PanicCode(decoder, r1).Some?
    ensures forall f :: Panics(decoder, f, r1) ==> PanicCode(decoder, r1).Some?
  {
    PanicIdsEqual(decoder, r1, r2);
    Stripped(PANIC, PanicSuffix(decoder, r1));
    if PanicCode(decoder, r1).Some? {
      var code := PanicCode(decoder, r1).value;
      CodeIsNotUnknown(code);
      Stripped("0x", LowerHex2(code));
      ParseLowerHex2(code);
    }
  }

  function PrintPanicFilter(f: StopOnPanic): string {
    match f
    case AnyPanic => "any"
    case OnCode(code) => "0x" + LowerHex2(code)
  }

  /** Without the lower-case `0x`, the number parser looks for its own radix prefixes before reading decimal. */
  function ParseNumber(s: string): Option<nat> {
    if |s| >= 2 && s[0] == '0' && (s[1] == 'x' || s[1] == 'X') then ParseU256(s[2..], 16)
    else if |s| >= 2 && s[0] == '0' && (s[1] == 'o' || s[1] == 'O') then ParseU256(s[2..], 8)
    else if |s| >= 2 && s[0] == '0' && (s[1] == 'b' || s[1] == 'B') then ParseU256(s[2..], 2)
    else ParseU256(s, 10)
  }

  function ParsePanicFilter(s: string): Option<StopOnPanic> {
    if s == "any" || s == "*" then Some(AnyPanic)
    else
      var digits := StripPrefix(s, "0x");
      match (if digits.Some? then ParseU256(digits.value, 16) else ParseNumber(s))
      case Some(code) => Some(OnCode(code))
      case None => None
  }

  lemma PanicFilterRoundTrip(f: StopOnPanic)
    ensures ParsePanicFilter(PrintPanicFilter(f)) == Some(f)
  {
    if f.OnCode? {
      Stripped("0x", LowerHex2(f.code));
      ParseLowerHex2(f.code);
      assert PrintPanicFilter(f)[0] == '0';
    }
  }

  /** A code filter halts on exactly the failures whose id is its own printed form. */
  lemma CodeFilterMeansId(decoder: PanicDecoder, code: U256, r: TxResult)
    ensures Panics(decoder, OnCode(code), r) <==> !r.success && PanicId(decoder, r) == PANIC + PrintPanicFilter(OnCode(code))
  {
    Stripped(PANIC, PanicSuffix(decoder, r));
    Stripped(PANIC, "0x" + LowerHex2(code));
    Stripped("0x", LowerHex2(code));
    CodeIsNotUnknown(code);
    if PanicCode(decoder, r).Some? {
      var other := PanicCode(decoder, r).value;
      Stripped("0x", LowerHex2(other));
      LowerHex2Injective(code, other);
    }
  }

  // ---- The filters' words ---------------------------------------------------------------------

  /** Any failure that does not report a broken invariant itself halts an `any` revert filter; any decodable panic an `any` panic filter. */
  lemma AnyFiltersMatch(decoder: PanicDecoder, r: TxResult)
    ensures Reverts(AnyRevert, r) <==> !r.success && !r.reportsBroken
    ensures Panics(decoder, AnyPanic, r) <==> !r.success && r.output.Some? && decoder(r.output.value).Some?
  {}

  /** The text of a revert id: halt, empty, or the lower-case hex of the first four bytes or of all of a shorter output. */
  lemma RevertIdText(r: TxResult)
    ensures RevertId(r)
         == if r.output.None? then "REVERT:halt"
            else if r.output.value == [] then "REVERT:empty"
            else "REVERT:0x" + Encode(if |r.output.value| >= 4 then r.output.value[..4] else r.output.value)
  {
    assert "REVERT:" + ("0x" + Encode(Named(r.output.Or([])))) == "REVERT:0x" + Encode(Named(r.output.Or([])));
  }

  /** A successful result, or an id without the prefix, matches nothing. */
  lemma NoMatch(decoder: PanicDecoder, r: TxResult, id: string)
    ensures r.success || !("REVERT:" <= id) ==> !MatchesRevertId(r, id)
    ensures r.success || !("PANIC:" <= id) ==> !MatchesPanicId(decoder, r, id)
  {}

  /** `any`, `*`, or `0x` and eight hex digits of either case; nothing else is a revert filter. */
  lemma RevertFilterIs(s: string, selector: Selector)
    ensures ParseRevertFilter(s) == Some(AnyRevert) <==> s == "any" || s == "*"
    ensures ParseRevertFilter(s) == Some(OnSelector(selector))
       <==> |s| == 10 && s[0] == '0' && s[1] == 'x' && Decode(s[2..]) == Some(selector)
  {
    if "0x" <= s {
      assert s[0] == "0x"[0] && s[1] == "0x"[1];
    }
    if |s| == 10 && s[0] == '0' && s[1] == 'x' {
      assert s[..2] == "0x";
    }
  }

  /** A panic code may be given in decimal, or in hexadecimal, octal or binary after its prefix. */
  lemma PanicFilterRadixes(code: U256)
    ensures ParsePanicFilter("any") == ParsePanicFilter("*") == Some(AnyPanic)
    ensures ParsePanicFilter(Print(code, 10)) == Some(OnCode(code))
    ensures ParsePanicFilter("0x" + Print(code, 16)) == Some(OnCode(code))
    ensures ParsePanicFilter("0X" + Print(code, 16)) == Some(OnCode(code))
    ensures ParsePanicFilter("0o" + Print(code, 8)) == Some(OnCode(code))
    ensures ParsePanicFilter("0b" + Print(code, 2)) == Some(OnCode(code))
  {
    DecimalPanicFilter(code);
    PrefixedPanicFilter("0x", code, 16);
    PrefixedPanicFilter("0X", code, 16);
    PrefixedPanicFilter("0o", code, 8);
    PrefixedPanicFilter("0b", code, 2);
  }

  lemma DecimalPanicFilter(code: U256)
    ensures ParsePanicFilter(Print(code, 10)) == Some(OnCode(code))
  {
    DecimalDigits(code);
    ParsePrintU256(code, 10);
    PrintLeads(code, 10);
    PlainNumber(Print(code, 10));
  }

  /** Text of decimal digits is not a wildcard and has no radix prefix. */
  lemma PlainNumber(s: string)
    requires s != "" && forall k :: 0 <= k < |s| ==> '0' <= s[k] <= '9'
    ensures s != "any" && s != "*" && !("0x" <= s) && ParseNumber(s) == ParseU256(s, 10)
  {
    assert s[0] != 'a' && s[0] != '*' && (|s| > 1 ==> s[1] != 'x');
    assert "any"[0] == 'a' && "*"[0] == '*' && "0x"[1] == 'x';
  }

  /** Decimal text has no letters. */
  lemma {:induction false} DecimalDigits(n: nat)
    ensures forall k :: 0 <= k < |Print(n, 10)| ==> '0' <= Print(n, 10)[k] <= '9'
  {
    if n >= 10 {
      DecimalDigits(n / 10);
    }
  }

  lemma PrefixedPanicFilter(prefix: string, code: U256, radix: nat)
    requires (prefix == "0x" && radix == 16) || (prefix == "0X" && radix == 16) || (prefix == "0o" && radix == 8) || (prefix == "0b" && radix == 2)
    ensures ParsePanicFilter(prefix + Print(code, radix)) == Some(OnCode(code))
  {
    var s := prefix + Print(code, radix);
    ParsePrintU256(code, radix);
    assert s[0] == '0' && s[1] == prefix[1] && s[2..] == Print(code, radix);
    assert s != "any" && s != "*";
    if prefix == "0x" {
      Stripped("0x", Print(code, radix));
    } else {
      assert "0x"[1] == 'x' && s[1] != 'x';
    }
  }
}
