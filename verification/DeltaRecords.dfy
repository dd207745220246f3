/** Signed value deltas and the per-class extreme deltas of a max campaign. */
module DeltaRecords {
  import opened Basics

  datatype Delta = Delta(negative: bool, magnitude: U256) {
    /** Zero is never negative; every delta that `New` builds is normal. */
    predicate Normal() {
      magnitude == 0 ==> !negative
    }

    function ToInt(): int {
      if negative then -(magnitude as int) else magnitude as int
    }

    predicate IsZero() {
      magnitude == 0
    }

    predicate IsPositive() {
      !negative && magnitude != 0
    }

    /** Eight times one more than the bit length, saturating; zero for a flat call. */
    function Activity(): nat {
      if IsZero() then 0 else Min(SatAdd64(BitLen(magnitude), 1) * 8, TWO_64 - 1)
    }
  }

  datatype Ordering = Less | Equal | Greater

  function New(negative: bool, magnitude: U256): Delta {
    if magnitude == 0 then Delta(false, magnitude) else Delta(negative, magnitude)
  }

  function Between(before: U256, after: U256): Delta {
    if after >= before then New(false, after - before) else New(true, before - after)
  }

  function Compare(a: U256, b: U256): Ordering {
    if a < b then Less else if a == b then Equal else Greater
  }

  function Cmp(a: Delta, b: Delta): Ordering {
    match (a.negative, b.negative)
    case (true, false) => Less
    case (false, true) => Greater
    case (true, true) => Compare(b.magnitude, a.magnitude)
    case (false, false) => Compare(a.magnitude, b.magnitude)
  }

  /** A delta is the signed difference, exactly; nothing wraps at 2^255 or 2^256. */
  lemma BetweenIsDifference(before: U256, after: U256)
    ensures Between(before, after).ToInt() == after - before
    ensures Between(before, after).Normal()
    ensures New(Between(before, after).negative, Between(before, after).magnitude) == Between(before, after)
    ensures forall d: Delta :: d.Normal() && d.ToInt() == after - before ==> d == Between(before, after)
  {}

  /** The order is the order of the integers, and equality in it is equality. */
  lemma CmpIsIntegerOrder(a: Delta, b: Delta)
    requires a.Normal() && b.Normal()
    ensures Cmp(a, b) == Less <==> a.ToInt() < b.ToInt()
    ensures Cmp(a, b) == Greater <==> a.ToInt() > b.ToInt()
    ensures Cmp(a, b) == Equal <==> a == b
  {}

  /** Of two moves the larger never has the smaller sampling weight, and only a flat call has none. */
  lemma ActivityFollowsSize(a: Delta, b: Delta)
    requires a.magnitude <= b.magnitude
    ensures a.Activity() <= b.Activity()
    ensures b.Activity() == 0 <==> b.ToInt() == 0
  {
    BitLenMonotone(a.magnitude, b.magnitude);
  }

  /** A move weighs eight times one more than the binary digits of its size; a flat call weighs nothing. */
  lemma ActivityIs(before: U256, after: U256, bits: nat)
    requires HasBits(if after >= before then after - before else before - after, bits) && bits <= 256
    ensures Between(before, after).Activity() == if before == after then 0 else 8 * (bits + 1)
  {
    BitLenIs(if after >= before then after - before else before - after, bits);
  }

  // ---- Records --------------------------------------------------------------------------

  /** A class is the selectors of the calls before, and the selector of the call. */
  datatype Class = Class(prefix: seq<nat>, handler: nat)

  datatype ClassRecord = ClassRecord(min: Delta, max: Delta)

  datatype Observation = Observation(newMin: bool, newMax: bool, recovery: bool)

  const NOTHING := Observation(false, false, false)

  datatype Sighting = Sighting(class_: Class, delta: Delta, belowBaseline: bool)

  class Records {
    var inner: map<Class, ClassRecord>

    constructor ()
      ensures inner == map[]
    {
      inner := map[];
    }

    method Observe(class_: Class, delta: Delta, belowBaseline: bool) returns (seen: Observation)
      modifies this
      ensures inner == Recorded(old(inner), Sighting(class_, delta, belowBaseline))
      ensures seen == Flags(old(inner), Sighting(class_, delta, belowBaseline))
    {
      if delta.IsZero() {
        return NOTHING;
      }
      var recovery := belowBaseline && delta.IsPositive();
      if class_ !in inner {
        inner := inner[class_ := ClassRecord(delta, delta)];
        return Observation(delta.negative, delta.IsPositive(), recovery);
      }
      var record := inner[class_];
      seen := Observation(delta.negative && Cmp(delta, record.min).Less?, delta.IsPositive() && Cmp(delta, record.max).Greater?, recovery);
      if Cmp(delta, record.min).Less? {
        record := record.(min := delta);
      }
      if Cmp(delta, record.max).Greater? {
        record := record.(max := delta);
      }
      inner := inner[class_ := record];
    }
  }

  function Recorded(inner: map<Class, ClassRecord>, s: Sighting): map<Class, ClassRecord> {
    if s.delta.IsZero() then inner
    else if s.class_ !in inner then inner[s.class_ := ClassRecord(s.delta, s.delta)]
    else
      var r := inner[s.class_];
      inner[s.class_ := ClassRecord(if Cmp(s.delta, r.min).Less? then s.delta else r.min,
                                    if Cmp(s.delta, r.max).Greater? then s.delta else r.max)]
  }

  function Flags(inner: map<Class, ClassRecord>, s: Sighting): Observation {
    if s.delta.IsZero() then NOTHING
    else
      Observation(
        s.delta.negative && (s.class_ in inner ==> Cmp(s.delta, inner[s.class_].min).Less?),
        s.delta.IsPositive() && (s.class_ in inner ==> Cmp(s.delta, inner[s.class_].max).Greater?),
        s.belowBaseline && s.delta.IsPositive())
  }

  function RecordsAfter(history: seq<Sighting>): map<Class, ClassRecord> {
    if history == [] then map[] else Recorded(RecordsAfter(history[..|history| - 1]), history[|history| - 1])
  }

  predicate AllNormal(history: seq<Sighting>) {
    forall k :: 0 <= k < |history| ==> history[k].delta.Normal()
  }

  /** The `k`-th sighting is a non-zero delta of class `c`. */
  predicate Counts(history: seq<Sighting>, k: nat, c: Class)
    requires k < |history|
  {
    history[k].class_ == c && !history[k].delta.IsZero()
  }

  /** `r` bounds every counted delta of the class and is attained at both ends. */
  ghost predicate Extremes(history: seq<Sighting>, c: Class, r: ClassRecord) {
    && r.min.Normal() && r.max.Normal()
    && (forall k :: 0 <= k < |history| && Counts(history, k, c)
          ==> r.min.ToInt() <= history[k].delta.ToInt() <= r.max.ToInt())
    && (exists k :: 0 <= k < |history| && Counts(history, k, c) && history[k].delta == r.min)
    && (exists k :: 0 <= k < |history| && Counts(history, k, c) && history[k].delta == r.max)
  }

  ghost predicate Unseen(history: seq<Sighting>, c: Class) {
    forall k :: 0 <= k < |history| ==> !Counts(history, k, c)
  }

  lemma ExtremesStep(history: seq<Sighting>, c: Class, before: map<Class, ClassRecord>)
    requires |history| > 0 && AllNormal(history)
    requires var h := history[..|history| - 1];
             if c in before then Extremes(h, c, before[c]) else Unseen(h, c)
    ensures var after := Recorded(before, history[|history| - 1]);
            if c in after then Extremes(history, c, after[c]) else Unseen(history, c)
  {
    var n := |history| - 1;
    var h, s := history[..n], history[n];
    var after := Recorded(before, s);
    assert forall k :: 0 <= k < n ==> Counts(history, k, c) == Counts(h, k, c);
    if c in before {
      CmpIsIntegerOrder(s.delta, before[c].min);
      CmpIsIntegerOrder(s.delta, before[c].max);
      var i :| 0 <= i < n && Counts(h, i, c) && h[i].delta == before[c].min;
      var j :| 0 <= j < n && Counts(h, j, c) && h[j].delta == before[c].max;
      assert Counts(history, i, c) && Counts(history, j, c);
    }
    if s.class_ == c && !s.delta.IsZero() {
      assert Counts(history, n, c);
    }
  }

  /** The stored extremes are the least and greatest non-zero deltas ever seen for the class. */
  lemma {:induction false} RecordsAreExtremes(history: seq<Sighting>, c: Class)
    requires AllNormal(history)
    ensures var inner := RecordsAfter(history); if c in inner then Extremes(history, c, inner[c]) else Unseen(history, c)
  {
    if |history| > 0 {
      RecordsAreExtremes(history[..|history| - 1], c);
      ExtremesStep(history, c, RecordsAfter(history[..|history| - 1]));
    }
  }

  /** A flag is raised exactly when the delta beats every earlier non-zero delta of its class. */
  lemma FlagsMeanNewExtreme(history: seq<Sighting>, s: Sighting)
    requires AllNormal(history) && s.delta.Normal()
    ensures var seen := Flags(RecordsAfter(history), s);
            && (seen.newMin <==> s.delta.ToInt() < 0 && forall k :: 0 <= k < |history| && Counts(history, k, s.class_)
                                                              ==> s.delta.ToInt() < history[k].delta.ToInt())
            && (seen.newMax <==> s.delta.ToInt() > 0 && forall k :: 0 <= k < |history| && Counts(history, k, s.class_)
                                                              ==> s.delta.ToInt() > history[k].delta.ToInt())
            && (seen.recovery <==> s.belowBaseline && s.delta.ToInt() > 0)
  {
    RecordsAreExtremes(history, s.class_);
    var inner := RecordsAfter(history);
    if s.class_ in inner {
      CmpIsIntegerOrder(s.delta, inner[s.class_].min);
      CmpIsIntegerOrder(s.delta, inner[s.class_].max);
    }
  }
}
