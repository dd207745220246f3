/** The bounded snapshot corpus of the max search. */
module Corpus {
  import opened Basics

  const MAX_ENTRIES := 256

  datatype Entry<C, S> = Entry(sequence: seq<C>, value: U256, newEdges: nat, deltaActivity: nat, chain: Option<S>)

  function Strength<C, S>(e: Entry<C, S>): nat {
    SatAdd64(e.newEdges, e.deltaActivity)
  }

  /** The eviction order: strength first, then value. */
  predicate WeakerKey<C, S>(a: Entry<C, S>, b: Entry<C, S>) {
    Strength(a) < Strength(b) || (Strength(a) == Strength(b) && a.value < b.value)
  }

  function MaxValue<C, S>(entries: seq<Entry<C, S>>): nat {
    if entries == [] then 0 else Max(MaxValue(entries[..|entries| - 1]), entries[|entries| - 1].value)
  }

  /** The first entry of least key among those valued below `best`. */
  function Weakest<C, S>(entries: seq<Entry<C, S>>, best: nat): (weakest: Option<nat>)
    ensures weakest.Some? ==> weakest.value < |entries| && entries[weakest.value].value < best
  {
    if entries == [] then None
    else
      var n := |entries| - 1;
      var before := Weakest(entries[..n], best);
      if entries[n].value < best && (before.None? || WeakerKey(entries[n], entries[before.value])) then Some(n)
      else before
  }

  function Removed<C, S>(entries: seq<Entry<C, S>>, k: nat): seq<Entry<C, S>>
    requires k < |entries|
  {
    entries[..k] + entries[k + 1..]
  }

  lemma {:induction false} WeakestIsLeast<C, S>(entries: seq<Entry<C, S>>, best: nat)
    ensures match Weakest(entries, best)
            case None => forall k :: 0 <= k < |entries| ==> entries[k].value >= best
            case Some(w) =>
              && w < |entries| && entries[w].value < best
              && (forall k :: 0 <= k < |entries| && entries[k].value < best ==> !WeakerKey(entries[k], entries[w]))
              && (forall k :: 0 <= k < w && entries[k].value < best ==> WeakerKey(entries[w], entries[k]))
  {
    if |entries| > 0 {
      WeakestIsLeast(entries[..|entries| - 1], best);
    }
  }

  lemma {:induction false} MaxValueIsMax<C, S>(entries: seq<Entry<C, S>>)
    ensures forall k :: 0 <= k < |entries| ==> entries[k].value <= MaxValue(entries)
    ensures entries != [] ==> exists k :: 0 <= k < |entries| && entries[k].value == MaxValue(entries)
  {
    if |entries| > 0 {
      var n := |entries| - 1;
      MaxValueIsMax(entries[..n]);
      if n > 0 && MaxValue(entries) != entries[n].value {
        var k :| 0 <= k < n && entries[..n][k].value == MaxValue(entries[..n]);
        assert entries[k].value == MaxValue(entries);
      }
    }
  }

  /** The corpus after an offer: what is evicted, and whether the offer joins. */
  function Added<C, S>(entries: seq<Entry<C, S>>, e: Entry<C, S>): (r: seq<Entry<C, S>>)
    ensures |r| == if |entries| < MAX_ENTRIES then |entries| + 1 else |entries|
  {
    if |entries| < MAX_ENTRIES then entries + [e]
    else
      var best := MaxValue(entries);
      var weakest := Weakest(entries, best);
      WeakestIsLeast(entries, best);
      if e.value > best then Removed(entries, weakest.Or(|entries| - 1)) + [e]
      else if weakest.None? || Strength(e) <= Strength(entries[weakest.value]) then entries
      else Removed(entries, weakest.value) + [e]
  }

  class CorpusEntries<C, S> {
    var entries: seq<Entry<C, S>>

    constructor ()
      ensures entries == []
    {
      entries := [];
    }

    method BestValue() returns (best: nat)
      ensures best == MaxValue(entries)
    {
      best := 0;
      for i := 0 to |entries|
        invariant best == MaxValue(entries[..i])
      {
        best := Max(best, entries[i].value);
        assert entries[..i + 1][..i] == entries[..i];
      }
      assert entries[..|entries|] == entries;
    }

    method FindWeakest(best: nat) returns (weakest: Option<nat>)
      ensures weakest == Weakest(entries, best)
    {
      weakest := None;
      for i := 0 to |entries|
        invariant weakest == Weakest(entries[..i], best)
        invariant weakest.Some? ==> weakest.value < i
      {
        assert entries[..i + 1][..i] == entries[..i];
        if entries[i].value < best && (weakest.None? || WeakerKey(entries[i], entries[weakest.value])) {
          weakest := Some(i);
        }
      }
      assert entries[..|entries|] == entries;
    }

    method Add(e: Entry<C, S>)
      modifies this
      ensures entries == Added(old(entries), e)
    {
      if |entries| < MAX_ENTRIES {
        entries := entries + [e];
        return;
      }
      var best := BestValue();
      var weakest := FindWeakest(best);
      WeakestIsLeast(entries, best);
      if e.value > best {
        entries := Removed(entries, weakest.Or(|entries| - 1));
      } else {
        if weakest.None? || Strength(e) <= Strength(entries[weakest.value]) {
          return;
        }
        entries := Removed(entries, weakest.value);
      }
      entries := entries + [e];
    }

    /** `random_base` for the number drawn below the total weight; `None` when no entry has been replayed. */
    method RandomBase(draw: nat) returns (base: Option<nat>)
      requires TotalWeight(entries) % TWO_64 > 0 ==> draw < TotalWeight(entries) % TWO_64
      ensures base == if TotalWeight(entries) % TWO_64 == 0 then None else Drawn(entries, draw)
    {
      var total := Total();
      if total == 0 {
        return None;
      }
      WeightBelow(entries);
      var pick: nat := draw;
      var i := 0;
      assert entries[0..] == entries;
      // The walk stops before it runs off the end, so no fallback is needed.
      while true
        invariant 0 <= i < |entries|
        invariant Drawn(entries, draw) == Shifted(Drawn(entries[i..], pick), i)
        invariant pick < TotalWeight(entries[i..])
        decreases |entries| - i
      {
        assert entries[i..][0] == entries[i] && entries[i..][1..] == entries[i + 1..];
        if entries[i].chain.Some? {
          var weight := Weight(entries[i]);
          if pick < weight {
            return Some(i);
          }
          pick := pick - weight;
        }
        i := i + 1;
      }
    }

    method Total() returns (total: nat)
      ensures total == TotalWeight(entries) % TWO_64
    {
      total := 0;
      var i := |entries|;
      while i > 0
        invariant 0 <= i <= |entries|
        invariant total == TotalWeight(entries[i..]) % TWO_64
      {
        i := i - 1;
        assert entries[i..][0] == entries[i] && entries[i..][1..] == entries[i + 1..];
        if entries[i].chain.Some? {
          WrappingSum(TotalWeight(entries[i + 1..]), Weight(entries[i]));
          total := (total + Weight(entries[i])) % TWO_64;
        }
      }
      assert entries[0..] == entries;
    }

    /** The last of the replayed entries with the highest value. */
    method BestEntry() returns (best: Option<nat>)
      ensures best.None? <==> forall k :: 0 <= k < |entries| ==> entries[k].chain.None?
      ensures best.Some? ==> best.value < |entries| && entries[best.value].chain.Some?
      ensures best.Some? ==> forall k :: 0 <= k < |entries| && entries[k].chain.Some? ==>
                               if k <= best.value then entries[k].value <= entries[best.value].value
                               else entries[k].value < entries[best.value].value
    {
      best := None;
      for i := 0 to |entries|
        invariant best.None? <==> forall k :: 0 <= k < i ==> entries[k].chain.None?
        invariant best.Some? ==> best.value < i && entries[best.value].chain.Some?
        invariant best.Some? ==> forall k :: 0 <= k < i && entries[k].chain.Some? ==>
                                   if k <= best.value then entries[k].value <= entries[best.value].value
                                   else entries[k].value < entries[best.value].value
      {
        if entries[i].chain.Some? && (best.None? || entries[i].value >= entries[best.value].value) {
          best := Some(i);
        }
      }
    }
  }

  // ---- Eviction -----------------------------------------------------------------------

  function CorpusAfter<C, S>(offers: seq<Entry<C, S>>): seq<Entry<C, S>> {
    if offers == [] then [] else Added(CorpusAfter(offers[..|offers| - 1]), offers[|offers| - 1])
  }

  lemma {:induction false} MaxOfConcat<C, S>(a: seq<Entry<C, S>>, b: seq<Entry<C, S>>)
    ensures MaxValue(a + b) == Max(MaxValue(a), MaxValue(b))
    decreases |b|
  {
    if |b| == 0 {
      assert a + b == a;
    } else {
      assert (a + b)[..|a + b| - 1] == a + b[..|b| - 1];
      MaxOfConcat(a, b[..|b| - 1]);
    }
  }

  lemma MaxOfOne<C, S>(e: Entry<C, S>)
    ensures MaxValue([e]) == e.value
  {
    assert [e][..0] == [];
  }

  lemma MaxOfParts<C, S>(entries: seq<Entry<C, S>>, w: nat)
    requires w < |entries|
    ensures MaxValue(entries) == Max(MaxValue(entries[..w]), Max(entries[w].value, MaxValue(entries[w + 1..])))
  {
    assert entries == entries[..w] + ([entries[w]] + entries[w + 1..]);
    MaxOfConcat(entries[..w], [entries[w]] + entries[w + 1..]);
    MaxOfConcat([entries[w]], entries[w + 1..]);
    MaxOfOne(entries[w]);
  }

  lemma MaxOfReplaced<C, S>(entries: seq<Entry<C, S>>, w: nat, e: Entry<C, S>)
    requires w < |entries| && (e.value > MaxValue(entries) || entries[w].value < MaxValue(entries))
    ensures MaxValue(Removed(entries, w) + [e]) == Max(MaxValue(entries), e.value)
  {
    MaxOfParts(entries, w);
    MaxOfConcat(entries[..w], entries[w + 1..]);
    MaxOfConcat(Removed(entries, w), [e]);
    MaxOfOne(e);
  }

  /** An offer can only raise the highest value held, to its own. */
  lemma AddKeepsBestValue<C, S>(entries: seq<Entry<C, S>>, e: Entry<C, S>)
    ensures MaxValue(Added(entries, e)) == Max(MaxValue(entries), e.value)
  {
    var best := MaxValue(entries);
    WeakestIsLeast(entries, best);
    if |entries| < MAX_ENTRIES {
      MaxOfConcat(entries, [e]);
      MaxOfOne(e);
    } else if Added(entries, e) != entries {
      MaxOfReplaced(entries, Weakest(entries, best).Or(|entries| - 1), e);
    }
  }

  lemma {:induction false} CorpusAfterOffers<C, S>(offers: seq<Entry<C, S>>)
    ensures |CorpusAfter(offers)| <= MAX_ENTRIES
    ensures offers != [] ==> CorpusAfter(offers) != []
    ensures MaxValue(CorpusAfter(offers)) == MaxValue(offers)
  {
    if |offers| > 0 {
      var n := |offers| - 1;
      CorpusAfterOffers(offers[..n]);
      AddKeepsBestValue(CorpusAfter(offers[..n]), offers[n]);
    }
  }

  /** From empty, the corpus stays within its bound and always holds an entry of the highest value ever offered. */
  lemma CorpusKeepsTheHighest<C, S>(offers: seq<Entry<C, S>>)
    ensures |CorpusAfter(offers)| <= MAX_ENTRIES
    ensures forall e :: e in offers ==> exists k :: 0 <= k < |CorpusAfter(offers)| && e.value <= CorpusAfter(offers)[k].value
    ensures forall e :: e in CorpusAfter(offers) ==> exists k :: 0 <= k < |offers| && e.value <= offers[k].value
  {
    CorpusAfterOffers(offers);
    MaxValueIsMax(offers);
    MaxValueIsMax(CorpusAfter(offers));
  }

  function TotalStrength<C, S>(entries: seq<Entry<C, S>>): nat {
    if entries == [] then 0 else TotalStrength(entries[..|entries| - 1]) + Strength(entries[|entries| - 1])
  }

  lemma {:induction false} TotalOfConcat<C, S>(a: seq<Entry<C, S>>, b: seq<Entry<C, S>>)
    ensures TotalStrength(a + b) == TotalStrength(a) + TotalStrength(b)
    decreases |b|
  {
    if |b| == 0 {
      assert a + b == a;
    } else {
      assert (a + b)[..|a + b| - 1] == a + b[..|b| - 1];
      TotalOfConcat(a, b[..|b| - 1]);
    }
  }

  lemma TotalOfOne<C, S>(e: Entry<C, S>)
    ensures TotalStrength([e]) == Strength(e)
  {
    assert [e][..0] == [];
  }

  lemma TotalOfParts<C, S>(entries: seq<Entry<C, S>>, w: nat)
    requires w < |entries|
    ensures TotalStrength(entries) == TotalStrength(entries[..w]) + Strength(entries[w]) + TotalStrength(entries[w + 1..])
  {
    assert entries == entries[..w] + ([entries[w]] + entries[w + 1..]);
    TotalOfConcat(entries[..w], [entries[w]] + entries[w + 1..]);
    TotalOfConcat([entries[w]], entries[w + 1..]);
    TotalOfOne(entries[w]);
  }

  lemma TotalOfReplaced<C, S>(entries: seq<Entry<C, S>>, w: nat, e: Entry<C, S>)
    requires w < |entries|
    ensures TotalStrength(Removed(entries, w) + [e]) == TotalStrength(entries) - Strength(entries[w]) + Strength(e)
  {
    TotalOfParts(entries, w);
    TotalOfConcat(entries[..w], entries[w + 1..]);
    TotalOfConcat(Removed(entries, w), [e]);
    TotalOfOne(e);
  }

  lemma OneReplaced<C, S>(entries: seq<Entry<C, S>>, w: nat, e: Entry<C, S>)
    requires w < |entries|
    ensures multiset(Removed(entries, w) + [e]) == multiset(entries) - multiset{entries[w]} + multiset{e}
  {
    assert entries == entries[..w] + [entries[w]] + entries[w + 1..];
  }

  /** While there is room every offer joins at the end. */
  lemma RoomTakesAll<C, S>(entries: seq<Entry<C, S>>, e: Entry<C, S>)
    requires |entries| < 256
    ensures Added(entries, e) == entries + [e]
  {}

  /** New edges and delta activity together, in 64 bits. */
  function Strong(newEdges: nat, deltaActivity: nat): nat {
    Min(newEdges + deltaActivity, 0xFFFF_FFFF_FFFF_FFFF)
  }

  /**
   An offer that does not improve a full corpus joins exactly when it is strictly
   stronger than some entry below the best value; then the total strength grows
   and no entry holding the best value is lost.
   */
  lemma FullCorpusOnlyStrengthens<C, S>(entries: seq<Entry<C, S>>, e: Entry<C, S>)
    requires |entries| >= MAX_ENTRIES && e.value <= MaxValue(entries)
    ensures var after := Added(entries, e);
            var joins := exists k :: 0 <= k < |entries| && entries[k].value < MaxValue(entries)
                                     && Strong(entries[k].newEdges, entries[k].deltaActivity) < Strong(e.newEdges, e.deltaActivity);
            && (!joins ==> after == entries)
            && (joins ==> TotalStrength(after) > TotalStrength(entries) && |after| == |entries| && after[|after| - 1] == e)
            && forall x :: x in entries && x.value == MaxValue(entries) ==> multiset(after)[x] >= multiset(entries)[x]
  {
    var best := MaxValue(entries);
    WeakestIsLeast(entries, best);
    var weakest := Weakest(entries, best);
    assert forall k :: 0 <= k < |entries| ==> Strength(entries[k]) == Strong(entries[k].newEdges, entries[k].deltaActivity);
    if weakest.Some? && Strength(e) > Strength(entries[weakest.value]) {
      TotalOfReplaced(entries, weakest.value, e);
      OneReplaced(entries, weakest.value, e);
    }
  }

  /** Entry `w` is below the best value, least in strength and then in value among those, and the first such. */
  predicate IsWeakest<C, S>(entries: seq<Entry<C, S>>, w: nat) {
    && w < |entries| && entries[w].value < MaxValue(entries)
    && forall k :: 0 <= k < |entries| && entries[k].value < MaxValue(entries) ==>
         var a, b := Strong(entries[w].newEdges, entries[w].deltaActivity), Strong(entries[k].newEdges, entries[k].deltaActivity);
         && (a < b || (a == b && entries[w].value <= entries[k].value))
         && (k < w ==> a < b || (a == b && entries[w].value < entries[k].value))
  }

  lemma WeakestFound<C, S>(entries: seq<Entry<C, S>>)
    ensures match Weakest(entries, MaxValue(entries))
            case None => forall k :: 0 <= k < |entries| ==> entries[k].value == MaxValue(entries)
            case Some(w) => IsWeakest(entries, w)
  {
    WeakestIsLeast(entries, MaxValue(entries));
    MaxValueIsMax(entries);
    assert forall k :: 0 <= k < |entries| ==> Strength(entries[k]) == Strong(entries[k].newEdges, entries[k].deltaActivity);
  }

  /** Entry `w` is gone, the others keep their order, and `e` is last. */
  ghost predicate ReplacedBy<C, S>(entries: seq<Entry<C, S>>, w: nat, e: Entry<C, S>, after: seq<Entry<C, S>>) {
    && w < |entries| == |after| && after[|after| - 1] == e
    && forall k :: 0 <= k < |after| - 1 ==> after[k] == entries[if k < w then k else k + 1]
  }

  lemma RemovedKeepsOrder<C, S>(entries: seq<Entry<C, S>>, w: nat, e: Entry<C, S>)
    requires w < |entries|
    ensures ReplacedBy(entries, w, e, Removed(entries, w) + [e])
  {}

  /** A full corpus gives up its weakest entry, to an improving offer in any case (the last entry if none is below the best). */
  lemma FullCorpusEvictsWeakest<C, S>(entries: seq<Entry<C, S>>, e: Entry<C, S>) returns (w: nat)
    requires |entries| >= 256 && Added(entries, e) != entries
    ensures ReplacedBy(entries, w, e, Added(entries, e))
    ensures IsWeakest(entries, w)
            || (e.value > MaxValue(entries) && w == |entries| - 1 && forall k :: 0 <= k < |entries| ==> entries[k].value == MaxValue(entries))
  {
    WeakestFound(entries);
    w := Weakest(entries, MaxValue(entries)).Or(|entries| - 1);
    RemovedKeepsOrder(entries, w, e);
  }

  /** An improving offer always joins a full corpus. */
  lemma ImprovingAlwaysJoins<C, S>(entries: seq<Entry<C, S>>, e: Entry<C, S>)
    requires |entries| >= 256 && e.value > MaxValue(entries)
    ensures |Added(entries, e)| == |entries| && Added(entries, e)[|entries| - 1] == e && Added(entries, e) != entries
  {
    MaxValueIsMax(entries);
    WeakestIsLeast(entries, MaxValue(entries));
  }

  // ---- Sampling -----------------------------------------------------------------------

  function Weight<C, S>(e: Entry<C, S>): nat {
    SatAdd64(SatAdd64(SatAdd64(e.newEdges, 1), SatAdd64(BitLen(e.value), 1)), e.deltaActivity)
  }

  function WeightIn<C, S>(e: Entry<C, S>): nat {
    if e.chain.Some? then Weight(e) else 0
  }

  function TotalWeight<C, S>(entries: seq<Entry<C, S>>): nat {
    if entries == [] then 0 else WeightIn(entries[0]) + TotalWeight(entries[1..])
  }

  lemma WrappingSum(a: nat, b: nat)
    ensures (a % TWO_64 + b) % TWO_64 == (b + a) % TWO_64
  {}

  lemma FitsInWord(a: nat)
    requires a < TWO_64
    ensures a % TWO_64 == a
  {}

  lemma WeightBelow<C, S>(entries: seq<Entry<C, S>>)
    ensures TotalWeight(entries) % TWO_64 <= TotalWeight(entries)
  {}

  function Shifted(k: Option<nat>, n: nat): Option<nat> {
    if k.Some? then Some(k.value + n) else None
  }

  /** The entry the walk stops at, subtracting each weight it passes from the draw. */
  function Drawn<C, S>(entries: seq<Entry<C, S>>, draw: nat): Option<nat> {
    if entries == [] then None
    else if entries[0].chain.Some? && draw < Weight(entries[0]) then Some(0)
    else Shifted(Drawn(entries[1..], if entries[0].chain.Some? then draw - Weight(entries[0]) else draw), 1)
  }

  /**
   Below the true total, entry `k` is drawn exactly by the draws in its own interval;
   entries without a snapshot have an empty one. The walk always finds an entry.
   */
  lemma {:induction false} DrawnIff<C, S>(entries: seq<Entry<C, S>>, draw: nat, k: nat)
    requires k < |entries| && draw < TotalWeight(entries)
    ensures Drawn(entries, draw) == Some(k)
       <==> TotalWeight(entries[..k]) <= draw < TotalWeight(entries[..k]) + WeightIn(entries[k])
    ensures Drawn(entries, draw).Some? && Drawn(entries, draw).value < |entries| && entries[Drawn(entries, draw).value].chain.Some?
  {
    var rest := entries[1..];
    var before := WeightIn(entries[0]);
    if k > 0 {
      assert entries[..k][0] == entries[0] && entries[..k][1..] == rest[..k - 1];
    }
    if draw >= before {
      DrawnIff(rest, draw - before, if k > 0 then k - 1 else 0);
    }
  }

  /** How many of the draws below `n` return entry `k`. */
  function Draws<C, S>(entries: seq<Entry<C, S>>, k: nat, n: nat): nat {
    if n == 0 then 0 else Draws(entries, k, n - 1) + if Drawn(entries, n - 1) == Some(k) then 1 else 0
  }

  lemma {:induction false} DrawsInInterval<C, S>(entries: seq<Entry<C, S>>, k: nat, n: nat, lo: nat, hi: nat)
    requires lo <= hi
    requires forall d: nat :: d < n ==> (Drawn(entries, d) == Some(k) <==> lo <= d < hi)
    ensures Draws(entries, k, n) == if n <= lo then 0 else Min(n, hi) - lo
  {
    if n > 0 {
      DrawsInInterval(entries, k, n - 1, lo, hi);
    }
  }

  lemma {:induction false} PrefixWeight<C, S>(entries: seq<Entry<C, S>>, k: nat)
    requires k < |entries|
    ensures TotalWeight(entries[..k]) + WeightIn(entries[k]) <= TotalWeight(entries)
  {
    if k > 0 {
      assert entries[..k][0] == entries[0] && entries[..k][1..] == entries[1..][..k - 1];
      PrefixWeight(entries[1..], k - 1);
    }
  }

  /** One for the entry, its new edges, one more than the binary digits of its value, and its delta activity, in 64 bits. */
  lemma WeightIs<C, S>(e: Entry<C, S>, bits: nat)
    requires HasBits(e.value, bits)
    ensures Weight(e) == Min(1 + e.newEdges + (bits + 1) + e.deltaActivity, 0xFFFF_FFFF_FFFF_FFFF)
  {
    BitLenIs(e.value, bits);
  }

  /** While the weights do not overflow, the number of draws that return a replayed entry is exactly its weight, and none returns another. */
  lemma DrawsPerEntry<C, S>(entries: seq<Entry<C, S>>, k: nat, bits: nat)
    requires k < |entries| && TotalWeight(entries) < TWO_64 && HasBits(entries[k].value, bits)
    ensures Draws(entries, k, TotalWeight(entries) % TWO_64)
         == if entries[k].chain.None? then 0
            else Min(1 + entries[k].newEdges + (bits + 1) + entries[k].deltaActivity, 0xFFFF_FFFF_FFFF_FFFF)
  {
    var lo, hi := TotalWeight(entries[..k]), TotalWeight(entries[..k]) + WeightIn(entries[k]);
    PrefixWeight(entries, k);
    forall d: nat | d < TotalWeight(entries) ensures Drawn(entries, d) == Some(k) <==> lo <= d < hi {
      DrawnIff(entries, d, k);
    }
    DrawsInInterval(entries, k, TotalWeight(entries), lo, hi);
    FitsInWord(TotalWeight(entries));
    WeightIs(entries[k], bits);
  }
}
