/** The shared, deduplicated and bounded collection of broken invariants. */
module Findings {
  import opened Basics

  datatype Broken<C> = Broken(id: string, description: string, sequence: seq<C>)

  /** Position of the item with this id, or the length when there is none. */
  function Position<C>(items: seq<Broken<C>>, id: string): (k: nat)
    ensures k <= |items|
    ensures k < |items| ==> items[k].id == id
    ensures forall j :: 0 <= j < k ==> items[j].id != id
  {
    if items == [] then 0
    else if items[0].id == id then 0
    else 1 + Position(items[1..], id)
  }

  function Added<C>(items: seq<Broken<C>>, max: nat, broken: Broken<C>): seq<Broken<C>> {
    var k := Position(items, broken.id);
    if k < |items| then
      if |broken.sequence| < |items[k].sequence| then items[k := broken] else items
    else if |items| >= max then items
    else items + [broken]
  }

  class SharedBrokenInvariants<C(!new)> {
    var items: seq<Broken<C>>
    var keys: set<string>
    const max: nat

    ghost predicate Valid()
      reads this
    {
      keys == IdSet(items)
    }

    constructor (max: nat)
      ensures Valid() && items == [] && this.max == max
    {
      this.items, this.keys, this.max := [], {}, max;
    }

    /** Adds a new id while there is room, or shortens a known one; the result says whether a new id was added. */
    method TryAdd(broken: Broken<C>) returns (added: bool)
      requires Valid()
      modifies this
      ensures Valid()
      ensures items == Added(old(items), max, broken)
      ensures added <==> broken.id !in old(keys) && |old(items)| < max
    {
      var k := 0;
      while k < |items| && items[k].id != broken.id
        invariant 0 <= k <= |items|
        invariant forall j :: 0 <= j < k ==> items[j].id != broken.id
      {
        k := k + 1;
      }
      if k < |items| {
        if |broken.sequence| < |items[k].sequence| {
          SameIds(items, k, broken);
          items := items[k := broken];
        }
        return false;
      }
      if |items| >= max {
        return false;
      }
      OneMoreId(items, broken);
      keys := keys + {broken.id};
      items := items + [broken];
      added := true;
    }

    /** Full means closed: no id that is not held yet can be added any more. */
    function IsFull(): (full: bool)
      requires Valid()
      reads this
      ensures full <==> forall broken: Broken<C> :: broken.id !in keys ==> Added(items, max, broken) == items
    {
      FullMeansClosed(items, max);
      |items| >= max
    }
  }

  function IdSet<C>(items: seq<Broken<C>>): set<string> {
    set k | 0 <= k < |items| :: items[k].id
  }

  lemma SameIds<C>(items: seq<Broken<C>>, k: nat, broken: Broken<C>)
    requires k < |items| && items[k].id == broken.id
    ensures IdSet(items[k := broken]) == IdSet(items)
  {
    forall j | 0 <= j < |items| ensures items[j].id in IdSet(items[k := broken]) {
      assert items[k := broken][j].id == items[j].id;
    }
  }

  lemma OneMoreId<C>(items: seq<Broken<C>>, broken: Broken<C>)
    ensures IdSet(items + [broken]) == IdSet(items) + {broken.id}
  {
    var more := items + [broken];
    assert more[|items|].id == broken.id;
    forall k | 0 <= k < |items| ensures items[k].id in IdSet(more) {
      assert more[k].id == items[k].id;
    }
  }

  /** An id longer than every one in the list. */
  function FreshId(ids: seq<string>): (longer: string)
    ensures forall id :: id in ids ==> |id| < |longer|
  {
    if ids == [] then "x"
    else
      var before, last := FreshId(ids[..|ids| - 1]), ids[|ids| - 1];
      if |last| < |before| then before else last + "x"
  }

  lemma IdSetIsIds<C>(items: seq<Broken<C>>)
    ensures IdSet(items) == set id | id in Ids(items)
  {
    forall k | 0 <= k < |items| ensures items[k].id in Ids(items) {
      assert Ids(items)[k] == items[k].id;
    }
    forall id | id in Ids(items) ensures id in IdSet(items) {
      var k :| 0 <= k < |items| && Ids(items)[k] == id;
      assert items[k].id == id;
    }
  }

  lemma NewIdAdded<C>(items: seq<Broken<C>>, max: nat, broken: Broken<C>)
    requires broken.id !in IdSet(items)
    ensures Added(items, max, broken) == if |items| >= max then items else items + [broken]
  {
    IdSetIsIds(items);
    PositionById(items, broken.id);
  }

  lemma FullMeansClosed<C(!new)>(items: seq<Broken<C>>, max: nat)
    ensures |items| >= max <==> forall broken: Broken<C> :: broken.id !in IdSet(items) ==> Added(items, max, broken) == items
  {
    forall broken: Broken<C> | broken.id !in IdSet(items)
      ensures Added(items, max, broken) == if |items| >= max then items else items + [broken]
    {
      NewIdAdded(items, max, broken);
    }
    IdSetIsIds(items);
    var other: Broken<C> := Broken(FreshId(Ids(items)), "", []);
    assert other.id !in IdSet(items);
  }

  // ---- The collection as a function of everything offered -----------------------------------

  function Collected<C>(offers: seq<Broken<C>>, max: nat): seq<Broken<C>> {
    if offers == [] then [] else Added(Collected(offers[..|offers| - 1], max), max, offers[|offers| - 1])
  }

  /** The distinct ids offered, in the order of their first offers. */
  function FirstOffered<C>(offers: seq<Broken<C>>): seq<string> {
    if offers == [] then []
    else
      var before, id := FirstOffered(offers[..|offers| - 1]), offers[|offers| - 1].id;
      if id in before then before else before + [id]
  }

  function Ids<C>(items: seq<Broken<C>>): (r: seq<string>)
    ensures |r| == |items|
  {
    seq(|items|, k requires 0 <= k < |items| => items[k].id)
  }

  function Take(ids: seq<string>, max: nat): seq<string> {
    if |ids| <= max then ids else ids[..max]
  }

  lemma PositionById<C>(items: seq<Broken<C>>, id: string)
    ensures Position(items, id) < |items| <==> id in Ids(items)
  {
    var p := Position(items, id);
    assert p < |items| ==> Ids(items)[p] == id;
    if id in Ids(items) {
      var k :| 0 <= k < |items| && Ids(items)[k] == id;
      assert items[k].id == id;
    }
  }

  lemma {:induction false} FirstOfferedDistinct<C>(offers: seq<Broken<C>>)
    ensures Distinct(FirstOffered(offers))
    ensures forall k :: 0 <= k < |offers| ==> offers[k].id in FirstOffered(offers)
  {
    if |offers| > 0 {
      FirstOfferedDistinct(offers[..|offers| - 1]);
    }
  }

  /** One more offer changes the ids held only by adding its own, when it is new and there is room. */
  lemma AddedIds<C>(items: seq<Broken<C>>, max: nat, broken: Broken<C>)
    ensures Ids(Added(items, max, broken))
         == if broken.id in Ids(items) || |items| >= max then Ids(items) else Ids(items) + [broken.id]
  {
    PositionById(items, broken.id);
  }

  lemma {:induction false} CollectsFirstIds<C>(offers: seq<Broken<C>>, max: nat)
    ensures Ids(Collected(offers, max)) == Take(FirstOffered(offers), max)
  {
    if |offers| > 0 {
      var before, broken := offers[..|offers| - 1], offers[|offers| - 1];
      CollectsFirstIds(before, max);
      AddedIds(Collected(before, max), max, broken);
    }
  }

  /** Offer `k` is the earliest of the shortest offers with its id. */
  ghost predicate Shortest<C>(offers: seq<Broken<C>>, k: nat) {
    && k < |offers|
    && (forall j :: 0 <= j < |offers| && offers[j].id == offers[k].id ==> |offers[k].sequence| <= |offers[j].sequence|)
    && (forall j :: 0 <= j < k && offers[j].id == offers[k].id ==> |offers[k].sequence| < |offers[j].sequence|)
  }

  lemma FirstOfItsId<C>(offers: seq<Broken<C>>)
    requires |offers| > 0 && offers[|offers| - 1].id !in FirstOffered(offers[..|offers| - 1])
    ensures Shortest(offers, |offers| - 1)
  {
    var before := offers[..|offers| - 1];
    FirstOfferedDistinct(before);
    forall j | 0 <= j < |before| ensures offers[j].id != offers[|before|].id {
      assert before[j] == offers[j];
    }
  }

  /** One more offer keeps the earliest shortest, or is it when it is strictly shorter. */
  lemma ShortestExtends<C>(offers: seq<Broken<C>>, k: nat)
    requires |offers| > 0 && Shortest(offers[..|offers| - 1], k)
    ensures var n := |offers| - 1;
            if offers[n].id == offers[k].id && |offers[n].sequence| < |offers[k].sequence| then Shortest(offers, n) else Shortest(offers, k)
  {
    var n := |offers| - 1;
    assert forall j :: 0 <= j < n ==> offers[..n][j] == offers[j];
  }

  /** Each held item is the earliest of the shortest offers with its id. */
  lemma {:induction false} HoldsShortest<C>(offers: seq<Broken<C>>, max: nat, i: nat) returns (k: nat)
    requires i < |Collected(offers, max)|
    ensures Shortest(offers, k) && offers[k] == Collected(offers, max)[i]
  {
    var n := |offers| - 1;
    var items, broken := Collected(offers[..n], max), offers[n];
    PositionById(items, broken.id);
    CollectsFirstIds(offers[..n], max);
    FirstOfferedDistinct(offers[..n]);
    if i == |items| {
      k := n;
      FirstOfItsId(offers);
    } else {
      k := HoldsShortest(offers[..n], max, i);
      HeldOnce(offers[..n], max, i, Position(items, broken.id));
      ShortestExtends(offers, k);
      if broken.id == items[i].id && |broken.sequence| < |items[i].sequence| {
        k := n;
      }
    }
  }

  lemma HeldOnce<C>(offers: seq<Broken<C>>, max: nat, i: nat, j: nat)
    requires i < |Collected(offers, max)|
    ensures j < |Collected(offers, max)| && Collected(offers, max)[i].id == Collected(offers, max)[j].id ==> i == j
  {
    CollectsFirstIds(offers, max);
    FirstOfferedDistinct(offers);
    var items := Collected(offers, max);
    assert Ids(items)[i] == items[i].id;
    assert j < |items| ==> Ids(items)[j] == items[j].id;
  }

  /** The item is the earliest of the shortest offers with its id. */
  ghost predicate IsShortest<C(!new)>(offers: seq<Broken<C>>, item: Broken<C>) {
    exists k: nat :: Shortest(offers, k) && offers[k] == item
  }

  /**
   After any run the collection is exactly the first `max` distinct ids offered, in
   first-offer order, each with the earliest of its shortest sequences.
   */
  lemma CollectionIsDetermined<C(!new)>(offers: seq<Broken<C>>, max: nat)
    ensures Ids(Collected(offers, max)) == Take(FirstOffered(offers), max)
    ensures forall i :: 0 <= i < |Collected(offers, max)| ==> IsShortest(offers, Collected(offers, max)[i])
    ensures IdSet(Collected(offers, max)) == set id | id in Take(FirstOffered(offers), max)
  {
    CollectsFirstIds(offers, max);
    IdSetIsIds(Collected(offers, max));
    forall i | 0 <= i < |Collected(offers, max)| ensures IsShortest(offers, Collected(offers, max)[i]) {
      var k := HoldsShortest(offers, max, i);
    }
  }
}
