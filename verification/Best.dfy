/** The best-sequence tracker of the max search. */
module BestTracker {
  import opened Basics

  datatype Offer<C, S> = Offer(sequence: seq<C>, value: U256, chain: Option<S>)

  predicate Better<C, S>(current: Offer<C, S>, offer: Offer<C, S>) {
    || offer.value > current.value
    || (offer.value == current.value && current.sequence != [] && |offer.sequence| < |current.sequence|)
  }

  class Best<C, S> {
    var value: U256
    var sequence: seq<C>
    var chain: Option<S>

    function View(): Offer<C, S>
      reads this
    {
      Offer(sequence, value, chain)
    }

    constructor (seed: Offer<C, S>)
      ensures View() == seed
    {
      value, sequence, chain := seed.value, seed.sequence, seed.chain;
    }

    method Consider(sequence: seq<C>, value: U256, chain: S) returns (improved: bool)
      modifies this
      ensures improved <==> Better(old(View()), Offer(sequence, value, Some(chain)))
      ensures View() == Considered(old(View()), Offer(sequence, value, Some(chain)))
    {
      var shorter := value == this.value && this.sequence != [] && |sequence| < |this.sequence|;
      improved := value > this.value || shorter;
      if improved {
        this.value := value;
        this.sequence := sequence;
        this.chain := Some(chain);
      }
    }
  }

  function Considered<C, S>(current: Offer<C, S>, offer: Offer<C, S>): Offer<C, S> {
    if Better(current, offer) then offer else current
  }

  function BestAfter<C, S>(seed: Offer<C, S>, offers: seq<Offer<C, S>>): Offer<C, S> {
    if offers == [] then seed else Considered(BestAfter(seed, offers[..|offers| - 1]), offers[|offers| - 1])
  }

  /** Candidate `b` has the highest value, and is the earliest of the shortest with that value. */
  ghost predicate Wins<C, S>(all: seq<Offer<C, S>>, b: nat) {
    && b < |all|
    && (forall k :: 0 <= k < |all| ==> all[k].value <= all[b].value)
    && (forall k :: 0 <= k < |all| && all[k].value == all[b].value ==> |all[b].sequence| <= |all[k].sequence|)
    && (forall k :: 0 <= k < b && all[k].value == all[b].value ==> |all[b].sequence| < |all[k].sequence|)
  }

  /** After any offers the tracker holds the one winner among the seed and the offers. */
  lemma {:induction false} BestIsTheWinner<C, S>(seed: Offer<C, S>, offers: seq<Offer<C, S>>) returns (b: nat)
    ensures Wins([seed] + offers, b) && BestAfter(seed, offers) == ([seed] + offers)[b]
  {
    if |offers| == 0 {
      b := 0;
      assert [seed] + offers == [seed];
    } else {
      var n := |offers| - 1;
      b := BestIsTheWinner(seed, offers[..n]);
      var all := [seed] + offers;
      assert all == ([seed] + offers[..n]) + [offers[n]];
      if Better(all[b], offers[n]) {
        b := n + 1;
      }
    }
  }

  lemma WinnerIsUnique<C, S>(all: seq<Offer<C, S>>, a: nat, b: nat)
    requires Wins(all, a) && Wins(all, b)
    ensures a == b
  {
    assert all[a].value == all[b].value && |all[a].sequence| == |all[b].sequence|;
  }
}
