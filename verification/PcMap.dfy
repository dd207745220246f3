/** Which source-map entry belongs to which program counter. */
module PcMap {
  import opened Basics
  import opened Hex

  /** Number of immediate bytes after an opcode: `PUSH1` (0x60) to `PUSH32` (0x7f). */
  function PushSize(opcode: Byte): nat {
    if 0x60 <= opcode <= 0x7f then opcode - 0x60 + 1 else 0
  }

  /** Start offsets of the instructions from `pc` on. */
  function Starts(code: seq<Byte>, pc: nat): seq<nat>
    decreases |code| - pc
  {
    if pc >= |code| then [] else [pc] + Starts(code, pc + 1 + PushSize(code[pc]))
  }

  /**
   The walk from `pc`: the first instruction starts there, each next one after the opcode and, for PUSH1 to PUSH32
   (0x60 to 0x7f), its 1 to 32 bytes of data, and the last reaches the end of the code.
   */
  lemma {:induction false} StartsFollowOpcodes(code: seq<Byte>, pc: nat)
    ensures (Starts(code, pc) == [] <==> pc >= |code|) && (pc < |code| ==> Starts(code, pc)[0] == pc)
    ensures forall k :: 0 <= k < |Starts(code, pc)| ==> Starts(code, pc)[k] < |code|
    ensures forall k :: 0 <= k < |Starts(code, pc)| ==>
              var s, op := Starts(code, pc)[k], code[Starts(code, pc)[k]];
              var next := if op == 0x60 then s + 2 else if 0x61 <= op <= 0x7f then s + 2 + (op - 0x60) else s + 1;
              if k + 1 < |Starts(code, pc)| then Starts(code, pc)[k + 1] == next else next >= |code|
    decreases |code| - pc
  {
    if pc < |code| {
      StartsFollowOpcodes(code, pc + 1 + PushSize(code[pc]));
    }
  }

  /** Byte `p` belongs to the instruction that starts at `s`: its opcode or its immediate data. */
  predicate Spans(code: seq<Byte>, s: nat, p: nat) {
    s < |code| && s <= p < s + 1 + PushSize(code[s])
  }

  lemma {:induction false} StartsAscend(code: seq<Byte>, pc: nat)
    ensures forall k :: 0 <= k < |Starts(code, pc)| ==> pc <= Starts(code, pc)[k] < |code|
    ensures forall j, k :: 0 <= j < k < |Starts(code, pc)| ==>
              Starts(code, pc)[j] + 1 + PushSize(code[Starts(code, pc)[j]]) <= Starts(code, pc)[k]
    decreases |code| - pc
  {
    if pc < |code| {
      StartsAscend(code, pc + 1 + PushSize(code[pc]));
    }
  }

  lemma {:induction false} SomeStartSpans(code: seq<Byte>, pc: nat, p: nat) returns (k: nat)
    requires pc <= p < |code|
    ensures k < |Starts(code, pc)| && Spans(code, Starts(code, pc)[k], p)
    decreases |code| - pc
  {
    var next := pc + 1 + PushSize(code[pc]);
    if p < next {
      k := 0;
    } else {
      var j := SomeStartSpans(code, next, p);
      k := j + 1;
    }
  }

  /** Every byte of the code belongs to exactly one instruction: it starts it, or is its push data. */
  lemma InstructionsPartition(code: seq<Byte>, p: nat) returns (k: nat)
    requires p < |code|
    ensures k < |Starts(code, 0)| && Spans(code, Starts(code, 0)[k], p)
    ensures forall j :: 0 <= j < |Starts(code, 0)| && Spans(code, Starts(code, 0)[j], p) ==> j == k
    ensures p in Starts(code, 0) <==> Starts(code, 0)[k] == p
  {
    k := SomeStartSpans(code, 0, p);
    StartsAscend(code, 0);
  }

  /** The `k`-th entry at the start of the `k`-th instruction, and nothing at any other offset. */
  ghost predicate MapsStarts<E(!new)>(code: seq<Byte>, entries: seq<E>, result: seq<Option<E>>) {
    && |result| == |code|
    && (forall k :: 0 <= k < |Starts(code, 0)| ==>
          Starts(code, 0)[k] < |code|
          && result[Starts(code, 0)[k]] == if k < |entries| then Some(entries[k]) else None)
    && (forall p :: 0 <= p < |code| && p !in Starts(code, 0) ==> result[p] == None)
  }

  /** The walk so far covers the first `n` instructions, and the rest start at `pc`. */
  ghost predicate Walked(code: seq<Byte>, pc: nat, n: nat) {
    n <= |Starts(code, 0)| && Starts(code, 0)[n..] == Starts(code, pc)
  }

  method BuildPcToSourceMap<E(!new)>(code: seq<Byte>, entries: seq<E>) returns (map_: seq<Option<E>>)
    ensures MapsStarts(code, entries, map_)
  {
    var result := new Option<E>[|code|](_ => None);
    ghost var starts := Starts(code, 0);
    StartsAscend(code, 0);
    assert starts[0..] == starts;
    var pc, index := 0, 0;
    while pc < |code|
      invariant Walked(code, pc, index)
      invariant forall k :: 0 <= k < index ==> result[starts[k]] == if k < |entries| then Some(entries[k]) else None
      invariant forall k :: 0 <= k < index ==> starts[k] < pc
      invariant forall p :: 0 <= p < result.Length && p !in starts[..index] ==> result[p] == None
      decreases |code| - pc
    {
      assert Starts(code, pc)[0] == pc && starts[index] == starts[index..][0] == pc;
      if index < |entries| {
        result[pc] := Some(entries[index]);
      }
      assert starts[..index + 1] == starts[..index] + [pc];
      assert starts[index + 1..] == starts[index..][1..];
      pc := pc + 1 + PushSize(code[pc]);
      index := index + 1;
    }
    assert starts[..index] == starts;
    map_ := result[..];
  }
}
