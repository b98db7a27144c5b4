/** The doubling array in which an endpoint records the acknowledgements it owes. */
module AckStore {
  import opened Words
  import opened Kcp

  /** Sizes reached by doubling from eight. */
  predicate Doubling(n: nat) {
    n == 8 || (n > 8 && n % 2 == 0 && Doubling(n / 2))
  }

  /** The pairs laid out two words each. */
  function PairsOf(words: seq<u32>): seq<Ack> {
    seq(|words| / 2, i requires 0 <= i < |words| / 2 => Ack(words[2 * i], words[2 * i + 1]))
  }

  lemma PairsOfSnoc(words: seq<u32>, sn: u32, ts: u32)
    requires |words| % 2 == 0
    ensures PairsOf(words + [sn, ts]) == PairsOf(words) + [Ack(sn, ts)]
  {
    var more := words + [sn, ts];
    assert |more| / 2 == |words| / 2 + 1;
    forall i | 0 <= i < |words| / 2 ensures PairsOf(more)[i] == PairsOf(words)[i] {}
  }

  /** `acklist`, `ackcount` and `ackblock`; no storage while `ackblock` is zero. */
  class AckList {
    var data: array<u32>
    var count: nat
    var block: nat

    ghost predicate Valid()
      reads this, data
    {
      data.Length == 2 * block && count <= block && (block == 0 || Doubling(block))
    }

    ghost function Acks(): seq<Ack>
      reads this, data
      requires Valid()
    {
      PairsOf(data[..2 * count])
    }

    constructor ()
      ensures Valid() && fresh(data) && Acks() == []
    {
      data := new u32[0];
      count, block := 0, 0;
    }

    /** `ikcp_ack_push`: append one pair, doubling the storage when it is full. */
    method Push(sn: u32, ts: u32)
      requires Valid()
      modifies this, data
      ensures Valid() && (data == old(data) || fresh(data))
      ensures Acks() == old(Acks()) + [Ack(sn, ts)]
      ensures block == old(block) || (old(count) == old(block) && block <= Max(8, 2 * (old(count) + 1)))
    {
      if count + 1 > block { Grow(); }
      ghost var before := data[..2 * count];
      data[2 * count], data[2 * count + 1] := sn, ts;
      count := count + 1;
      assert data[..2 * count] == before + [sn, ts];
      PairsOfSnoc(before, sn, ts);
    }

    /** Storage for at least one more pair, the old pairs copied over. */
    method Grow()
      requires Valid() && count == block
      modifies this
      ensures Valid() && fresh(data) && count == old(count) < block <= Max(8, 2 * (count + 1))
      ensures data[..2 * count] == old(data[..2 * count])
    {
      var newBlock := 8;
      while newBlock < count + 1
        invariant Doubling(newBlock) && (newBlock == 8 || newBlock / 2 < count + 1)
        decreases count + 1 - newBlock
      {
        newBlock := 2 * newBlock;
      }
      var words := new u32[2 * newBlock];
      var x := 0;
      while x < count
        invariant 0 <= x <= count
        invariant forall i :: 0 <= i < 2 * x ==> words[i] == data[i]
        modifies words
      {
        words[2 * x] := data[2 * x];
        words[2 * x + 1] := data[2 * x + 1];
        x := x + 1;
      }
      data, block := words, newBlock;
    }

    /** `ikcp_ack_get` */
    method Get(p: nat) returns (a: Ack)
      requires Valid() && p < count
      ensures a == Acks()[p]
    {
      a := Ack(data[2 * p], data[2 * p + 1]);
    }

    method Clear()
      requires Valid()
      modifies this`count
      ensures Valid() && Acks() == []
    {
      count := 0;
    }
  }
}
