/**
 Global record ids: a shard number in the low bits, the shard's own sequence number above it.

 The log keeps one sequence per shard.  A record is named outside its shard by a 64-bit id
 whose low `bits` bits are the shard and whose remaining bits are the local sequence.
 */
module RecordIds {
  import opened Arith

  const U64_SIZE: nat := 0x1_0000_0000_0000_0000

  function Pow2(n: nat): (p: nat)
    ensures p > 0
  {
    if n == 0 then 1 else 2 * Pow2(n - 1)
  }

  /** Position of the highest set bit, plus one: `64 - x.leading_zeros()`. */
  function BitLength(x: nat): (b: nat)
    ensures x < Pow2(b)
    ensures x > 0 ==> b > 0 && Pow2(b - 1) <= x
  {
    if x == 0 then 0 else 1 + BitLength(x / 2)
  }

  /** The least number of bits that tells `numShards` shards apart. */
  function ShardBits(numShards: nat): (b: nat)
    ensures numShards <= Pow2(b)
    ensures forall c: nat :: numShards <= Pow2(c) ==> b <= c
  {
    if numShards <= 1 then
      0
    else
      var b := BitLength(numShards - 1);
      assert forall c: nat :: numShards <= Pow2(c) ==> b <= c by {
        forall c: nat | numShards <= Pow2(c)
          ensures b <= c
        {
          if c < b {
            Pow2Monotone(c, b - 1);
          }
        }
      }
      b
  }

  lemma {:induction false} Pow2Monotone(a: nat, b: nat)
    requires a <= b
    ensures Pow2(a) <= Pow2(b)
    decreases b - a
  {
    if a < b {
      Pow2Monotone(a + 1, b);
    }
  }

  lemma {:induction false} Pow2Add(a: nat, b: nat)
    ensures Pow2(a + b) == Pow2(a) * Pow2(b)
  {
    if a > 0 {
      Pow2Add(a - 1, b);
      assert Pow2(a + b) == 2 * Pow2(a - 1 + b);
    }
  }

  lemma Pow2Of64()
    ensures Pow2(64) == U64_SIZE
  {
    assert Pow2(8) == 256;
    Pow2Add(8, 8);
    Pow2Add(16, 16);
    Pow2Add(32, 32);
  }

  /** The id as an unbounded number; what the 64-bit encoding gives while it does not overflow. */
  function GlobalId(shard: nat, local: nat, bits: nat): (gid: nat)
    requires shard < Pow2(bits)
  {
    local * Pow2(bits) + shard
  }

  /** `(local << bits) | shard` on 64-bit words: the shift drops whatever leaves the word. */
  function Encode(shard: nat, local: nat, bits: nat): (gid: nat)
    requires shard < Pow2(bits)
  {
    if bits == 0 then local else (local * Pow2(bits)) % U64_SIZE + shard
  }

  function Decode(gid: nat, bits: nat): (r: (nat, nat))
    ensures r.0 < Pow2(bits)
  {
    if bits == 0 then (0, gid) else Split(gid, Pow2(bits))
  }

  /** Decoding a global id gives back the pair it names. */
  lemma DecodeGlobalId(shard: nat, local: nat, bits: nat)
    requires shard < Pow2(bits)
    ensures Decode(GlobalId(shard, local, bits), bits) == (shard, local)
  {
    DivModUnique(local, shard, Pow2(bits));
  }

  /** Every number is the id of exactly the pair it decodes to. */
  lemma GlobalIdDecode(gid: nat, bits: nat)
    ensures var (s, l) := Decode(gid, bits); GlobalId(s, l, bits) == gid
  {
  }

  /** Ids are ordered by local sequence first and by shard among equals. */
  lemma GlobalIdOrder(s1: nat, l1: nat, s2: nat, l2: nat, bits: nat)
    requires s1 < Pow2(bits) && s2 < Pow2(bits)
    ensures GlobalId(s1, l1, bits) < GlobalId(s2, l2, bits) <==> l1 < l2 || (l1 == l2 && s1 < s2)
  {
    if l1 < l2 {
      MulStep(l1, l2, Pow2(bits));
    } else if l2 < l1 {
      MulStep(l2, l1, Pow2(bits));
    }
  }

  /** Multiplying by the stride and reducing to a word keeps the low bits of the sequence only. */
  lemma ShiftTruncates(local: nat, bits: nat)
    requires bits <= 64
    ensures (local * Pow2(bits)) % U64_SIZE == (local % Pow2(64 - bits)) * Pow2(bits)
  {
    Pow2Of64();
    Pow2Add(bits, 64 - bits);
    MulMod(local, Pow2(bits), Pow2(64 - bits));
  }

  /** The 64-bit id names its pair exactly while the local sequence fits above the shard bits. */
  lemma EncodeRoundTripIff(shard: nat, local: nat, bits: nat)
    requires bits <= 64 && shard < Pow2(bits) && local < U64_SIZE
    ensures Decode(Encode(shard, local, bits), bits) == (shard, local) <==> local < Pow2(64 - bits)
    ensures local < Pow2(64 - bits) ==> Encode(shard, local, bits) == GlobalId(shard, local, bits) < U64_SIZE
  {
    Pow2Of64();
    if bits > 0 {
      var m := Pow2(64 - bits);
      ShiftTruncates(local, bits);
      DivModUnique(local % m, shard, Pow2(bits));
      Pow2Add(64 - bits, bits);
      if local < m {
        MulStep(local, m, Pow2(bits));
        DivModUnique(0, local, m);
      }
    }
  }
}
