/** Little-endian fields of a byte buffer. */
module Bytes {
  import opened Arith

  type Byte = b: nat | b < 256
  type Word32 = n: nat | n < 0x1_0000_0000

  function Pow256(width: nat): (p: nat)
    ensures p > 0
  {
    if width == 0 then 1 else 256 * Pow256(width - 1)
  }

  /** The low `width` bytes of `n`, least significant first. */
  function Le(n: nat, width: nat): (bs: seq<Byte>)
    ensures |bs| == width
  {
    if width == 0 then [] else [n % 256] + Le(n / 256, width - 1)
  }

  function FromLe(bs: seq<Byte>): (n: nat)
    ensures n < Pow256(|bs|)
  {
    if bs == [] then 0 else bs[0] + 256 * FromLe(bs[1..])
  }

  /** Writing and reading back a field reduces the number to the field's width. */
  lemma {:induction false} LeTruncates(n: nat, width: nat)
    ensures FromLe(Le(n, width)) == n % Pow256(width)
  {
    if width > 0 {
      LeTruncates(n / 256, width - 1);
      assert Le(n, width)[1..] == Le(n / 256, width - 1);
      NestedMod(n, Pow256(width - 1));
    }
  }

  lemma NestedMod(n: nat, p: nat)
    requires p > 0
    ensures n % (256 * p) == n % 256 + 256 * ((n / 256) % p)
  {
    var m, low := n / 256, n % 256;
    var q, r := m / p, m % p;
    DivMod(m, p);
    Regroup(q, p, r);
    assert n == m * 256 + low;
    DivModUnique(q, 256 * r + low, 256 * p);
  }

  lemma Regroup(q: nat, p: nat, r: nat)
    ensures (q * p + r) * 256 == q * (256 * p) + 256 * r
  {
    assert q * (256 * p) == (q * p) * 256;
  }

  lemma LeRoundTrip(n: nat, width: nat)
    requires n < Pow256(width)
    ensures FromLe(Le(n, width)) == n
  {
    LeTruncates(n, width);
    DivModUnique(0, n, Pow256(width));
  }

  lemma Widths()
    ensures Pow256(1) == 256
    ensures Pow256(2) == 0x1_0000
    ensures Pow256(4) == 0x1_0000_0000
    ensures Pow256(8) == 0x1_0000_0000_0000_0000
  {
  }

  /** The `width`-byte number at `pos`, when the buffer has it. */
  function FieldAt(data: seq<Byte>, pos: nat, width: nat): (n: nat)
    requires pos + width <= |data|
    ensures n < Pow256(width)
  {
    FromLe(data[pos..pos + width])
  }

  /** A field written after `before` is read back at that position, whatever follows. */
  lemma FieldAfter(before: seq<Byte>, n: nat, width: nat, rest: seq<Byte>)
    requires n < Pow256(width)
    ensures FieldAt(before + Le(n, width) + rest, |before|, width) == n
  {
    var data := before + Le(n, width) + rest;
    assert data[|before|..|before| + width] == Le(n, width);
    LeRoundTrip(n, width);
  }

  /** Consecutive 64-bit fields. */
  function U64s(xs: seq<nat>): (bs: seq<Byte>)
    ensures |bs| == 8 * |xs|
  {
    if xs == [] then [] else U64s(xs[..|xs| - 1]) + Le(xs[|xs| - 1], 8)
  }

  /** The `i`-th of a run of 64-bit fields is read back at its place. */
  lemma {:induction false} U64At(pre: seq<Byte>, xs: seq<nat>, post: seq<Byte>, i: nat)
    requires i < |xs| && xs[i] < Pow256(8)
    ensures FieldAt(pre + U64s(xs) + post, |pre| + 8 * i, 8) == xs[i]
  {
    var last := |xs| - 1;
    var init := U64s(xs[..last]);
    if i == last {
      assert pre + U64s(xs) + post == (pre + init) + Le(xs[last], 8) + post;
      FieldAfter(pre + init, xs[last], 8, post);
    } else {
      assert pre + U64s(xs) + post == pre + init + (Le(xs[last], 8) + post);
      U64At(pre, xs[..last], Le(xs[last], 8) + post, i);
    }
  }
}
