/** The 32-bit FNV-1a hash of Go's `hash/fnv` (`fnv.New32a`), from its
    published definition: start at the offset basis and, for each byte,
    xor the byte into the state and multiply by the FNV prime modulo 2^32.
    The state is a `bv32`, whose `*` is multiplication modulo 2^32, exactly
    Go's `uint32` arithmetic. */
module Fnv {
  import opened Basics

  const OFFSET_BASIS_32: bv32 := 2166136261
  const PRIME_32: bv32 := 16777619

  /** One byte of FNV-1a: xor, then multiply with 32-bit wrap-around. */
  function Step(h: bv32, b: byte): bv32 {
    (h ^ (b as bv32)) * PRIME_32
  }

  /** The state after feeding `data` to a hash whose state is `h`; this is
      what repeated calls of `Write` compute. */
  function Fold(h: bv32, data: seq<byte>): bv32
    decreases |data|
  {
    if |data| == 0 then h else Fold(Step(h, data[0]), data[1..])
  }

  /** FNV-1a-32 of a byte sequence, the value `Sum32` returns after one
      `Write` of `data` into a fresh `New32a` hash. */
  function Sum32a(data: seq<byte>): bv32 {
    Fold(OFFSET_BASIS_32, data)
  }

  /** Feeding two chunks one after the other is the same as feeding their
      concatenation: the hash does not depend on how the input is split
      across `Write` calls. */
  lemma {:induction false} FoldAppend(h: bv32, a: seq<byte>, b: seq<byte>)
    ensures Fold(h, a + b) == Fold(Fold(h, a), b)
    decreases |a|
  {
    if |a| == 0 {
      assert a + b == b;
    } else {
      assert (a + b)[0] == a[0];
      assert (a + b)[1..] == a[1..] + b;
      FoldAppend(Step(h, a[0]), a[1..], b);
    }
  }

  /** The hash of `data` extended by one byte is one more step from the hash
      of `data`. */
  lemma FoldSnoc(h: bv32, data: seq<byte>, b: byte)
    ensures Fold(h, data + [b]) == Step(Fold(h, data), b)
  {
    FoldAppend(h, data, [b]);
  }

  /** The byte loop of `sum32a.Write` run on a fresh hash, followed by
      `Sum32`: it computes the published FNV-1a value. */
  method Write(data: seq<byte>) returns (hash: bv32)
    ensures hash == Sum32a(data)
  {
    hash := OFFSET_BASIS_32;
    var i := 0;
    while i < |data|
      invariant 0 <= i <= |data|
      invariant hash == Fold(OFFSET_BASIS_32, data[..i])
    {
      FoldSnoc(OFFSET_BASIS_32, data[..i], data[i]);
      assert data[..i + 1] == data[..i] + [data[i]];
      hash := Step(hash, data[i]);
      i := i + 1;
    }
    assert data[..i] == data;
  }

  /** Reference values of FNV-1a-32 for "", "a", "ab" and "abc". */
  lemma Golden()
    ensures Sum32a([]) == 0x811c9dc5
    ensures Sum32a([0x61]) == 0xe40c292c
    ensures Sum32a([0x61, 0x62]) == 0x4d2505ca
    ensures Sum32a([0x61, 0x62, 0x63]) == 0x1a47e90b
  {
    var abc: seq<byte> := [0x61, 0x62, 0x63];
    var ab: seq<byte> := [0x61, 0x62];
    assert abc[1..] == [0x62, 0x63];
    assert abc[1..][1..] == [0x63];
    assert ab[1..] == [0x62];
  }
}
