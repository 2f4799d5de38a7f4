/** The 512-bit block map of a superblock: 64 bytes, bit `i` of the map is bit `i % 8` of
    byte `i / 8`. */
module BlockMaps {

  const MAP_BYTES := 64

  /** `2^k` as a byte. */
  function Mask(k: nat): bv8
    requires k < 8
  {
    match k
    case 0 => 1
    case 1 => 2
    case 2 => 4
    case 3 => 8
    case 4 => 16
    case 5 => 32
    case 6 => 64
    case _ => 128
  }

  predicate ByteBit(b: bv8, k: nat)
    requires k < 8
  {
    b & Mask(k) != 0
  }

  /** Testing a bit with the mask is testing it with a shift. */
  lemma ShiftTest(b: bv8)
    ensures ByteBit(b, 0) <==> b & 1 == 1
    ensures ByteBit(b, 1) <==> (b >> 1) & 1 == 1
    ensures ByteBit(b, 2) <==> (b >> 2) & 1 == 1
    ensures ByteBit(b, 3) <==> (b >> 3) & 1 == 1
    ensures ByteBit(b, 4) <==> (b >> 4) & 1 == 1
    ensures ByteBit(b, 5) <==> (b >> 5) & 1 == 1
    ensures ByteBit(b, 6) <==> (b >> 6) & 1 == 1
    ensures ByteBit(b, 7) <==> (b >> 7) & 1 == 1
  {
  }

  /** Adding `2^k` to a byte whose bit `k` is clear sets that bit only. */
  lemma AddSetsBit(b: bv8, k: nat, j: nat)
    requires k < 8 && j < 8 && !ByteBit(b, k)
    ensures ByteBit(b + Mask(k), j) <==> j == k || ByteBit(b, j)
  {
    assert b + Mask(k) == b | Mask(k);
  }

  /** Subtracting `2^k` from a byte whose bit `k` is set clears that bit only. */
  lemma SubClearsBit(b: bv8, k: nat, j: nat)
    requires k < 8 && j < 8 && ByteBit(b, k)
    ensures ByteBit(b - Mask(k), j) <==> j != k && ByteBit(b, j)
  {
    assert b - Mask(k) == b ^ Mask(k);
  }

  lemma FullByte(b: bv8, k: nat)
    requires k < 8 && b == 255
    ensures ByteBit(b, k)
  {
  }

  /** The byte `2^n - 1` has exactly its `n` lowest bits set. */
  function LowBits(n: nat): bv8
    requires n <= 8
  {
    if n == 8 then 255 else Mask(n) - 1
  }

  lemma LowBitsSet(n: nat, k: nat)
    requires n <= 8 && k < 8
    ensures ByteBit(LowBits(n), k) <==> k < n
  {
  }

  predicate Bit(m: seq<bv8>, i: nat)
    requires |m| == MAP_BYTES && i < 8 * MAP_BYTES
  {
    ByteBit(m[i / 8], i % 8)
  }

  /** The map has exactly the bits in `bits` set. */
  ghost predicate Shows(m: seq<bv8>, bits: set<nat>) {
    && |m| == MAP_BYTES
    && (forall i: nat {:trigger Bit(m, i)} :: i < 8 * MAP_BYTES ==> (Bit(m, i) <==> i in bits))
    && (forall i: nat {:trigger i in bits} :: i in bits ==> i < 8 * MAP_BYTES)
  }

  lemma ShowsBits(m: seq<bv8>, bits: set<nat>, n: nat)
    requires Shows(m, bits) && n <= 8 * MAP_BYTES
    ensures forall i: nat :: i < n ==> (Bit(m, i) <==> i in bits)
  {
  }

  /** The map with `2^(i % 8)` added to, or subtracted from, the byte of block `i`. */
  function Added(m: seq<bv8>, i: nat): seq<bv8>
    requires |m| == MAP_BYTES && i < 8 * MAP_BYTES
  {
    m[i / 8 := m[i / 8] + Mask(i % 8)]
  }

  function Subtracted(m: seq<bv8>, i: nat): seq<bv8>
    requires |m| == MAP_BYTES && i < 8 * MAP_BYTES
  {
    m[i / 8 := m[i / 8] - Mask(i % 8)]
  }

  lemma SetBit(m: seq<bv8>, bits: set<nat>, i: nat)
    requires Shows(m, bits) && i < 8 * MAP_BYTES && i !in bits
    ensures |m| == MAP_BYTES && Shows(Added(m, i), bits + {i})
  {
    hide Mask, ByteBit;
    var m' := Added(m, i);
    assert !Bit(m, i);
    forall j: nat | j < 8 * MAP_BYTES ensures Bit(m', j) <==> j in bits + {i} {
      assert Bit(m, j) <==> j in bits;
      if j / 8 == i / 8 { AddSetsBit(m[i / 8], i % 8, j % 8); }
    }
  }

  lemma ClearBit(m: seq<bv8>, bits: set<nat>, i: nat)
    requires Shows(m, bits) && i in bits
    ensures |m| == MAP_BYTES && i < 8 * MAP_BYTES && Shows(Subtracted(m, i), bits - {i})
  {
    hide Mask, ByteBit;
    var m' := Subtracted(m, i);
    assert Bit(m, i);
    forall j: nat | j < 8 * MAP_BYTES ensures Bit(m', j) <==> j in bits - {i} {
      assert Bit(m, j) <==> j in bits;
      if j / 8 == i / 8 { SubClearsBit(m[i / 8], i % 8, j % 8); }
    }
  }

  /** The map that `new_superblock` writes: the lowest `n` of at most 16 bits. */
  function HeaderMap(n: nat): (m: seq<bv8>)
    requires n <= 16
  {
    var zero: bv8 := 0;
    var rest := seq(MAP_BYTES - 2, _ => zero);
    if n <= 8 then [LowBits(n), zero] + rest else [255, LowBits(n - 8)] + rest
  }

  lemma HeaderMapShows(n: nat, bits: set<nat>)
    requires n <= 16 && forall i: nat :: i in bits <==> i < n
    ensures Shows(HeaderMap(n), bits)
  {
    var m := HeaderMap(n);
    forall i: nat | i < 8 * MAP_BYTES ensures Bit(m, i) <==> i < n {
      HeaderBit(n, i);
    }
  }

  lemma HeaderBit(n: nat, i: nat)
    requires n <= 16 && i < 8 * MAP_BYTES
    ensures Bit(HeaderMap(n), i) <==> i < n
  {
    if i < 8 {
      LowBitsSet(if n <= 8 then n else 8, i);
    } else if i < 16 {
      LowBitsSet(if n <= 8 then 0 else n - 8, i - 8);
    }
  }
}
