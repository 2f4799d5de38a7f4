/** The state of the superblock allocator as one value: every superblock header (by page
    number), every heap's counters and bin heads, and a ledger of where each superblock is
    listed and which blocks are live. */
module ArenaState {
  import opened Sequences
  import opened PageLayout
  import opened Chains
  import opened SetSums

  const SB_SIZE := 4096
  const HEADER_BYTES := 104
  const FULLNESS := 4
  const NUM_BINS := 6
  const K := 8
  const SMALL_CLASSES := 5   // 8 to 128 bytes: the classes whose header blocks are reserved

  function Total(c: nat): (n: int)
    requires c < NSIZES
    ensures 2 <= n <= 512
  {
    SB_SIZE / SizeOf(c)
  }

  /** Blocks that the header of a superblock covers. */
  function Reserved(c: nat): (n: nat)
    requires c < SMALL_CLASSES
    ensures HEADER_BYTES <= n * SizeOf(c) < HEADER_BYTES + SizeOf(c)
    ensures FULLNESS * n < Total(c)
  {
    match c
    case 0 => 13
    case 1 => 7
    case 2 => 4
    case 3 => 2
    case _ => 1
  }

  /** The fullness bin of a superblock with `used` of `total` blocks in use. */
  function Bin(used: int, total: int): int
    requires total > 0
  {
    FULLNESS * used / total + 1
  }

  datatype Slot = Slot(h: nat, c: nat, f: nat)

  datatype Sb = Sb(cls: nat, bits: set<nat>, used: int, heap: nat, prev: int, next: int)

  datatype Arena = Arena(
    sb: map<int, Sb>,
    first: map<Slot, int>,
    alloc: seq<int>,
    used: seq<int>,
    bins: map<Slot, seq<int>>,
    loc: map<int, Slot>,
    live: set<(int, nat)>)

  predicate SlotOk(n: nat, s: Slot) {
    s.h < n && s.c < NSIZES && s.f < NUM_BINS
  }

  /** The links of the superblock at position `i` of a bin. */
  ghost predicate NodeOk(sb: map<int, Sb>, s: seq<int>, i: int)
    requires 0 <= i < |s| && s[i] in sb
  {
    sb[s[i]].next == At(s, i + 1) && sb[s[i]].prev == if i == 0 then 0 else s[i - 1]
  }

  /** `head` is the head of the doubly linked list `s`. */
  ghost predicate BinOk(sb: map<int, Sb>, head: int, s: seq<int>) {
    && head == At(s, 0) && Distinct(s)
    && (forall p :: p in s ==> p in sb && p != 0)
    && (forall i {:trigger NodeOk(sb, s, i)} :: 0 <= i < |s| ==> s[i] in sb && NodeOk(sb, s, i))
  }

  ghost predicate Bins(a: Arena) {
    && |a.alloc| == |a.used|
    && (forall s :: s in a.first <==> SlotOk(|a.used|, s))
    && (forall s :: s in a.bins <==> SlotOk(|a.used|, s))
    && (forall s :: s in a.bins ==> BinOk(a.sb, a.first[s], a.bins[s]))
    && (forall p :: p in a.loc ==> p in a.sb && a.loc[p] in a.bins)
    && (forall s, p {:trigger p in a.bins[s]} :: s in a.bins ==> (p in a.bins[s] <==> p in a.loc && a.loc[p] == s))
  }

  ghost predicate Header(c: nat, i: nat)
    requires c < SMALL_CLASSES
  {
    i < Reserved(c)
  }

  /** The set bits are the header blocks and the live blocks, and `used` counts them. */
  ghost predicate SbOk(a: Arena, p: int)
    requires p in a.sb
  {
    var b := a.sb[p];
    && p > 0 && b.cls < SMALL_CLASSES && b.heap < |a.used|
    && b.used == |b.bits|
    && (forall i: nat :: i in b.bits <==> Header(b.cls, i) || (p, i) in a.live)
  }

  ghost predicate Maps(a: Arena) {
    && (forall p {:trigger SbOk(a, p)} :: p in a.sb ==> SbOk(a, p))
    && (forall p, i {:trigger (p, i) in a.live} :: (p, i) in a.live ==>
          p in a.sb && a.sb[p].cls < SMALL_CLASSES && Reserved(a.sb[p].cls) <= i < Total(a.sb[p].cls))
  }

  ghost function Members(a: Arena, h: nat): set<int> {
    set p | p in a.sb && a.sb[p].heap == h
  }

  ghost function Weight(b: Sb): int {
    if b.cls < NSIZES then b.used * SizeOf(b.cls) else 0
  }

  ghost function Weights(a: Arena): map<int, int> {
    map p | p in a.sb :: Weight(a.sb[p])
  }

  lemma WeightsCover(a: Arena, h: nat)
    ensures Covers(Members(a, h), Weights(a))
  {
  }

  /** A heap's counters are the sums over its superblocks. */
  ghost predicate HeapOk(a: Arena, h: nat)
    requires h < |a.used| && h < |a.alloc|
  {
    WeightsCover(a, h);
    && a.alloc[h] == SB_SIZE * |Members(a, h)|
    && a.used[h] == Sum(Members(a, h), Weights(a))
  }

  ghost predicate Books(a: Arena) {
    |a.alloc| == |a.used| && forall h: nat {:trigger HeapOk(a, h)} :: h < |a.used| ==> HeapOk(a, h)
  }

  ghost predicate Inv(a: Arena) {
    Bins(a) && Maps(a) && Books(a)
  }

  /** Superblock `p` is listed where its fields say it belongs. */
  ghost predicate Placed(a: Arena, p: int) {
    && p in a.sb && p in a.loc && a.sb[p].cls < NSIZES
    && a.loc[p].h == a.sb[p].heap && a.loc[p].c == a.sb[p].cls
    && a.loc[p].f == Bin(a.sb[p].used, Total(a.sb[p].cls))
  }

  /** Between calls every superblock is in the bin of its heap, class and fullness. */
  ghost predicate Settled(a: Arena) {
    Inv(a) && forall p {:trigger Placed(a, p)} :: p in a.sb ==> Placed(a, p)
  }

  ghost predicate SettledBut(a: Arena, q: int) {
    Inv(a) && forall p {:trigger Placed(a, p)} :: p in a.sb && p != q ==> Placed(a, p)
  }
}
