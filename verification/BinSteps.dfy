/** Taking a superblock off its bin and putting one at the front of a bin. */
module BinSteps {
  import opened Sequences
  import opened ArenaState

  // ------------------------------------------------------------ unlinking

  ghost function UnlinkNodes(sb: map<int, Sb>, p: int): map<int, Sb>
    requires p in sb
  {
    var n, v := sb[p].next, sb[p].prev;
    var sb1 := if n in sb && n != 0 then sb[n := sb[n].(prev := v)] else sb;
    if v in sb1 && v != 0 then sb1[v := sb1[v].(next := n)] else sb1
  }

  /** `p` leaves its bin; its own links are left as they are. */
  ghost function Unlink(a: Arena, p: int): Arena
    requires Bins(a) && p in a.loc
  {
    var s := a.loc[p];
    a.(sb := UnlinkNodes(a.sb, p),
       first := if a.sb[p].prev == 0 then a.first[s := a.sb[p].next] else a.first,
       bins := a.bins[s := Without(a.bins[s], Position(a.bins[s], p))],
       loc := a.loc - {p})
  }

  /** `b'` is `b` but for the links. */
  ghost predicate SameButLinks(b: Sb, b': Sb) {
    b' == b.(prev := b'.prev, next := b'.next)
  }

  ghost predicate OnlyLinks(sb: map<int, Sb>, sb': map<int, Sb>) {
    sb'.Keys == sb.Keys && forall p {:trigger sb'[p]} :: p in sb ==> SameButLinks(sb[p], sb'[p])
  }

  lemma UnlinkOnlyLinks(sb: map<int, Sb>, p: int)
    requires p in sb
    ensures OnlyLinks(sb, UnlinkNodes(sb, p))
  {
  }

  /** The neighbours of the unlinked node skip it; nothing else changes. */
  lemma UnlinkBin(sb: map<int, Sb>, head: int, s: seq<int>, i: nat)
    requires BinOk(sb, head, s) && i < |s|
    ensures var p := s[i]; var t := Without(s, i);
            BinOk(UnlinkNodes(sb, p), if sb[p].prev == 0 then sb[p].next else head, t)
            && forall q :: q in t <==> q in s && q != p
  {
    var p, t := s[i], Without(s, i);
    var sb' := UnlinkNodes(sb, p);
    WithoutElements(s, i);
    assert NodeOk(sb, s, i);
    if i > 0 { assert s[i - 1] in s; }
    UnlinkOnlyLinks(sb, p);
    assert forall q :: q in t ==> q in sb';
    forall j | 0 <= j < |t| ensures t[j] in sb' && NodeOk(sb', t, j) {
      UnlinkNode(sb, head, s, i, j);
    }
  }

  lemma BinNode(sb: map<int, Sb>, head: int, s: seq<int>, i: int)
    requires BinOk(sb, head, s) && 0 <= i < |s|
    ensures s[i] in s && s[i] in sb && s[i] != 0 && NodeOk(sb, s, i)
  {
    var p := s[i];
    assert p in s;
  }

  lemma UnlinkNode(sb: map<int, Sb>, head: int, s: seq<int>, i: nat, j: nat)
    requires BinOk(sb, head, s) && i < |s| && j < |s| - 1
    ensures var t := Without(s, i); t[j] in UnlinkNodes(sb, s[i]) && NodeOk(UnlinkNodes(sb, s[i]), t, j)
  {
    var l := if j < i then j else j + 1;
    assert Without(s, i)[j] == s[l];
    BinNode(sb, head, s, i);
    BinNode(sb, head, s, l);
    if i > 0 { BinNode(sb, head, s, i - 1); }
    if i + 1 < |s| { BinNode(sb, head, s, i + 1); }
  }

  /** A bin without the unlinked node and its neighbours is untouched. */
  lemma BinFrame(sb: map<int, Sb>, sb': map<int, Sb>, head: int, s: seq<int>)
    requires BinOk(sb, head, s)
    requires forall p :: p in s ==> p in sb' && sb'[p].next == sb[p].next && sb'[p].prev == sb[p].prev
    ensures BinOk(sb', head, s)
  {
    forall i | 0 <= i < |s| ensures s[i] in sb' && NodeOk(sb', s, i) {
      BinNode(sb, head, s, i);
      var p := s[i];
      assert p in s;
    }
  }

  lemma UnlinkOtherBin(a: Arena, p: int, s: Slot)
    requires Bins(a) && p in a.loc && s in a.bins && s != a.loc[p]
    ensures BinOk(UnlinkNodes(a.sb, p), a.first[s], a.bins[s])
  {
    var o := a.bins[a.loc[p]];
    var i := Position(o, p);
    assert BinOk(a.sb, a.first[a.loc[p]], o) && NodeOk(a.sb, o, i);
    if i > 0 { assert o[i - 1] in o; }
    if i + 1 < |o| { assert o[i + 1] in o; }
    assert BinOk(a.sb, a.first[s], a.bins[s]);
    BinFrame(a.sb, UnlinkNodes(a.sb, p), a.first[s], a.bins[s]);
  }

  lemma UnlinkBins(a: Arena, p: int)
    requires Bins(a) && p in a.loc
    ensures Bins(Unlink(a, p))
  {
    var a', o := Unlink(a, p), a.loc[p];
    var i := Position(a.bins[o], p);
    UnlinkOnlyLinks(a.sb, p);
    assert BinOk(a.sb, a.first[o], a.bins[o]);
    UnlinkBin(a.sb, a.first[o], a.bins[o], i);
    forall s | s in a'.bins ensures BinOk(a'.sb, a'.first[s], a'.bins[s]) {
      if s != o { UnlinkOtherBin(a, p, s); } else { UnlinkFirst(a, p); }
    }
  }

  lemma UnlinkFirst(a: Arena, p: int)
    requires Bins(a) && p in a.loc
    ensures Unlink(a, p).first[a.loc[p]] == if a.sb[p].prev == 0 then a.sb[p].next else a.first[a.loc[p]]
  {
  }

  /** The neighbours of a listed superblock are superblocks other than itself, or null. */
  lemma NeighboursAreOthers(a: Arena, p: int)
    requires Bins(a) && p in a.loc
    ensures p in a.sb && p != 0 && a.loc[p] in a.first && a.loc[p] in a.bins && SlotOk(|a.used|, a.loc[p])
    ensures a.sb[p].next != p && (a.sb[p].next != 0 ==> a.sb[p].next in a.sb)
    ensures a.sb[p].prev != p && (a.sb[p].prev != 0 ==> a.sb[p].prev in a.sb)
    ensures p in a.bins[a.loc[p]]
  {
    var s := a.bins[a.loc[p]];
    var i := Position(s, p);
    assert BinOk(a.sb, a.first[a.loc[p]], s) && NodeOk(a.sb, s, i);
    if i > 0 { assert s[i - 1] in s; }
    if i + 1 < |s| { assert s[i + 1] in s; }
  }

  lemma SlotHead(a: Arena, d: Slot)
    requires Bins(a) && SlotOk(|a.used|, d)
    ensures d in a.first && d in a.bins && (a.first[d] != 0 ==> a.first[d] in a.sb)
    ensures forall p :: p in a.sb && p !in a.loc ==> a.first[d] != p || p == 0
  {
    assert BinOk(a.sb, a.first[d], a.bins[d]);
    if a.bins[d] != [] { assert a.bins[d][0] in a.bins[d]; }
  }

  // ------------------------------------------------------------ pushing

  ghost function PushNodes(sb: map<int, Sb>, p: int, head: int): map<int, Sb>
    requires p in sb
  {
    var sb1 := if head in sb && head != 0 then sb[head := sb[head].(prev := p)] else sb;
    sb1[p := sb1[p].(next := head, prev := 0)]
  }

  /** A superblock that is on no bin goes to the front of bin `d`. */
  ghost function Push(a: Arena, p: int, d: Slot): Arena
    requires p in a.sb && d in a.first && d in a.bins
  {
    a.(sb := PushNodes(a.sb, p, a.first[d]), first := a.first[d := p],
       bins := a.bins[d := [p] + a.bins[d]], loc := a.loc[p := d])
  }

  lemma PushOnlyLinks(sb: map<int, Sb>, p: int, head: int)
    requires p in sb
    ensures OnlyLinks(sb, PushNodes(sb, p, head))
  {
  }

  lemma PushBin(sb: map<int, Sb>, head: int, s: seq<int>, p: int)
    requires BinOk(sb, head, s) && p in sb && p != 0 && p !in s
    ensures BinOk(PushNodes(sb, p, head), p, [p] + s)
    ensures forall q :: q in [p] + s <==> q == p || q in s
  {
    var t, sb' := [p] + s, PushNodes(sb, p, head);
    if s != [] { assert s[0] in s; }
    forall i | 0 <= i < |t| ensures t[i] in sb' && NodeOk(sb', t, i) {
      if i > 0 { BinNode(sb, head, s, i - 1); }
    }
  }

  lemma PushOtherBin(a: Arena, p: int, d: Slot, s: Slot)
    requires Bins(a) && p in a.sb && p !in a.loc && d in a.bins && s in a.bins && s != d
    ensures BinOk(PushNodes(a.sb, p, a.first[d]), a.first[s], a.bins[s])
  {
    assert BinOk(a.sb, a.first[s], a.bins[s]) && BinOk(a.sb, a.first[d], a.bins[d]);
    if a.bins[d] != [] { assert a.bins[d][0] in a.bins[d]; }
    BinFrame(a.sb, PushNodes(a.sb, p, a.first[d]), a.first[s], a.bins[s]);
  }

  lemma PushBins(a: Arena, p: int, d: Slot)
    requires Bins(a) && p in a.sb && p != 0 && p !in a.loc && d in a.bins
    ensures Bins(Push(a, p, d))
  {
    var a' := Push(a, p, d);
    PushOnlyLinks(a.sb, p, a.first[d]);
    assert BinOk(a.sb, a.first[d], a.bins[d]);
    PushBin(a.sb, a.first[d], a.bins[d], p);
    hide BinOk, PushNodes;
    forall s | s in a'.bins ensures BinOk(a'.sb, a'.first[s], a'.bins[s]) {
      if s != d { PushOtherBin(a, p, d, s); }
    }
  }

  // ------------------------------------------------------------ what links do not matter for

  /** Links take no part in the block maps or the counters. */
  lemma OnlyLinksKeep(a: Arena, a': Arena)
    requires OnlyLinks(a.sb, a'.sb) && a'.live == a.live && a'.alloc == a.alloc && a'.used == a.used
    requires Maps(a) && Books(a)
    ensures Maps(a') && Books(a')
  {
    forall p | p in a'.sb ensures SbOk(a', p) {
      assert SbOk(a, p) && SameButLinks(a.sb[p], a'.sb[p]);
    }
    forall h: nat | h < |a'.used| ensures HeapOk(a', h) {
      assert HeapOk(a, h);
      OnlyLinksHeap(a, a', h);
    }
  }

  lemma OnlyLinksHeap(a: Arena, a': Arena, h: nat)
    requires OnlyLinks(a.sb, a'.sb) && h < |a.used| && h < |a.alloc| && a'.used == a.used && a'.alloc == a.alloc
    requires HeapOk(a, h)
    ensures HeapOk(a', h)
  {
    forall p | p in a.sb ensures Weight(a'.sb[p]) == Weight(a.sb[p]) && a'.sb[p].heap == a.sb[p].heap {
      assert SameButLinks(a.sb[p], a'.sb[p]);
    }
    assert Members(a', h) == Members(a, h);
    assert Weights(a') == Weights(a);
  }
}
