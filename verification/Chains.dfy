/** Singly linked lists that are threaded through a word memory: cell `c` keeps the
    address of the next cell in word `c + off`, and 0 ends the list. */
module Chains {
  import opened Sequences

  /** The cell at position `i`, or the null pointer past the end. */
  ghost function At(s: seq<int>, i: int): int
    requires 0 <= i
  {
    if i < |s| then s[i] else 0
  }

  /** The link word of the cell at position `i` names the cell after it. */
  ghost predicate Linked(m: seq<int>, s: seq<int>, off: int, i: int)
    requires 0 <= i < |s| && 0 <= s[i] + off < |m|
  {
    m[s[i] + off] == At(s, i + 1)
  }

  ghost predicate InMemory(m: seq<int>, s: seq<int>, off: int) {
    forall i :: 0 <= i < |s| ==> s[i] != 0 && 0 <= s[i] + off < |m|
  }

  /** `head` and the link words of `m` spell exactly the list `s`. */
  ghost predicate Chain(m: seq<int>, head: int, s: seq<int>, off: int) {
    && head == At(s, 0)
    && InMemory(m, s, off)
    && forall i :: 0 <= i < |s| ==> Linked(m, s, off, i)
  }

  /** A memory that agrees on the link words holds the same list. */
  lemma ChainFrame(m: seq<int>, m': seq<int>, head: int, s: seq<int>, off: int)
    requires Chain(m, head, s, off) && |m'| == |m|
    requires forall c :: c in s ==> m'[c + off] == m[c + off]
    ensures Chain(m', head, s, off)
  {
    forall i | 0 <= i < |s| ensures Linked(m', s, off, i) {
      assert Linked(m, s, off, i) && s[i] in s;
    }
  }

  lemma ChainPop(m: seq<int>, head: int, s: seq<int>, off: int)
    requires Chain(m, head, s, off) && Distinct(s) && s != []
    ensures Chain(m, m[s[0] + off], s[1..], off) && Distinct(s[1..])
    ensures forall c :: c in s[1..] <==> c in s && c != s[0]
  {
    var t := s[1..];
    assert Linked(m, s, off, 0);
    forall i | 0 <= i < |t| ensures Linked(m, t, off, i) {
      assert Linked(m, s, off, i + 1) && t[i] == s[i + 1];
    }
    forall c | c in s && c != s[0] ensures c in t {
      var j :| 0 <= j < |s| && s[j] == c;
      assert t[j - 1] == c;
    }
  }

  lemma ChainPush(m: seq<int>, m': seq<int>, head: int, s: seq<int>, off: int, c: int)
    requires Chain(m, head, s, off) && Distinct(s) && |m'| == |m|
    requires c !in s && c != 0 && 0 <= c + off < |m| && m'[c + off] == head
    requires forall d :: d in s ==> m'[d + off] == m[d + off]
    ensures Chain(m', c, [c] + s, off) && Distinct([c] + s)
    ensures forall d :: d in [c] + s <==> d == c || d in s
  {
    ChainFrame(m, m', head, s, off);
    var t := [c] + s;
    forall i | 0 <= i < |t| ensures Linked(m', t, off, i) {
      if i > 0 { assert Linked(m', s, off, i - 1) && t[i] == s[i - 1]; }
    }
  }

  /** Unlinking the cell at position `i > 0` by redirecting its predecessor. */
  lemma ChainUnlink(m: seq<int>, m': seq<int>, head: int, s: seq<int>, off: int, i: int)
    requires Chain(m, head, s, off) && Distinct(s) && 0 < i < |s| && |m'| == |m|
    requires m'[s[i - 1] + off] == m[s[i] + off]
    requires forall d :: d in s && d != s[i - 1] ==> m'[d + off] == m[d + off]
    ensures Chain(m', head, Without(s, i), off)
  {
    var t := Without(s, i);
    forall j | 0 <= j < |t| ensures Linked(m', t, off, j) {
      var l := if j < i then j else j + 1;
      assert Linked(m, s, off, l) && t[j] == s[l] && s[l] in s;
      if j == i - 1 {
        assert Linked(m, s, off, i);
      }
    }
  }

  /** The memory and the head after the cell at position `i` is unlinked: its predecessor,
      or the head if it has none, is redirected to its successor. */
  ghost function UnlinkMemory(m: seq<int>, s: seq<int>, off: int, i: nat): (m': seq<int>)
    requires InMemory(m, s, off) && i < |s|
    ensures |m'| == |m|
  {
    if i == 0 then m else m[s[i - 1] + off := m[s[i] + off]]
  }

  ghost function UnlinkHead(m: seq<int>, head: int, s: seq<int>, off: int, i: nat): int
    requires InMemory(m, s, off) && i < |s|
  {
    if i == 0 then m[s[0] + off] else head
  }

  lemma ChainRemove(m: seq<int>, head: int, s: seq<int>, off: int, i: nat)
    requires Chain(m, head, s, off) && Distinct(s) && i < |s|
    ensures Chain(UnlinkMemory(m, s, off, i), UnlinkHead(m, head, s, off, i), Without(s, i), off)
    ensures Distinct(Without(s, i)) && forall c :: c in Without(s, i) <==> c in s && c != s[i]
  {
    WithoutElements(s, i);
    if i == 0 {
      ChainPop(m, head, s, off);
      assert Without(s, 0) == s[1..];
    } else {
      ChainUnlink(m, UnlinkMemory(m, s, off, i), head, s, off, i);
    }
  }

  /** What unlinking stores, told by the predecessor's cell alone. */
  lemma UnlinkStores(m: seq<int>, head: int, s: seq<int>, off: int, i: nat)
    requires Chain(m, head, s, off) && i < |s|
    ensures i == 0 ==> UnlinkMemory(m, s, off, i) == m && UnlinkHead(m, head, s, off, i) == m[s[0] + off]
    ensures i > 0 ==> UnlinkMemory(m, s, off, i) == m[s[i - 1] + off := m[s[i] + off]]
                      && UnlinkHead(m, head, s, off, i) == head && s[i - 1] != 0
  {
  }
}
