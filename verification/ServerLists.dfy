/** The chat server's linked lists: what it means that the records form them, and how one
    member leaves them. */
module ServerLists {
  import opened Sequences
  import opened Registry

  ghost function MemberAt(s: seq<Member>, i: int): Member? {
    if 0 <= i < |s| then s[i] else null
  }

  ghost function RoomAt(s: seq<Room>, i: int): Room? {
    if 0 <= i < |s| then s[i] else null
  }

  ghost predicate Listing(s: seq<Member>, i: int)
    reads s`next, s`prev
  {
    0 <= i < |s| ==> s[i].next == MemberAt(s, i + 1) && s[i].prev == MemberAt(s, i - 1)
  }

  /** The member list, linked both ways. */
  ghost predicate MemberList(s: seq<Member>, head: Member?, tail: Member?)
    reads s`next, s`prev
  {
    && head == MemberAt(s, 0) && tail == MemberAt(s, |s| - 1)
    && forall i {:trigger Listing(s, i)} :: 0 <= i < |s| ==> Listing(s, i)
  }

  ghost predicate Seated(s: seq<Member>, i: int)
    reads s`nextInRoom, s`prevInRoom
  {
    0 <= i < |s| ==> s[i].nextInRoom == MemberAt(s, i + 1) && s[i].prevInRoom == MemberAt(s, i - 1)
  }

  /** A room's own member list, linked both ways, and its count. */
  ghost predicate Holds(r: Room, s: seq<Member>)
    reads r`head, r`tail, r`numOfMembers, s`nextInRoom, s`prevInRoom
  {
    && r.head == MemberAt(s, 0) && r.tail == MemberAt(s, |s| - 1) && r.numOfMembers == |s|
    && forall i {:trigger Seated(s, i)} :: 0 <= i < |s| ==> Seated(s, i)
  }

  ghost predicate Follows(s: seq<Room>, i: int)
    reads s`next
  {
    0 <= i < |s| ==> s[i].next == RoomAt(s, i + 1)
  }

  /** The room list, linked forwards. */
  ghost predicate RoomList(s: seq<Room>, head: Room?)
    reads s`next
  {
    && head == RoomAt(s, 0)
    && forall i {:trigger Follows(s, i)} :: 0 <= i < |s| ==> Follows(s, i)
  }

  ghost predicate Rosters(g: Reg)
    reads g.what.Keys`head, g.what.Keys`tail, g.what.Keys`numOfMembers
    reads g.who.Keys`nextInRoom, g.who.Keys`prevInRoom
  {
    forall r :: r in g.what ==>
      && (forall m :: m in g.what[r].roster ==> m in g.who)
      && Holds(r, g.what[r].roster)
  }

  ghost predicate Records(g: Reg)
    reads g.who.Keys`name, g.who.Keys`id, g.who.Keys`quietFlag, g.who.Keys`currentRoom
    reads g.what.Keys`name, g.what.Keys`emptyFlag
  {
    && (forall m :: m in g.who ==> Who(m.name, m.id, m.quietFlag, m.currentRoom) == g.who[m])
    && (forall r :: r in g.what ==> r.name == g.what[r].name && r.emptyFlag == g.what[r].empty)
  }

  lemma MinusAt(s: seq<Member>, m: Member, j: int)
    requires m in s
    ensures MemberAt(Minus(s, m), j) == if j < Position(s, m) then MemberAt(s, j) else MemberAt(s, j + 1)
    ensures 0 <= j < |Minus(s, m)| ==> Minus(s, m)[j] == s[if j < Position(s, m) then j else j + 1]
  {
  }

  ghost predicate BypassedRoom(s: seq<Room>, p: int, k: int)
    reads s`next
  {
    0 <= k < |s| ==> s[k].next == RoomAt(s, if k == p - 1 then p + 1 else k + 1)
  }

  lemma RoomsClosed(s: seq<Room>, r: Room)
    requires r in s
    requires forall k :: 0 <= k < |s| && k != Position(s, r) ==> BypassedRoom(s, Position(s, r), k)
    ensures RoomList(Minus(s, r), RoomAt(s, if Position(s, r) == 0 then 1 else 0))
  {
    var p := Position(s, r);
    MinusRoomAt(s, r, 0);
    forall j | 0 <= j < |Minus(s, r)| ensures Follows(Minus(s, r), j) {
      assert BypassedRoom(s, p, if j < p then j else j + 1);
      MinusRoomAt(s, r, j);
      MinusRoomAt(s, r, j + 1);
    }
  }

  lemma MinusRoomAt(s: seq<Room>, r: Room, j: int)
    requires r in s
    ensures RoomAt(Minus(s, r), j) == if j < Position(s, r) then RoomAt(s, j) else RoomAt(s, j + 1)
    ensures 0 <= j < |Minus(s, r)| ==> Minus(s, r)[j] == s[if j < Position(s, r) then j else j + 1]
  {
  }

  /** The neighbours of position `p` point past it. */
  ghost predicate SeatedAround(s: seq<Member>, p: int, k: int)
    reads s`nextInRoom, s`prevInRoom
  {
    0 <= k < |s| ==>
      && s[k].nextInRoom == MemberAt(s, if k == p - 1 then p + 1 else k + 1)
      && s[k].prevInRoom == MemberAt(s, if k == p + 1 then p - 1 else k - 1)
  }

  lemma SeatsClosed(s: seq<Member>, m: Member)
    requires m in s
    requires forall k :: 0 <= k < |s| && k != Position(s, m) ==> SeatedAround(s, Position(s, m), k)
    ensures forall j :: 0 <= j < |Minus(s, m)| ==> Seated(Minus(s, m), j)
  {
    var p := Position(s, m);
    forall j | 0 <= j < |Minus(s, m)| ensures Seated(Minus(s, m), j) {
      assert SeatedAround(s, p, if j < p then j else j + 1);
      MinusAt(s, m, j);
      MinusAt(s, m, j + 1);
      MinusAt(s, m, j - 1);
    }
  }

  ghost predicate ListedAround(s: seq<Member>, p: int, k: int)
    reads s`next, s`prev
  {
    0 <= k < |s| ==>
      && s[k].next == MemberAt(s, if k == p - 1 then p + 1 else k + 1)
      && s[k].prev == MemberAt(s, if k == p + 1 then p - 1 else k - 1)
  }

  lemma ListingClosed(s: seq<Member>, m: Member)
    requires m in s
    requires forall k :: 0 <= k < |s| && k != Position(s, m) ==> ListedAround(s, Position(s, m), k)
    ensures forall j :: 0 <= j < |Minus(s, m)| ==> Listing(Minus(s, m), j)
  {
    var p := Position(s, m);
    forall j | 0 <= j < |Minus(s, m)| ensures Listing(Minus(s, m), j) {
      assert ListedAround(s, p, if j < p then j else j + 1);
      MinusAt(s, m, j);
      MinusAt(s, m, j + 1);
      MinusAt(s, m, j - 1);
    }
  }

  /** With all neighbours linked past `m`, and the ends, the list without it is linked. */
  lemma ListClosed(s: seq<Member>, m: Member, head: Member?, tail: Member?)
    requires m in s && Distinct(s)
    requires var p := Position(s, m);
             && (forall k :: 0 <= k < |s| && k != p ==> ListedAround(s, p, k))
             && head == MemberAt(s, if p == 0 then 1 else 0)
             && tail == MemberAt(s, if p == |s| - 1 then p - 1 else |s| - 1)
    ensures MemberList(Minus(s, m), head, tail)
  {
    ListingClosed(s, m);
    MinusEnds(s, m);
    hide Minus, MemberAt, Listing, ListedAround, Distinct;
  }

  lemma MinusEnds(s: seq<Member>, m: Member)
    requires m in s && Distinct(s)
    ensures var t, p := Minus(s, m), Position(s, m);
            && |t| == |s| - 1
            && MemberAt(t, 0) == MemberAt(s, if p == 0 then 1 else 0)
            && MemberAt(t, |t| - 1) == MemberAt(s, if p == |s| - 1 then p - 1 else |s| - 1)
  {
    MinusElements(s, m);
    MinusAt(s, m, 0);
    MinusAt(s, m, |s| - 2);
  }

  /** The pointers from both sides to `m`, or the room's ends, go past it. */
  method BypassInRoom(m: Member, r: Room, ghost s: set<Member>)
    requires m in s && (m.prevInRoom != null ==> m.prevInRoom in s) && (m.nextInRoom != null ==> m.nextInRoom in s)
    modifies s`nextInRoom, s`prevInRoom, r`head, r`tail, r`numOfMembers
    ensures r.numOfMembers == old(r.numOfMembers) - 1
    ensures r.head == if old(m.prevInRoom) == null then old(m.nextInRoom) else old(r.head)
    ensures r.tail == if old(m.nextInRoom) == null then old(m.prevInRoom) else old(r.tail)
    ensures forall x :: x in s ==>
              x.nextInRoom == if x == old(m.prevInRoom) then old(m.nextInRoom) else old(x.nextInRoom)
    ensures forall x :: x in s ==>
              x.prevInRoom == if x == old(m.nextInRoom) then old(m.prevInRoom) else old(x.prevInRoom)
  {
    if m.prevInRoom == null {
      r.head := m.nextInRoom;
      if r.head == null {
        r.tail := r.head;
      } else {
        r.head.prevInRoom := null;
      }
    } else {
      m.prevInRoom.nextInRoom := m.nextInRoom;
      if m.nextInRoom != null {
        m.nextInRoom.prevInRoom := m.prevInRoom;
      } else {
        r.tail := m.prevInRoom;
      }
    }
    r.numOfMembers := r.numOfMembers - 1;
  }

  /** A list entry's neighbours are entries, and next to nobody else. */
  lemma Neighbours(s: seq<Member>, p: nat, k: nat)
    requires Distinct(s) && p < |s| && k < |s| && k != p
    ensures s[k] != s[p]
    ensures MemberAt(s, p - 1) == s[k] <==> k == p - 1
    ensures MemberAt(s, p + 1) == s[k] <==> k == p + 1
    ensures MemberAt(s, p - 1) == null <==> p == 0
    ensures MemberAt(s, p + 1) == null <==> p == |s| - 1
  {
  }

  method UnlinkFromRoom(m: Member, ghost s: seq<Member>)
    requires m.currentRoom != null && m in s && Distinct(s) && Holds(m.currentRoom, s)
    modifies s`nextInRoom, s`prevInRoom, m.currentRoom`head, m.currentRoom`tail, m.currentRoom`numOfMembers
    ensures Holds(m.currentRoom, Minus(s, m))
  {
    ghost var p := Position(s, m);
    assert Seated(s, p);
    BypassInRoom(m, m.currentRoom, set x | x in s);
    forall k | 0 <= k < |s| && k != p ensures SeatedAround(s, p, k) {
      Neighbours(s, p, k);
      assert old(Seated(s, k)) && s[k] in s;
    }
    SeatsClosed(s, m);
    MinusEnds(s, m);
    hide Minus;
  }

  method AppendToRoom(m: Member, r: Room, ghost s: seq<Member>)
    requires m !in s && Distinct(s) && Holds(r, s)
    modifies m`nextInRoom, m`prevInRoom, s`nextInRoom, r`head, r`tail, r`numOfMembers
    ensures Holds(r, s + [m])
  {
    ghost var n, t := |s|, s + [m];
    assert Seated(s, n - 1);
    m.nextInRoom := null;
    m.prevInRoom := null;
    if r.head == null {
      r.head := m;
      r.tail := r.head;
    } else {
      r.tail.nextInRoom := m;
      m.prevInRoom := r.tail;
      r.tail := r.tail.nextInRoom;
    }
    r.numOfMembers := r.numOfMembers + 1;
    forall k | 0 <= k < n + 1 ensures Seated(t, k) {
      if k < n { assert old(Seated(s, k)) && s[k] in s && s[k] != m; }
    }
  }
}
