/** The chat server's members and rooms: the linked records themselves, and the state of the
    whole registry as one value. */
module Registry {
  import opened Sequences

  const MAX_ROOMS := 40
  const MAX_PER_ROOM := 30
  const MAX_MEMBERS := MAX_ROOMS * MAX_PER_ROOM
  const MAX_ID := 65535

  class Member {
    var name: string
    var id: int
    var quietFlag: int
    var next: Member?
    var prev: Member?
    var nextInRoom: Member?
    var prevInRoom: Member?
    var currentRoom: Room?

    // Allocated and zeroed.
    constructor (n: string)
      ensures name == n && id == 0 && quietFlag == 0
      ensures next == null && prev == null && nextInRoom == null && prevInRoom == null && currentRoom == null
    {
      name, id, quietFlag := n, 0, 0;
      next, prev, nextInRoom, prevInRoom, currentRoom := null, null, null, null, null;
    }
  }

  class Room {
    var name: string
    var next: Room?
    var numOfMembers: int
    var emptyFlag: int
    var head: Member?
    var tail: Member?

    constructor (n: string)
      ensures name == n && next == null && numOfMembers == 0 && emptyFlag == 0 && head == null && tail == null
    {
      name, next, numOfMembers, emptyFlag, head, tail := n, null, 0, 0, null, null;
    }
  }

  datatype Who = Who(name: string, id: int, quiet: int, room: Room?)
  datatype What = What(name: string, empty: int, roster: seq<Member>)

  /** `members` and `rooms` are the two lists in order; `tailLost` says that the tail pointer
      of the room list is null although there are rooms. */
  datatype Reg = Reg(
    members: seq<Member>,
    rooms: seq<Room>,
    who: map<Member, Who>,
    what: map<Room, What>,
    tailLost: bool)

  /** A room's roster is its members, each once, at most 30; a marked room is empty. */
  ghost predicate RoomOk(g: Reg, r: Room) {
    && r in g.what
    && Distinct(g.what[r].roster) && |g.what[r].roster| <= MAX_PER_ROOM
    && (forall m :: m in g.what[r].roster ==> m in g.who && g.who[m].room == r)
    && (forall m :: m in g.who && g.who[m].room == r ==> m in g.what[r].roster)
    && (g.what[r].empty != 0 ==> g.what[r].roster == [])
  }

  ghost predicate MemberOk(g: Reg, m: Member) {
    && m in g.who
    && 1 <= g.who[m].id <= MAX_ID
    && (g.who[m].room == null || g.who[m].room in g.what)
  }

  ghost predicate Unique(g: Reg) {
    && (forall m, n :: m in g.who && n in g.who && m != n ==>
          g.who[m].name != g.who[n].name && g.who[m].id != g.who[n].id)
    && (forall r, q :: r in g.what && q in g.what && r != q ==> g.what[r].name != g.what[q].name)
  }

  ghost predicate Listed(g: Reg) {
    && Distinct(g.members) && Distinct(g.rooms)
    && |g.members| <= MAX_MEMBERS && |g.rooms| <= MAX_ROOMS
    && (forall m :: m in g.members ==> m in g.who) && (forall m :: m in g.who ==> m in g.members)
    && (forall r :: r in g.rooms ==> r in g.what) && (forall r :: r in g.what ==> r in g.rooms)
    && (g.tailLost ==> g.rooms != [])
  }

  ghost predicate Inv(g: Reg) {
    && Listed(g) && Unique(g)
    && (forall m {:trigger MemberOk(g, m)} :: m in g.who ==> MemberOk(g, m))
    && (forall r {:trigger RoomOk(g, r)} :: r in g.what ==> RoomOk(g, r))
  }

  ghost const EMPTY := Reg([], [], map[], map[], false)

  // ------------------------------------------------------------ steps

  ghost function Minus<T>(s: seq<T>, x: T): seq<T> {
    if x in s then Without(s, Position(s, x)) else s
  }

  lemma MinusElements<T>(s: seq<T>, x: T)
    requires Distinct(s)
    ensures Distinct(Minus(s, x)) && |Minus(s, x)| == (if x in s then |s| - 1 else |s|)
    ensures forall y :: y in Minus(s, x) <==> y in s && y != x
  {
    if x in s { WithoutElements(s, Position(s, x)); }
  }

  ghost function Register(g: Reg, m: Member, name: string, id: int): Reg {
    g.(members := g.members + [m], who := g.who[m := Who(name, id, 0, null)])
  }

  ghost function Create(g: Reg, r: Room, name: string): Reg {
    g.(rooms := g.rooms + [r], what := g.what[r := What(name, 0, [])])
  }

  /** Any valid message from `m` marks it as active. */
  ghost function Hear(g: Reg, m: Member): Reg
    requires m in g.who
  {
    g.(who := g.who[m := g.who[m].(quiet := 0)])
  }

  ghost function Leave(g: Reg, m: Member): Reg
    requires m in g.who && (g.who[m].room == null || g.who[m].room in g.what)
  {
    var r := g.who[m].room;
    if r == null then g else
      g.(who := g.who[m := g.who[m].(room := null)],
         what := g.what[r := g.what[r].(roster := Minus(g.what[r].roster, m))])
  }

  ghost function Join(g: Reg, m: Member, r: Room): Reg
    requires m in g.who && r in g.what
  {
    g.(who := g.who[m := g.who[m].(room := r)],
       what := g.what[r := g.what[r].(roster := g.what[r].roster + [m], empty := 0)])
  }

  ghost function Drop(g: Reg, m: Member): Reg
    requires m in g.who && (g.who[m].room == null || g.who[m].room in g.what)
  {
    var l := Leave(g, m);
    l.(members := Minus(l.members, m), who := l.who - {m})
  }

  /** The program clears the tail pointer when it unlinks the last of several rooms. */
  ghost function DropRoom(g: Reg, r: Room): Reg
    requires r in g.rooms
  {
    var rooms := Minus(g.rooms, r);
    g.(rooms := rooms, what := g.what - {r},
       tailLost := rooms != [] && (g.tailLost || r == g.rooms[|g.rooms| - 1]))
  }

  /** Names and ids that nobody changes stay unique. */
  lemma UniqueFrame(g: Reg, h: Reg)
    requires Unique(g)
    requires forall m :: m in h.who ==> m in g.who && h.who[m].name == g.who[m].name && h.who[m].id == g.who[m].id
    requires forall r :: r in h.what ==> r in g.what && h.what[r].name == g.what[r].name
    ensures Unique(h)
  {
  }

  lemma RegisterInv(g: Reg, m: Member, name: string, id: int)
    requires Inv(g) && m !in g.who && |g.members| < MAX_MEMBERS && 1 <= id <= MAX_ID
    requires forall n :: n in g.who ==> g.who[n].name != name && g.who[n].id != id
    ensures Inv(Register(g, m, name, id))
  {
    var g' := Register(g, m, name, id);
    forall n | n in g'.who ensures MemberOk(g', n) {
      if n != m { assert MemberOk(g, n); }
    }
    forall r | r in g'.what ensures RoomOk(g', r) {
      assert RoomOk(g, r);
    }
  }

  lemma CreateInv(g: Reg, r: Room, name: string)
    requires Inv(g) && r !in g.what && |g.rooms| < MAX_ROOMS
    requires forall q :: q in g.what ==> g.what[q].name != name
    ensures Inv(Create(g, r, name))
  {
    var g' := Create(g, r, name);
    forall n | n in g'.who ensures MemberOk(g', n) {
      assert MemberOk(g, n);
    }
    forall q | q in g'.what ensures RoomOk(g', q) {
      if q != r { assert RoomOk(g, q); } else {
        forall n | n in g.who ensures g.who[n].room != r { assert MemberOk(g, n); }
      }
    }
  }

  /** The quiet flag takes no part in the invariant. */
  lemma QuietInv(g: Reg, m: Member, quiet: int)
    requires Inv(g) && m in g.who
    ensures Inv(g.(who := g.who[m := g.who[m].(quiet := quiet)]))
  {
    var g' := g.(who := g.who[m := g.who[m].(quiet := quiet)]);
    UniqueFrame(g, g');
    forall n | n in g'.who ensures MemberOk(g', n) { assert MemberOk(g, n); }
    forall r | r in g'.what ensures RoomOk(g', r) {
      assert RoomOk(g, r);
      RoomFrame(g, g', r);
    }
    hide Unique, MemberOk, RoomOk;
  }

  /** A room stays in order if its roster does and nobody moves to or from it. */
  lemma RoomFrame(g: Reg, h: Reg, r: Room)
    requires RoomOk(g, r) && r in h.what && h.what[r].roster == g.what[r].roster
    requires h.what[r].empty != 0 ==> g.what[r].empty != 0
    requires forall m :: m in h.who ==> m in g.who && (h.who[m].room == r <==> g.who[m].room == r)
    requires forall m :: m in g.who && g.who[m].room == r ==> m in h.who
    ensures RoomOk(h, r)
  {
  }

  lemma HearInv(g: Reg, m: Member)
    requires Inv(g) && m in g.who
    ensures Inv(Hear(g, m))
  {
    QuietInv(g, m, 0);
  }

  lemma LeaveRoomOk(g: Reg, m: Member, q: Room)
    requires RoomOk(g, q) && m in g.who && (g.who[m].room == null || g.who[m].room in g.what)
    ensures RoomOk(Leave(g, m), q)
  {
    if g.who[m].room != q { RoomFrame(g, Leave(g, m), q); } else { MinusElements(g.what[q].roster, m); }
  }

  lemma LeaveInv(g: Reg, m: Member)
    requires Inv(g) && m in g.who
    ensures MemberOk(g, m) && Inv(Leave(g, m)) && Leave(g, m).who[m].room == null
  {
    assert MemberOk(g, m);
    var g' := Leave(g, m);
    UniqueFrame(g, g');
    assert Listed(g') && g'.who[m].room == null;
    hide Unique, Minus, Listed;
    forall n | n in g'.who ensures MemberOk(g', n) { assert MemberOk(g, n); }
    forall q | q in g'.what ensures RoomOk(g', q) {
      assert RoomOk(g, q);
      LeaveRoomOk(g, m, q);
    }
    hide RoomOk, Leave;
  }

  lemma JoinRoomOk(g: Reg, m: Member, r: Room, q: Room)
    requires RoomOk(g, q) && m in g.who && g.who[m].room == null && r in g.what && |g.what[r].roster| < MAX_PER_ROOM
    ensures RoomOk(Join(g, m, r), q)
  {
    if q != r { RoomFrame(g, Join(g, m, r), q); }
  }

  lemma JoinInv(g: Reg, m: Member, r: Room)
    requires Inv(g) && m in g.who && g.who[m].room == null && r in g.what && |g.what[r].roster| < MAX_PER_ROOM
    ensures Inv(Join(g, m, r))
  {
    var g' := Join(g, m, r);
    UniqueFrame(g, g');
    hide Unique;
    forall n | n in g'.who ensures MemberOk(g', n) { assert MemberOk(g, n); }
    forall q | q in g'.what ensures RoomOk(g', q) { JoinRoomOk(g, m, r, q); }
    hide RoomOk;
  }

  lemma DropInv(g: Reg, m: Member)
    requires Inv(g) && m in g.who
    ensures MemberOk(g, m) && Inv(Drop(g, m))
  {
    LeaveInv(g, m);
    var l, g' := Leave(g, m), Drop(g, m);
    MinusElements(l.members, m);
    forall n | n in g'.who ensures MemberOk(g', n) { assert MemberOk(l, n); }
    forall q | q in g'.what ensures RoomOk(g', q) { assert RoomOk(l, q); }
  }

  lemma DropRoomInv(g: Reg, r: Room)
    requires Inv(g) && r in g.rooms && g.what[r].roster == []
    ensures Inv(DropRoom(g, r))
  {
    assert RoomOk(g, r);
    var g' := DropRoom(g, r);
    MinusElements(g.rooms, r);
    forall n | n in g'.who ensures MemberOk(g', n) { assert MemberOk(g, n); }
    forall q | q in g'.what ensures RoomOk(g', q) { assert RoomOk(g, q); }
  }
}
