/** The chat server's operations on its lists, and the sweep. */
module ChatServer {
  import opened Sequences
  import opened Registry
  import opened RegistryRuns
  import opened RegistryHistory
  import opened ServerLists

  const MAX_ROOM_NAME_LEN := 24
  const MAX_MEMBER_NAME_LEN := 24

  /** `NullTail` is the program's null dereference: it appends through a lost tail pointer. */
  datatype CreateReply = RoomCreated | NameTooLong | TooManyRooms | RoomExists | NullTail
  datatype RegisterReply = Accepted(id: int) | TooManyMembers | NameUsed
  datatype SwitchReply = Switched | NoRooms | RoomNotFound | RoomFull | AlreadyThere

  /** The control messages of a registered member. */
  datatype Request =
    | ListRequest
    | SwitchRequest(room: string)
    | CreateRequest(name: string)
    | KeepAlive
    | Unrecognized
    | QuitRequest

  datatype ControlReply =
    | IdInvalid
    | SwitchAnswer(s: SwitchReply)
    | CreateAnswer(c: CreateReply)
    | Served

  /** What a switch of `m` to the room of that name is answered with. */
  ghost predicate Switches(g: Reg, m: Member, toRoom: string, reply: SwitchReply, r: Room?)
    requires m in g.who
  {
    && (reply == NoRooms <==> g.rooms == [])
    && (reply == RoomNotFound <==> g.rooms != [] && NameFree(g, toRoom))
    && (reply != NoRooms && reply != RoomNotFound ==>
          r != null && r in g.what && g.what[r].name == toRoom && reply == SwitchOutcome(g, m, r))
  }

  /** The reply to a request of `m`, given the registry once the sender is marked as heard. */
  ghost predicate Answers(g: Reg, m: Member, req: Request, reply: ControlReply, r: Room?)
    requires m in g.who
  {
    match req
    case SwitchRequest(room) => reply.SwitchAnswer? && Switches(g, m, room, reply.s, r)
    case CreateRequest(name) => reply == CreateAnswer(CreateOutcome(g, name))
    case _ => reply == Served
  }

  /** What a request that gets this reply adds to the history after `Heard`. */
  ghost function Effects(m: Member, req: Request, reply: ControlReply, r: Room?): seq<Event> {
    match req
    case SwitchRequest(room) => if reply == SwitchAnswer(Switched) && r != null then [Moved(m, r)] else []
    case CreateRequest(name) => if reply == CreateAnswer(RoomCreated) && r != null then [Created(r, name)] else []
    case QuitRequest => [Quit(m)]
    case _ => []
  }

  ghost predicate NameFree(g: Reg, name: string) {
    forall q :: q in g.what ==> g.what[q].name != name
  }

  ghost function CreateOutcome(g: Reg, name: string): CreateReply {
    if |name| > MAX_ROOM_NAME_LEN then NameTooLong
    else if |g.rooms| == MAX_ROOMS then TooManyRooms
    else if !NameFree(g, name) then RoomExists
    else if g.tailLost then NullTail
    else RoomCreated
  }

  ghost predicate Unused(s: seq<Member>, id: int)
    reads s`id
  {
    forall n :: n in s ==> n.id != id
  }

  ghost predicate IdFree(g: Reg, id: int) {
    forall n :: n in g.who ==> g.who[n].id != id
  }

  ghost predicate MemberNameFree(g: Reg, name: string) {
    forall n :: n in g.who ==> g.who[n].name != name
  }

  // ------------------------------------------------------------ what requests do to the registry

  /** Member `m` has left: its id and name are free, it is on no roster, and nothing else is
      different. */
  ghost predicate Gone(g: Reg, m: Member, h: Reg)
    requires m in g.who
  {
    && m !in h.who && m !in h.members && IdFree(h, g.who[m].id) && MemberNameFree(h, g.who[m].name)
    && (forall n :: n in g.who && n != m ==> n in h.who && h.who[n] == g.who[n])
    && (forall n :: n in h.who ==> n in g.who)
    && SameRooms(g, h)
    && forall q :: q in g.what && q in h.what ==> m !in h.what[q].roster && SameButOne(g.what[q].roster, h.what[q].roster, m)
  }

  ghost predicate SameButOne(s: seq<Member>, t: seq<Member>, m: Member) {
    (forall n :: n in s && n != m ==> n in t) && (forall n :: n in t && n != m ==> n in s)
  }

  /** The same rooms with the same names. */
  ghost predicate SameRooms(g: Reg, h: Reg) {
    && h.rooms == g.rooms && (forall q :: q in g.what ==> q in h.what) && (forall q :: q in h.what ==> q in g.what)
    && forall q :: q in g.what && q in h.what ==> h.what[q].name == g.what[q].name
  }

  /** Member `m` is now in room `r`, last on its roster, and nobody else has moved. */
  ghost predicate IsIn(g: Reg, m: Member, r: Room, h: Reg)
    requires m in g.who
  {
    && h.members == g.members && (forall n :: n in h.who ==> n in g.who) && (forall n :: n in g.who ==> n in h.who)
    && (forall n :: n in g.who && n in h.who && n != m ==> h.who[n] == g.who[n])
    && (m in h.who ==> h.who[m] == g.who[m].(room := r))
    && SameRooms(g, h) && r in h.what && |h.what[r].roster| > 0 && h.what[r].roster[|h.what[r].roster| - 1] == m
    && forall q :: q in g.what && q in h.what ==> SameButOne(g.what[q].roster, h.what[q].roster, m)
  }

  /** Room `r` is new, empty and last in the list, and nothing else is different. */
  ghost predicate IsNew(g: Reg, r: Room, name: string, h: Reg) {
    && h.who == g.who && h.members == g.members && h.rooms == g.rooms + [r]
    && r !in g.what && r in h.what && h.what[r] == What(name, 0, [])
    && (forall q :: q in g.what ==> q in h.what && h.what[q] == g.what[q])
    && (forall q :: q in h.what ==> q == r || q in g.what)
  }

  /** Member `m` is new, last in the list and in no room, and nothing else is different. */
  ghost predicate IsRegistered(g: Reg, m: Member, name: string, id: int, h: Reg) {
    && m !in g.who && h.members == g.members + [m] && h.rooms == g.rooms && h.what == g.what
    && m in h.who && h.who[m] == Who(name, id, 0, null)
    && (forall n :: n in g.who ==> n in h.who && h.who[n] == g.who[n])
    && (forall n :: n in h.who ==> n == m || n in g.who)
  }

  /** What a request of `m` does to the registry, in which the sender is marked as heard. */
  ghost predicate Does(g: Reg, m: Member, req: Request, reply: ControlReply, r: Room?, h: Reg)
    requires m in g.who
  {
    match req
    case SwitchRequest(room) =>
      if reply == SwitchAnswer(Switched) then r != null && IsIn(g, m, r, h) && r in g.what && g.what[r].name == room
      else h == g
    case CreateRequest(name) =>
      if reply == CreateAnswer(RoomCreated) then r != null && IsNew(g, r, name, h) else h == g
    case QuitRequest => Gone(g, m, h)
    case _ => h == g
  }

  /** A room is created exactly if the name is short enough and the creation is possible. */
  lemma CreatedExactly(g: Reg, r: Room, name: string)
    requires Inv(g) && r !in g.what
    ensures CreateOutcome(g, name) == RoomCreated <==> |name| <= MAX_ROOM_NAME_LEN && Enabled(g, Created(r, name))
  {
    hide Unique, MemberOk, RoomOk;
  }

  /** A switch succeeds exactly if there is a room of that name that the member can move to. */
  lemma SwitchedExactly(g: Reg, m: Member, toRoom: string, reply: SwitchReply, r: Room?)
    requires Inv(g) && m in g.who && Switches(g, m, toRoom, reply, r)
    ensures reply == Switched <==> exists q :: q in g.what && g.what[q].name == toRoom && Enabled(g, Moved(m, q))
  {
    assert Unique(g) && Listed(g);
    if reply == Switched { assert RoomOk(g, r); }
    hide Inv, RoomOk, MemberOk;
  }

  lemma RegisteredIs(g: Reg, m: Member, name: string, id: int, h: Reg)
    requires Leads(g, Registered(m, name, id), h)
    ensures IsRegistered(g, m, name, id, h)
  {
    hide Inv;
  }

  lemma LeftRoster(g: Reg, m: Member, q: Room)
    requires Inv(g) && m in g.who && MemberOk(g, m) && q in g.what
    ensures var l := Leave(g, m);
            q in l.what && m !in l.what[q].roster && SameButOne(g.what[q].roster, l.what[q].roster, m)
  {
    assert RoomOk(g, q);
    MinusElements(g.what[q].roster, m);
    hide Inv, Minus;
  }

  lemma DroppedNames(g: Reg, m: Member)
    requires Inv(g) && m in g.who && MemberOk(g, m)
    ensures IdFree(Drop(g, m), g.who[m].id) && MemberNameFree(Drop(g, m), g.who[m].name)
  {
    LeaveKeys(g, m);
    assert Unique(g);
    hide Inv, Leave;
  }

  lemma QuitGone(g: Reg, m: Member, h: Reg)
    requires Leads(g, Quit(m), h)
    ensures m in g.who && Gone(g, m, h)
  {
    ListedOnce(g, m);
    assert h == Drop(g, m);
    hide Leads;
    DropParts(g, m);
    DroppedNames(g, m);
    MinusElements(g.members, m);
    hide Inv, Drop, Leave, Minus, Distinct, MemberOk, SameButOne, IdFree, MemberNameFree;
    forall q | q in g.what
      ensures q in h.what && m !in h.what[q].roster && SameButOne(g.what[q].roster, h.what[q].roster, m)
    {
      LeftRoster(g, m, q);
    }
  }

  lemma JoinedRosters(g: Reg, l: Reg, m: Member, r: Room, q: Room)
    requires Inv(g) && m in g.who && MemberOk(g, m) && l == Leave(g, m) && m in l.who && r in l.what && q in g.what
    ensures var h := Join(l, m, r);
            && q in h.what && SameButOne(g.what[q].roster, h.what[q].roster, m)
            && (q == r ==> |h.what[q].roster| > 0 && h.what[q].roster[|h.what[q].roster| - 1] == m)
  {
    LeftRoster(g, m, q);
    hide Inv, Leave, SameButOne;
    JoinedRoster(g.what[q].roster, l.what[q].roster, m);
  }

  lemma MovedThrough(g: Reg, m: Member, r: Room, h: Reg) returns (l: Reg)
    requires Leads(g, Moved(m, r), h)
    ensures Inv(g) && m in g.who && r in g.what && MemberOk(g, m) && l == Leave(g, m) && m in l.who && r in l.what
    ensures h == Join(l, m, r) && OnlyMoved(g, m, r, h)
  {
    var t;
    l, t := MoveParts(g, m, r);
    hide Inv, OnlyMoved, MemberOk;
  }

  lemma MovedIsIn(g: Reg, m: Member, r: Room, h: Reg)
    requires Leads(g, Moved(m, r), h)
    ensures m in g.who && r in g.what && IsIn(g, m, r, h)
  {
    var l := MovedThrough(g, m, r, h);
    hide Leads, Inv, Leave, Join, MemberOk, SameButOne;
    forall q | q in g.what
      ensures q in h.what && SameButOne(g.what[q].roster, h.what[q].roster, m)
      ensures q == r ==> |h.what[q].roster| > 0 && h.what[q].roster[|h.what[q].roster| - 1] == m
    {
      JoinedRosters(g, l, m, r, q);
    }
  }

  lemma JoinedRoster(s: seq<Member>, t: seq<Member>, m: Member)
    requires SameButOne(s, t, m)
    ensures SameButOne(s, t + [m], m)
  {
  }

  lemma CreatedIsNew(g: Reg, r: Room, name: string, h: Reg)
    requires Leads(g, Created(r, name), h)
    ensures IsNew(g, r, name, h)
  {
    hide Inv;
  }

  lemma {:induction false} FreeNumber(s: seq<int>) returns (d: int)
    ensures 1 <= d <= |s| + 1 && d !in s
    decreases |s|
  {
    d := |s| + 1;
    if d in s {
      var i := Position(s, d);
      d := FreeNumber(s[..i] + s[i + 1..]);
      assert s == s[..i] + [s[i]] + s[i + 1..];
    }
  }

  /** The draw can always succeed: some id is free in every registry. */
  lemma FreeIdExists(g: Reg) returns (d: int)
    requires Inv(g)
    ensures 1 <= d <= MAX_ID && IdFree(g, d)
  {
    var ids := seq(|g.members|, i requires 0 <= i < |g.members| => if g.members[i] in g.who then g.who[g.members[i]].id else 0);
    d := FreeNumber(ids);
    forall n | n in g.who ensures g.who[n].id != d {
      assert n in g.members;
      var i := Position(g.members, n);
      assert ids[i] == g.who[n].id;
    }
  }

  lemma RegisterLinks(g: Reg, m: Member, name: string, id: int)
    requires Inv(g) && Rosters(g) && Records(g) && m !in g.who
    requires Who(m.name, m.id, m.quietFlag, m.currentRoom) == Who(name, id, 0, null)
    ensures Rosters(Register(g, m, name, id)) && Records(Register(g, m, name, id))
  {
    hide Inv, Holds;
  }

  lemma DropRoomParts(g: Reg, r: Room) returns (h: Reg)
    requires Inv(g) && r in g.what && r in g.rooms && g.what[r].roster == [] && g.what[r].empty != 0
    ensures h == DropRoom(g, r) && h == SweepRoom(g, r) && Inv(h)
    ensures Distinct(g.rooms) && h.members == g.members && h.rooms == Minus(g.rooms, r) && |h.rooms| == |g.rooms| - 1
    ensures Rosters(g) && Records(g) ==> Rosters(h) && Records(h)
    ensures h.tailLost <==> h.rooms != [] && (g.tailLost || r == g.rooms[|g.rooms| - 1])
    ensures h.rooms != [] && r != g.rooms[|g.rooms| - 1] ==> h.rooms[|h.rooms| - 1] == g.rooms[|g.rooms| - 1]
  {
    DropRoomInv(g, r);
    h := DropRoom(g, r);
    MinusElements(g.rooms, r);
    hide Inv, Holds, Distinct;
    MinusRoomAt(g.rooms, r, |g.rooms| - 2);
  }

  lemma CreateLinks(g: Reg, r: Room, name: string)
    requires Inv(g) && Rosters(g) && Records(g) && r !in g.what
    requires r.name == name && r.emptyFlag == 0 && Holds(r, [])
    ensures Rosters(Create(g, r, name)) && Records(Create(g, r, name))
  {
    hide Inv, Holds;
  }

  lemma RostersDisjoint(g: Reg, r: Room, q: Room)
    requires Inv(g) && r in g.what && q in g.what && r != q
    ensures forall n :: n in g.what[q].roster ==> n in g.who && n !in g.what[r].roster
  {
    assert RoomOk(g, r) && RoomOk(g, q);
  }

  lemma ListedOnce(g: Reg, m: Member)
    requires Inv(g) && m in g.who
    ensures m in g.members && Distinct(g.members) && MemberOk(g, m)
  {
  }

  lemma JoinRosters(l: Reg, m: Member, r: Room)
    requires Inv(l) && m in l.who && r in l.what
    requires forall q :: q in l.what && q != r ==> Holds(q, l.what[q].roster)
    requires Holds(r, l.what[r].roster + [m])
    ensures Rosters(Join(l, m, r))
  {
    hide Holds, Unique;
    forall q, n | q in l.what && n in l.what[q].roster ensures n in l.who { InRosterKnown(l, q, n); }
    hide Inv;
  }

  lemma NotInRoster(l: Reg, m: Member, q: Room)
    requires Inv(l) && m in l.who && l.who[m].room == null && q in l.what
    ensures m !in l.what[q].roster && Distinct(l.what[q].roster)
  {
    assert RoomOk(l, q);
  }

  /** The registry `h` is `g` but for the rosters, the member's room and the new room's mark. */
  ghost predicate OnlyMoved(g: Reg, m: Member, r: Room, h: Reg)
    requires m in g.who
  {
    && h.members == g.members && h.rooms == g.rooms && h.tailLost == g.tailLost
    && h.who.Keys == g.who.Keys && h.what.Keys == g.what.Keys
    && (forall n :: n in g.who && n in h.who && n != m ==> h.who[n] == g.who[n])
    && (m in h.who ==> h.who[m] == g.who[m].(room := r))
    && (forall q :: q in g.what && q in h.what ==>
          h.what[q].name == g.what[q].name && h.what[q].empty == (if q == r then 0 else g.what[q].empty))
  }

  lemma MoveParts(g: Reg, m: Member, r: Room) returns (l: Reg, h: Reg)
    requires Inv(g) && Enabled(g, Moved(m, r))
    ensures m in g.who && r in g.what && MemberOk(g, m) && l == Leave(g, m) && Inv(l)
    ensures l.who.Keys == g.who.Keys && l.what.Keys == g.what.Keys && l.who[m].room == null
    ensures Inv(h) && h == Join(l, m, r) && OnlyMoved(g, m, r, h) && Leads(g, Moved(m, r), h)
  {
    LeaveInv(g, m);
    MoveInv(g, m, r);
    l, h := Leave(g, m), Move(g, m, r);
    assert Leads(g, Moved(m, r), h);
    hide Inv, Leads;
    LeaveKeys(g, m);
    hide Leave;
    OnlyJoined(g, l, m, r);
  }

  lemma LeaveKeys(g: Reg, m: Member)
    requires m in g.who && MemberOk(g, m)
    ensures var l := Leave(g, m);
            && l == g.(who := l.who, what := l.what)
            && l.who == g.who[m := g.who[m].(room := null)]
            && l.what.Keys == g.what.Keys
            && forall q :: q in l.what ==> l.what[q].name == g.what[q].name && l.what[q].empty == g.what[q].empty
  {
    assert g.who[m].(room := null) == g.who[m] || g.who[m].room != null;
    if g.who[m].room == null { assert g.who == g.who[m := g.who[m].(room := null)]; }
  }

  lemma OnlyJoined(g: Reg, l: Reg, m: Member, r: Room)
    requires m in g.who && r in l.what
    requires l == g.(who := l.who, what := l.what) && l.who == g.who[m := g.who[m].(room := null)]
    requires l.what.Keys == g.what.Keys
    requires forall q :: q in l.what ==> l.what[q].name == g.what[q].name && l.what[q].empty == g.what[q].empty
    ensures OnlyMoved(g, m, r, Join(l, m, r))
  {
  }

  /** What the server answers to a request of `m` for the room `r`, if there is that room. */
  ghost function SwitchOutcome(g: Reg, m: Member, r: Room): SwitchReply
    requires m in g.who && r in g.what
  {
    if |g.what[r].roster| == MAX_PER_ROOM then RoomFull
    else if g.who[m].room == r then AlreadyThere
    else Switched
  }

  lemma LeaveRosters(g: Reg, m: Member)
    requires Inv(g) && m in g.who && g.who[m].room in g.what
    requires forall q :: q in g.what && q != g.who[m].room ==> Holds(q, g.what[q].roster)
    requires Holds(g.who[m].room, Minus(g.what[g.who[m].room].roster, m))
    ensures Rosters(Leave(g, m))
  {
    hide Holds, Unique;
    LeaveInv(g, m);
    var l := Leave(g, m);
    forall q, n | q in l.what && n in l.what[q].roster ensures n in l.who { InRosterKnown(l, q, n); }
    hide Inv;
  }

  lemma DropLinks(g: Reg, m: Member)
    requires Inv(g) && m in g.who && MemberOk(g, m)
    requires Rosters(Leave(g, m)) && Records(g)
    ensures var h := Drop(g, m);
            && Inv(h) && Rosters(h) && Records(h)
            && h.members == Minus(g.members, m) && |h.members| == |g.members| - 1
            && h.rooms == g.rooms && h.tailLost == g.tailLost
  {
    DropInv(g, m);
    DropParts(g, m);
    hide Inv, Drop, Leave, Holds;
  }

  /** What becomes of each part of the registry when a member goes. */
  lemma DropParts(g: Reg, m: Member)
    requires Inv(g) && m in g.who
    ensures MemberOk(g, m)
    ensures var h := Drop(g, m);
            && h.members == Minus(g.members, m) && |h.members| == |g.members| - 1
            && (forall n :: n in h.members ==> n in g.members)
            && h.rooms == g.rooms && h.tailLost == g.tailLost
            && h.what == Leave(g, m).what && h.who.Keys == g.who.Keys - {m} && m in g.members
            && (forall n :: n in h.who ==> h.who[n] == g.who[n])
            && h.what.Keys == g.what.Keys
            && (forall r :: r in h.what ==> h.what[r].name == g.what[r].name && h.what[r].empty == g.what[r].empty)
            && (forall r, n :: r in h.what && n in h.what[r].roster ==> n in h.who)
  {
    ListedOnce(g, m);
    MinusElements(g.members, m);
    RostersKnown(g, m);
    LeaveKeys(g, m);
    hide Inv, RoomOk, Unique, Distinct, Minus, Leave;
  }

  lemma RostersKnown(g: Reg, m: Member)
    requires Inv(g) && m in g.who && MemberOk(g, m)
    ensures var h := Drop(g, m); forall r, n :: r in h.what && n in h.what[r].roster ==> n in h.who
  {
    DropInv(g, m);
    hide Drop;
    var h := Drop(g, m);
    forall r, n | r in h.what && n in h.what[r].roster ensures n in h.who { InRosterKnown(h, r, n); }
  }

  lemma InRosterKnown(g: Reg, r: Room, m: Member)
    requires Inv(g) && r in g.what && m in g.what[r].roster
    ensures m in g.who
  {
    assert RoomOk(g, r);
  }

  class Server {
    var memListHead: Member?
    var memListTail: Member?
    var roomListHead: Room?
    var roomListTail: Room?
    var totalMembers: int
    var totalRooms: int
    ghost var reg: Reg
    ghost var history: seq<Event>

    ghost predicate MembersLinked(g: Reg)
      reads this`memListHead, this`memListTail, this`totalMembers
      reads g.members`next, g.members`prev
    {
      MemberList(g.members, memListHead, memListTail) && totalMembers == |g.members|
    }

    ghost predicate RoomsLinked(g: Reg)
      reads this`roomListHead, this`roomListTail, this`totalRooms
      reads g.rooms`next
    {
      && RoomList(g.rooms, roomListHead) && totalRooms == |g.rooms|
      && roomListTail == (if g.tailLost then null else RoomAt(g.rooms, |g.rooms| - 1))
    }

    /** The records and lists are those of the registry `g`. */
    ghost predicate Shows(g: Reg)
      reads this`memListHead, this`memListTail, this`totalMembers
      reads this`roomListHead, this`roomListTail, this`totalRooms
      reads g.members`next, g.members`prev, g.rooms`next
      reads g.who.Keys`name, g.who.Keys`id, g.who.Keys`quietFlag, g.who.Keys`currentRoom
      reads g.who.Keys`nextInRoom, g.who.Keys`prevInRoom
      reads g.what.Keys`name, g.what.Keys`emptyFlag
      reads g.what.Keys`head, g.what.Keys`tail, g.what.Keys`numOfMembers
    {
      MembersLinked(g) && RoomsLinked(g) && Rosters(g) && Records(g)
    }

    ghost predicate Represents()
      reads this`memListHead, this`memListTail, this`totalMembers
      reads this`roomListHead, this`roomListTail, this`totalRooms, this`reg
      reads reg.members`next, reg.members`prev, reg.rooms`next
      reads reg.who.Keys`name, reg.who.Keys`id, reg.who.Keys`quietFlag, reg.who.Keys`currentRoom
      reads reg.who.Keys`nextInRoom, reg.who.Keys`prevInRoom
      reads reg.what.Keys`name, reg.what.Keys`emptyFlag
      reads reg.what.Keys`head, reg.what.Keys`tail, reg.what.Keys`numOfMembers
    {
      Inv(reg) && Shows(reg)
    }

    ghost method Adopt(h: Reg)
      requires Inv(h) && Shows(h)
      modifies this`reg
      ensures reg == h && Represents() && history == old(history)
    {
      hide Inv, MemberList, RoomList, Rosters, Records;
      reg := h;
      assert MembersLinked(h) && RoomsLinked(h) && Rosters(h) && Records(h);
    }

    /** And that registry is what the history leads to. */
    ghost predicate Valid()
      reads this, reg.members, reg.rooms, reg.who.Keys, reg.what.Keys
    {
      Represents() && Reaches(history, reg)
    }

    constructor ()
      ensures Valid() && reg == EMPTY && history == []
    {
      memListHead, memListTail, roomListHead, roomListTail := null, null, null, null;
      totalMembers, totalRooms, reg, history := 0, 0, EMPTY, [];
      new;
      EmptyInv();
    }

    // ---------------------------------------------------------- looking up

    method FindMemberWithId(memberId: int) returns (m: Member?)
      requires Represents()
      ensures m == null ==> forall n :: n in reg.who ==> reg.who[n].id != memberId
      ensures m != null ==> m in reg.who && reg.who[m].id == memberId
    {
      m := memListHead;
      ghost var i := 0;
      while m != null
        invariant 0 <= i <= |reg.members| && m == MemberAt(reg.members, i)
        invariant forall j :: 0 <= j < i ==> reg.members[j].id != memberId
        decreases |reg.members| - i
      {
        assert Listing(reg.members, i) && m in reg.members;
        if m.id == memberId { break; }
        m := m.next;
        i := i + 1;
      }
    }

    method FindRoom(name: string) returns (r: Room?)
      requires Represents()
      ensures r == null ==> forall q :: q in reg.what ==> reg.what[q].name != name
      ensures r != null ==> r in reg.what && reg.what[r].name == name
    {
      r := roomListHead;
      ghost var i := 0;
      while r != null
        invariant 0 <= i <= |reg.rooms| && r == RoomAt(reg.rooms, i)
        invariant forall j :: 0 <= j < i ==> reg.rooms[j].name != name
        decreases |reg.rooms| - i
      {
        assert Follows(reg.rooms, i) && r in reg.rooms;
        if r.name == name { break; }
        r := r.next;
        i := i + 1;
      }
    }

    // ---------------------------------------------------------- leaving

    method BypassInList(m: Member, ghost s: set<Member>)
      requires m in s && (m.prev != null ==> m.prev in s) && (m.next != null ==> m.next in s)
      modifies this`memListHead, this`memListTail, this`totalMembers, s`next, s`prev
      ensures totalMembers == old(totalMembers) - 1
      ensures memListHead == if old(m.prev) == null then old(m.next) else old(memListHead)
      ensures memListTail == if old(m.next) == null then old(m.prev) else old(memListTail)
      ensures forall x :: x in s ==> x.next == if x == old(m.prev) then old(m.next) else old(x.next)
      ensures forall x :: x in s ==> x.prev == if x == old(m.next) then old(m.prev) else old(x.prev)
    {
      if m.prev == null {
        memListHead := m.next;
        if memListHead == null {
          memListTail := memListHead;
        } else {
          memListHead.prev := null;
        }
      } else {
        m.prev.next := m.next;
        if m.next != null {
          m.next.prev := m.prev;
        } else {
          memListTail := m.prev;
        }
      }
      totalMembers := totalMembers - 1;
    }

    method UnlinkFromList(m: Member, ghost s: seq<Member>)
      requires m in s && Distinct(s) && MemberList(s, memListHead, memListTail)
      modifies this`memListHead, this`memListTail, this`totalMembers, s`next, s`prev
      ensures MemberList(Minus(s, m), memListHead, memListTail)
      ensures totalMembers == old(totalMembers) - 1
    {
      ghost var p := Position(s, m);
      assert Listing(s, p);
      hide Minus;
      BypassInList(m, set x | x in s);
      forall k | 0 <= k < |s| && k != p ensures ListedAround(s, p, k) {
        Neighbours(s, p, k);
        assert old(Listing(s, k)) && s[k] in s;
      }
      ListClosed(s, m, memListHead, memListTail);
    }

    /** Leaving its room changes no other room's list. */
    method LeaveRoom(m: Member)
      requires Represents() && m in reg.who && m.currentRoom != null
      modifies reg.who.Keys`nextInRoom, reg.who.Keys`prevInRoom
      modifies reg.what.Keys`head, reg.what.Keys`tail, reg.what.Keys`numOfMembers
      ensures MemberOk(reg, m) && Rosters(Leave(reg, m)) && history == old(history)
    {
      assert MemberOk(reg, m);
      ghost var r, g := m.currentRoom, reg;
      ghost var s := g.what[r].roster;
      assert RoomOk(g, r);
      UnlinkFromRoom(m, s);
      forall q | q in g.what && q != r ensures Holds(q, g.what[q].roster) {
        ghost var t := g.what[q].roster;
        RostersDisjoint(g, r, q);
        hide Inv, RoomOk;
        assert old(Holds(q, t));
        forall i | 0 <= i < |t| ensures Seated(t, i) {
          assert old(Seated(t, i)) && t[i] in t && t[i] !in s;
        }
      }
      LeaveRosters(g, m);
    }

    method LeaveRoomIfAny(m: Member)
      requires Represents() && m in reg.who
      modifies reg.who.Keys`nextInRoom, reg.who.Keys`prevInRoom
      modifies reg.what.Keys`head, reg.what.Keys`tail, reg.what.Keys`numOfMembers
      ensures MemberOk(reg, m) && Rosters(Leave(reg, m)) && history == old(history)
      ensures MembersLinked(reg) && RoomsLinked(reg) && Records(reg)
      ensures m.currentRoom == old(m.currentRoom) && reg == old(reg)
    {
      ListedOnce(reg, m);
      assert m.currentRoom == reg.who[m].room;
      hide Inv, Holds, Minus, MemberList, RoomList, Records;
      if m.currentRoom != null {
        hide Rosters, Leave;
        LeaveRoom(m);
      }
    }

    /** Leaving the member list changes nothing else. */
    method LeaveList(m: Member, ghost g: Reg, ghost l: Reg)
      requires m in g.members && Distinct(g.members) && MembersLinked(g) && RoomsLinked(g) && Records(g) && Rosters(l)
      modifies this`memListHead, this`memListTail, this`totalMembers, g.members`next, g.members`prev
      ensures MemberList(Minus(g.members, m), memListHead, memListTail) && totalMembers == |g.members| - 1
      ensures RoomsLinked(g) && Records(g) && Rosters(l) && reg == old(reg) && history == old(history)
    {
      hide MemberList, RoomList, Records, Rosters, Distinct, Minus;
      UnlinkFromList(m, g.members);
    }

    lemma DropShown(g: Reg, m: Member)
      requires Inv(g) && m in g.who && MemberOk(g, m)
      requires MemberList(Minus(g.members, m), memListHead, memListTail) && totalMembers == |g.members| - 1
      requires RoomsLinked(g) && Records(g) && Rosters(Leave(g, m))
      ensures Inv(Drop(g, m)) && Shows(Drop(g, m))
    {
      hide MemberList, RoomList, Records, Rosters, Minus, Inv, Leave, Drop, MemberOk;
      DropLinks(g, m);
    }

    method RemoveMember(m: Member)
      requires Represents() && m in reg.who
      modifies this, reg.who.Keys, reg.what.Keys
      ensures MemberOk(old(reg), m) && reg == Drop(old(reg), m) && Represents() && history == old(history)
    {
      ghost var g := reg;
      ListedOnce(g, m);
      LeaveRoomIfAny(m);
      ghost var l := Leave(g, m);
      hide MemberList, RoomList, Records, Rosters, Distinct, Minus, Inv, Leave, Drop, MemberOk, Shows, RoomsLinked;
      LeaveList(m, g, l);
      DropShown(g, m);
      Adopt(Drop(g, m));
    }

    // ---------------------------------------------------------- the history

    /** The event `e` has just turned the registry `g` into the present one. */
    ghost method Note(g: Reg, e: Event)
      requires Represents() && Reaches(history, g) && Leads(g, e, reg)
      modifies this`history
      ensures Valid() && history == old(history) + [e] && reg == old(reg)
    {
      hide Inv, Leads, Reaches, Shows, Apply;
      LeadsOn(history, g, e, reg);
      history := history + [e];
    }

    // ---------------------------------------------------------- rooms

    method LinkRoom(r: Room, ghost s: seq<Room>)
      requires RoomList(s, roomListHead) && Distinct(s) && r !in s && r.next == null
      requires roomListTail == RoomAt(s, |s| - 1)
      modifies this`roomListHead, this`roomListTail, this`totalRooms, s`next
      ensures RoomList(s + [r], roomListHead) && roomListTail == r && totalRooms == old(totalRooms) + 1
      ensures reg == old(reg) && history == old(history)
    {
      ghost var n, t := |s|, s + [r];
      if roomListHead == null {
        roomListHead := r;
        roomListTail := roomListHead;
      } else {
        assert s[n - 1] in s;
        roomListTail.next := r;
        roomListTail := r;
      }
      totalRooms := totalRooms + 1;
      forall k | 0 <= k < n + 1 ensures Follows(t, k) {
        if k < n { assert old(Follows(s, k)) && s[k] in s; }
      }
    }

    lemma CreateShown(r: Room, name: string)
      requires Represents() && Enabled(reg, Created(r, name))
      requires r.name == name && r.emptyFlag == 0 && r.next == null && Holds(r, [])
      ensures Distinct(reg.rooms) && r !in reg.rooms && RoomList(reg.rooms, roomListHead)
      ensures roomListTail == RoomAt(reg.rooms, |reg.rooms| - 1) && totalRooms == |reg.rooms|
      ensures var h := Create(reg, r, name);
              && Inv(h) && MembersLinked(h) && Rosters(h) && Records(h)
              && h.rooms == reg.rooms + [r] && h.members == reg.members && !h.tailLost
    {
      CreateLinks(reg, r, name);
      CreateInv(reg, r, name);
      hide Rosters, Records;
    }

    /** The new room goes to the end of the list, and nothing else changes. */
    method ListRoom(r: Room, ghost g: Reg, ghost h: Reg)
      requires RoomList(g.rooms, roomListHead) && Distinct(g.rooms) && r !in g.rooms && r.next == null
      requires roomListTail == RoomAt(g.rooms, |g.rooms| - 1) && totalRooms == |g.rooms|
      requires h.rooms == g.rooms + [r] && h.members == g.members && !h.tailLost
      requires MembersLinked(h) && Rosters(h) && Records(h)
      modifies this`roomListHead, this`roomListTail, this`totalRooms, g.rooms`next
      ensures Shows(h) && reg == old(reg) && history == old(history)
    {
      hide RoomList, MemberList, Rosters, Records, Distinct;
      LinkRoom(r, g.rooms);
    }

    method AppendRoom(r: Room, name: string)
      requires Valid() && Enabled(reg, Created(r, name))
      requires r.name == name && r.emptyFlag == 0 && r.next == null && Holds(r, [])
      modifies this, reg.rooms`next
      ensures Valid() && history == old(history) + [Created(r, name)] && Leads(old(reg), Created(r, name), reg)
    {
      ghost var g, h := reg, Create(reg, r, name);
      CreateShown(r, name);
      assert Reaches(history, g) && Leads(g, Created(r, name), h);
      hide *;
      ListRoom(r, g, h);
      Adopt(h);
      Note(g, Created(r, name));
    }

    method CreateRoom(name: string) returns (reply: CreateReply, r: Room?)
      requires Valid() && |name| != MAX_ROOM_NAME_LEN
      modifies this, reg.rooms`next
      ensures Valid() && reply == CreateOutcome(old(reg), name)
      ensures reply == RoomCreated ==>
                && r != null && fresh(r) && history == old(history) + [Created(r, name)]
                && Leads(old(reg), Created(r, name), reg)
      ensures reply != RoomCreated ==> history == old(history) && reg == old(reg)
    {
      ghost var g := reg;
      hide Inv, Shows, Reaches, Leads, CreateOutcome;
      r := null;
      reply := CheckCreate(name);
      if reply == RoomCreated {
        MayCreate(name);
        r := new Room(name);
        assert r !in g.what;
        AppendRoom(r, name);
      }
    }

    lemma MayCreate(name: string)
      requires Represents() && CreateOutcome(reg, name) == RoomCreated
      ensures |reg.rooms| < MAX_ROOMS && !reg.tailLost && NameFree(reg, name)
    {
    }

    method CheckCreate(name: string) returns (reply: CreateReply)
      requires Represents()
      ensures reply == CreateOutcome(reg, name)
    {
      assert Listed(reg);
      hide Inv, Unique, MemberOk, RoomOk, Rosters, Records, MemberList, Distinct;
      if |name| > MAX_ROOM_NAME_LEN { return NameTooLong; }
      if totalRooms == MAX_ROOMS { return TooManyRooms; }
      if roomListHead != null {
        var q := FindRoom(name);
        if q != null { return RoomExists; }
        if roomListTail == null { return NullTail; }
      }
      reply := RoomCreated;
    }

    // ---------------------------------------------------------- registering

    method NameTaken(name: string) returns (taken: bool)
      requires Represents()
      ensures taken <==> !MemberNameFree(reg, name)
    {
      var t := memListHead;
      taken := false;
      ghost var i := 0;
      while t != null
        invariant 0 <= i <= |reg.members| && t == MemberAt(reg.members, i)
        invariant forall j :: 0 <= j < i ==> reg.members[j].name != name
        decreases |reg.members| - i
      {
        assert Listing(reg.members, i) && t in reg.members;
        if t.name == name { return true; }
        t := t.next;
        i := i + 1;
      }
    }

    method LinkMember(m: Member, ghost s: seq<Member>)
      requires MemberList(s, memListHead, memListTail) && Distinct(s) && m !in s && m.next == null && m.prev == null
      modifies this`memListHead, this`memListTail, this`totalMembers, m`prev, s`next
      ensures MemberList(s + [m], memListHead, memListTail) && totalMembers == old(totalMembers) + 1
      ensures reg == old(reg) && history == old(history)
    {
      ghost var n, t := |s|, s + [m];
      assert Listing(s, n - 1);
      if memListHead == null {
        memListHead := m;
        memListTail := m;
      } else {
        memListTail.next := m;
        m.prev := memListTail;
        memListTail := memListTail.next;
      }
      totalMembers := totalMembers + 1;
      forall k | 0 <= k < n + 1 ensures Listing(t, k) {
        if k < n { assert old(Listing(s, k)) && s[k] in s && s[k] != m; }
      }
    }

    /** Draws until the number is the id of no member but the last, which is new. */
    method DrawId(draws: seq<int>, ghost s: seq<Member>, ghost m: Member) returns (id: int)
      requires MemberList(s + [m], memListHead, memListTail) && Distinct(s + [m])
      requires exists d :: d in draws && Unused(s, d)
      ensures id in draws && Unused(s, id)
    {
      var k := 0;
      ghost var t := s + [m];
      ghost var w :| 0 <= w < |draws| && Unused(s, draws[w]);
      while true
        invariant 0 <= k <= w
        decreases |draws| - k
      {
        id := draws[k];
        var p := memListHead;
        ghost var i := 0;
        while p != memListTail
          invariant 0 <= i <= |s| && p == t[i]
          invariant forall j :: 0 <= j < i ==> s[j].id != id
          decreases |s| - i
        {
          assert Listing(t, i);
          if p.id == id { break; }
          p := p.next;
          i := i + 1;
        }
        if p == memListTail { return; }
        k := k + 1;
      }
    }

    /** The new record goes to the end of the list, and nothing else changes. */
    method ListMember(m: Member, ghost g: Reg)
      requires MembersLinked(g) && Distinct(g.members) && m !in g.members && m.next == null && m.prev == null
      requires RoomsLinked(g) && Rosters(g) && Records(g)
      modifies this`memListHead, this`memListTail, this`totalMembers, m`prev, g.members`next
      ensures MemberList(g.members + [m], memListHead, memListTail) && totalMembers == |g.members| + 1
      ensures RoomsLinked(g) && Rosters(g) && Records(g)
      ensures reg == old(reg) && history == old(history)
    {
      hide RoomList, MemberList, Rosters, Records, Distinct;
      LinkMember(m, g.members);
    }

    lemma UnusedIds(g: Reg, d: int)
      requires Listed(g) && Records(g)
      ensures Unused(g.members, d) <==> IdFree(g, d)
    {
    }

    lemma RegisterShown(g: Reg, m: Member, name: string, id: int)
      requires Inv(g) && Enabled(g, Registered(m, name, id))
      requires MemberList(g.members + [m], memListHead, memListTail) && totalMembers == |g.members| + 1
      requires RoomsLinked(g) && Rosters(g) && Records(g)
      requires Who(m.name, m.id, m.quietFlag, m.currentRoom) == Who(name, id, 0, null)
      ensures var h := Register(g, m, name, id); Shows(h) && Inv(h) && Leads(g, Registered(m, name, id), h)
    {
      RegisterInv(g, m, name, id);
      RegisterLinks(g, m, name, id);
      hide Inv, RoomList, MemberList, Rosters, Records;
    }

    method GiveId(m: Member, draws: seq<int>, ghost g: Reg) returns (id: int)
      requires Inv(g) && m !in g.members && m !in g.who
      requires MemberList(g.members + [m], memListHead, memListTail)
      requires RoomsLinked(g) && Rosters(g) && Records(g)
      requires exists d :: d in draws && IdFree(g, d)
      modifies m`id
      ensures id in draws && IdFree(g, id) && m.id == id
      ensures RoomsLinked(g) && Rosters(g) && Records(g) && MemberList(g.members + [m], memListHead, memListTail)
      ensures reg == old(reg) && history == old(history)
    {
      forall d ensures Unused(g.members, d) <==> IdFree(g, d) { UnusedIds(g, d); }
      assert memListTail == m && Distinct(g.members + [m]);
      hide RoomList, MemberList, Rosters, Records, Distinct, Inv, IdFree, Unused;
      id := DrawId(draws, g.members, m);
      memListTail.id := id;
    }

    /** `draws` are the server's successive random numbers. */
    method RegisterMember(name: string, draws: seq<int>) returns (reply: RegisterReply, m: Member?)
      requires Valid() && |name| < MAX_MEMBER_NAME_LEN
      requires (forall d :: d in draws ==> 1 <= d <= MAX_ID) && exists d :: d in draws && IdFree(reg, d)
      modifies this, reg.members`next
      ensures Valid()
      ensures reply.TooManyMembers? <==> |old(reg).members| == MAX_MEMBERS
      ensures reply.NameUsed? <==> |old(reg).members| < MAX_MEMBERS && !MemberNameFree(old(reg), name)
      ensures reply.Accepted? ==>
                && m != null && fresh(m) && reply.id in draws
                && Leads(old(reg), Registered(m, name, reply.id), reg) && IsRegistered(old(reg), m, name, reply.id, reg)
                && history == old(history) + [Registered(m, name, reply.id)]
      ensures !reply.Accepted? ==> reg == old(reg) && history == old(history)
    {
      ghost var g := reg;
      assert Listed(g) && Distinct(g.members);
      hide Inv, Unique, MemberOk, RoomOk, RoomList, Rosters, Records, MemberList, Reaches, Distinct, MemberNameFree, IdFree, Leads, IsRegistered;
      m := null;
      if totalMembers == MAX_MEMBERS { return TooManyMembers, null; }
      var taken := NameTaken(name);
      if taken { return NameUsed, null; }
      m := new Member(name);
      var id := AppendMember(m, name, draws);
      RegisteredIs(g, m, name, id, reg);
      reply := Accepted(id);
    }

    method AppendMember(m: Member, name: string, draws: seq<int>) returns (id: int)
      requires Valid() && m !in reg.who && |reg.members| < MAX_MEMBERS && MemberNameFree(reg, name)
      requires m.next == null && m.prev == null && Who(m.name, 0, m.quietFlag, m.currentRoom) == Who(name, 0, 0, null)
      requires (forall d :: d in draws ==> 1 <= d <= MAX_ID) && exists d :: d in draws && IdFree(reg, d)
      modifies this, m, reg.members`next
      ensures Valid() && id in draws && Leads(old(reg), Registered(m, name, id), reg)
      ensures history == old(history) + [Registered(m, name, id)]
    {
      ghost var g := reg;
      assert m !in g.members && Distinct(g.members) && Inv(g) && Reaches(history, g);
      hide Inv, RoomList, MemberList, Rosters, Records, Reaches, Distinct, Shows, RoomsLinked;
      assert Shows(g) && Rosters(g);
      ListMember(m, g);
      id := GiveId(m, draws, g);
      assert Enabled(g, Registered(m, name, id));
      hide Enabled, Register, Leads;
      RegisterShown(g, m, name, id);
      Adopt(Register(g, m, name, id));
      Note(g, Registered(m, name, id));
    }

    // ---------------------------------------------------------- messages

    /** Setting a flag changes no list. */
    method SetQuiet(m: Member, quiet: int, ghost g: Reg, ghost h: Reg)
      requires Shows(g) && m in g.who && h == g.(who := g.who[m := g.who[m].(quiet := quiet)])
      modifies m`quietFlag
      ensures Shows(h) && reg == old(reg) && history == old(history)
    {
      assert Rosters(h) && h.who.Keys == g.who.Keys;
      hide MemberList, RoomList, Holds, Rosters;
      m.quietFlag := quiet;
      assert Records(h);
    }

    method HearFrom(m: Member)
      requires Valid() && m in reg.who
      modifies this`reg, this`history, m`quietFlag
      ensures Valid() && reg == Hear(old(reg), m) && history == old(history) + [Heard(m)]
    {
      ghost var g, h := reg, Hear(reg, m);
      HearInv(g, m);
      assert Reaches(history, g) && Leads(g, Heard(m), h) && Shows(g);
      hide Inv, Reaches, Leads, Shows;
      SetQuiet(m, 0, g, h);
      Adopt(h);
      Note(g, Heard(m));
    }

    /** `delivers(k)` says whether the send number `k` of this message succeeds. */
    method ChatMsg(memberId: int, delivers: nat -> bool) returns (sent: seq<Member>)
      requires Valid()
      modifies this`reg, this`history, reg.who.Keys`quietFlag
      ensures Valid()
      ensures IdFree(old(reg), memberId) ==> sent == [] && reg == old(reg) && history == old(history)
      ensures forall m :: m in old(reg).who && old(reg).who[m].id == memberId ==>
                && reg == Hear(old(reg), m) && history == old(history) + [Heard(m)]
                && SentToTheRoom(history, reg, m, sent, delivers)
    {
      hide Inv, Reaches, Shows, SentToTheRoom;
      sent := [];
      var m := FindMemberWithId(memberId);
      if m != null {
        SenderIs(m);
        hide *;
        sent := SendFrom(m, delivers);
      }
    }

    method SendFrom(m: Member, delivers: nat -> bool) returns (sent: seq<Member>)
      requires Valid() && m in reg.who
      modifies this`reg, this`history, m`quietFlag
      ensures Valid() && reg == Hear(old(reg), m) && history == old(history) + [Heard(m)]
      ensures SentToTheRoom(history, reg, m, sent, delivers)
    {
      hide Inv, Reaches, Shows, GoesToTheRoom, Recipients, MemberOk, SentUpTo;
      HearFrom(m);
      sent := Distribute(m, delivers);
      ChatFrom(history, reg, m);
    }

    /** A send that fails ends the walk. */
    method Distribute(m: Member, delivers: nat -> bool) returns (sent: seq<Member>)
      requires Represents() && m in reg.who
      ensures MemberOk(reg, m) && SentUpTo(sent, Recipients(reg, m), delivers)
    {
      sent := [];
      assert MemberOk(reg, m);
      if m.currentRoom != null {
        ghost var s, i := reg.what[m.currentRoom].roster, 0;
        assert Holds(m.currentRoom, s);
        var t := m.currentRoom.head;
        while t != null
          invariant 0 <= i <= |s| && t == MemberAt(s, i) && sent == s[..i]
          invariant forall k :: 0 <= k < i ==> delivers(k)
          decreases |s| - i
        {
          assert Seated(s, i);
          if !delivers(|sent|) { return; }
          sent := sent + [t];
          t := t.nextInRoom;
          i := i + 1;
        }
      }
    }

    // ---------------------------------------------------------- switching rooms

    method SeatMember(m: Member, r: Room, ghost l: Reg)
      requires Inv(l) && m in l.who && l.who[m].room == null && r in l.what && Rosters(l)
      modifies l.who.Keys`nextInRoom, l.who.Keys`prevInRoom, r`head, r`tail, r`numOfMembers
      ensures Rosters(Join(l, m, r)) && reg == old(reg) && history == old(history)
    {
      ghost var s := l.what[r].roster;
      NotInRoster(l, m, r);
      AppendToRoom(m, r, s);
      forall q | q in l.what && q != r ensures Holds(q, l.what[q].roster) {
        ghost var t := l.what[q].roster;
        RostersDisjoint(l, r, q);
        NotInRoster(l, m, q);
        hide Inv, RoomOk;
        assert old(Holds(q, t));
        forall i | 0 <= i < |t| ensures Seated(t, i) {
          assert old(Seated(t, i)) && t[i] in t && t[i] !in s;
        }
      }
      JoinRosters(l, m, r);
    }

    method EnterRoom(m: Member, r: Room, ghost g: Reg, ghost l: Reg, ghost h: Reg)
      requires Inv(l) && m in l.who && l.who[m].room == null && r in l.what && Rosters(l)
      requires m in g.who && r in g.what && h == Join(l, m, r) && OnlyMoved(g, m, r, h)
      requires MembersLinked(g) && RoomsLinked(g) && Records(g)
      modifies l.who.Keys`nextInRoom, l.who.Keys`prevInRoom, r`head, r`tail, r`numOfMembers, m`currentRoom, r`emptyFlag
      ensures Shows(h) && reg == old(reg) && history == old(history)
    {
      hide Inv, MemberList, RoomList, Rosters, Records, Join, OnlyMoved;
      SeatMember(m, r, l);
      SetRoom(m, r, g, h);
    }

    method SetRoom(m: Member, r: Room, ghost g: Reg, ghost h: Reg)
      requires MembersLinked(g) && RoomsLinked(g) && Records(g) && Rosters(h)
      requires m in g.who && r in g.what && OnlyMoved(g, m, r, h)
      modifies m`currentRoom, r`emptyFlag
      ensures Shows(h) && reg == old(reg) && history == old(history)
    {
      hide MemberList, RoomList, Rosters;
      m.currentRoom := r;
      r.emptyFlag := 0;
      assert Records(h);
    }

    method MoveTo(m: Member, r: Room)
      requires Valid() && Enabled(reg, Moved(m, r))
      modifies this`reg, this`history, reg.who.Keys, reg.what.Keys
      ensures Valid() && Leads(old(reg), Moved(m, r), reg) && history == old(history) + [Moved(m, r)]
    {
      ghost var g := reg;
      assert Represents() && Reaches(history, g) && m in g.who && r in g.what;
      hide Reaches, Leads, OnlyMoved, Inv, Enabled, Shows, Join, Leave;
      ghost var l, h := MoveParts(g, m, r);
      LeaveRoomIfAny(m);
      EnterRoom(m, r, g, l, h);
      Adopt(h);
      Note(g, Moved(m, r));
    }

    method SwitchRoom(m: Member, toRoom: string) returns (reply: SwitchReply, r: Room?)
      requires Valid() && m in reg.who
      modifies this`reg, this`history, reg.who.Keys, reg.what.Keys
      ensures Valid()
      ensures Switches(old(reg), m, toRoom, reply, r)
      ensures reply == Switched ==>
                r != null && Leads(old(reg), Moved(m, r), reg) && history == old(history) + [Moved(m, r)]
      ensures reply != Switched ==> reg == old(reg) && history == old(history)
    {
      hide Inv, Shows, Reaches, Leads, Switches;
      reply, r := CheckSwitch(m, toRoom);
      if reply == Switched { MoveTo(m, r); }
    }

    method CheckSwitch(m: Member, toRoom: string) returns (reply: SwitchReply, r: Room?)
      requires Represents() && m in reg.who
      ensures Switches(reg, m, toRoom, reply, r)
      ensures reply == Switched ==> r != null && Enabled(reg, Moved(m, r))
    {
      hide Inv, Shows;
      RoomFields(m);
      r := null;
      if roomListHead == null { return NoRooms, null; }
      r := FindRoom(toRoom);
      if r == null { return RoomNotFound, null; }
      RoomCount(r);
      if r.numOfMembers == MAX_PER_ROOM { return RoomFull, r; }
      if m.currentRoom == r { return AlreadyThere, r; }
      reply := Switched;
    }

    lemma RoomFields(m: Member)
      requires Represents() && m in reg.who
      ensures m.currentRoom == reg.who[m].room
      ensures roomListHead == null <==> reg.rooms == []
    {
    }

    lemma RoomCount(r: Room)
      requires Represents() && r in reg.what
      ensures r.numOfMembers == |reg.what[r].roster| <= MAX_PER_ROOM
    {
      assert RoomOk(reg, r);
    }

    // ---------------------------------------------------------- the sweep

    method MarkQuiet(m: Member)
      requires Represents() && m in reg.who && reg.who[m].quiet == 0
      modifies this`reg, m`quietFlag
      ensures Represents() && reg == SweepMember(old(reg), m) && history == old(history)
    {
      ghost var g := reg;
      ghost var h := g.(who := g.who[m := g.who[m].(quiet := 1)]);
      QuietInv(g, m, 1);
      assert m.quietFlag == 0 && SweepMember(g, m) == h && Shows(g);
      hide Inv, Shows, SweepMember;
      SetQuiet(m, m.quietFlag + 1, g, h);
      Adopt(h);
    }

    method SweepOneMember(m: Member)
      requires Represents() && m in reg.who
      modifies this, reg.who.Keys, reg.what.Keys
      ensures Represents() && reg == SweepMember(old(reg), m) && history == old(history)
    {
      assert m.quietFlag == reg.who[m].quiet;
      assert reg.who[m].quiet != 0 ==> MemberOk(reg, m) && SweepMember(reg, m) == Drop(reg, m);
      hide Inv, Shows, SweepMember, Drop, MemberOk;
      if m.quietFlag == 0 { MarkQuiet(m); } else { RemoveMember(m); }
    }

    method NextMember(m: Member, ghost kept: seq<Member>, ghost rest: seq<Member>) returns (n: Member?)
      requires Represents() && reg.members == kept + rest && rest != [] && m == rest[0]
      ensures n == MemberAt(rest[1..], 0)
    {
      assert Listing(reg.members, |kept|);
      n := m.next;
    }

    /** One turn of the walk: the next record is read before this one may go. */
    method SweepMemberTurn(mt: Member, ghost kept: seq<Member>, ghost rest: seq<Member>, ghost z: Reg)
      returns (next: Member?, ghost kept': seq<Member>)
      requires Represents() && MembersToGo(reg, kept, rest, z) && rest != [] && mt == MemberAt(rest, 0)
      modifies this, reg.who.Keys, reg.what.Keys
      ensures Represents() && history == old(history) && next == MemberAt(rest[1..], 0)
      ensures next == null <==> rest[1..] == []
      ensures MembersToGo(reg, kept', rest[1..], z) && Shrunk(reg, old(reg))
    {
      hide Inv, Shows, MembersToGo, SweepMember, Shrunk;
      kept' := MembersNext(reg, kept, rest, z);
      next := NextMember(mt, kept, rest);
      SweepOneMember(mt);
    }

    lemma SweepStart()
      requires Represents()
      ensures Inv(reg) && MembersToGo(reg, [], reg.members, MembersSwept(reg))
      ensures memListHead == MemberAt(reg.members, 0) && (memListHead == null <==> reg.members == [])
    {
      MembersStart(reg);
    }

    method SweepMemberList()
      requires Represents()
      modifies this, reg.who.Keys, reg.what.Keys
      ensures Represents() && reg == MembersSwept(old(reg)) && history == old(history)
      ensures Shrunk(reg, old(reg))
    {
      hide Inv, Shows, MembersToGo, MembersSwept, MemberAt, Represents;
      SweepStart();
      ghost var g, kept, rest, z := reg, [], reg.members, MembersSwept(reg);
      var mt := memListHead;
      while mt != null
        invariant Represents() && history == old(history)
        invariant mt == MemberAt(rest, 0) && (mt == null <==> rest == []) && MembersToGo(reg, kept, rest, z) && Shrunk(reg, g)
        decreases |rest|
      {
        mt, kept := SweepMemberTurn(mt, kept, rest, z);
        rest := rest[1..];
      }
      MembersDone(reg, kept, z);
    }

    /** Unlinking the last of several rooms leaves the tail pointer null. */
    method UnlinkRoom(rt: Room, ghost s: seq<Room>)
      requires RoomList(s, roomListHead) && Distinct(s) && rt in s
      modifies this`roomListHead, this`roomListTail, s`next
      ensures RoomList(Minus(s, rt), roomListHead) && reg == old(reg) && history == old(history)
      ensures roomListTail == (if rt == s[|s| - 1] then null else old(roomListTail))
    {
      ghost var p: int, i := Position(s, rt), 0;
      assert Follows(s, p);
      var t := roomListHead;
      while t != null
        invariant 0 <= i <= p && (i == p ==> p == 0) && t == RoomAt(s, i) && roomListHead == RoomAt(s, 0) && roomListTail == old(roomListTail)
        invariant forall k :: 0 <= k < |s| ==> s[k].next == old(s[k].next)
        decreases |s| - i
      {
        assert old(Follows(s, i));
        if t == rt {
          assert i == p == 0;
          roomListHead := t.next;
          if roomListHead == null { roomListTail := null; }
          break;
        } else if t.next == rt {
          t.next := rt.next;
          if t.next == null { roomListTail := null; }
          break;
        }
        t := t.next;
        i := i + 1;
      }
      assert roomListHead == RoomAt(s, if p == 0 then 1 else 0);
      forall k | 0 <= k < |s| && k != p ensures BypassedRoom(s, p, k) {
        assert old(Follows(s, k));
      }
      RoomsClosed(s, rt);
    }

    /** The room is out of the list and out of the count; nothing else changes. */
    method DelistRoom(r: Room, ghost g: Reg, ghost h: Reg)
      requires MembersLinked(g) && RoomsLinked(g) && Rosters(h) && Records(h)
      requires r in g.rooms && Distinct(g.rooms) && h.members == g.members
      requires h.rooms == Minus(g.rooms, r) && |h.rooms| == |g.rooms| - 1
      requires h.tailLost <==> h.rooms != [] && (g.tailLost || r == g.rooms[|g.rooms| - 1])
      requires h.rooms != [] && r != g.rooms[|g.rooms| - 1] ==> h.rooms[|h.rooms| - 1] == g.rooms[|g.rooms| - 1]
      modifies this`roomListHead, this`roomListTail, this`totalRooms, g.rooms`next
      ensures Shows(h) && reg == old(reg) && history == old(history)
    {
      hide RoomList, MemberList, Rosters, Records, Distinct, Minus;
      assert |g.rooms| == 1 ==> r == g.rooms[0];
      UnlinkRoom(r, g.rooms);
      totalRooms := totalRooms - 1;
    }

    method MarkEmpty(r: Room)
      requires Represents() && r in reg.what && r in reg.rooms && reg.what[r].roster == [] && reg.what[r].empty == 0
      modifies this`reg, r`emptyFlag
      ensures Represents() && reg == SweepRoom(old(reg), r) && history == old(history)
    {
      ghost var g, h := reg, SweepRoom(reg, r);
      SweepRoomInv(g, r);
      assert MembersLinked(h) && RoomsLinked(h) && Rosters(h) && h.what.Keys == g.what.Keys && h.who == g.who;
      assert r.emptyFlag == 0;
      SetMark(r, g, h);
      Adopt(h);
    }

    method SetMark(r: Room, ghost g: Reg, ghost h: Reg)
      requires MembersLinked(h) && RoomsLinked(h) && Rosters(h) && Records(g) && r.emptyFlag == 0
      requires r in g.what && h.who == g.who && h.what == g.what[r := g.what[r].(empty := 1)]
      modifies r`emptyFlag
      ensures Shows(h) && reg == old(reg) && history == old(history)
    {
      hide RoomList, MemberList, Rosters;
      r.emptyFlag := r.emptyFlag + 1;
    }

    method SweepOneRoom(r: Room)
      requires Represents() && r in reg.what && r in reg.rooms
      modifies this, reg.what.Keys
      ensures Represents() && reg == SweepRoom(old(reg), r) && history == old(history)
    {
      RoomCount(r);
      assert r.emptyFlag == reg.what[r].empty;
      assert reg.what[r].roster != [] ==> SweepRoom(reg, r) == reg;
      hide Inv, Shows, SweepRoom;
      if r.numOfMembers == 0 {
        if r.emptyFlag == 0 { MarkEmpty(r); } else { RemoveRoom(r); }
      }
    }

    method RemoveRoom(r: Room)
      requires Represents() && r in reg.what && r in reg.rooms && reg.what[r].roster == [] && reg.what[r].empty != 0
      modifies this, reg.what.Keys
      ensures Represents() && reg == SweepRoom(old(reg), r) && history == old(history)
    {
      ghost var g := reg;
      assert forall q :: q in g.rooms ==> q in g.what;
      hide Inv, SweepRoom, RoomList, MemberList, Rosters, Records, Distinct, Minus;
      ghost var h := DropRoomParts(g, r);
      DelistRoom(r, g, h);
      Adopt(h);
    }

    lemma RoomSweepStart()
      requires Represents()
      ensures Inv(reg) && RoomsToGo(reg, [], reg.rooms, RoomsSwept(reg))
      ensures roomListHead == RoomAt(reg.rooms, 0) && (roomListHead == null <==> reg.rooms == [])
    {
      RoomsStart(reg);
    }

    method NextRoom(r: Room, ghost kept: seq<Room>, ghost rest: seq<Room>) returns (n: Room?)
      requires Represents() && reg.rooms == kept + rest && rest != [] && r == rest[0]
      ensures n == RoomAt(rest[1..], 0)
    {
      assert Follows(reg.rooms, |kept|);
      n := r.next;
    }

    method SweepRoomTurn(rt: Room, ghost kept: seq<Room>, ghost rest: seq<Room>, ghost z: Reg)
      returns (next: Room?, ghost kept': seq<Room>)
      requires Represents() && RoomsToGo(reg, kept, rest, z) && rest != [] && rt == RoomAt(rest, 0)
      modifies this, reg.what.Keys
      ensures Represents() && history == old(history) && next == RoomAt(rest[1..], 0)
      ensures next == null <==> rest[1..] == []
      ensures RoomsToGo(reg, kept', rest[1..], z) && Shrunk(reg, old(reg))
    {
      hide Inv, Shows, RoomsToGo, SweepRoom, Shrunk;
      ghost var h;
      kept', h := RoomsNext(reg, kept, rest, z);
      next := NextRoom(rt, kept, rest);
      SweepOneRoom(rt);
    }

    method SweepRoomList()
      requires Represents()
      modifies this, reg.what.Keys
      ensures Represents() && reg == RoomsSwept(old(reg)) && history == old(history)
    {
      hide Inv, Shows, RoomsToGo, RoomsSwept, RoomAt, Represents;
      RoomSweepStart();
      ghost var g, kept, rest, z := reg, [], reg.rooms, RoomsSwept(reg);
      var rt := roomListHead;
      while rt != null
        invariant Represents() && history == old(history)
        invariant rt == RoomAt(rest, 0) && (rt == null <==> rest == []) && RoomsToGo(reg, kept, rest, z) && Shrunk(reg, g)
        decreases |rest|
      {
        rt, kept := SweepRoomTurn(rt, kept, rest, z);
        rest := rest[1..];
      }
      RoomsDone(reg, kept, z);
    }

    /** What the server does when its timer runs out. */
    method SweepAll()
      requires Valid()
      modifies this, reg.who.Keys, reg.what.Keys
      ensures Valid() && history == old(history) + [Swept] && Leads(old(reg), Swept, reg)
    {
      ghost var g := reg;
      assert Inv(g) && Sweep(g) == RoomsSwept(MembersSwept(g)) && Reaches(history, g);
      assert Leads(g, Swept, Sweep(g));
      hide Inv, Shows, Reaches, MembersSwept, RoomsSwept, Sweep, Represents, Leads;
      SweepMemberList();
      SweepRoomList();
      Note(g, Swept);
    }

    // ---------------------------------------------------------- control messages

    method QuitMember(m: Member)
      requires Valid() && m in reg.who
      modifies this, reg.who.Keys, reg.what.Keys
      ensures Valid() && history == old(history) + [Quit(m)] && Leads(old(reg), Quit(m), reg)
    {
      ghost var g := reg;
      assert MemberOk(g, m) && Leads(g, Quit(m), Drop(g, m)) && Reaches(history, g);
      hide Inv, Shows, Reaches, Leads, Drop;
      RemoveMember(m);
      Note(g, Quit(m));
    }

    method Serve(m: Member, req: Request) returns (reply: ControlReply, r: Room?)
      requires Valid() && m in reg.who && (req.CreateRequest? ==> |req.name| != MAX_ROOM_NAME_LEN)
      modifies this, reg.who.Keys, reg.what.Keys
      ensures Valid() && Answers(old(reg), m, req, reply, r) && Does(old(reg), m, req, reply, r, reg)
      ensures history == old(history) + Effects(m, req, reply, r)
    {
      hide Inv, Shows, Reaches, Leads, IsIn, IsNew, Gone;
      reply, r := Served, null;
      match req
      case SwitchRequest(room) => reply, r := ServeSwitch(m, room);
      case CreateRequest(name) => reply, r := ServeCreate(m, name);
      case QuitRequest =>
        ghost var g := reg;
        QuitMember(m);
        QuitGone(g, m, reg);
      case _ =>
    }

    method ServeSwitch(m: Member, room: string) returns (reply: ControlReply, r: Room?)
      requires Valid() && m in reg.who
      modifies this, reg.who.Keys, reg.what.Keys
      ensures Valid() && Answers(old(reg), m, SwitchRequest(room), reply, r) && Does(old(reg), m, SwitchRequest(room), reply, r, reg)
      ensures history == old(history) + Effects(m, SwitchRequest(room), reply, r)
    {
      hide Inv, Shows, Reaches, Leads, NameFree, SwitchOutcome, IsIn;
      ghost var g := reg;
      var s;
      s, r := SwitchRoom(m, room);
      reply := SwitchAnswer(s);
      if s == Switched { MovedIsIn(g, m, r, reg); }
    }

    lemma RoomsKnown()
      requires Represents()
      ensures forall q :: q in reg.rooms ==> q in reg.what
    {
    }

    method ServeCreate(m: Member, name: string) returns (reply: ControlReply, r: Room?)
      requires Valid() && m in reg.who && |name| != MAX_ROOM_NAME_LEN
      modifies this, reg.who.Keys, reg.what.Keys
      ensures Valid() && Answers(old(reg), m, CreateRequest(name), reply, r) && Does(old(reg), m, CreateRequest(name), reply, r, reg)
      ensures history == old(history) + Effects(m, CreateRequest(name), reply, r)
    {
      hide Inv, Shows, Reaches, Leads, CreateOutcome, IsNew;
      RoomsKnown();
      ghost var g := reg;
      var c;
      c, r := CreateRoom(name);
      reply := CreateAnswer(c);
      if c == RoomCreated { CreatedIsNew(g, r, name, reg); }
    }

    /** A request from a member: unknown ids are refused, any other sender counts as heard. */
    method Control(memberId: int, req: Request) returns (reply: ControlReply, r: Room?)
      requires Valid() && (req.CreateRequest? ==> |req.name| != MAX_ROOM_NAME_LEN)
      modifies this, reg.who.Keys, reg.what.Keys
      ensures Valid()
      ensures IdFree(old(reg), memberId) ==> reply == IdInvalid && reg == old(reg) && history == old(history)
      ensures forall m :: m in old(reg).who && old(reg).who[m].id == memberId ==>
                && Answers(Hear(old(reg), m), m, req, reply, r)
                && Does(Hear(old(reg), m), m, req, reply, r, reg)
                && history == old(history) + [Heard(m)] + Effects(m, req, reply, r)
    {
      hide Inv, Shows, Reaches, Answers, Effects, Does;
      reply, r := IdInvalid, null;
      var m := FindMemberWithId(memberId);
      if m != null {
        SenderIs(m);
        reply, r := HearAndServe(m, req);
      }
    }

    lemma SenderIs(m: Member)
      requires Represents() && m in reg.who
      ensures forall n :: n in reg.who && reg.who[n].id == reg.who[m].id ==> n == m
    {
    }

    method HearAndServe(m: Member, req: Request) returns (reply: ControlReply, r: Room?)
      requires Valid() && m in reg.who && (req.CreateRequest? ==> |req.name| != MAX_ROOM_NAME_LEN)
      modifies this, reg.who.Keys, reg.what.Keys
      ensures Valid() && Answers(Hear(old(reg), m), m, req, reply, r) && Does(Hear(old(reg), m), m, req, reply, r, reg)
      ensures history == old(history) + [Heard(m)] + Effects(m, req, reply, r)
    {
      hide Inv, Shows, Reaches, Answers, Effects, Does;
      HearFrom(m);
      reply, r := Serve(m, req);
    }
  }
}
