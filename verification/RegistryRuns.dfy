/** The periodic sweep, and what holds over whole runs of the chat server. */
module RegistryRuns {
  import opened Sequences
  import opened Registry

  // ------------------------------------------------------------ the sweep over members

  /** A member heard from since the last sweep is marked quiet; one already quiet goes. */
  ghost function SweepMember(g: Reg, m: Member): Reg
    requires Inv(g) && m in g.who
  {
    assert MemberOk(g, m);
    if g.who[m].quiet == 0 then g.(who := g.who[m := g.who[m].(quiet := 1)]) else Drop(g, m)
  }

  lemma SweepMemberInv(g: Reg, m: Member)
    requires Inv(g) && m in g.who
    ensures Inv(SweepMember(g, m))
  {
    if g.who[m].quiet == 0 { QuietInv(g, m, 1); } else { DropInv(g, m); }
  }

  /** What one member's turn does to the members, and what it leaves of the rooms. */
  ghost predicate SweptMember(g: Reg, m: Member, h: Reg)
    requires m in g.who
  {
    && (forall n :: n in g.who && n != m ==> n in h.who && h.who[n] == g.who[n])
    && (forall n :: n in h.who ==> n in g.who)
    && (m in h.who <==> g.who[m].quiet == 0)
    && (m in h.who ==> h.who[m] == g.who[m].(quiet := 1))
    && RoomsKept(g, h)
  }

  ghost predicate RoomsKept(g: Reg, h: Reg) {
    && h.rooms == g.rooms && h.tailLost == g.tailLost
    && (forall r :: r in g.what ==> r in h.what)
    && (forall r :: r in h.what ==> r in g.what)
    && (forall r :: r in g.what && r in h.what ==>
          h.what[r].name == g.what[r].name && h.what[r].empty == g.what[r].empty)
  }

  lemma SweptMemberHolds(g: Reg, m: Member)
    requires Inv(g) && m in g.who
    ensures SweptMember(g, m, SweepMember(g, m))
  {
    assert MemberOk(g, m);
  }

  lemma SweepMembersRest(g: Reg, ms: seq<Member>)
    requires Inv(g) && Distinct(ms) && ms != [] && forall m :: m in ms ==> m in g.who
    ensures ms[0] in g.who && Inv(SweepMember(g, ms[0])) && Distinct(ms[1..])
    ensures forall m :: m in ms[1..] ==> m in SweepMember(g, ms[0]).who
  {
    assert ms[0] in ms;
    SweepMemberInv(g, ms[0]);
    SweptMemberHolds(g, ms[0]);
    hide Inv, SweepMember;
    forall m | m in ms[1..] ensures m in SweepMember(g, ms[0]).who {
      assert m in ms && m != ms[0];
    }
  }

  /** The loop over the member list as it was when the sweep began. */
  ghost function SweepMembers(g: Reg, ms: seq<Member>): Reg
    requires Inv(g) && Distinct(ms) && forall m :: m in ms ==> m in g.who
    decreases |ms|
  {
    if ms == [] then g else
      SweepMembersRest(g, ms);
      SweepMembers(SweepMember(g, ms[0]), ms[1..])
  }

  /** What a sweep over the members `ms` leaves of the others and of them. */
  ghost predicate SweptMembers(g: Reg, ms: seq<Member>, h: Reg) {
    && Inv(h) && RoomsKept(g, h)
    && (forall m :: m in h.who ==> m in g.who)
    && (forall m :: m in g.who && m !in ms ==> m in h.who && h.who[m] == g.who[m])
    && (forall m :: m in ms && m in g.who && g.who[m].quiet == 0 ==> m in h.who && h.who[m] == g.who[m].(quiet := 1))
    && (forall m :: m in ms && m in g.who && g.who[m].quiet != 0 ==> m !in h.who)
  }

  lemma {:induction false} SweepMembersEffect(g: Reg, ms: seq<Member>)
    requires Inv(g) && Distinct(ms) && forall m :: m in ms ==> m in g.who
    ensures SweptMembers(g, ms, SweepMembers(g, ms))
    decreases |ms|
  {
    hide Inv, SweepMember, SweptMembers;
    if ms == [] {
      NoneSwept(g);
    } else {
      SweepMembersRest(g, ms);
      SweepMembersEffect(SweepMember(g, ms[0]), ms[1..]);
      SweptMemberHolds(g, ms[0]);
      assert ms == [ms[0]] + ms[1..];
      assert ms[0] !in ms[1..];
      SweepMembersStep(g, ms[0], ms[1..], SweepMember(g, ms[0]), SweepMembers(g, ms));
    }
  }

  lemma NoneSwept(g: Reg)
    requires Inv(g)
    ensures SweptMembers(g, [], g)
  {
    hide Inv;
  }

  lemma SweepMembersStep(g: Reg, m: Member, rest: seq<Member>, u: Reg, h: Reg)
    requires m in g.who && m !in rest && SweptMember(g, m, u) && SweptMembers(u, rest, h)
    ensures SweptMembers(g, [m] + rest, h)
  {
    hide Inv;
  }

  // ------------------------------------------------------------ the sweep over rooms

  /** An empty room is marked; one that was marked already goes. */
  ghost function SweepRoom(g: Reg, r: Room): Reg
    requires Inv(g) && r in g.what && r in g.rooms
  {
    if g.what[r].roster != [] then g
    else if g.what[r].empty == 0 then g.(what := g.what[r := g.what[r].(empty := 1)])
    else DropRoom(g, r)
  }

  lemma SweepRoomInv(g: Reg, r: Room)
    requires Inv(g) && r in g.what
    ensures r in g.rooms && Inv(SweepRoom(g, r))
  {
    assert RoomOk(g, r);
    var g' := SweepRoom(g, r);
    if g.what[r].roster == [] && g.what[r].empty == 0 {
      forall n | n in g'.who ensures MemberOk(g', n) { assert MemberOk(g, n); }
      forall q | q in g'.what ensures RoomOk(g', q) { assert RoomOk(g, q); }
    } else if g.what[r].roster == [] {
      DropRoomInv(g, r);
    }
  }

  ghost predicate SweptRoom(g: Reg, r: Room, h: Reg)
    requires r in g.what
  {
    && h.who == g.who && h.members == g.members
    && (forall q :: q in g.what && q != r ==> q in h.what && h.what[q] == g.what[q])
    && (forall q :: q in h.what ==> q in g.what)
    && (r in h.what <==> g.what[r].empty == 0)
    && (r in h.what ==> h.what[r] == g.what[r].(empty := if g.what[r].roster == [] then 1 else 0))
  }

  lemma SweptRoomHolds(g: Reg, r: Room)
    requires Inv(g) && r in g.what && r in g.rooms
    ensures SweptRoom(g, r, SweepRoom(g, r))
  {
    assert RoomOk(g, r);
  }

  lemma SweepRoomsRest(g: Reg, rs: seq<Room>)
    requires Inv(g) && Distinct(rs) && rs != [] && forall r :: r in rs ==> r in g.what
    ensures rs[0] in g.what && rs[0] in g.rooms && Inv(SweepRoom(g, rs[0])) && Distinct(rs[1..])
    ensures forall r :: r in rs[1..] ==> r in SweepRoom(g, rs[0]).what
  {
    assert rs[0] in rs;
    SweepRoomInv(g, rs[0]);
    SweptRoomHolds(g, rs[0]);
    hide Inv, SweepRoom;
    forall r | r in rs[1..] ensures r in SweepRoom(g, rs[0]).what {
      assert r in rs && r != rs[0];
    }
  }

  ghost function SweepRooms(g: Reg, rs: seq<Room>): Reg
    requires Inv(g) && Distinct(rs) && forall r :: r in rs ==> r in g.what
    decreases |rs|
  {
    if rs == [] then g else
      SweepRoomsRest(g, rs);
      SweepRooms(SweepRoom(g, rs[0]), rs[1..])
  }

  ghost predicate SweptRooms(g: Reg, rs: seq<Room>, h: Reg) {
    && Inv(h) && h.who == g.who && h.members == g.members
    && (forall r :: r in h.what ==> r in g.what)
    && (forall r :: r in g.what && r !in rs ==> r in h.what && h.what[r] == g.what[r])
    && (forall r :: r in rs && r in g.what && g.what[r].empty == 0 ==>
          r in h.what && h.what[r] == g.what[r].(empty := if g.what[r].roster == [] then 1 else 0))
    && (forall r :: r in rs && r in g.what && g.what[r].empty != 0 ==> r !in h.what)
  }

  lemma {:induction false} SweepRoomsEffect(g: Reg, rs: seq<Room>)
    requires Inv(g) && Distinct(rs) && forall r :: r in rs ==> r in g.what
    ensures SweptRooms(g, rs, SweepRooms(g, rs))
    decreases |rs|
  {
    hide Inv, SweepRoom, SweptRooms;
    if rs == [] {
      NoRoomSwept(g);
    } else {
      SweepRoomsRest(g, rs);
      SweepRoomsEffect(SweepRoom(g, rs[0]), rs[1..]);
      SweptRoomHolds(g, rs[0]);
      assert rs == [rs[0]] + rs[1..];
      assert rs[0] !in rs[1..];
      SweepRoomsStep(g, rs[0], rs[1..], SweepRoom(g, rs[0]), SweepRooms(g, rs));
    }
  }

  lemma NoRoomSwept(g: Reg)
    requires Inv(g)
    ensures SweptRooms(g, [], g)
  {
    hide Inv;
  }

  lemma SweepRoomsStep(g: Reg, r: Room, rest: seq<Room>, u: Reg, h: Reg)
    requires r in g.what && r !in rest && SweptRoom(g, r, u) && SweptRooms(u, rest, h)
    ensures SweptRooms(g, [r] + rest, h)
  {
    hide Inv;
  }

  // ------------------------------------------------------------ a whole sweep

  ghost function MembersSwept(g: Reg): (h: Reg)
    requires Inv(g)
    ensures Inv(h)
  {
    SweepMembersEffect(g, g.members);
    SweepMembers(g, g.members)
  }

  ghost function RoomsSwept(g: Reg): (h: Reg)
    requires Inv(g)
    ensures Inv(h)
  {
    SweepRoomsEffect(g, g.rooms);
    SweepRooms(g, g.rooms)
  }

  ghost function Sweep(g: Reg): (h: Reg)
    requires Inv(g)
    ensures Inv(h)
  {
    RoomsSwept(MembersSwept(g))
  }

  /** Exactly the members heard from stay, and exactly the rooms that were not marked stay; a
      room that is empty once the members are swept is marked, and no other is. */
  ghost predicate Swept(g: Reg, h: Reg) {
    && Inv(h)
    && (forall m :: m in h.who ==>
          m in g.who && g.who[m].quiet == 0 && h.who[m] == g.who[m].(quiet := 1))
    && (forall m :: m in g.who && g.who[m].quiet == 0 ==> m in h.who)
    && (forall r :: r in h.what ==>
          && r in g.what && g.what[r].empty == 0 && h.what[r].name == g.what[r].name
          && (h.what[r].empty != 0 <==> h.what[r].roster == []))
    && (forall r :: r in g.what && g.what[r].empty == 0 ==> r in h.what)
  }

  lemma SweepEffect(g: Reg)
    requires Inv(g)
    ensures Swept(g, Sweep(g))
  {
    SweepMembersEffect(g, g.members);
    var u := SweepMembers(g, g.members);
    SweepRoomsEffect(u, u.rooms);
    SweptParts(g, u, SweepRooms(u, u.rooms));
  }

  lemma SweptParts(g: Reg, u: Reg, h: Reg)
    requires Listed(g) && SweptMembers(g, g.members, u) && SweptRooms(u, u.rooms, h)
    ensures Swept(g, h)
  {
    assert Listed(u);
    hide MemberOk, RoomOk, Unique;
  }

  // ------------------------------------------------------------ the tail pointer of the room list

  lemma MinusMiddle<T>(a: seq<T>, x: T, b: seq<T>)
    requires Distinct(a + [x] + b)
    ensures Minus(a + [x] + b, x) == a + b
  {
    var s := a + [x] + b;
    assert s[|a|] == x;
    assert Position(s, x) == |a|;
    assert s[..|a|] == a && s[|a| + 1..] == b;
  }

  ghost predicate LastMarked(g: Reg, rs: seq<Room>) {
    rs != [] && rs[|rs| - 1] in g.what && g.what[rs[|rs| - 1]].empty != 0
  }

  lemma SuffixDistinct(g: Reg, kept: seq<Room>, rs: seq<Room>)
    requires Listed(g) && g.rooms == kept + rs
    ensures Distinct(rs) && forall r :: r in rs ==> r in g.what && r in g.rooms
  {
    forall i, j | 0 <= i < j < |rs| ensures rs[i] != rs[j] {
      assert g.rooms[|kept| + i] == rs[i] && g.rooms[|kept| + j] == rs[j];
    }
    forall r | r in rs ensures r in g.rooms { }
  }

  /** One room's turn: its place in the list, and what becomes of the tail. */
  lemma SweepRoomPlace(g: Reg, kept: seq<Room>, r: Room, rest: seq<Room>)
    requires Inv(g) && g.rooms == kept + [r] + rest && r in g.what && r in g.rooms
    ensures var u := SweepRoom(g, r);
            && u.rooms == (if u.rooms == g.rooms then kept + [r] else kept) + rest
            && (if rest == [] then u.tailLost <==> u.rooms != [] && (g.tailLost || g.what[r].empty != 0)
                else u.tailLost == g.tailLost)
  {
    assert RoomOk(g, r);
    MinusMiddle(kept, r, rest);
    hide RoomOk, Unique;
    if rest != [] {
      assert g.rooms[|kept|] == r && g.rooms[|g.rooms| - 1] == rest[|rest| - 1];
    }
  }

  lemma SweepTurn(g: Reg, rs: seq<Room>) returns (u: Reg)
    requires Inv(g) && rs != [] && Distinct(rs) && forall r :: r in rs ==> r in g.what
    requires rs[0] in g.rooms
    ensures rs[0] in g.what && u == SweepRoom(g, rs[0]) && Inv(u)
    ensures Distinct(rs[1..]) && (forall r :: r in rs[1..] ==> r in u.what)
    ensures SweepRooms(g, rs) == SweepRooms(u, rs[1..])
    ensures |rs| > 1 ==> (LastMarked(u, rs[1..]) <==> LastMarked(g, rs))
    ensures |rs| == 1 ==> SweepRooms(g, rs) == u
    ensures |rs| == 1 ==> (LastMarked(g, rs) <==> g.what[rs[0]].empty != 0)
  {
    SweepRoomsRest(g, rs);
    SweptRoomHolds(g, rs[0]);
    u := SweepRoom(g, rs[0]);
    hide Inv, SweepRoom, SweptRoom, Distinct;
    if |rs| == 1 {
      assert SweepRooms(u, []) == u;
      assert rs[1..] == [];
    } else {
      SameLast(g, rs, u);
    }
  }

  lemma {:induction false} SweepRoomsTail(g: Reg, kept: seq<Room>, rs: seq<Room>)
    requires Inv(g) && g.rooms == kept + rs
    requires rs != [] && Distinct(rs) && forall r :: r in rs ==> r in g.what
    ensures var h := SweepRooms(g, rs);
            h.tailLost <==> h.rooms != [] && (g.tailLost || LastMarked(g, rs))
    decreases |rs|
  {
    SuffixDistinct(g, kept, rs);
    assert rs[0] in rs;
    hide *;
    var u := SweepTurn(g, rs);
    assert rs == [rs[0]] + rs[1..] && kept + rs == kept + [rs[0]] + rs[1..];
    SweepRoomPlace(g, kept, rs[0], rs[1..]);
    if |rs| > 1 { SweepRoomsTail(u, if u.rooms == g.rooms then kept + [rs[0]] else kept, rs[1..]); }
  }

  lemma SameLast(g: Reg, rs: seq<Room>, u: Reg)
    requires |rs| > 1 && Distinct(rs) && rs[0] in g.what && SweptRoom(g, rs[0], u)
    ensures LastMarked(u, rs[1..]) <==> LastMarked(g, rs)
  {
    var last := rs[|rs| - 1];
    assert last == rs[1..][|rs| - 2] && last != rs[0];
  }

  lemma SameMarks(g: Reg, u: Reg)
    requires Listed(g) && Listed(u) && SweptMembers(g, g.members, u)
    ensures u.rooms == g.rooms && u.tailLost == g.tailLost && (LastMarked(u, g.rooms) <==> LastMarked(g, g.rooms))
    ensures g.rooms == [] ==> !g.tailLost
  {
    hide Inv;
  }

  ghost predicate SomeUnmarked(g: Reg) {
    exists r :: r in g.rooms && r in g.what && g.what[r].empty == 0
  }

  /** The rooms that stay are the unmarked ones. */
  lemma SweepLeavesRooms(g: Reg)
    requires Inv(g)
    ensures Sweep(g).rooms != [] <==> SomeUnmarked(g)
  {
    var h := Sweep(g);
    SweepEffect(g);
    assert Listed(g) && Listed(h);
    hide Inv, Sweep;
    if h.rooms != [] {
      var r := h.rooms[0];
      assert r in h.rooms && r in h.what;
    }
  }

  lemma SweepTailOrNone(g: Reg)
    requires Inv(g)
    ensures var h := Sweep(g);
            h.tailLost <==> h.rooms != [] && (g.tailLost || LastMarked(g, g.rooms))
  {
    SweepMembersEffect(g, g.members);
    var u := SweepMembers(g, g.members);
    SuffixDistinct(u, [], u.rooms);
    assert u.rooms == [] ==> SweepRooms(u, u.rooms) == u;
    SameMarks(g, u);
    assert Sweep(g) == SweepRooms(u, u.rooms);
    hide *;
    if u.rooms != [] {
      assert u.rooms == [] + u.rooms;
      SweepRoomsTail(u, [], u.rooms);
    }
  }

  /** The tail pointer is null after a sweep exactly if some room was not marked before it, and
      either the pointer was null already or the last room of the list was marked. */
  lemma SweepTail(g: Reg)
    requires Inv(g)
    ensures Sweep(g).tailLost <==> SomeUnmarked(g) && (g.tailLost || LastMarked(g, g.rooms))
  {
    SweepTailOrNone(g);
    SweepLeavesRooms(g);
    hide *;
  }

  // ------------------------------------------------------------ a sweep on its way

  /** The sweep has come to `rest` with the registry `g`; going on from there ends in `z`. */
  ghost predicate MembersToGo(g: Reg, kept: seq<Member>, rest: seq<Member>, z: Reg) {
    && Inv(g) && g.members == kept + rest
    && Distinct(rest) && (forall m :: m in rest ==> m in g.who)
    && SweepMembers(g, rest) == z
  }

  ghost predicate Shrunk(h: Reg, g: Reg) {
    && (forall m :: m in h.who ==> m in g.who)
    && (forall r :: r in h.what ==> r in g.what)
  }

  lemma MembersStart(g: Reg)
    requires Inv(g)
    ensures MembersToGo(g, [], g.members, MembersSwept(g))
  {
    assert MembersSwept(g) == SweepMembers(g, g.members);
    hide Unique, MemberOk, RoomOk;
    assert [] + g.members == g.members;
  }

  lemma MembersNext(g: Reg, kept: seq<Member>, rest: seq<Member>, z: Reg) returns (kept': seq<Member>)
    requires MembersToGo(g, kept, rest, z) && rest != []
    ensures Inv(g) && g.members == kept + rest && rest[0] in g.who
    ensures var h := SweepMember(g, rest[0]); MembersToGo(h, kept', rest[1..], z) && Shrunk(h, g)
  {
    var m := rest[0];
    assert m in rest;
    SweepMembersRest(g, rest);
    SweptMemberHolds(g, m);
    var h := SweepMember(g, m);
    assert SweepMembers(h, rest[1..]) == z;
    assert rest == [m] + rest[1..] && kept + rest == kept + [m] + rest[1..];
    MembersPlace(g, kept, m, rest[1..]);
    kept' := if g.who[m].quiet == 0 then kept + [m] else kept;
    hide Inv, SweepMember, SweepMembers, Distinct;
  }

  lemma MembersPlace(g: Reg, kept: seq<Member>, m: Member, rest: seq<Member>)
    requires Inv(g) && g.members == kept + [m] + rest && m in g.who
    ensures SweepMember(g, m).members == (if g.who[m].quiet == 0 then kept + [m] else kept) + rest
  {
    assert Listed(g);
    assert MemberOk(g, m);
    hide Inv, Unique, RoomOk;
    MinusMiddle(kept, m, rest);
  }

  ghost predicate RoomsToGo(g: Reg, kept: seq<Room>, rest: seq<Room>, z: Reg) {
    && Inv(g) && g.rooms == kept + rest
    && Distinct(rest) && (forall r :: r in rest ==> r in g.what && r in g.rooms)
    && SweepRooms(g, rest) == z
  }

  lemma RoomsStart(g: Reg)
    requires Inv(g)
    ensures RoomsToGo(g, [], g.rooms, RoomsSwept(g))
  {
    assert RoomsSwept(g) == SweepRooms(g, g.rooms);
    hide Unique, MemberOk, RoomOk;
    assert [] + g.rooms == g.rooms;
  }

  lemma RoomsNext(g: Reg, kept: seq<Room>, rest: seq<Room>, z: Reg) returns (kept': seq<Room>, h: Reg)
    requires RoomsToGo(g, kept, rest, z) && rest != []
    ensures Inv(g) && g.rooms == kept + rest && rest[0] in g.what && rest[0] in g.rooms && h == SweepRoom(g, rest[0])
    ensures RoomsToGo(h, kept', rest[1..], z) && Shrunk(h, g)
  {
    assert rest[0] in rest;
    h := SweepTurn(g, rest);
    kept' := RoomsShrink(g, kept, rest, h);
    assert SweepRooms(h, rest[1..]) == z;
    hide SweepRoom, SweepRooms, Distinct, Unique, MemberOk, RoomOk;
    assert forall r :: r in rest[1..] ==> r in h.rooms;
  }

  lemma RoomsShrink(g: Reg, kept: seq<Room>, rest: seq<Room>, h: Reg) returns (kept': seq<Room>)
    requires Inv(g) && g.rooms == kept + rest && rest != [] && rest[0] in g.what && rest[0] in g.rooms
    requires h == SweepRoom(g, rest[0])
    ensures h.rooms == kept' + rest[1..] && Shrunk(h, g)
  {
    assert rest == [rest[0]] + rest[1..] && kept + rest == kept + [rest[0]] + rest[1..];
    SweptRoomHolds(g, rest[0]);
    SweepRoomPlace(g, kept, rest[0], rest[1..]);
    kept' := if h.rooms == g.rooms then kept + [rest[0]] else kept;
    hide Inv, SweepRoom;
  }

  lemma MembersDone(g: Reg, kept: seq<Member>, z: Reg)
    requires MembersToGo(g, kept, [], z)
    ensures g == z
  {
  }

  lemma RoomsDone(g: Reg, kept: seq<Room>, z: Reg)
    requires RoomsToGo(g, kept, [], z)
    ensures g == z
  {
  }
}
