/** Whole runs of the chat server: what the history of messages and sweeps says about who is
    registered, which rooms there are, who is in which room, and whom a chat message reaches. */
module RegistryHistory {
  import opened Sequences
  import opened Registry
  import opened RegistryRuns

  /** `Heard` is any message from a registered member; a room switch or a quit that the server
      carries out is such a message followed by `Moved` or `Quit`. */
  datatype Event =
    | Registered(m: Member, name: string, id: int)
    | Created(r: Room, name: string)
    | Heard(m: Member)
    | Moved(m: Member, r: Room)
    | Quit(m: Member)
    | Swept

  ghost predicate Enabled(g: Reg, e: Event) {
    match e
    case Registered(m, name, id) =>
      && m !in g.who && |g.members| < MAX_MEMBERS && 1 <= id <= MAX_ID
      && (forall n :: n in g.who ==> g.who[n].name != name && g.who[n].id != id)
    case Created(r, name) =>
      && r !in g.what && |g.rooms| < MAX_ROOMS && !g.tailLost
      && (forall q :: q in g.what ==> g.what[q].name != name)
    case Heard(m) => m in g.who
    case Moved(m, r) =>
      m in g.who && r in g.what && |g.what[r].roster| < MAX_PER_ROOM && g.who[m].room != r
    case Quit(m) => m in g.who
    case Swept => true
  }

  ghost function Move(g: Reg, m: Member, r: Room): Reg
    requires m in g.who && r in g.what && (g.who[m].room == null || g.who[m].room in g.what)
  {
    Join(Leave(g, m), m, r)
  }

  lemma MoveInv(g: Reg, m: Member, r: Room)
    requires Inv(g) && Enabled(g, Moved(m, r))
    ensures MemberOk(g, m) && Inv(Move(g, m, r))
  {
    LeaveInv(g, m);
    hide Inv;
    JoinInv(Leave(g, m), m, r);
  }

  ghost function Apply(g: Reg, e: Event): (h: Reg)
    requires Inv(g) && Enabled(g, e)
  {
    match e
    case Registered(m, name, id) => Register(g, m, name, id)
    case Created(r, name) => Create(g, r, name)
    case Heard(m) => Hear(g, m)
    case Moved(m, r) => (assert MemberOk(g, m); Move(g, m, r))
    case Quit(m) => (assert MemberOk(g, m); Drop(g, m))
    case Swept => Sweep(g)
  }

  lemma ApplyInv(g: Reg, e: Event)
    requires Inv(g) && Enabled(g, e)
    ensures Inv(Apply(g, e))
  {
    match e
    case Registered(m, name, id) => RegisterInv(g, m, name, id);
    case Created(r, name) => CreateInv(g, r, name);
    case Heard(m) => HearInv(g, m);
    case Moved(m, r) => MoveInv(g, m, r);
    case Quit(m) => DropInv(g, m);
    case Swept => SweepEffect(g);
  }

  /** Each event can happen in the state that those before it lead to. */
  ghost predicate Possible(g: Reg, es: seq<Event>)
    requires Inv(g)
    decreases |es|, 0
  {
    var n := |es| - 1;
    n >= 0 ==> Possible(g, es[..n]) && Enabled(After(g, es[..n]), es[n])
  }

  /** The state after the events; it satisfies the invariant again, whatever they are. */
  ghost function After(g: Reg, es: seq<Event>): (h: Reg)
    requires Inv(g) && Possible(g, es)
    ensures Inv(h)
    decreases |es|, 1
  {
    var n := |es| - 1;
    if n < 0 then g else
      var u := After(g, es[..n]);
      ApplyInv(u, es[n]);
      Apply(u, es[n])
  }

  lemma Latest(g: Reg, es: seq<Event>) returns (front: seq<Event>, u: Reg, e: Event)
    requires es != [] && Inv(g) && Possible(g, es)
    ensures es == front + [e] && |front| < |es| && e in es && (forall d :: d in front ==> d in es)
    ensures Possible(g, front) && u == After(g, front) && Enabled(u, e) && After(g, es) == Apply(u, e)
  {
    var n := |es| - 1;
    front, u, e := es[..n], After(g, es[..n]), es[n];
  }

  lemma EmptyInv()
    ensures Inv(EMPTY)
  {
  }

  // ------------------------------------------------------------ who has been heard from

  ghost predicate SpeaksFor(e: Event, m: Member) {
    e == Heard(m) || (e.Registered? && e.m == m)
  }

  ghost predicate Spoke(es: seq<Event>, m: Member) {
    exists e :: e in es && SpeaksFor(e, m)
  }

  lemma SpokeMore(es: seq<Event>, e: Event, m: Member)
    ensures Spoke(es + [e], m) <==> Spoke(es, m) || SpeaksFor(e, m)
  {
    if Spoke(es, m) {
      var d :| d in es && SpeaksFor(d, m);
      assert d in es + [e];
    }
    if SpeaksFor(e, m) { assert e in es + [e]; }
  }

  ghost predicate Loud(g: Reg, m: Member) {
    m in g.who && g.who[m].quiet == 0
  }

  /** One event other than a sweep changes who is loud in this way only. */
  lemma LoudAfter(g: Reg, e: Event, m: Member)
    requires Inv(g) && Enabled(g, e) && e != Swept && m in Apply(g, e).who
    ensures Loud(Apply(g, e), m) <==> Loud(g, m) || SpeaksFor(e, m)
  {
    assert e.Moved? || e.Quit? ==> MemberOk(g, e.m);
    hide Inv;
  }

  lemma {:induction false} QuietTrace(g: Reg, es: seq<Event>, m: Member)
    requires Inv(g) && Possible(g, es) && Swept !in es
    ensures m in After(g, es).who ==> (Loud(After(g, es), m) <==> Loud(g, m) || Spoke(es, m))
    decreases |es|
  {
    if es != [] {
      var front, u, e := Latest(g, es);
      hide Inv, Possible, After;
      SpokeMore(front, e, m);
      QuietTrace(g, front, m);
      if m in Apply(u, e).who {
        hide Spoke, Loud, Enabled, Apply;
        LoudAfter(u, e, m);
        if m !in u.who { NewIsRegistered(u, e, m); }
      }
    }
  }

  lemma NewIsRegistered(g: Reg, e: Event, m: Member)
    requires Inv(g) && Enabled(g, e) && e != Swept && m in Apply(g, e).who && m !in g.who
    ensures SpeaksFor(e, m)
  {
    assert forall n {:trigger MemberOk(g, n)} :: n in g.who ==> MemberOk(g, n);
    hide Inv;
  }

  /** The sweep's rule for members: of those registered when a sweep starts, exactly the ones
      that the server has heard from since the sweep before stay. */
  lemma SweepKeepsTheHeard(g: Reg, es: seq<Event>, m: Member)
    requires Inv(g) && Inv(Sweep(g)) && Possible(Sweep(g), es) && Swept !in es
    requires m in After(Sweep(g), es).who
    ensures m in Sweep(After(Sweep(g), es)).who <==> Spoke(es, m)
  {
    var h := After(Sweep(g), es);
    SweepEffect(g);
    SweepEffect(h);
    QuietTrace(Sweep(g), es, m);
  }

  // ------------------------------------------------------------ which rooms are in use

  ghost predicate Uses(e: Event, r: Room) {
    (e.Moved? || e.Created?) && e.r == r
  }

  ghost predicate Joined(es: seq<Event>, r: Room) {
    exists e :: e in es && e.Moved? && e.r == r
  }

  ghost predicate Unmarked(g: Reg, r: Room) {
    r in g.what && g.what[r].empty == 0
  }

  lemma UnmarkedAfter(g: Reg, e: Event, r: Room)
    requires Inv(g) && Enabled(g, e) && e != Swept
    ensures r in Apply(g, e).what <==> r in g.what || (e.Created? && e.r == r)
    ensures r in Apply(g, e).what ==> (Unmarked(Apply(g, e), r) <==> Unmarked(g, r) || Uses(e, r))
  {
    assert e.Moved? || e.Quit? ==> MemberOk(g, e.m);
    hide Inv;
  }

  lemma JoinedMore(es: seq<Event>, e: Event, r: Room)
    ensures Joined(es + [e], r) <==> Joined(es, r) || (e.Moved? && e.r == r)
  {
    if Joined(es, r) {
      var d :| d in es && d.Moved? && d.r == r;
      assert d in es + [e];
    }
    if e.Moved? { assert e in es + [e]; }
  }

  lemma {:induction false} MarkTrace(g: Reg, es: seq<Event>, r: Room)
    requires Inv(g) && Possible(g, es) && Swept !in es
    ensures r in g.what ==> r in After(g, es).what
    ensures r in After(g, es).what ==>
              (Unmarked(After(g, es), r) <==> r !in g.what || Unmarked(g, r) || Joined(es, r))
    decreases |es|
  {
    if es != [] {
      var front, u, e := Latest(g, es);
      hide Inv, Possible, After;
      JoinedMore(front, e, r);
      UnmarkedAfter(u, e, r);
      MarkTrace(g, front, r);
    }
  }

  /** The sweep's rule for rooms: a room goes exactly if it was there and empty after the sweep
      before and nobody has joined it since; it is empty when it goes. */
  lemma SweepDropsTheUnused(g: Reg, es: seq<Event>, r: Room)
    requires Inv(g) && Inv(Sweep(g)) && Possible(Sweep(g), es) && Swept !in es
    requires r in After(Sweep(g), es).what
    ensures var s, h := Sweep(g), After(Sweep(g), es);
            && (r !in Sweep(h).what <==> r in s.what && s.what[r].roster == [] && !Joined(es, r))
            && (r !in Sweep(h).what ==> h.what[r].roster == [])
  {
    var h := After(Sweep(g), es);
    SweepEffect(g);
    SweepEffect(h);
    MarkTrace(Sweep(g), es, r);
    assert RoomOk(h, r);
  }

  // ------------------------------------------------------------ rooms and join order from the history

  /** Where the latest event about `m` that places it anywhere puts it. */
  ghost function RoomOf(es: seq<Event>, m: Member): Room? {
    var n := |es| - 1;
    if n < 0 then null
    else if es[n].Moved? && es[n].m == m then es[n].r
    else if es[n].Registered? && es[n].m == m then null
    else RoomOf(es[..n], m)
  }

  /** When `m` last joined a room. */
  ghost function LastMove(es: seq<Event>, m: Member): (k: int)
    ensures -1 <= k < |es|
    ensures k >= 0 ==> es[k].Moved? && es[k].m == m
    ensures forall i :: k < i < |es| ==> !(es[i].Moved? && es[i].m == m)
  {
    var n := |es| - 1;
    if n < 0 then -1
    else if es[n].Moved? && es[n].m == m then n
    else LastMove(es[..n], m)
  }

  ghost predicate Before(es: seq<Event>, m: Member, n: Member) {
    LastMove(es, m) < LastMove(es, n)
  }

  ghost predicate InOrder(es: seq<Event>, s: seq<Member>) {
    forall i, j :: 0 <= i < j < |s| ==> Before(es, s[i], s[j])
  }

  ghost predicate RostersInOrder(es: seq<Event>, g: Reg) {
    forall r :: r in g.what ==> InOrder(es, g.what[r].roster)
  }

  lemma MinusInOrder(es: seq<Event>, s: seq<Member>, m: Member)
    requires InOrder(es, s)
    ensures InOrder(es, Minus(s, m))
  {
    hide Before;
    var t := Minus(s, m);
    if m in s {
      var p := Position(s, m);
      forall i, j | 0 <= i < j < |t| ensures Before(es, t[i], t[j]) {
        assert t[i] == s[if i < p then i else i + 1];
        assert t[j] == s[if j < p then j else j + 1];
      }
    }
  }

  lemma LeaveInOrder(es: seq<Event>, g: Reg, m: Member)
    requires RostersInOrder(es, g) && m in g.who && (g.who[m].room == null || g.who[m].room in g.what)
    ensures RostersInOrder(es, Leave(g, m))
  {
    hide InOrder, Minus;
    if g.who[m].room != null { MinusInOrder(es, g.what[g.who[m].room].roster, m); }
  }

  lemma {:induction false} SweepMembersInOrder(es: seq<Event>, g: Reg, ms: seq<Member>)
    requires Inv(g) && Distinct(ms) && (forall m :: m in ms ==> m in g.who) && RostersInOrder(es, g)
    ensures RostersInOrder(es, SweepMembers(g, ms))
    decreases |ms|
  {
    if ms != [] {
      SweepMembersRest(g, ms);
      assert MemberOk(g, ms[0]);
      LeaveInOrder(es, g, ms[0]);
      hide Inv, InOrder, Leave;
      SweepMembersInOrder(es, SweepMember(g, ms[0]), ms[1..]);
    }
  }

  lemma SweepInOrder(es: seq<Event>, g: Reg)
    requires Inv(g) && RostersInOrder(es, g)
    ensures RostersInOrder(es, Sweep(g))
  {
    SweepMembersEffect(g, g.members);
    SweepMembersInOrder(es, g, g.members);
    var u := SweepMembers(g, g.members);
    SweepRoomsEffect(u, u.rooms);
    hide Inv, InOrder, SweepMembers, SweepRooms, SweptMembers;
    assert forall r :: r in Sweep(g).what ==> r in u.what && Sweep(g).what[r].roster == u.what[r].roster by {
      SweepRoomsRosters(u, u.rooms, Sweep(g));
    }
  }

  lemma SweepRoomsRosters(g: Reg, rs: seq<Room>, h: Reg)
    requires SweptRooms(g, rs, h)
    ensures forall r :: r in h.what ==> r in g.what && h.what[r].roster == g.what[r].roster
  {
    hide Inv;
    forall r | r in h.what ensures r in g.what && h.what[r].roster == g.what[r].roster {
      if r !in rs { }
    }
  }

  /** What one event other than a sweep does to a roster. */
  lemma RosterAfter(es: seq<Event>, g: Reg, e: Event)
    requires Inv(g) && Enabled(g, e) && e != Swept && RostersInOrder(es, g)
    ensures RostersInOrder(es + [e], Apply(g, e))
  {
    var h := Apply(g, e);
    assert e.Moved? || e.Quit? ==> MemberOk(g, e.m);
    forall r | r in h.what ensures InOrder(es + [e], h.what[r].roster) {
      if e.Moved? {
        MoveInOrder(es, g, e.m, e.r, r);
      } else if e.Quit? {
        LeaveInOrder(es, g, e.m);
        OthersInOrder(es, e, h.what[r].roster);
      } else if e.Created? && r == e.r {
      } else {
        OthersInOrder(es, e, g.what[r].roster);
      }
    }
  }

  lemma OthersInOrder(es: seq<Event>, e: Event, s: seq<Member>)
    requires InOrder(es, s) && (e.Moved? ==> e.m !in s)
    ensures InOrder(es + [e], s)
  {
    forall i, j | 0 <= i < j < |s| ensures Before(es + [e], s[i], s[j]) {
      assert s[i] in s && s[j] in s;
      assert (es + [e])[..|es|] == es;
      assert Before(es, s[i], s[j]);
    }
  }

  lemma MoveInOrder(es: seq<Event>, g: Reg, m: Member, r: Room, q: Room)
    requires Inv(g) && Enabled(g, Moved(m, r)) && RostersInOrder(es, g) && q in g.what
    ensures MemberOk(g, m) && InOrder(es + [Moved(m, r)], Move(g, m, r).what[q].roster)
  {
    var e := Moved(m, r);
    LeaveInv(g, m);
    LeaveInOrder(es, g, m);
    var l := Leave(g, m);
    var s := l.what[q].roster;
    assert m !in s by { assert RoomOk(l, q); }
    assert InOrder(es, s);
    hide Inv, Leave, RostersInOrder, Enabled;
    OthersInOrder(es, e, s);
    if q == r { LatestInOrder(es, e, s); }
  }

  lemma LatestInOrder(es: seq<Event>, e: Event, s: seq<Member>)
    requires e.Moved? && e.m !in s && InOrder(es + [e], s)
    ensures InOrder(es + [e], s + [e.m])
  {
    var t, d := s + [e.m], es + [e];
    forall i, j | 0 <= i < j < |t| ensures Before(d, t[i], t[j]) {
      if j < |s| {
        assert Before(d, s[i], s[j]);
      } else {
        assert s[i] in s && LastMove(d, e.m) == |es|;
        assert d[|es|].m != s[i];
      }
    }
  }

  /** A roster lists its members in the order in which they joined. */
  lemma {:induction false} JoinOrder(es: seq<Event>)
    requires Inv(EMPTY) && Possible(EMPTY, es)
    ensures RostersInOrder(es, After(EMPTY, es))
    decreases |es|
  {
    if es != [] {
      var front, u, e := Latest(EMPTY, es);
      hide Inv, Possible, After, RostersInOrder, Enabled;
      JoinOrder(front);
      if e == Swept {
        SweepInOrder(front, u);
        SweptInOrder(front, Sweep(u));
      } else {
        RosterAfter(front, u, e);
      }
    }
  }

  lemma SweptInOrder(es: seq<Event>, g: Reg)
    requires RostersInOrder(es, g)
    ensures RostersInOrder(es + [Swept], g)
  {
    hide InOrder;
    forall r | r in g.what ensures InOrder(es + [Swept], g.what[r].roster) {
      OthersInOrder(es, Swept, g.what[r].roster);
    }
  }

  lemma RoomAfter(g: Reg, e: Event, m: Member)
    requires Inv(g) && Enabled(g, e) && m in Apply(g, e).who
    ensures Apply(g, e).who[m].room ==
              (if e.Moved? && e.m == m then e.r
               else if e.Registered? && e.m == m then null
               else if m in g.who then g.who[m].room else null)
    ensures m in g.who || (e.Registered? && e.m == m)
  {
    assert e.Moved? || e.Quit? ==> MemberOk(g, e.m);
    if e == Swept { SweepEffect(g); }
    hide Inv;
  }

  lemma RoomOfMore(es: seq<Event>, e: Event, m: Member)
    ensures RoomOf(es + [e], m) ==
              (if e.Moved? && e.m == m then e.r
               else if e.Registered? && e.m == m then null
               else RoomOf(es, m))
  {
    assert (es + [e])[..|es|] == es;
  }

  /** A member is in the room it joined last, unless it has registered since. */
  lemma {:induction false} RoomFromHistory(es: seq<Event>, m: Member)
    requires Inv(EMPTY) && Possible(EMPTY, es) && m in After(EMPTY, es).who
    ensures After(EMPTY, es).who[m].room == RoomOf(es, m)
    decreases |es|
  {
    if es != [] {
      var front, u, e := Latest(EMPTY, es);
      RoomOfMore(front, e, m);
      hide Inv, Possible, After, RoomOf;
      RoomAfter(u, e, m);
      if m in u.who { RoomFromHistory(front, m); }
    }
  }

  /** Those whom a chat message from `m` is sent to, in this order. */
  ghost function Recipients(g: Reg, m: Member): seq<Member>
    requires MemberOk(g, m)
  {
    if g.who[m].room == null then [] else g.what[g.who[m].room].roster
  }

  /** Once each, exactly the registered members whose latest join was to the room of the sender's
      latest join, earlier joins first; nobody for a sender in no room. */
  ghost predicate GoesToTheRoom(es: seq<Event>, g: Reg, m: Member, sent: seq<Member>) {
    && Distinct(sent) && InOrder(es, sent)
    && (forall n :: n in sent ==> n in g.who && RoomOf(es, m) != null && RoomOf(es, n) == RoomOf(es, m))
    && (forall n :: n in g.who && RoomOf(es, m) != null && RoomOf(es, n) == RoomOf(es, m) ==> n in sent)
  }

  /** The message has gone to the members `to` in turn, up to the first send that failed. */
  ghost predicate SentUpTo(sent: seq<Member>, to: seq<Member>, delivers: nat -> bool) {
    && |sent| <= |to| && sent == to[..|sent|]
    && (forall k :: 0 <= k < |sent| ==> delivers(k))
    && (|sent| < |to| ==> !delivers(|sent|))
  }

  /** And those members are the sender's room. */
  ghost predicate SentToTheRoom(es: seq<Event>, g: Reg, m: Member, sent: seq<Member>, delivers: nat -> bool) {
    && MemberOk(g, m)
    && GoesToTheRoom(es, g, m, Recipients(g, m)) && SentUpTo(sent, Recipients(g, m), delivers)
  }

  /** After any history. */
  lemma ChatReachesTheRoom(es: seq<Event>, m: Member)
    requires Inv(EMPTY) && Possible(EMPTY, es) && m in After(EMPTY, es).who
    ensures MemberOk(After(EMPTY, es), m)
    ensures GoesToTheRoom(es, After(EMPTY, es), m, Recipients(After(EMPTY, es), m))
  {
    var g := After(EMPTY, es);
    assert MemberOk(g, m);
    JoinOrder(es);
    RoomFromHistory(es, m);
    var r := g.who[m].room;
    if r != null {
      assert RoomOk(g, r);
      hide Inv, InOrder;
      forall n | n in g.who ensures n in g.what[r].roster <==> RoomOf(es, n) == r {
        RoomFromHistory(es, n);
      }
    }
  }

  // ------------------------------------------------------------ the tail pointer of the room list

  /** When the tail pointer is null although there are rooms: only a sweep brings this about,
      and exactly when the last room of the list is marked and another is not. */
  lemma TailAfter(g: Reg, e: Event)
    requires Inv(g) && Enabled(g, e)
    ensures var h := Apply(g, e);
            h.tailLost <==> (if e == Swept then SomeUnmarked(g) && (g.tailLost || LastMarked(g, g.rooms)) else g.tailLost)
  {
    assert e.Moved? || e.Quit? ==> MemberOk(g, e.m);
    if e == Swept { SweepTail(g); }
    hide Inv;
  }

  ghost predicate Reaches(es: seq<Event>, g: Reg) {
    Inv(EMPTY) && Possible(EMPTY, es) && After(EMPTY, es) == g
  }

  lemma OneMore(es: seq<Event>, g: Reg, e: Event)
    requires Reaches(es, g) && Enabled(g, e)
    ensures Inv(g) && Inv(Apply(g, e)) && Reaches(es + [e], Apply(g, e))
  {
    ApplyInv(g, e);
    hide Inv, Enabled, Apply;
    PossibleMore(es, e);
  }

  lemma PossibleMore(es: seq<Event>, e: Event)
    requires Inv(EMPTY) && Possible(EMPTY, es) && Enabled(After(EMPTY, es), e)
    ensures Possible(EMPTY, es + [e]) && After(EMPTY, es + [e]) == Apply(After(EMPTY, es), e)
  {
    var ds := es + [e];
    assert ds[..|ds| - 1] == es && ds[|ds| - 1] == e;
    hide Inv, Enabled, Apply;
  }

  ghost predicate Leads(g: Reg, e: Event, h: Reg) {
    Inv(g) && Enabled(g, e) && h == Apply(g, e)
  }

  lemma ChatFrom(es: seq<Event>, g: Reg, m: Member)
    requires Reaches(es, g) && m in g.who
    ensures MemberOk(g, m) && GoesToTheRoom(es, g, m, Recipients(g, m))
  {
    ChatReachesTheRoom(es, m);
  }

  lemma LeadsOn(es: seq<Event>, g: Reg, e: Event, h: Reg)
    requires Reaches(es, g) && Leads(g, e, h)
    ensures Reaches(es + [e], h)
  {
    OneMore(es, g, e);
  }

  /** One member in the first of two rooms, how often it was quiet, and the second room's mark. */
  ghost function OneInRoom(a: Room, b: Room, m: Member, quiet: int, empty: int): Reg {
    Reg([m], [a, b], map[m := Who("m", 1, quiet, a)], map[a := What("a", 0, [m]), b := What("b", empty, [])], false)
  }

  ghost function TwoRooms(a: Room, b: Room, m: Member): Reg {
    OneInRoom(a, b, m, 0, 0)
  }

  lemma OneEmptyRoom(a: Room)
    ensures Reaches([Created(a, "a")], Reg([], [a], map[], map[a := What("a", 0, [])], false))
  {
    EmptyInv();
    assert Reaches([], EMPTY);
    hide Inv, Reaches;
    OneMore([], EMPTY, Created(a, "a"));
    assert [] + [Created(a, "a")] == [Created(a, "a")];
  }

  lemma TwoEmptyRooms(a: Room, b: Room)
    requires a != b
    ensures Reaches([Created(a, "a"), Created(b, "b")],
              Reg([], [a, b], map[], map[a := What("a", 0, []), b := What("b", 0, [])], false))
  {
    OneEmptyRoom(a);
    hide Inv, Reaches;
    var g1 := Reg([], [a], map[], map[a := What("a", 0, [])], false);
    OneMore([Created(a, "a")], g1, Created(b, "b"));
    assert Apply(g1, Created(b, "b")).rooms == [a, b];
    assert [Created(a, "a")] + [Created(b, "b")] == [Created(a, "a"), Created(b, "b")];
  }

  lemma TwoRoomsReached(a: Room, b: Room, m: Member) returns (es: seq<Event>)
    requires a != b
    ensures Reaches(es, TwoRooms(a, b, m))
  {
    TwoEmptyRooms(a, b);
    hide Inv, Reaches;
    es := [Created(a, "a"), Created(b, "b")];
    var g2 := Reg([], [a, b], map[], map[a := What("a", 0, []), b := What("b", 0, [])], false);
    OneMore(es, g2, Registered(m, "m", 1));
    es := es + [Registered(m, "m", 1)];
    var g3 := g2.(members := [m], who := map[m := Who("m", 1, 0, null)]);
    assert g3 == Apply(g2, Registered(m, "m", 1));
    es := OneJoins(es, g3, a, b, m);
  }

  lemma OneJoins(before: seq<Event>, g: Reg, a: Room, b: Room, m: Member) returns (es: seq<Event>)
    requires a != b && Reaches(before, g)
    requires g == Reg([m], [a, b], map[m := Who("m", 1, 0, null)], map[a := What("a", 0, []), b := What("b", 0, [])], false)
    ensures Reaches(es, TwoRooms(a, b, m))
  {
    hide Inv, Reaches;
    OneMore(before, g, Moved(m, a));
    var h, t := Apply(g, Moved(m, a)), TwoRooms(a, b, m);
    assert Leave(g, m) == g;
    assert h.what[a].roster == [m] && h.what[b] == t.what[b];
    assert h.what == t.what && h.who == t.who;
    es := before + [Moved(m, a)];
  }

  lemma FirstSweep(a: Room, b: Room, m: Member)
    requires a != b && Inv(TwoRooms(a, b, m))
    ensures Sweep(TwoRooms(a, b, m)) == OneInRoom(a, b, m, 1, 1)
  {
    var g, g1, g2 := TwoRooms(a, b, m), OneInRoom(a, b, m, 1, 0), OneInRoom(a, b, m, 1, 1);
    SweepOneMember(g, m);
    MarkOne(a, b, m);
    SweepTwoRooms(g1, a, b);
    MarkSecond(a, b, m);
    hide Inv, SweepMembers, SweepRooms, SweepMember;
    assert g.members == [m] && g1.rooms == [a, b];
  }

  lemma SweepOneMember(g: Reg, m: Member)
    requires Inv(g) && m in g.who
    ensures Distinct([m]) && Inv(SweepMember(g, m)) && SweepMembers(g, [m]) == SweepMember(g, m)
  {
    SweepMemberInv(g, m);
    hide Inv, SweepMember;
    var u := SweepMember(g, m);
    assert [m][1..] == [] && SweepMembers(u, []) == u;
  }

  lemma MarkOne(a: Room, b: Room, m: Member)
    requires Inv(TwoRooms(a, b, m))
    ensures SweepMember(TwoRooms(a, b, m), m) == OneInRoom(a, b, m, 1, 0)
  {
    hide Inv;
  }

  lemma MarkSecond(a: Room, b: Room, m: Member)
    requires a != b
    ensures var g := OneInRoom(a, b, m, 1, 0);
            g.(what := g.what[b := g.what[b].(empty := 1)]) == OneInRoom(a, b, m, 1, 1)
  {
  }

  lemma SweepTwoRooms(g: Reg, a: Room, b: Room)
    requires Inv(g) && a != b && a in g.what && b in g.what
    requires g.what[a].roster != [] && g.what[b].roster == [] && g.what[b].empty == 0
    ensures Distinct([a, b]) && SweepRooms(g, [a, b]) == g.(what := g.what[b := g.what[b].(empty := 1)])
  {
    SweepRoomInv(g, a);
    SweepRoomInv(g, b);
    assert [a, b][1..] == [b] && [b][1..] == [];
    assert Distinct([a, b]) && Distinct([b]);
    hide Inv, Distinct;
    var h := SweepRoom(g, b);
    assert SweepRooms(h, []) == h;
    assert SweepRooms(g, [b]) == SweepRooms(h, []);
  }

  lemma SecondSweep(a: Room, b: Room, m: Member)
    requires a != b && Inv(OneInRoom(a, b, m, 0, 1))
    ensures var h := Sweep(OneInRoom(a, b, m, 0, 1)); h.tailLost && a in h.what && b !in h.what
  {
    var g := OneInRoom(a, b, m, 0, 1);
    SweepEffect(g);
    SweepTail(g);
    hide Sweep, Unique, RoomOk, MemberOk;
    assert LastMarked(g, [a, b]);
    assert a in g.what && a in Sweep(g).what && a in Sweep(g).rooms;
  }

  lemma OneHeard(a: Room, b: Room, m: Member)
    ensures Hear(OneInRoom(a, b, m, 1, 1), m) == OneInRoom(a, b, m, 0, 1)
  {
  }

  /** Two sweeps with one message between them then lose the tail: the second room goes, the
      first stays, and no third can be created. */
  lemma TailLostExample(a: Room, b: Room, m: Member, c: Room, name: string) returns (es: seq<Event>, h: Reg)
    requires a != b
    ensures Reaches(es, h)
    ensures h.tailLost && a in h.what && b !in h.what && !Enabled(h, Created(c, name))
  {
    es := TwoRoomsReached(a, b, m);
    hide Inv, Reaches, Sweep;
    OneMore(es, TwoRooms(a, b, m), Swept);
    FirstSweep(a, b, m);
    OneHeard(a, b, m);
    OneMore(es + [Swept], OneInRoom(a, b, m, 1, 1), Heard(m));
    OneMore(es + [Swept] + [Heard(m)], OneInRoom(a, b, m, 0, 1), Swept);
    SecondSweep(a, b, m);
    es, h := es + [Swept] + [Heard(m)] + [Swept], Sweep(OneInRoom(a, b, m, 0, 1));
  }
}
