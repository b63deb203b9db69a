/** The server's room table as a value: what each locked section does to it. C is the type of connections. */
module Rooms {
  import opened Bytes

  type RoomId(==, !new)

  /** Room epochs are only ever compared for equality; 0 stands for the empty string, which no room has. */
  type Epoch = int

  const HOUR: int := 3_600_000_000_000

  datatype Room<!C(==)> = Room(
    epoch: Epoch, changeSeq: int, cv: seq<byte>, members: set<C>, emptyTime: Option<int>)

  type Table<!C(==)> = map<RoomId, Room<C>>

  // ---------------------------------------------------------------- the locked sections

  /** The table with a room for r, created with these fields if there is none. */
  function WithRoom<C(==)>(t: Table<C>, r: RoomId, e: Epoch, emptyTime: Option<int>): (t2: Table<C>)
    ensures r in t2
  {
    if r in t then t else t[r := Room(e, 0, [], {}, emptyTime)]
  }

  function Bumped<C(==)>(room: Room<C>, cv: seq<byte>): Room<C> {
    room.(changeSeq := room.changeSeq + 1, cv := cv)
  }

  function With<C(==)>(room: Room<C>, c: C): Room<C> {
    room.(members := room.members + {c}, emptyTime := None)
  }

  /** FireChange: the room, created if needed, takes the next change sequence number. */
  function Fire<C(==)>(t: Table<C>, r: RoomId, cv: seq<byte>, now: int, e: Epoch): Table<C> {
    var t2 := WithRoom(t, r, e, Some(now));
    t2[r := Bumped(t2[r], cv)]
  }

  /** doRoomEnter past its guards. */
  function Enter<C(==)>(t: Table<C>, r: RoomId, c: C, e: Epoch): Table<C> {
    var t2 := WithRoom(t, r, e, None);
    t2[r := With(t2[r], c)]
  }

  function Without<C(==)>(room: Room<C>, c: C, now: int): Room<C> {
    if c !in room.members then room
    else
      var left := room.members - {c};
      room.(members := left, emptyTime := if left == {} then Some(now) else room.emptyTime)
  }

  /** doRoomLeave. */
  function Leave<C(==)>(t: Table<C>, r: RoomId, c: C, now: int): Table<C> {
    if r in t then t[r := Without(t[r], c, now)] else t
  }

  /** deleteAllFromAllRoom. */
  function Close<C(==)>(t: Table<C>, c: C, now: int): Table<C> {
    map r | r in t :: Without(t[r], c, now)
  }

  predicate Stale<C(==)>(room: Room<C>, now: int) {
    room.members == {} && room.emptyTime.Some? && now - room.emptyTime.value >= HOUR
  }

  /** _cleanEmptyRooms. */
  function Clean<C(==)>(t: Table<C>, now: int): Table<C> {
    map r | r in t && !Stale(t[r], now) :: t[r]
  }

  /** The rooms a connection is a member of. */
  function Joined<C(==)>(t: Table<C>, c: C): set<RoomId> {
    set r | r in t && c in t[r].members
  }

  // ---------------------------------------------------------------- their loops, part way

  ghost function Closing<C>(t: Table<C>, c: C, now: int, todo: set<RoomId>): Table<C> {
    map r | r in t :: if r in todo then t[r] else Without(t[r], c, now)
  }

  lemma ClosingEnds<C>(t: Table<C>, c: C, now: int)
    ensures Closing(t, c, now, Joined(t, c)) == t && Closing(t, c, now, {}) == Close(t, c, now)
  {
  }

  lemma ClosingStep<C>(t: Table<C>, c: C, now: int, todo: set<RoomId>, r: RoomId)
    requires r in todo && todo <= Joined(t, c)
    ensures var t2 := Closing(t, c, now, todo);
      r in t2 && c in t2[r].members && Closing(t, c, now, todo - {r}) == t2[r := Without(t2[r], c, now)]
  {
  }

  ghost function Cleaning<C>(t: Table<C>, now: int, todo: set<RoomId>): Table<C> {
    map r | r in t && (r in todo || !Stale(t[r], now)) :: t[r]
  }

  lemma CleaningEnds<C>(t: Table<C>, now: int)
    ensures Cleaning(t, now, t.Keys) == t && Cleaning(t, now, {}) == Clean(t, now)
  {
  }

  lemma CleaningStep<C>(t: Table<C>, now: int, todo: set<RoomId>, r: RoomId)
    requires r in todo && todo <= Cleaning(t, now, todo).Keys
    ensures var t2 := Cleaning(t, now, todo);
      Cleaning(t, now, todo - {r}) == if Stale(t2[r], now) then t2 - {r} else t2
  {
  }

  // ---------------------------------------------------------------- what they keep

  /** The empty time is set exactly on empty rooms; epochs are never empty and tell rooms apart. */
  predicate Sound<C(==)>(t: Table<C>) {
    && (forall r :: r in t ==> (t[r].emptyTime.Some? <==> t[r].members == {}) && t[r].epoch != 0)
    && (forall r, q :: r in t && q in t && t[r].epoch == t[q].epoch ==> r == q)
  }

  predicate FreshFor<C(==)>(t: Table<C>, e: Epoch) {
    e != 0 && forall r :: r in t ==> t[r].epoch != e
  }

  lemma FireKeepsSound<C>(t: Table<C>, r: RoomId, cv: seq<byte>, now: int, e: Epoch)
    requires Sound(t) && FreshFor(t, e)
    ensures Sound(Fire(t, r, cv, now, e))
  {
  }

  lemma EnterKeepsSound<C>(t: Table<C>, r: RoomId, c: C, e: Epoch)
    requires Sound(t) && FreshFor(t, e)
    ensures Sound(Enter(t, r, c, e))
  {
    var t2 := Enter(t, r, c, e);
    assert c in t2[r].members;
  }

  lemma LeaveKeepsSound<C>(t: Table<C>, r: RoomId, c: C, now: int)
    requires Sound(t)
    ensures Sound(Leave(t, r, c, now))
  {
  }

  lemma CloseKeepsSound<C>(t: Table<C>, c: C, now: int)
    requires Sound(t)
    ensures Sound(Close(t, c, now))
  {
  }

  lemma CleanKeepsSound<C>(t: Table<C>, now: int)
    requires Sound(t)
    ensures Sound(Clean(t, now))
  {
  }

  /** Every member is one of cs. */
  ghost predicate Among<C>(t: Table<C>, cs: set<C>) {
    forall r :: r in t ==> t[r].members <= cs
  }

  lemma EnterAmong<C>(t: Table<C>, r: RoomId, c: C, e: Epoch, cs: set<C>)
    requires Among(t, cs) && c in cs
    ensures Among(Enter(t, r, c, e), cs)
  {
  }

  lemma NewcomerJoinedNothing<C>(t: Table<C>, cs: set<C>, c: C)
    requires Among(t, cs) && c !in cs
    ensures Joined(t, c) == {} && Among(t, cs + {c})
  {
    forall r | r in t ensures c !in t[r].members { assert t[r].members <= cs; }
  }

  /** Who is where after each section: only the named connection moves, and only in the named room. */
  lemma FireMoves<C>(t: Table<C>, r: RoomId, cv: seq<byte>, now: int, e: Epoch, d: C)
    ensures Joined(Fire(t, r, cv, now, e), d) == Joined(t, d)
  {
  }

  lemma EnterMoves<C>(t: Table<C>, r: RoomId, c: C, e: Epoch, d: C)
    ensures d == c ==> Joined(Enter(t, r, c, e), d) == Joined(t, d) + {r}
    ensures d != c ==> Joined(Enter(t, r, c, e), d) == Joined(t, d)
  {
  }

  lemma LeaveMoves<C>(t: Table<C>, r: RoomId, c: C, now: int, d: C)
    ensures d == c ==> Joined(Leave(t, r, c, now), d) == Joined(t, d) - {r}
    ensures d != c ==> Joined(Leave(t, r, c, now), d) == Joined(t, d)
  {
  }

  lemma CloseMoves<C>(t: Table<C>, c: C, now: int, d: C)
    ensures d == c ==> Joined(Close(t, c, now), d) == {}
    ensures d != c ==> Joined(Close(t, c, now), d) == Joined(t, d)
  {
  }

  lemma CleanMoves<C>(t: Table<C>, now: int, d: C)
    ensures Joined(Clean(t, now), d) == Joined(t, d)
  {
  }

  // ---------------------------------------------------------------- how long a room may be empty

  /** A room its only member left at `left` survives cleaning at `now` if and only if less than an hour has passed. */
  lemma LeftRoomIsKept<C>(t: Table<C>, r: RoomId, c: C, left: int, now: int)
    requires r in t && t[r].members == {c}
    ensures r in Clean(Leave(t, r, c, left), now) <==> now - left < 3_600_000_000_000
  {
  }

  /** The same when the member's connection closed. */
  lemma ClosedRoomIsKept<C>(t: Table<C>, r: RoomId, c: C, left: int, now: int)
    requires r in t && t[r].members == {c}
    ensures r in Clean(Close(t, c, left), now) <==> now - left < 3_600_000_000_000
  {
  }

  /** And for a room that FireChange made, with nobody in it. */
  lemma FiredRoomIsKept<C>(t: Table<C>, r: RoomId, cv: seq<byte>, fired: int, e: Epoch, now: int)
    requires r !in t
    ensures r in Clean(Fire(t, r, cv, fired, e), now) <==> now - fired < 3_600_000_000_000
  {
  }

  /** The locked sections, as steps; e is the epoch of a room that is made. */
  datatype Section<!C(==)> =
    | Fires(r: RoomId, cv: seq<byte>, now: int, e: Epoch)
    | Enters(r: RoomId, c: C, e: Epoch)
    | Leaves(r: RoomId, c: C, now: int)
    | Closes(c: C, now: int)
    | Cleans(now: int)

  function After<C(==)>(t: Table<C>, x: Section<C>): Table<C> {
    match x
    case Fires(r, cv, now, e) => Fire(t, r, cv, now, e)
    case Enters(r, c, e) => Enter(t, r, c, e)
    case Leaves(r, c, now) => Leave(t, r, c, now)
    case Closes(c, now) => Close(t, c, now)
    case Cleans(now) => Clean(t, now)
  }

  function Tables<C(==)>(xs: seq<Section<C>>): Table<C> {
    if xs == [] then map[] else After(Tables(xs[..|xs| - 1]), xs[|xs| - 1])
  }

  predicate HasMembers<C(==)>(t: Table<C>, r: RoomId) { r in t && t[r].members != {} }

  /** The instant since which room r has been without a member, read off the run: the instant of the section after
      which it had none, the section before which it had one or was not there. */
  function EmptySince<C(==)>(xs: seq<Section<C>>, r: RoomId): Option<int> {
    if xs == [] then None
    else
      var before, x := xs[..|xs| - 1], xs[|xs| - 1];
      if r !in Tables(xs) || HasMembers(Tables(xs), r) then None
      else if EmptySince(before, r).Some? then EmptySince(before, r)
      else if x.Enters? then None
      else Some(x.now)
  }

  /** In every run the server's empty time is that instant. */
  lemma {:induction false} EmptyTimeIs<C>(xs: seq<Section<C>>, r: RoomId)
    ensures r in Tables(xs) ==> Tables(xs)[r].emptyTime == EmptySince(xs, r)
    ensures r in Tables(xs) ==> (EmptySince(xs, r).Some? <==> !HasMembers(Tables(xs), r))
    ensures r !in Tables(xs) ==> EmptySince(xs, r).None?
    decreases |xs|
  {
    if xs != [] {
      EmptyTimeIs(xs[..|xs| - 1], r);
    }
  }

  /** In every run a room is removed exactly by cleaning, when it has had no member for an hour. */
  lemma RemovedIff<C>(xs: seq<Section<C>>, x: Section<C>, r: RoomId)
    requires r in Tables(xs)
    ensures r !in Tables(xs + [x])
       <==> x.Cleans? && EmptySince(xs, r).Some? && x.now - EmptySince(xs, r).value >= 3_600_000_000_000
  {
    EmptyTimeIs(xs, r);
    assert (xs + [x])[..|xs|] == xs;
  }

  // ---------------------------------------------------------------- what a room is, read off a run

  /** The values fired at room r since the room that stands was made, in order. */
  function FiredAt<C(==)>(xs: seq<Section<C>>, r: RoomId): seq<seq<byte>> {
    if xs == [] || r !in Tables(xs) then []
    else
      var x := xs[|xs| - 1];
      FiredAt(xs[..|xs| - 1], r) + if x.Fires? && x.r == r then [x.cv] else []
  }

  /** The sequence number counts the changes since the room was made, and the value is that of the last one. */
  lemma {:induction false} SeqCountsFires<C>(xs: seq<Section<C>>, r: RoomId)
    requires r in Tables(xs)
    ensures var room, cvs := Tables(xs)[r], FiredAt(xs, r);
      room.changeSeq == |cvs| && room.cv == if cvs == [] then [] else cvs[|cvs| - 1]
    decreases |xs|
  {
    var before := xs[..|xs| - 1];
    if r in Tables(before) {
      SeqCountsFires(before, r);
    } else {
      assert FiredAt(before, r) == [];
    }
  }

  /** c's last move in room r was to enter it. */
  predicate IsIn<C(==)>(xs: seq<Section<C>>, r: RoomId, c: C) {
    && xs != []
    && var x := xs[|xs| - 1];
      if x.Enters? && x.r == r && x.c == c then true
      else if (x.Leaves? && x.r == r && x.c == c) || (x.Closes? && x.c == c) then false
      else IsIn(xs[..|xs| - 1], r, c)
  }

  /** The members of a room are exactly those who entered last and neither left nor closed since. */
  lemma {:induction false} MembersAre<C>(xs: seq<Section<C>>, r: RoomId, c: C)
    ensures IsIn(xs, r, c) <==> r in Tables(xs) && c in Tables(xs)[r].members
    decreases |xs|
  {
    if xs != [] {
      MembersAre(xs[..|xs| - 1], r, c);
    }
  }

  /** The epoch the standing room r was made with. */
  function MadeWith<C(==)>(xs: seq<Section<C>>, r: RoomId): Epoch
    requires r in Tables(xs)
  {
    var before, x := xs[..|xs| - 1], xs[|xs| - 1];
    if r in Tables(before) then MadeWith(before, r) else x.e
  }

  /** A room keeps the epoch it was made with. */
  lemma {:induction false} EpochStays<C>(xs: seq<Section<C>>, r: RoomId)
    requires r in Tables(xs)
    ensures Tables(xs)[r].epoch == MadeWith(xs, r)
    decreases |xs|
  {
    if r in Tables(xs[..|xs| - 1]) {
      EpochStays(xs[..|xs| - 1], r);
    }
  }
}
