/**
 * The room table on the heap: rooms point at their connections and connections at their rooms, and every locked
 * section of the server does to this graph what Rooms says it does to the table.
 */
module RoomServer {
  import opened Bytes
  import opened Rooms

  class RoomObj {
    const id: RoomId
    const roomEpoch: Epoch
    var connSet: set<Conn>
    var changeSeq: int
    var cVersionId: seq<byte>
    var emptyTime: Option<int>

    constructor (id: RoomId, roomEpoch: Epoch, emptyTime: Option<int>)
      ensures this.id == id && Val() == Room(roomEpoch, 0, [], {}, emptyTime)
    {
      this.id, this.roomEpoch, this.emptyTime := id, roomEpoch, emptyTime;
      connSet, changeSeq, cVersionId := {}, 0, [];
    }

    function Val(): Room<Conn>
      reads this
    {
      Room(roomEpoch, changeSeq, cVersionId, connSet, emptyTime)
    }
  }

  class Conn {
    var roomMap: map<RoomId, RoomObj>
    var isStopRoomEnter: bool
    var connApproved: bool
    var connDenied: bool
    /** Room ids the room-level check has let through, ever. */
    ghost var allowed: set<RoomId>

    constructor (useAuthQueue: bool)
      ensures roomMap == map[] && !isStopRoomEnter && connApproved == !useAuthQueue && !connDenied && allowed == {}
    {
      roomMap, isStopRoomEnter, connApproved, connDenied, allowed := map[], false, !useAuthQueue, false, {};
    }
  }

  datatype Outcome = Ignored | OverLimit | Denied | Entered(epoch: Epoch, changeSeq: int, cVersionId: seq<byte>)

  lemma MapGrows<K, V>(m: map<K, V>, k: K, v: V)
    ensures |m[k := v]| <= |m| + 1 && m[k := v].Keys == m.Keys + {k}
  {
    assert m[k := v].Keys == m.Keys + {k};
    assert |m| == |m.Keys| && |m[k := v]| == |m[k := v].Keys|;
  }

  lemma MapShrinks<K, V>(m: map<K, V>, k: K)
    ensures |m - {k}| <= |m| && (m - {k}).Keys == m.Keys - {k}
  {
    assert (m - {k}).Keys == m.Keys - {k};
    assert |m| == |m.Keys| && |m - {k}| == |(m - {k}).Keys|;
  }

  class ServerManager {
    const roomEnterMaxPerConn: nat
    const useAuth: bool
    var roomMap: map<RoomId, RoomObj>
    ghost var conns: set<Conn>
    ghost var table: Table<Conn>
    ghost var rooms: set<RoomObj>

    constructor (roomEnterMaxPerConn: nat, useAuth: bool)
      ensures Valid() && roomMap == map[] && conns == {}
      ensures this.roomEnterMaxPerConn == roomEnterMaxPerConn && this.useAuth == useAuth
    {
      this.roomEnterMaxPerConn, this.useAuth := roomEnterMaxPerConn, useAuth;
      roomMap, conns, table, rooms := map[], {}, map[], {};
    }

    /** The room objects hold what the table says. */
    ghost predicate Represents()
      reads this, rooms
    {
      && roomMap.Keys == table.Keys
      && (forall id :: id in roomMap ==> roomMap[id] in rooms && roomMap[id].id == id && roomMap[id].Val() == table[id])
    }

    /** A connection's own map leads exactly to the rooms that hold it, and to the objects in the table. */
    ghost predicate Mirrored(c: Conn)
      reads this, c
    {
      && c.roomMap.Keys == Joined(table, c)
      && (forall id :: id in c.roomMap ==> id in roomMap && c.roomMap[id] == roomMap[id])
    }

    ghost predicate ConnOk(c: Conn)
      reads c
    {
      && |c.roomMap| <= roomEnterMaxPerConn
      && (c.isStopRoomEnter ==> c.roomMap == map[])
      && (c.roomMap != map[] ==> c.connApproved)
      && (useAuth ==> c.roomMap.Keys <= c.allowed)
    }

    ghost predicate TableOk()
      reads this, rooms
    {
      Represents() && Sound(table) && Among(table, conns)
    }

    ghost predicate OthersLinked(conn: Conn)
      reads this, conns
    {
      forall c :: c in conns && c != conn ==> Mirrored(c) && ConnOk(c)
    }

    ghost predicate Valid()
      reads this, rooms, conns
    {
      TableOk() && (forall c :: c in conns ==> Mirrored(c) && ConnOk(c))
    }

    /** "conn is in room.connSet" and "conn.roomMap[id] is room" say the same, for every room of the table. */
    lemma MembershipIsMutual(c: Conn, id: RoomId)
      requires Valid() && c in conns && id in roomMap
      ensures c in roomMap[id].connSet <==> id in c.roomMap && c.roomMap[id] == roomMap[id]
    {
      assert roomMap[id].Val() == table[id];
      assert id in Joined(table, c) <==> c in table[id].members;
    }

    /** A room a connection still points at is the one in the table: cleaning never orphans a member. */
    lemma MembersRoomsAreLive(c: Conn, id: RoomId)
      requires Represents() && Sound(table) && Mirrored(c) && ConnOk(c) && id in c.roomMap
      ensures id in roomMap && roomMap[id] == c.roomMap[id] && roomMap[id].emptyTime.None?
      ensures !c.isStopRoomEnter && c.connApproved && (useAuth ==> id in c.allowed)
    {
      assert id in Joined(table, c);
      assert roomMap[id].Val() == table[id];
    }

    method Accept() returns (c: Conn)
      requires Valid()
      modifies this`conns
      ensures Valid() && fresh(c) && conns == old(conns) + {c} && table == old(table)
      ensures c.connApproved == !useAuth && !c.connDenied && !c.isStopRoomEnter
    {
      hide Sound;
      c := new Conn(useAuth);
      NewcomerJoinedNothing(table, conns, c);
      assert Mirrored(c) && ConnOk(c);
      conns := conns + {c};
    }

    /** The table's room object for roomId, made if there is none. */
    method RoomFor(roomId: RoomId, newEpoch: Epoch, emptyTime: Option<int>) returns (room: RoomObj)
      requires Represents()
      modifies this`roomMap, this`table, this`rooms
      ensures Represents() && roomId in roomMap && room == roomMap[roomId]
      ensures roomMap.Keys == old(roomMap).Keys + {roomId}
      ensures forall id :: id in old(roomMap) ==> roomMap[id] == old(roomMap)[id]
      ensures rooms == old(rooms) + {room} && (room in old(rooms) || fresh(room))
      ensures table == WithRoom(old(table), roomId, newEpoch, emptyTime)
    {
      if roomId in roomMap {
        return roomMap[roomId];
      }
      room := new RoomObj(roomId, newEpoch, emptyTime);
      roomMap := roomMap[roomId := room];
      rooms := rooms + {room};
      table := WithRoom(table, roomId, newEpoch, emptyTime);
    }

    /** FireChange's change of the room. */
    method Bump(roomId: RoomId, room: RoomObj, cVersionId: seq<byte>)
      requires Represents() && roomId in roomMap && room == roomMap[roomId]
      modifies this`table, room
      ensures Represents() && table == old(table)[roomId := Bumped(old(table)[roomId], cVersionId)]
    {
      assert room.Val() == table[roomId];
      room.changeSeq := room.changeSeq + 1;
      room.cVersionId := cVersionId;
      table := table[roomId := Bumped(table[roomId], cVersionId)];
    }

    /** doRoomEnter's change of the room. */
    method AddMember(roomId: RoomId, room: RoomObj, conn: Conn)
      requires Represents() && roomId in roomMap && room == roomMap[roomId]
      modifies this`table, room
      ensures Represents() && table == old(table)[roomId := With(old(table)[roomId], conn)]
    {
      assert room.Val() == table[roomId];
      room.connSet := room.connSet + {conn};
      room.emptyTime := None;
      table := table[roomId := With(table[roomId], conn)];
    }

    /** doRoomLeave's change of the room. */
    method DropMember(roomId: RoomId, room: RoomObj, conn: Conn, now: int)
      requires Represents() && roomId in roomMap && room == roomMap[roomId] && conn in table[roomId].members
      modifies this`table, room
      ensures Represents() && table == old(table)[roomId := Without(old(table)[roomId], conn, now)]
    {
      assert room.Val() == table[roomId];
      room.connSet := room.connSet - {conn};
      if room.connSet == {} {
        room.emptyTime := Some(now);
      }
      table := table[roomId := Without(table[roomId], conn, now)];
    }

    /** FireChange's room, with its next value. */
    method NextValue(roomId: RoomId, cVersionId: seq<byte>, now: int, newEpoch: Epoch) returns (room: RoomObj)
      requires Represents()
      modifies this`roomMap, this`table, this`rooms, rooms
      ensures Represents() && table == Fire(old(table), roomId, cVersionId, now, newEpoch)
      ensures roomId in roomMap && room == roomMap[roomId]
      ensures forall id :: id in old(roomMap) ==> id in roomMap && roomMap[id] == old(roomMap)[id]
    {
      room := RoomFor(roomId, newEpoch, Some(now));
      Bump(roomId, room, cVersionId);
    }

    /** Returns the connections to notify and the value to notify them of, all taken under the lock. */
    method FireChange(roomId: RoomId, cVersionId: seq<byte>, now: int, newEpoch: Epoch)
      returns (connList: set<Conn>, roomEpoch: Epoch, changeSeq: int)
      requires Valid() && FreshFor(table, newEpoch)
      modifies this`roomMap, this`table, this`rooms, rooms
      ensures Valid() && table == Fire(old(table), roomId, cVersionId, now, newEpoch)
      ensures var room := table[roomId];
        connList == room.members && roomEpoch == room.epoch && changeSeq == room.changeSeq && cVersionId == room.cv
    {
      FireKeepsSound(table, roomId, cVersionId, now, newEpoch);
      ghost var before := table;
      var room := NextValue(roomId, cVersionId, now, newEpoch);
      forall d | d in conns ensures Mirrored(d) {
        FireMoves(before, roomId, cVersionId, now, newEpoch, d);
      }
      assert room.Val() == table[roomId];
      return room.connSet, room.roomEpoch, room.changeSeq;
    }

    /** doRoomEnter's change of the connection. */
    method Attach(conn: Conn, roomId: RoomId, room: RoomObj)
      requires TableOk() && OthersLinked(conn) && conn in conns
      requires ConnOk(conn) && !conn.isStopRoomEnter && |conn.roomMap| < roomEnterMaxPerConn
      requires conn.connApproved && (useAuth ==> roomId in conn.allowed)
      requires Joined(table, conn) == conn.roomMap.Keys + {roomId}
      requires forall id :: id in conn.roomMap ==> id in roomMap && conn.roomMap[id] == roomMap[id]
      requires roomId in roomMap && room == roomMap[roomId]
      modifies conn`roomMap
      ensures Valid()
    {
      hide Sound;
      hide Represents;
      MapGrows(conn.roomMap, roomId, room);
      conn.roomMap := conn.roomMap[roomId := room];
      assert Mirrored(conn) && ConnOk(conn);
      assert OthersLinked(conn);
    }

    /** doRoomLeave's change of the connection. */
    method Detach(conn: Conn, roomId: RoomId)
      requires TableOk() && OthersLinked(conn) && conn in conns
      requires ConnOk(conn) && roomId in conn.roomMap
      requires Joined(table, conn) == conn.roomMap.Keys - {roomId}
      requires forall id :: id in conn.roomMap ==> id in roomMap && conn.roomMap[id] == roomMap[id]
      modifies conn`roomMap
      ensures Valid()
    {
      MapShrinks(conn.roomMap, roomId);
      conn.roomMap := conn.roomMap - {roomId};
      assert Mirrored(conn) && ConnOk(conn);
      assert OthersLinked(conn);
    }

    /** doRoomEnter's room, with the connection in it. */
    method Seat(conn: Conn, roomId: RoomId, newEpoch: Epoch) returns (room: RoomObj)
      requires Represents()
      modifies this`roomMap, this`table, this`rooms, rooms
      ensures Represents() && table == Enter(old(table), roomId, conn, newEpoch)
      ensures roomId in roomMap && room == roomMap[roomId]
      ensures forall id :: id in old(roomMap) ==> id in roomMap && roomMap[id] == old(roomMap)[id]
    {
      room := RoomFor(roomId, newEpoch, None);
      AddMember(roomId, room, conn);
    }

    /** The same, and nobody else is affected. */
    method Insert(conn: Conn, roomId: RoomId, newEpoch: Epoch) returns (room: RoomObj)
      requires Valid() && conn in conns && FreshFor(table, newEpoch)
      modifies this`roomMap, this`table, this`rooms, rooms
      ensures TableOk() && OthersLinked(conn) && table == Enter(old(table), roomId, conn, newEpoch)
      ensures Joined(table, conn) == conn.roomMap.Keys + {roomId}
      ensures forall id :: id in conn.roomMap ==> id in roomMap && conn.roomMap[id] == roomMap[id]
      ensures roomId in roomMap && room == roomMap[roomId]
    {
      EnterKeepsSound(table, roomId, conn, newEpoch);
      EnterAmong(table, roomId, conn, newEpoch, conns);
      ghost var before := table;
      room := Seat(conn, roomId, newEpoch);
      EnterMoves(before, roomId, conn, newEpoch, conn);
      forall d | d in conns && d != conn ensures Mirrored(d) {
        EnterMoves(before, roomId, conn, newEpoch, d);
      }
    }

    /** doRoomEnter past its guards. */
    method Admit(conn: Conn, roomId: RoomId, newEpoch: Epoch) returns (res: Outcome)
      requires Valid() && conn in conns && FreshFor(table, newEpoch)
      requires conn.connApproved && (useAuth ==> roomId in conn.allowed)
      requires !conn.isStopRoomEnter && |conn.roomMap| < roomEnterMaxPerConn
      modifies this`roomMap, this`table, this`rooms, rooms, conn`roomMap
      ensures Valid() && table == Enter(old(table), roomId, conn, newEpoch)
      ensures var room := table[roomId]; res == Entered(room.epoch, room.changeSeq, room.cv)
    {
      var room := Insert(conn, roomId, newEpoch);
      Attach(conn, roomId, room);
      assert room.Val() == table[roomId];
      return Entered(room.roomEpoch, room.changeSeq, room.cVersionId);
    }

    method DoRoomEnter(conn: Conn, roomId: RoomId, newEpoch: Epoch) returns (res: Outcome)
      requires Valid() && conn in conns && FreshFor(table, newEpoch)
      requires conn.connApproved && (useAuth ==> roomId in conn.allowed)
      modifies this`roomMap, this`table, this`rooms, rooms, conn`roomMap
      ensures Valid()
      ensures res.Ignored? <==> old(conn.isStopRoomEnter)
      ensures res.OverLimit? <==> !old(conn.isStopRoomEnter) && |old(conn.roomMap)| >= roomEnterMaxPerConn
      ensures !res.Denied?
      ensures !res.Entered? ==> table == old(table)
      ensures res.Entered? ==>
        && table == Enter(old(table), roomId, conn, newEpoch)
        && var room := table[roomId]; res == Entered(room.epoch, room.changeSeq, room.cv)
    {
      if conn.isStopRoomEnter {
        return Ignored;
      }
      if |conn.roomMap| >= roomEnterMaxPerConn {
        return OverLimit;
      }
      res := Admit(conn, roomId, newEpoch);
    }

    method DoRoomLeave(conn: Conn, roomId: RoomId, now: int)
      requires Valid() && conn in conns
      modifies this`table, rooms, conn`roomMap
      ensures Valid() && table == Leave(old(table), roomId, conn, now)
    {
      if roomId !in conn.roomMap {
        assert roomId !in Joined(table, conn);
        assert Leave(table, roomId, conn, now) == table;
        return;
      }
      LeaveKeepsSound(table, roomId, conn, now);
      var room := conn.roomMap[roomId];
      MembershipIsMutual(conn, roomId);
      ghost var before := table;
      DropMember(roomId, room, conn, now);
      LeaveMoves(before, roomId, conn, now, conn);
      forall d | d in conns && d != conn ensures Mirrored(d) {
        LeaveMoves(before, roomId, conn, now, d);
      }
      Detach(conn, roomId);
    }

    /** The locked section of OnClose. */
    method OnClose(conn: Conn, now: int)
      requires Valid() && conn in conns
      modifies this`table, rooms, conn`roomMap, conn`isStopRoomEnter
      ensures Valid() && table == Close(old(table), conn, now)
      ensures conn.isStopRoomEnter && conn.roomMap == map[]
    {
      hide Sound;
      hide Represents;
      CloseKeepsSound(table, conn, now);
      ghost var before := table;
      conn.isStopRoomEnter := true;
      DeleteAllFromAllRoom(conn, now);
      forall d | d in conns ensures Mirrored(d) && ConnOk(d) {
        CloseMoves(before, conn, now, d);
      }
    }

    method DeleteAllFromAllRoom(conn: Conn, now: int)
      requires Represents() && Mirrored(conn)
      modifies this`table, rooms, conn`roomMap
      ensures Represents() && table == Close(old(table), conn, now) && conn.roomMap == map[]
    {
      hide Sound;
      ghost var before := table;
      var todo := conn.roomMap.Keys;
      ClosingEnds(before, conn, now);
      while todo != {}
        invariant todo <= conn.roomMap.Keys && conn.roomMap == old(conn.roomMap) && Represents()
        invariant table == Closing(before, conn, now, todo)
        decreases |todo|
      {
        var id :| id in todo;
        ClosingStep(before, conn, now, todo, id);
        DropMember(id, conn.roomMap[id], conn, now);
        todo := todo - {id};
      }
      conn.roomMap := map[];
    }

    method CleanEmptyRooms(now: int)
      requires Valid()
      modifies this`roomMap, this`table
      ensures Valid() && table == Clean(old(table), now)
    {
      CleanKeepsSound(table, now);
      ghost var before := table;
      RemoveStale(now);
      forall d | d in conns ensures Mirrored(d) {
        CleanMoves(before, now, d);
      }
    }

    method RemoveIfStale(id: RoomId, now: int)
      requires Represents() && id in roomMap
      modifies this`roomMap, this`table
      ensures Represents()
      ensures roomMap == if Stale(old(table)[id], now) then old(roomMap) - {id} else old(roomMap)
      ensures table == if Stale(old(table)[id], now) then old(table) - {id} else old(table)
    {
      var room := roomMap[id];
      assert room.Val() == table[id];
      if room.connSet == {} && room.emptyTime.Some? && now - room.emptyTime.value >= HOUR {
        roomMap := roomMap - {id};
        table := table - {id};
      }
    }

    /** The scan of _cleanEmptyRooms. */
    method RemoveStale(now: int)
      requires Represents()
      modifies this`roomMap, this`table
      ensures Represents() && table == Clean(old(table), now)
      ensures forall id :: id in roomMap ==> id in old(roomMap) && roomMap[id] == old(roomMap)[id]
    {
      hide Sound;
      ghost var before := table;
      var todo := roomMap.Keys;
      CleaningEnds(before, now);
      while todo != {}
        invariant todo <= roomMap.Keys && Represents()
        invariant forall id :: id in roomMap ==> id in old(roomMap) && roomMap[id] == old(roomMap)[id]
        invariant table == Cleaning(before, now, todo)
        decreases |todo|
      {
        var id :| id in todo;
        CleaningStep(before, now, todo, id);
        RemoveIfStale(id, now);
        todo := todo - {id};
      }
    }

    /** handleIdentityAuth: the first verdict is final. Returns the answer to send, if any. */
    method HandleIdentityAuth(conn: Conn, deny: bool) returns (answer: Option<bool>)
      requires Valid() && conn in conns
      modifies conn`connApproved, conn`connDenied
      ensures Valid() && table == old(table)
      ensures answer == if old(conn.connDenied || conn.connApproved) then None else Some(!deny)
      ensures conn.connApproved == (old(conn.connApproved) || answer == Some(true))
      ensures conn.connDenied == (old(conn.connDenied) || answer == Some(false))
    {
      if conn.connDenied || conn.connApproved {
        return None;
      }
      if deny {
        conn.connDenied := true;
        return Some(false);
      }
      conn.connApproved := true;
      return Some(true);
    }

    ghost method Allow(conn: Conn, roomId: RoomId)
      requires Valid() && conn in conns
      modifies conn`allowed
      ensures Valid() && conn.allowed == old(conn.allowed) + {roomId}
    {
      conn.allowed := conn.allowed + {roomId};
      assert ConnOk(conn) && Mirrored(conn);
      assert OthersLinked(conn);
    }

    /** handleRoomEnterAuth: only an approved, never denied connection is asked about, let alone let in. */
    method HandleRoomEnterAuth(conn: Conn, roomId: RoomId, deny: bool, newEpoch: Epoch) returns (res: Outcome)
      requires Valid() && conn in conns && FreshFor(table, newEpoch)
      modifies this`roomMap, this`table, this`rooms, rooms, conn`roomMap, conn`allowed
      ensures Valid()
      ensures res.Denied? <==> conn.connApproved && !conn.connDenied && deny
      ensures res.OverLimit? <==>
        && conn.connApproved && !conn.connDenied && !deny
        && !old(conn.isStopRoomEnter) && |old(conn.roomMap)| >= roomEnterMaxPerConn
      ensures res.Entered? <==>
        && conn.connApproved && !conn.connDenied && !deny
        && !old(conn.isStopRoomEnter) && |old(conn.roomMap)| < roomEnterMaxPerConn
      ensures res.Entered? ==>
        && roomId in conn.allowed && table == Enter(old(table), roomId, conn, newEpoch)
        && var room := table[roomId]; res == Entered(room.epoch, room.changeSeq, room.cv)
      ensures !res.Entered? ==> table == old(table)
    {
      if conn.connDenied {
        return Ignored;
      }
      if !conn.connApproved {
        return Ignored;
      }
      if deny {
        return Denied;
      }
      Allow(conn, roomId);
      res := DoRoomEnter(conn, roomId, newEpoch);
    }
  }
}
