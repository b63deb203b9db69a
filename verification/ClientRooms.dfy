/**
 * The client's room objects: what RoomEnter, its leave function and onRoomValue do to them, each of them the step of
 * the room protocol it stands for.
 */
module ClientRooms {
  import opened Bytes
  import opened Rooms
  import opened RoomConvergence
  import opened RoomProtocol
  import SingleUnd

  class Listener {
    /** The room object it was made for. */
    ghost const room: RoomObj
    /** The latest event not yet handed to onChangeFn. */
    var pendingEv: Option<Value>
    /** Every event stored, in order. */
    ghost var stored: seq<Value>

    constructor (ghost room: RoomObj)
      ensures this.room == room && pendingEv == None && stored == []
    {
      this.room, pendingEv, stored := room, None, [];
    }

    /** The store of onChangeAsync; a later event replaces an earlier one not yet handed over. */
    method OnChangeAsync(ev: Value)
      modifies this
      ensures pendingEv == Some(ev) && stored == old(stored) + [ev]
    {
      pendingEv, stored := Some(ev), stored + [ev];
    }
  }

  /** The event the next run of fn loads. */
  function Latest(stored: seq<Value>): Option<Value> {
    if stored == [] then None else Some(stored[|stored| - 1])
  }

  /** The last of the events stored is the room's current value; without any, the room is still blank. */
  predicate Told(stored: seq<Value>, id: RoomId, room: ClientRoom) {
    match Latest(stored)
    case None => room == BLANK
    case Some(ev) => ev == Value(id, room.stamp, room.cv)
  }

  class RoomObj {
    const id: RoomId
    var stamp: Stamp
    var cVersionId: seq<byte>
    var listenerSet: set<Listener>

    constructor (id: RoomId)
      ensures this.id == id && Val() == BLANK && listenerSet == {}
    {
      this.id, stamp, cVersionId, listenerSet := id, Stamp(0, 0), [], {};
    }

    function Val(): ClientRoom
      reads this
    {
      ClientRoom(stamp, cVersionId)
    }

    /** Its listeners, and nobody else's, have been told its current value. */
    ghost predicate AllTold()
      reads this, listenerSet
    {
      forall l :: l in listenerSet ==> l.room == this && l.pendingEv == Latest(l.stored) && Told(l.stored, id, Val())
    }
  }

  /** What RoomEnter comes to: nothing on a client that is closed or was refused for good, the local refusal while the
      connection is denied, or a new listener in a room. */
  datatype EnterResult = Ignored | DeniedLocally | Listening(room: RoomObj, listener: Listener)

  class ClientState {
    var isClosed: bool
    var authDenyFatal: bool
    var connDenyLocal: bool
    var roomMap: map<RoomId, RoomObj>
    var roomIdReqSet: set<RoomId>
    /** The rooms as the protocol sees them. */
    ghost var rooms: map<RoomId, ClientRoom>
    /** Every room object ever made, those of rooms left and entered anew included. */
    ghost var objects: set<RoomObj>
    /** Every listener ever made. */
    ghost var listeners: set<Listener>

    constructor ()
      ensures Valid() && rooms == map[] && roomIdReqSet == {} && !isClosed && !authDenyFatal && !connDenyLocal
    {
      isClosed, authDenyFatal, connDenyLocal := false, false, false;
      roomMap, roomIdReqSet, rooms, objects, listeners := map[], {}, map[], {}, {};
    }

    /** A room object is in the map exactly as long as somebody listens to it. */
    ghost predicate Mapped()
      reads this, objects
    {
      && roomMap.Keys == rooms.Keys
      && (forall id :: id in roomMap ==>
            roomMap[id] in objects && roomMap[id].id == id && roomMap[id].Val() == rooms[id])
      && (forall o :: o in objects ==> (o.listenerSet != {} <==> o.id in roomMap && roomMap[o.id] == o))
    }

    /** No two rooms share a listener, and every listener knows its room's current value. */
    ghost predicate EveryoneTold()
      reads this, objects, listeners
    {
      forall o :: o in objects ==> o.listenerSet <= listeners && o.AllTold()
    }

    ghost predicate Valid()
      reads this, objects, listeners
    {
      Mapped() && EveryoneTold()
    }

    /** The client part of a protocol state. */
    ghost predicate Is(s: State)
      reads this
    {
      rooms == s.rooms && roomIdReqSet == s.reqSet
    }

    static method NewListener(room: RoomObj) returns (listener: Listener)
      ensures fresh(listener) && listener.room == room
      ensures listener.stored == [Value(room.id, room.stamp, room.cVersionId)]
      ensures listener.pendingEv == Latest(listener.stored) && Told(listener.stored, room.id, room.Val())
    {
      listener := new Listener(room);
      listener.OnChangeAsync(Value(room.id, room.stamp, room.cVersionId));
    }

    /** A new listener of a room in the map, told its value at once. */
    method ListenTo(room: RoomObj) returns (listener: Listener)
      requires Valid() && room in objects && room.id in roomMap && roomMap[room.id] == room
      modifies this`listeners, room`listenerSet
      ensures Valid() && listener in room.listenerSet && fresh(listener)
      ensures listener.stored == [Value(room.id, room.stamp, room.cVersionId)]
    {
      hide Told;
      hide Latest;
      listener := NewListener(room);
      room.listenerSet := room.listenerSet + {listener};
      listeners := listeners + {listener};
      forall o | o in objects ensures o.listenerSet <= listeners && o.AllTold() {
        assert old(o.listenerSet <= listeners && o.AllTold());
      }
    }

    static method NewRoom(roomId: RoomId) returns (room: RoomObj, listener: Listener)
      ensures fresh(room) && fresh(listener) && room.id == roomId && room.Val() == BLANK
      ensures room.listenerSet == {listener} && room.AllTold() && listener.stored == []
    {
      room := new RoomObj(roomId);
      listener := new Listener(room);
      room.listenerSet := {listener};
    }

    method Insert(roomId: RoomId, room: RoomObj)
      requires Mapped() && roomId !in roomMap && room !in objects
      requires room.id == roomId && room.Val() == BLANK && room.listenerSet != {}
      modifies this`roomMap, this`roomIdReqSet, this`rooms, this`objects
      ensures Mapped() && roomId in roomMap && roomMap[roomId] == room && objects == old(objects) + {room}
      ensures rooms == old(rooms)[roomId := BLANK] && roomIdReqSet == old(roomIdReqSet) + {roomId}
    {
      roomMap := roomMap[roomId := room];
      roomIdReqSet := roomIdReqSet + {roomId};
      rooms, objects := rooms[roomId := BLANK], objects + {room};
    }

    /** A new room in the map, blank, with one listener that has been told nothing. */
    method OpenRoom(roomId: RoomId) returns (room: RoomObj, listener: Listener)
      requires Valid() && roomId !in roomMap
      modifies this`roomMap, this`roomIdReqSet, this`rooms, this`objects, this`listeners
      ensures Valid() && roomId in roomMap && roomMap[roomId] == room && listener in room.listenerSet
      ensures fresh(listener) && listener.stored == []
      ensures rooms == old(rooms)[roomId := BLANK] && roomIdReqSet == old(roomIdReqSet) + {roomId}
    {
      hide RoomObj.AllTold;
      room, listener := NewRoom(roomId);
      Insert(roomId, room);
      listeners := listeners + {listener};
      hide Mapped;
      forall o | o in objects ensures o.listenerSet <= listeners && o.AllTold() {
        assert o != room ==> old(o.listenerSet <= listeners && o.AllTold());
      }
    }

    /** The locked section of RoomEnter. */
    method AddListener(roomId: RoomId, ghost s: State) returns (room: RoomObj, listener: Listener)
      requires Valid() && Is(s)
      modifies this`roomMap, this`roomIdReqSet, this`rooms, this`objects, this`listeners, objects
      ensures Valid() && Is(ClientStep(s, Join(roomId)))
      ensures roomId in roomMap && room == roomMap[roomId] && listener in room.listenerSet && fresh(listener)
      ensures listener.stored
           == if roomId in s.rooms then [Value(roomId, s.rooms[roomId].stamp, s.rooms[roomId].cv)] else []
    {
      assert Mapped();
      hide EveryoneTold;
      if roomId in roomMap {
        room := roomMap[roomId];
        listener := ListenTo(room);
      } else {
        room, listener := OpenRoom(roomId);
      }
    }

    /** RoomEnter: past its early returns, the protocol's Join when the room is new to the client; otherwise no step. */
    method RoomEnter(roomId: RoomId, ghost s: State) returns (r: EnterResult)
      requires Valid() && Is(s)
      modifies this`roomMap, this`roomIdReqSet, this`rooms, this`objects, this`listeners, objects
      ensures Valid() && Is(if r.Listening? then ClientStep(s, Join(roomId)) else s)
      ensures r.Ignored? <==> isClosed || authDenyFatal
      ensures r.DeniedLocally? <==> !isClosed && !authDenyFatal && connDenyLocal
      ensures !r.Listening? ==> roomMap == old(roomMap)
      ensures r.Listening? ==>
        && roomId in roomMap && r.room == roomMap[roomId] && r.listener in r.room.listenerSet && fresh(r.listener)
        && r.listener.stored
           == if roomId in s.rooms then [Value(roomId, s.rooms[roomId].stamp, s.rooms[roomId].cv)] else []
    {
      if isClosed || authDenyFatal {
        return Ignored;
      }
      if connDenyLocal {
        return DeniedLocally;
      }
      var room, listener := AddListener(roomId, s);
      return Listening(room, listener);
    }

    /** The last listener of a room in the map takes the room with it. */
    ghost predicate IsLast(room: RoomObj, listener: Listener)
      reads this, room
    {
      room.listenerSet - {listener} == {} && room.id in roomMap && roomMap[room.id] == room
    }

    method TakeOut(room: RoomObj, listener: Listener) returns (last: bool)
      requires Mapped() && room in objects
      modifies this`roomMap, this`roomIdReqSet, this`rooms, room`listenerSet
      ensures Mapped() && room.listenerSet == old(room.listenerSet) - {listener} && last == old(IsLast(room, listener))
      ensures roomMap == if last then old(roomMap) - {room.id} else old(roomMap)
      ensures rooms == if last then old(rooms) - {room.id} else old(rooms)
      ensures roomIdReqSet == if last then old(roomIdReqSet) + {room.id} else old(roomIdReqSet)
    {
      room.listenerSet := room.listenerSet - {listener};
      last := room.listenerSet == {} && room.id in roomMap && roomMap[room.id] == room;
      if last {
        roomMap := roomMap - {room.id};
        rooms := rooms - {room.id};
        roomIdReqSet := roomIdReqSet + {room.id};
      }
    }

    method Unlisten(room: RoomObj, listener: Listener) returns (last: bool)
      requires Valid() && room in objects
      modifies this`roomMap, this`roomIdReqSet, this`rooms, room`listenerSet
      ensures Valid() && room.listenerSet == old(room.listenerSet) - {listener} && last == old(IsLast(room, listener))
      ensures rooms == if last then old(rooms) - {room.id} else old(rooms)
      ensures roomIdReqSet == if last then old(roomIdReqSet) + {room.id} else old(roomIdReqSet)
    {
      hide Told;
      hide Latest;
      last := TakeOut(room, listener);
      hide Mapped;
      hide IsLast;
      forall o | o in objects ensures o.listenerSet <= listeners && o.AllTold() {
        assert old(o.listenerSet <= listeners && o.AllTold());
      }
    }

    /**
     * The leave function RoomEnter returned: the protocol's Quit when the last listener of the room in the map
     * leaves, and no step otherwise. Calling it again, or after the room was left and entered anew, does nothing.
     */
    method Leave(room: RoomObj, listener: Listener, ghost s: State)
      requires Valid() && Is(s) && room in objects
      modifies this, room
      ensures Valid() && room.listenerSet == old(room.listenerSet) - {listener}
      ensures Is(if old(room.listenerSet) != {} && room.listenerSet == {} then ClientStep(s, Quit(room.id)) else s)
    {
      assert room.listenerSet != {} <==> room.id in roomMap && roomMap[room.id] == room;
      assert roomMap.Keys == rooms.Keys;
      hide Valid;
      var last := Unlisten(room, listener);
    }

    /** onRoomValue's change of the room; false for a message to be ignored. */
    method Update(room: RoomObj, v: Value) returns (accepted: bool)
      requires Mapped() && room.id == v.room && v.room in roomMap && roomMap[v.room] == room
      modifies this`rooms, room`stamp, room`cVersionId
      ensures Mapped() && accepted == Accepts(old(rooms)[v.room], v)
      ensures rooms == old(rooms)[v.room := RoomProtocol.OnRoomValue(old(rooms)[v.room], v)]
    {
      if v.stamp.epoch != room.stamp.epoch {
        room.stamp := v.stamp;
        room.cVersionId := v.cv;
      } else if v.stamp.changeSeq > room.stamp.changeSeq {
        room.stamp := v.stamp;
        room.cVersionId := v.cv;
      } else {
        assert rooms[v.room] == room.Val();
        return false;
      }
      rooms := rooms[v.room := room.Val()];
      return true;
    }

    static method Notify(toTell: set<Listener>, v: Value)
      modifies toTell
      ensures forall l :: l in toTell ==> l.stored == old(l.stored) + [v] && l.pendingEv == Some(v)
    {
      var todo := toTell;
      while todo != {}
        invariant todo <= toTell
        invariant forall l :: l in todo ==> l.stored == old(l.stored)
        invariant forall l :: l in toTell && l !in todo ==> l.stored == old(l.stored) + [v] && l.pendingEv == Some(v)
        decreases |todo|
      {
        var l :| l in todo;
        l.OnChangeAsync(v);
        todo := todo - {l};
      }
    }

    /** Every listener of the room is told of its new value, and no other. */
    method Tell(room: RoomObj, v: Value)
      requires room in objects && room.id == v.room && room.Val() == ClientRoom(v.stamp, v.cv)
      requires forall o :: o in objects ==> o.listenerSet <= listeners && (o == room || o.AllTold())
      requires forall l :: l in room.listenerSet ==> l.room == room
      modifies room.listenerSet
      ensures EveryoneTold()
      ensures forall l :: l in room.listenerSet ==> l.stored == old(l.stored) + [v]
    {
      Notify(room.listenerSet, v);
      forall o | o in objects ensures o.AllTold() {
        assert o != room ==> old(o.AllTold());
      }
    }

    /** The room is updated, and its listeners not yet told. */
    method UpdateUntold(room: RoomObj, v: Value) returns (accepted: bool)
      requires Valid() && room in objects && room.id == v.room && v.room in roomMap && roomMap[v.room] == room
      modifies this`rooms, room`stamp, room`cVersionId
      ensures Mapped() && accepted == Accepts(old(rooms)[v.room], v)
      ensures rooms == old(rooms)[v.room := RoomProtocol.OnRoomValue(old(rooms)[v.room], v)]
      ensures accepted ==> room.Val() == ClientRoom(v.stamp, v.cv)
      ensures forall o :: o in objects ==> o.listenerSet <= listeners && ((accepted && o == room) || o.AllTold())
      ensures forall l :: l in room.listenerSet ==> l.room == room
    {
      assert rooms[v.room] == room.Val() && room.AllTold();
      accepted := Update(room, v);
      assert rooms[v.room] == room.Val();
      hide Mapped;
      forall o | o in objects && o != room ensures o.AllTold() {
        assert old(o.AllTold());
      }
    }

    /** What onRoomValue does to a room in the map. */
    method Receive(room: RoomObj, v: Value) returns (notified: bool)
      requires Valid() && room in objects && room.id == v.room && v.room in roomMap && roomMap[v.room] == room
      modifies this`rooms, room`stamp, room`cVersionId, room.listenerSet
      ensures Valid() && notified == Accepts(old(rooms)[v.room], v)
      ensures rooms == old(rooms)[v.room := RoomProtocol.OnRoomValue(old(rooms)[v.room], v)]
      ensures forall l :: l in room.listenerSet ==> l.stored == if notified then old(l.stored) + [v] else old(l.stored)
    {
      hide Mapped;
      hide RoomObj.AllTold;
      notified := UpdateUntold(room, v);
      if notified {
        Tell(room, v);
      }
    }

    /** Its locked section for a room in the map. */
    method Hear(room: RoomObj, v: Value, ghost s: State) returns (notified: bool)
      requires Valid() && Is(s) && s.link.phase != Off && s.link.down != [] && s.link.down[0] == v
      requires room in objects && room.id == v.room && v.room in roomMap && roomMap[v.room] == room
      requires v.room in s.rooms
      modifies this`rooms, room`stamp, room`cVersionId, room.listenerSet
      ensures Valid() && Is(DeliverStep(s)) && notified == Accepts(s.rooms[v.room], v)
      ensures forall l :: l in room.listenerSet ==> l.stored == if notified then old(l.stored) + [v] else old(l.stored)
    {
      hide Valid;
      hide RoomProtocol.OnRoomValue;
      notified := Receive(room, v);
    }

    /** onRoomValue: what delivering v does in the protocol. */
    method OnRoomValue(v: Value, ghost s: State) returns (notified: bool)
      requires Valid() && Is(s) && s.link.phase != Off && s.link.down != [] && s.link.down[0] == v
      modifies this`rooms
      modifies if v.room in roomMap then {roomMap[v.room]} else {}
      modifies if v.room in roomMap then roomMap[v.room].listenerSet else {}
      ensures Valid() && Is(DeliverStep(s))
      ensures notified <==> v.room in s.rooms && Accepts(s.rooms[v.room], v)
      ensures v.room in s.rooms ==> forall l :: l in old(roomMap[v.room].listenerSet) ==>
        l.stored == if notified then old(l.stored) + [v] else old(l.stored)
    {
      hide EveryoneTold;
      hide RoomObj.Val;
      assert roomMap.Keys == rooms.Keys;
      assert v.room in roomMap ==> roomMap[v.room].id == v.room && roomMap[v.room] in objects;
      hide Mapped;
      hide Valid;
      if v.room in roomMap {
        hide DeliverStep;
        notified := Hear(roomMap[v.room], v, s);
      } else {
        notified := false;
      }
    }

    /** The intent loop's locked section: commands for every room asked about, saying what the client wants now. */
    method TakeRequests(ghost s: State) returns (sendMsgList: seq<Cmd>, ghost order: seq<RoomId>)
      requires Valid() && Is(s)
      modifies this`roomIdReqSet
      ensures Valid() && Enumerates(order, s.reqSet) && sendMsgList == Commands(order, s.rooms) && roomIdReqSet == {}
      ensures s.link.phase == Started && s.link.staged == [] ==>
        Is(StageStep(s, order)) && StageStep(s, order).link.staged == sendMsgList
    {
      sendMsgList, order := CommandsFor(roomIdReqSet);
      roomIdReqSet := {};
    }

    method CommandsFor(requests: set<RoomId>) returns (sendMsgList: seq<Cmd>, ghost order: seq<RoomId>)
      requires roomMap.Keys == rooms.Keys
      ensures Enumerates(order, requests) && sendMsgList == Commands(order, rooms)
    {
      sendMsgList, order := [], [];
      var todo := requests;
      while todo != {}
        invariant todo <= requests && Enumerates(order, requests - todo) && sendMsgList == Commands(order, rooms)
        decreases |todo|
      {
        var roomId :| roomId in todo;
        CommandsSnoc(order, roomId, rooms);
        sendMsgList := sendMsgList + [Cmd(roomId, roomId in roomMap)];
        EnumeratesSnoc(order, requests, todo, roomId);
        todo, order := todo - {roomId}, order + [roomId];
      }
      assert requests - {} == requests;
    }
  }

  lemma {:induction false} CommandsSnoc(order: seq<RoomId>, r: RoomId, rooms: map<RoomId, ClientRoom>)
    ensures Commands(order + [r], rooms) == Commands(order, rooms) + [Cmd(r, r in rooms)]
  {
    if order == [] {
      assert [r][1..] == [];
    } else {
      CommandsSnoc(order[1..], r, rooms);
      assert (order + [r])[1..] == order[1..] + [r];
    }
  }

  lemma EnumeratesSnoc(order: seq<RoomId>, rs: set<RoomId>, todo: set<RoomId>, r: RoomId)
    requires todo <= rs && r in todo && Enumerates(order, rs - todo)
    ensures Enumerates(order + [r], rs - (todo - {r}))
  {
    assert rs - (todo - {r}) == (rs - todo) + {r};
  }

  // ---------------------------------------------------------------- what listeners have been handed

  /**
   * The whole way from the server's table to onChangeFn. When the connection is quiet and every call of Do has
   * returned, then after at most six turns of a listener's background thread the last event it has been handed is the
   * server's current value of its room, unless the server has refused the room. `und` is the listener's SingleUnd,
   * which numbers the events stored.
   */
  lemma ListenerHasCurrent(c: ClientState, s: State, r: RoomId, l: Listener, und: SingleUnd.State)
      returns (turns: seq<SingleUnd.Step>)
    requires c.Valid() && c.Is(s) && r in c.roomMap && l in c.roomMap[r].listenerSet
    requires Inv(s, r) && Quiet(s) && r !in s.link.refused
    requires SingleUnd.Inv(und) && und.owed == 0 && und.stored == |l.stored|
    ensures |turns| <= 6 && forall i :: 0 <= i < |turns| ==> !turns[i].Store? && !turns[i].Do?
    ensures var handed := SingleUnd.Exec(und, turns).handed;
      && Member(s.table, s.link.id, r) && handed != [] && 0 <= handed[|handed| - 1] < |l.stored|
      && l.stored[handed[|handed| - 1]] == ValueOf(r, s.table[r])
  {
    QuietMeansAgreed(s, r);
    assert StampOf(s.table[r]) in s.log;
    assert c.roomMap[r].AllTold();
    turns := SingleUnd.LastEventIsHandedOver(und);
  }
}
