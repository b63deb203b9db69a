/**
 * The room notification protocol as a state machine: one client, the connection it currently uses, the server's room
 * table, and everybody else as the environment. A value is chosen under the table lock but sent after it is released,
 * so sends wait in a multiset and reach the connection in any order; the connection itself is a FIFO that may break.
 */
module RoomProtocol {
  import opened Bytes
  import opened Rooms

  /** What a client compares: the room's epoch, and the change sequence number within it. */
  datatype Stamp = Stamp(epoch: Epoch, changeSeq: int)

  datatype Value = Value(room: RoomId, stamp: Stamp, cv: seq<byte>)

  /** roomEnter or roomLeave. */
  datatype Cmd = Cmd(room: RoomId, enter: bool)

  /** Off: no connection. Waiting: dialled, no verdict acted on yet. Started: the client's enter/leave loop runs. */
  datatype Phase = Off | Waiting | Started

  /** `closing`: a push found the write buffer full, or the client asked for a room too many, and the server is about
      to close the connection. `broken`: the write buffer takes nothing more. `stopped`: the close section has run.
      `refused`: rooms whose last processed roomEnter did not let the connection in, and which have not notified it
      since. */
  datatype Link = Link(
    id: int, phase: Phase, approved: bool, closing: bool, broken: bool, stopped: bool, pending: multiset<Value>,
    down: seq<Value>, up: seq<Cmd>, staged: seq<Cmd>, refused: set<RoomId>)
  {
    /** Commands decided by the client and not yet acted on by the server. */
    function Out(): seq<Cmd> { up + staged }

    /** Working: values chosen for the connection will reach the client. */
    predicate Live() { phase == Started && !closing && !broken }
  }

  datatype ClientRoom = ClientRoom(stamp: Stamp, cv: seq<byte>)

  const BLANK := ClientRoom(Stamp(0, 0), [])

  datatype Entry = Entry(room: RoomId, cv: seq<byte>)

  /** `log` remembers what every stamp ever stood for; `lastEpoch` makes epochs fresh. */
  datatype State = State(
    table: Table<int>, lastEpoch: int, log: map<Stamp, Entry>,
    link: Link, rooms: map<RoomId, ClientRoom>, reqSet: set<RoomId>)

  // ---------------------------------------------------------------- the steps

  /** What happens around the connection: changes, other connections, the clock, the process. */
  datatype World =
    | FireChange(r: RoomId, cv: seq<byte>, now: int)
    | CleanUp(now: int)
    | Restart
    | OtherEnters(c: int, r: RoomId)
    | OtherLeaves(c: int, r: RoomId, now: int)
    | OtherCloses(c: int, now: int)

  /** The server's side of the connection. */
  datatype Server =
    | Approve
    | Process(allow: bool, now: int)
    | Push(v: Value)
    | PushFails(v: Value)   // the write buffer is full
    | Break
    | Forget(now: int)

  /** The client. */
  datatype Client =
    | Join(r: RoomId)
    | Quit(r: RoomId)
    | Dial(id: int)
    | Start(order: seq<RoomId>)
    | Stage(order: seq<RoomId>)
    | Send
    | Deliver
    | Drop

  datatype Step = ByWorld(w: World) | ByServer(x: Server) | ByClient(c: Client)

  function StampOf(room: Room<int>): Stamp { Stamp(room.epoch, room.changeSeq) }

  function ValueOf(r: RoomId, room: Room<int>): Value { Value(r, StampOf(room), room.cv) }

  function Offline(id: int): Link {
    Link(id, Off, false, false, false, false, multiset{}, [], [], [], {})
  }

  function Init(): State {
    State(map[], 0, map[], Offline(0), map[], {})
  }

  /** onRoomValue: another epoch is accepted unconditionally, the same one only with a larger sequence number. */
  predicate Accepts(room: ClientRoom, v: Value) {
    v.stamp.epoch != room.stamp.epoch || v.stamp.changeSeq > room.stamp.changeSeq
  }

  function OnRoomValue(room: ClientRoom, v: Value): ClientRoom {
    if Accepts(room, v) then ClientRoom(v.stamp, v.cv) else room
  }

  /** What is accepted, and told to the listeners, is exactly what changes the room's stamp. */
  lemma AcceptedIff(room: ClientRoom, v: Value)
    ensures Accepts(room, v) <==> OnRoomValue(room, v).stamp != room.stamp
  {
  }

  /** A value chosen under the lock, to be pushed later; a broken connection takes none. */
  function Choose(l: Link, v: Value): Link {
    if l.phase == Off || l.broken then l
    else l.(pending := l.pending + multiset{v}, refused := l.refused - {v.room})
  }

  /** The table has moved to t, in which room r carries a value to be remembered. */
  function Record(s: State, r: RoomId, t: Table<int>): State
    requires r in t
  {
    s.(table := t, lastEpoch := if r in s.table then s.lastEpoch else s.lastEpoch + 1,
       log := s.log[StampOf(t[r]) := Entry(r, t[r].cv)])
  }

  function FireStep(s: State, r: RoomId, cv: seq<byte>, now: int): State {
    var t := Fire(s.table, r, cv, now, s.lastEpoch + 1);
    Record(s, r, t).(link := if s.link.id in t[r].members then Choose(s.link, ValueOf(r, t[r])) else s.link)
  }

  /** Not let into room r, by the room check or because it is a room too many. */
  function Refuse(l: Link, r: RoomId, tooMany: bool): Link {
    l.(closing := l.closing || tooMany, refused := l.refused + {r})
  }

  function EnterStep(s: State, r: RoomId, allow: bool, limit: nat): State {
    if s.link.stopped then s
    else if !allow then s.(link := Refuse(s.link, r, false))
    else if |Joined(s.table, s.link.id)| >= limit then s.(link := Refuse(s.link, r, true))
    else
      var t := Enter(s.table, r, s.link.id, s.lastEpoch + 1);
      Record(s, r, t).(link := Choose(s.link, ValueOf(r, t[r])))
  }

  /** The server acts on the oldest command. */
  function ProcessStep(s: State, allow: bool, now: int, limit: nat): State {
    if s.link.up == [] then s
    else
      var cmd := s.link.up[0];
      var s2 := s.(link := s.link.(up := s.link.up[1..]));
      if cmd.enter then EnterStep(s2, cmd.room, allow, limit)
      else s2.(table := Leave(s.table, cmd.room, s.link.id, now))
  }

  /** Another connection's commands and closing; also the old connection's, once the client has dropped it. */
  predicate Other(s: State, c: int) { s.link.phase == Off || c != s.link.id }

  predicate Enumerates(order: seq<RoomId>, rs: set<RoomId>) {
    |order| == |rs| && (forall r :: r in order ==> r in rs) && (forall r :: r in rs ==> r in order)
  }

  function Commands(order: seq<RoomId>, rooms: map<RoomId, ClientRoom>): seq<Cmd> {
    if order == [] then [] else [Cmd(order[0], order[0] in rooms)] + Commands(order[1..], rooms)
  }

  function DeliverStep(s: State): State {
    if s.link.phase == Off || s.link.down == [] then s
    else
      var v := s.link.down[0];
      s.(link := s.link.(down := s.link.down[1..]),
         rooms := if v.room in s.rooms then s.rooms[v.room := OnRoomValue(s.rooms[v.room], v)] else s.rooms)
  }

  function RestartStep(s: State): State {
    s.(table := map[],
       link := if s.link.phase == Off then s.link else s.link.(broken := true, stopped := true, pending := multiset{}))
  }

  function WorldStep(s: State, w: World): State {
    match w
    case FireChange(r, cv, now) => FireStep(s, r, cv, now)
    case CleanUp(now) => s.(table := Clean(s.table, now))
    case Restart => RestartStep(s)
    case OtherEnters(c, r) => if Other(s, c) then Record(s, r, Enter(s.table, r, c, s.lastEpoch + 1)) else s
    case OtherLeaves(c, r, now) => if Other(s, c) then s.(table := Leave(s.table, r, c, now)) else s
    case OtherCloses(c, now) => if Other(s, c) then s.(table := Close(s.table, c, now)) else s
  }

  function PushStep(s: State, v: Value): State {
    if v in s.link.pending then
      s.(link := s.link.(pending := s.link.pending - multiset{v}, down := s.link.down + [v]))
    else s
  }

  function PushFailsStep(s: State, v: Value): State {
    if v in s.link.pending then s.(link := s.link.(pending := s.link.pending - multiset{v}, closing := true)) else s
  }

  function ForgetStep(s: State, now: int): State {
    if s.link.phase != Off && s.link.broken then
      s.(table := Close(s.table, s.link.id, now), link := s.link.(stopped := true))
    else s
  }

  function ServerStep(s: State, x: Server, limit: nat): State {
    match x
    case Approve => if s.link.phase == Waiting then s.(link := s.link.(approved := true)) else s
    case Process(allow, now) => ProcessStep(s, allow, now, limit)
    case Push(v) => PushStep(s, v)
    case PushFails(v) => PushFailsStep(s, v)
    case Break =>
      if s.link.phase == Off then s else s.(link := s.link.(broken := true, pending := multiset{}))
    case Forget(now) => ForgetStep(s, now)
  }

  function StartStep(s: State, order: seq<RoomId>): State {
    if s.link.phase == Waiting && s.link.approved && Enumerates(order, s.rooms.Keys) then
      s.(link := s.link.(phase := Started, staged := Commands(order, s.rooms)), reqSet := {})
    else s
  }

  function StageStep(s: State, order: seq<RoomId>): State {
    if s.link.phase == Started && s.link.staged == [] && Enumerates(order, s.reqSet) then
      s.(link := s.link.(staged := Commands(order, s.rooms)), reqSet := {})
    else s
  }

  function SendStep(s: State): State {
    if s.link.staged == [] then s
    else s.(link := s.link.(up := s.link.up + [s.link.staged[0]], staged := s.link.staged[1..]))
  }

  function ClientStep(s: State, c: Client): State {
    match c
    case Join(r) => if r in s.rooms then s else s.(rooms := s.rooms[r := BLANK], reqSet := s.reqSet + {r})
    case Quit(r) => if r in s.rooms then s.(rooms := s.rooms - {r}, reqSet := s.reqSet + {r}) else s
    case Dial(id) =>
      if s.link.phase == Off && s.rooms != map[] && Joined(s.table, id) == {} then
        s.(link := Offline(id).(phase := Waiting))
      else s
    case Start(order) => StartStep(s, order)
    case Stage(order) => StageStep(s, order)
    case Send => SendStep(s)
    case Deliver => DeliverStep(s)
    case Drop => if s.link.phase == Off then s else s.(link := Offline(s.link.id))
  }

  /** What one step does; a step that is not enabled does nothing. */
  function Next(s: State, step: Step, limit: nat): State {
    match step
    case ByWorld(w) => WorldStep(s, w)
    case ByServer(x) => ServerStep(s, x, limit)
    case ByClient(c) => ClientStep(s, c)
  }

  function Exec(s: State, steps: seq<Step>, limit: nat): State
    decreases |steps|
  {
    if steps == [] then s else Exec(Next(s, steps[0], limit), steps[1..], limit)
  }

  // ---------------------------------------------------------------- who is notified

  /** If v was chosen for the connection on the way from s to s2, it was chosen once, and it is the current value of a
      room the connection is a member of. */
  predicate ChosenOnce(s: State, s2: State, v: Value) {
    s2.link.pending[v] > s.link.pending[v] ==>
      && s2.link.pending[v] == s.link.pending[v] + 1
      && v.room in s2.table && s2.link.id in s2.table[v.room].members && v == ValueOf(v.room, s2.table[v.room])
  }

  /** A value is chosen only in a change of its room, or when the connection enters it. */
  predicate ChoosesFor(s: State, step: Step, r: RoomId) {
    || (step.ByWorld? && step.w.FireChange? && step.w.r == r)
    || (step.ByServer? && step.x.Process? && s.link.up != [] && s.link.up[0] == Cmd(r, true))
  }

  lemma FireChooses(s: State, r: RoomId, cv: seq<byte>, now: int, v: Value)
    ensures ChosenOnce(s, FireStep(s, r, cv, now), v)
    ensures FireStep(s, r, cv, now).link.pending[v] > s.link.pending[v] ==> v.room == r
  {
  }

  lemma EnterChooses(s: State, r: RoomId, allow: bool, limit: nat, v: Value)
    ensures ChosenOnce(s, EnterStep(s, r, allow, limit), v)
    ensures EnterStep(s, r, allow, limit).link.pending[v] > s.link.pending[v] ==> v.room == r
  {
    hide Joined;
  }

  lemma WorldChooses(s: State, w: World, v: Value)
    ensures ChosenOnce(s, WorldStep(s, w), v)
    ensures WorldStep(s, w).link.pending[v] > s.link.pending[v] ==> ChoosesFor(s, ByWorld(w), v.room)
  {
    hide Clean;
    hide Enter;
    hide Leave;
    hide Close;
    if w.FireChange? {
      FireChooses(s, w.r, w.cv, w.now, v);
      hide FireStep;
    }
  }

  lemma ServerChooses(s: State, x: Server, limit: nat, v: Value)
    ensures ChosenOnce(s, ServerStep(s, x, limit), v)
    ensures ServerStep(s, x, limit).link.pending[v] > s.link.pending[v] ==> ChoosesFor(s, ByServer(x), v.room)
  {
    hide Leave;
    hide Close;
    if x.Process? && s.link.up != [] {
      var s1 := s.(link := s.link.(up := s.link.up[1..]));
      EnterChooses(s1, s.link.up[0].room, x.allow, limit, v);
    }
    hide EnterStep;
  }

  lemma ClientChooses(s: State, c: Client, v: Value)
    ensures ClientStep(s, c).link.pending[v] <= s.link.pending[v]
  {
    hide Joined;
    hide Enumerates;
    hide Commands;
  }

  lemma ChosenAsMember(s: State, step: Step, limit: nat, v: Value)
    ensures var s2 := Next(s, step, limit);
      ChosenOnce(s, s2, v) && (s2.link.pending[v] > s.link.pending[v] ==> ChoosesFor(s, step, v.room))
  {
    match step
    case ByWorld(w) => WorldChooses(s, w, v); hide ChosenOnce;
    case ByServer(x) => ServerChooses(s, x, limit, v); hide ChosenOnce;
    case ByClient(c) => ClientChooses(s, c, v);
  }

  // ---------------------------------------------------------------- history

  type Log = map<Stamp, Entry>

  predicate Logged(log: Log, r: RoomId, stamp: Stamp, cv: seq<byte>) {
    stamp in log && log[stamp] == Entry(r, cv)
  }

  predicate TableLogged(t: Table<int>, log: Log) {
    forall r :: r in t ==> Logged(log, r, StampOf(t[r]), t[r].cv)
  }

  /** Log keys carry past epochs. */
  predicate LogKeys(lastEpoch: int, log: Log) {
    lastEpoch >= 0 && forall k :: k in log ==> 0 < k.epoch <= lastEpoch
  }

  /** The entries of a living room's epoch belong to that room and are not ahead of it. */
  predicate NotAhead(t: Table<int>, log: Log) {
    forall k, r :: k in log && r in t && t[r].epoch == k.epoch ==> k.changeSeq <= t[r].changeSeq && log[k].room == r
  }

  predicate TableHistory(t: Table<int>, lastEpoch: int, log: Log) {
    TableLogged(t, log) && LogKeys(lastEpoch, log) && NotAhead(t, log)
  }

  predicate InFlight(l: Link, log: Log) {
    && (forall v :: v in l.pending ==> Logged(log, v.room, v.stamp, v.cv))
    && (forall v :: v in l.down ==> Logged(log, v.room, v.stamp, v.cv))
  }

  predicate ClientHistory(rooms: map<RoomId, ClientRoom>, log: Log) {
    forall r :: r in rooms ==> rooms[r] == BLANK || Logged(log, r, rooms[r].stamp, rooms[r].cv)
  }

  /** Everything anywhere was once the value of its room. */
  predicate History(s: State) {
    TableHistory(s.table, s.lastEpoch, s.log) && InFlight(s.link, s.log) && ClientHistory(s.rooms, s.log)
  }

  /** Nothing is forgotten and nothing remembered changes: a stamp has one room and one custom version. */
  predicate LogExtends(log: Log, log2: Log) {
    forall k :: k in log ==> k in log2 && log2[k] == log[k]
  }

  /** t2 is t with some rooms gone and members moved. */
  predicate SameValues(t: Table<int>, t2: Table<int>) {
    forall r :: r in t2 ==> r in t && StampOf(t2[r]) == StampOf(t[r]) && t2[r].cv == t[r].cv
  }

  lemma LessTable(t: Table<int>, t2: Table<int>, lastEpoch: int, log: Log)
    requires TableHistory(t, lastEpoch, log) && SameValues(t, t2)
    ensures TableHistory(t2, lastEpoch, log)
  {
    forall k, r | k in log && r in t2 && t2[r].epoch == k.epoch
      ensures k.changeSeq <= t2[r].changeSeq && log[k].room == r
    {
      assert StampOf(t2[r]) == StampOf(t[r]) && t[r].epoch == k.epoch;
    }
  }

  lemma LogGrows(s: State, log2: Log)
    requires InFlight(s.link, s.log) && ClientHistory(s.rooms, s.log) && LogExtends(s.log, log2)
    ensures InFlight(s.link, log2) && ClientHistory(s.rooms, log2)
  {
  }

  /** The room r of t is the one of t0 at the next sequence number, or at the same one, or a new one. */
  predicate Advances(t0: Table<int>, r: RoomId, t: Table<int>, lastEpoch: int) {
    && r in t && t.Keys == t0.Keys + {r}
    && (forall q :: q in t0 && q != r ==> t[q] == t0[q])
    && (if r in t0 then
          t[r].epoch == t0[r].epoch
          && (t[r].changeSeq == t0[r].changeSeq + 1 || (StampOf(t[r]) == StampOf(t0[r]) && t[r].cv == t0[r].cv))
        else t[r].epoch == lastEpoch + 1)
  }

  lemma RecordKeepsTableLogged(s: State, r: RoomId, t: Table<int>)
    requires TableHistory(s.table, s.lastEpoch, s.log) && Advances(s.table, r, t, s.lastEpoch)
    ensures var s2 := Record(s, r, t); LogExtends(s.log, s2.log) && TableLogged(t, s2.log)
  {
  }

  lemma RecordKeepsHistory(s: State, r: RoomId, t: Table<int>)
    requires History(s) && Advances(s.table, r, t, s.lastEpoch)
    ensures var s2 := Record(s, r, t);
      History(s2) && LogExtends(s.log, s2.log) && Logged(s2.log, r, StampOf(t[r]), t[r].cv)
  {
    var s2 := Record(s, r, t);
    RecordKeepsTableLogged(s, r, t);
    LogGrows(s, s2.log);
    forall k, q | k in s2.log && q in t && t[q].epoch == k.epoch
      ensures k.changeSeq <= t[q].changeSeq && s2.log[k].room == q
    {
      if q in s.table && k in s.log {
        assert s.table[q].epoch == k.epoch;
      }
    }
  }

  lemma FireAdvances(t: Table<int>, r: RoomId, cv: seq<byte>, now: int, lastEpoch: int)
    ensures Advances(t, r, Fire(t, r, cv, now, lastEpoch + 1), lastEpoch)
  {
  }

  lemma EnterAdvances(t: Table<int>, r: RoomId, c: int, lastEpoch: int)
    ensures Advances(t, r, Enter(t, r, c, lastEpoch + 1), lastEpoch)
  {
  }

  lemma ChooseInFlight(l: Link, v: Value, log: Log)
    requires InFlight(l, log) && Logged(log, v.room, v.stamp, v.cv)
    ensures InFlight(Choose(l, v), log)
  {
  }

  /** Recording a value and choosing it for the connection. */
  lemma ChosenKeepsHistory(s: State, r: RoomId, t: Table<int>, chosen: bool)
    requires History(s) && Advances(s.table, r, t, s.lastEpoch)
    ensures Kept(s, Record(s, r, t).(link := if chosen then Choose(s.link, ValueOf(r, t[r])) else s.link))
  {
    RecordKeepsHistory(s, r, t);
    if chosen {
      ChooseInFlight(s.link, ValueOf(r, t[r]), Record(s, r, t).log);
    }
  }

  lemma RefusalKeepsHistory(s: State, r: RoomId, tooMany: bool)
    requires History(s)
    ensures Kept(s, s.(link := Refuse(s.link, r, tooMany)))
  {
  }

  lemma AdmissionKeepsHistory(s: State, r: RoomId)
    requires History(s)
    ensures var t := Enter(s.table, r, s.link.id, s.lastEpoch + 1);
      Kept(s, Record(s, r, t).(link := Choose(s.link, ValueOf(r, t[r]))))
  {
    EnterAdvances(s.table, r, s.link.id, s.lastEpoch);
    ChosenKeepsHistory(s, r, Enter(s.table, r, s.link.id, s.lastEpoch + 1), true);
  }

  lemma EnterKeepsHistory(s: State, r: RoomId, allow: bool, limit: nat)
    requires History(s)
    ensures Kept(s, EnterStep(s, r, allow, limit))
  {
    hide Record;
    hide Choose;
    hide Refuse;
    hide Enter;
    hide Joined;
    hide TableHistory;
    hide ClientHistory;
    hide InFlight;
    if s.link.stopped {
    } else if !allow {
      RefusalKeepsHistory(s, r, false);
    } else if |Joined(s.table, s.link.id)| >= limit {
      RefusalKeepsHistory(s, r, true);
    } else {
      AdmissionKeepsHistory(s, r);
    }
  }

  lemma FireKeepsHistory(s: State, r: RoomId, cv: seq<byte>, now: int)
    requires History(s)
    ensures Kept(s, FireStep(s, r, cv, now))
  {
    var t := Fire(s.table, r, cv, now, s.lastEpoch + 1);
    FireAdvances(s.table, r, cv, now, s.lastEpoch);
    var chosen := s.link.id in t[r].members;
    ChosenKeepsHistory(s, r, t, chosen);
    hide Kept;
    hide History;
    hide Record;
    hide Choose;
    assert FireStep(s, r, cv, now)
        == Record(s, r, t).(link := if chosen then Choose(s.link, ValueOf(r, t[r])) else s.link);
  }

  /** Everything anywhere was once a value, and nothing recorded is lost. */
  predicate Kept(s: State, s2: State) {
    History(s2) && LogExtends(s.log, s2.log)
  }

  lemma MoveKeepsHistory(s: State, t: Table<int>)
    requires History(s) && SameValues(s.table, t)
    ensures Kept(s, s.(table := t))
  {
    LessTable(s.table, t, s.lastEpoch, s.log);
  }

  lemma ProcessKeepsHistory(s: State, allow: bool, now: int, limit: nat)
    requires History(s)
    ensures Kept(s, ProcessStep(s, allow, now, limit))
  {
    if s.link.up != [] {
      var cmd := s.link.up[0];
      var s1 := s.(link := s.link.(up := s.link.up[1..]));
      if cmd.enter {
        EnterKeepsHistory(s1, cmd.room, allow, limit);
      } else {
        MoveKeepsHistory(s1, Leave(s.table, cmd.room, s.link.id, now));
      }
    }
  }

  lemma DeliverKeepsHistory(s: State)
    requires History(s)
    ensures History(DeliverStep(s))
  {
    if s.link.down != [] {
      assert forall v :: v in s.link.down[1..] ==> v in s.link.down;
    }
  }

  lemma PushKeepsHistory(s: State, v: Value)
    requires InFlight(s.link, s.log)
    ensures InFlight(PushStep(s, v).link, s.log)
  {
  }

  lemma PushFailsKeepsHistory(s: State, v: Value)
    requires History(s)
    ensures Kept(s, PushFailsStep(s, v))
  {
  }

  lemma RestartKeepsHistory(s: State)
    requires History(s)
    ensures Kept(s, RestartStep(s))
  {
    LessTable(s.table, map[], s.lastEpoch, s.log);
  }

  lemma OtherEntersKeepsHistory(s: State, c: int, r: RoomId)
    requires History(s)
    ensures Kept(s, Record(s, r, Enter(s.table, r, c, s.lastEpoch + 1)))
  {
    EnterAdvances(s.table, r, c, s.lastEpoch);
    RecordKeepsHistory(s, r, Enter(s.table, r, c, s.lastEpoch + 1));
  }

  lemma LeavingKeepsHistory(s: State, w: World)
    requires History(s) && (w.CleanUp? || w.OtherLeaves? || w.OtherCloses?)
    ensures Kept(s, WorldStep(s, w))
  {
    var t := match w
      case CleanUp(now) => Clean(s.table, now)
      case OtherLeaves(c, r, now) => Leave(s.table, r, c, now)
      case OtherCloses(c, now) => Close(s.table, c, now)
      case _ => s.table;
    MoveKeepsHistory(s, t);
  }

  lemma EnteringKeepsHistory(s: State, w: World)
    requires History(s) && w.OtherEnters?
    ensures Kept(s, WorldStep(s, w))
  {
    OtherEntersKeepsHistory(s, w.c, w.r);
    assert WorldStep(s, w) == s || WorldStep(s, w) == Record(s, w.r, Enter(s.table, w.r, w.c, s.lastEpoch + 1));
  }

  lemma WorldKeepsHistory(s: State, w: World)
    requires History(s)
    ensures Kept(s, WorldStep(s, w))
  {
    if w.FireChange? {
      FireKeepsHistory(s, w.r, w.cv, w.now);
      assert WorldStep(s, w) == FireStep(s, w.r, w.cv, w.now);
    } else if w.Restart? {
      RestartKeepsHistory(s);
      assert WorldStep(s, w) == RestartStep(s);
    } else if w.OtherEnters? {
      EnteringKeepsHistory(s, w);
    } else {
      LeavingKeepsHistory(s, w);
    }
  }

  lemma ServerKeepsHistory(s: State, x: Server, limit: nat)
    requires History(s)
    ensures Kept(s, ServerStep(s, x, limit))
  {
    match x {
      case Process(allow, now) => ProcessKeepsHistory(s, allow, now, limit);
      case Push(v) => PushKeepsHistory(s, v);
      case PushFails(v) => PushFailsKeepsHistory(s, v);
      case Forget(now) => MoveKeepsHistory(s, Close(s.table, s.link.id, now));
      case _ =>
    }
  }

  lemma ClientKeepsHistory(s: State, c: Client)
    requires History(s)
    ensures Kept(s, ClientStep(s, c))
  {
    if c.Deliver? {
      DeliverKeepsHistory(s);
    }
  }

  lemma StepKeepsHistory(s: State, step: Step, limit: nat)
    requires History(s)
    ensures Kept(s, Next(s, step, limit))
  {
    match step {
      case ByWorld(w) => WorldKeepsHistory(s, w);
      case ByServer(x) => ServerKeepsHistory(s, x, limit);
      case ByClient(c) => ClientKeepsHistory(s, c);
    }
  }

  /**
   * Over any run, with disconnects, room re-creation and server restarts, and however sends and cleaning overtake
   * each other: the client's view of a room is blank or was once that room's value, every stamp has one room and one
   * custom version for ever, and nothing in flight is made up.
   */
  lemma {:induction false} RunsKeepHistory(s: State, steps: seq<Step>, limit: nat)
    requires History(s)
    ensures History(Exec(s, steps, limit)) && LogExtends(s.log, Exec(s, steps, limit).log)
    decreases |steps|
  {
    if steps != [] {
      StepKeepsHistory(s, steps[0], limit);
      RunsKeepHistory(Next(s, steps[0], limit), steps[1..], limit);
    }
  }

  lemma ReachableHistory(steps: seq<Step>, limit: nat, r: RoomId)
    ensures var s := Exec(Init(), steps, limit);
      r in s.rooms ==> s.rooms[r] == BLANK || Logged(s.log, r, s.rooms[r].stamp, s.rooms[r].cv)
  {
    RunsKeepHistory(Init(), steps, limit);
  }

  // ---------------------------------------------------------------- order

  /** Cleaning does not overtake a send for room r: r is not removed while a value of it is still to be pushed. */
  predicate Timely(s: State, step: Step, r: RoomId) {
    step.ByWorld? && step.w.CleanUp? ==>
      forall v :: v in s.link.pending && v.room == r ==> r in Clean(s.table, step.w.now)
  }

  predicate TimelyRun(s: State, steps: seq<Step>, limit: nat, r: RoomId)
    decreases |steps|
  {
    steps == [] || (Timely(s, steps[0], r) && TimelyRun(Next(s, steps[0], limit), steps[1..], limit, r))
  }

  predicate PendingCurrent(pending: multiset<Value>, t: Table<int>, r: RoomId) {
    forall v :: v in pending && v.room == r ==> r in t && v.stamp.epoch == t[r].epoch
  }

  predicate DownNotNewer(down: seq<Value>, t: Table<int>, r: RoomId) {
    r in t ==> forall v :: v in down && v.room == r ==> v.stamp.epoch <= t[r].epoch
  }

  predicate DownSorted(down: seq<Value>, r: RoomId) {
    forall i, j :: 0 <= i < j < |down| && down[i].room == r && down[j].room == r ==>
      down[i].stamp.epoch <= down[j].stamp.epoch
  }

  predicate RoomBehindDown(rooms: map<RoomId, ClientRoom>, down: seq<Value>, r: RoomId) {
    r in rooms ==> forall v :: v in down && v.room == r ==> rooms[r].stamp.epoch <= v.stamp.epoch
  }

  predicate RoomBehindTable(rooms: map<RoomId, ClientRoom>, t: Table<int>, r: RoomId) {
    r in rooms && r in t ==> rooms[r].stamp.epoch <= t[r].epoch
  }

  /** Room r's epochs arrive in the order they were created: the client is behind the FIFO, the FIFO behind the
      table. */
  predicate Ordered(s: State, r: RoomId) {
    && (s.link.phase == Off ==> s.link == Offline(s.link.id))
    && PendingCurrent(s.link.pending, s.table, r)
    && DownNotNewer(s.link.down, s.table, r) && DownSorted(s.link.down, r)
    && RoomBehindDown(s.rooms, s.link.down, r) && RoomBehindTable(s.rooms, s.table, r)
  }

  lemma AdvanceKeepsOrder(s: State, q: RoomId, t: Table<int>, r: RoomId)
    requires History(s) && Ordered(s, r) && Advances(s.table, q, t, s.lastEpoch)
    ensures PendingCurrent(s.link.pending, t, r) && DownNotNewer(s.link.down, t, r) && RoomBehindTable(s.rooms, t, r)
  {
    if r in s.rooms && r in t && r !in s.table {
      assert s.rooms[r] == BLANK || s.rooms[r].stamp in s.log;
    }
  }

  lemma ChosenKeepsOrder(s: State, q: RoomId, t: Table<int>, chosen: bool, r: RoomId)
    requires History(s) && Ordered(s, r) && Advances(s.table, q, t, s.lastEpoch)
    ensures Ordered(Record(s, q, t).(link := if chosen then Choose(s.link, ValueOf(q, t[q])) else s.link), r)
  {
    AdvanceKeepsOrder(s, q, t, r);
  }

  lemma RefusalKeepsOrder(s: State, q: RoomId, tooMany: bool, r: RoomId)
    requires Ordered(s, r) && s.link.phase != Off
    ensures Ordered(s.(link := Refuse(s.link, q, tooMany)), r)
  {
  }

  lemma AdmissionKeepsOrder(s: State, q: RoomId, r: RoomId)
    requires History(s) && Ordered(s, r)
    ensures var t := Enter(s.table, q, s.link.id, s.lastEpoch + 1);
      Ordered(Record(s, q, t).(link := Choose(s.link, ValueOf(q, t[q]))), r)
  {
    EnterAdvances(s.table, q, s.link.id, s.lastEpoch);
    ChosenKeepsOrder(s, q, Enter(s.table, q, s.link.id, s.lastEpoch + 1), true, r);
  }

  lemma EnterKeepsOrder(s: State, q: RoomId, allow: bool, limit: nat, r: RoomId)
    requires History(s) && Ordered(s, r) && s.link.phase != Off
    ensures Ordered(EnterStep(s, q, allow, limit), r)
  {
    hide Ordered;
    hide History;
    hide Record;
    hide Choose;
    hide Refuse;
    hide Enter;
    hide Joined;
    AdmissionKeepsOrder(s, q, r);
    RefusalKeepsOrder(s, q, true, r);
    RefusalKeepsOrder(s, q, false, r);
  }

  lemma FireKeepsOrder(s: State, q: RoomId, cv: seq<byte>, now: int, r: RoomId)
    requires History(s) && Ordered(s, r)
    ensures Ordered(FireStep(s, q, cv, now), r)
  {
    var t := Fire(s.table, q, cv, now, s.lastEpoch + 1);
    FireAdvances(s.table, q, cv, now, s.lastEpoch);
    var chosen := s.link.id in t[q].members;
    ChosenKeepsOrder(s, q, t, chosen, r);
    assert FireStep(s, q, cv, now)
        == Record(s, q, t).(link := if chosen then Choose(s.link, ValueOf(q, t[q])) else s.link);
  }

  lemma MoveKeepsOrder(s: State, t: Table<int>, r: RoomId)
    requires Ordered(s, r) && SameValues(s.table, t) && (forall v :: v in s.link.pending && v.room == r ==> r in t)
    ensures Ordered(s.(table := t), r)
  {
  }

  lemma LeavingKeepsOrder(s: State, w: World, r: RoomId)
    requires Ordered(s, r) && (w.CleanUp? || w.OtherLeaves? || w.OtherCloses?) && Timely(s, ByWorld(w), r)
    ensures Ordered(WorldStep(s, w), r)
  {
    var t := match w
      case CleanUp(now) => Clean(s.table, now)
      case OtherLeaves(c, q, now) => Leave(s.table, q, c, now)
      case OtherCloses(c, now) => Close(s.table, c, now)
      case _ => s.table;
    MoveKeepsOrder(s, t, r);
  }

  lemma OtherEntersKeepsOrder(s: State, c: int, q: RoomId, r: RoomId)
    requires History(s) && Ordered(s, r)
    ensures Ordered(Record(s, q, Enter(s.table, q, c, s.lastEpoch + 1)), r)
  {
    EnterAdvances(s.table, q, c, s.lastEpoch);
    AdvanceKeepsOrder(s, q, Enter(s.table, q, c, s.lastEpoch + 1), r);
  }

  lemma RestartKeepsOrder(s: State, r: RoomId)
    requires Ordered(s, r)
    ensures Ordered(RestartStep(s), r)
  {
  }

  lemma EnteringKeepsOrder(s: State, w: World, r: RoomId)
    requires History(s) && Ordered(s, r) && w.OtherEnters?
    ensures Ordered(WorldStep(s, w), r)
  {
    OtherEntersKeepsOrder(s, w.c, w.r, r);
    assert WorldStep(s, w) == s || WorldStep(s, w) == Record(s, w.r, Enter(s.table, w.r, w.c, s.lastEpoch + 1));
  }

  lemma WorldKeepsOrder(s: State, w: World, r: RoomId)
    requires History(s) && Ordered(s, r) && Timely(s, ByWorld(w), r)
    ensures Ordered(WorldStep(s, w), r)
  {
    if w.FireChange? {
      FireKeepsOrder(s, w.r, w.cv, w.now, r);
      assert WorldStep(s, w) == FireStep(s, w.r, w.cv, w.now);
    } else if w.Restart? {
      RestartKeepsOrder(s, r);
      assert WorldStep(s, w) == RestartStep(s);
    } else if w.OtherEnters? {
      EnteringKeepsOrder(s, w, r);
    } else {
      LeavingKeepsOrder(s, w, r);
    }
  }

  lemma ProcessKeepsOrder(s: State, allow: bool, now: int, limit: nat, r: RoomId)
    requires History(s) && Ordered(s, r)
    ensures Ordered(ProcessStep(s, allow, now, limit), r)
  {
    if s.link.up != [] {
      var cmd := s.link.up[0];
      var s1 := s.(link := s.link.(up := s.link.up[1..]));
      if cmd.enter {
        EnterKeepsOrder(s1, cmd.room, allow, limit, r);
      } else {
        MoveKeepsOrder(s1, Leave(s.table, cmd.room, s.link.id, now), r);
      }
    }
  }

  lemma PushKeepsOrder(s: State, v: Value, r: RoomId)
    requires Ordered(s, r) && v in s.link.pending
    ensures Ordered(PushStep(s, v), r)
  {
    var down := s.link.down + [v];
    forall i, j | 0 <= i < j < |down| && down[i].room == r && down[j].room == r
      ensures down[i].stamp.epoch <= down[j].stamp.epoch
    {
      assert down[i] in s.link.down;
    }
  }

  lemma PushFailsKeepsOrder(s: State, v: Value, r: RoomId)
    requires Ordered(s, r)
    ensures Ordered(PushFailsStep(s, v), r)
  {
  }

  lemma ForgetKeepsOrder(s: State, now: int, r: RoomId)
    requires Ordered(s, r)
    ensures Ordered(ForgetStep(s, now), r)
  {
    MoveKeepsOrder(s, Close(s.table, s.link.id, now), r);
  }

  lemma VerdictKeepsOrder(s: State, x: Server, limit: nat, r: RoomId)
    requires Ordered(s, r) && (x.Approve? || x.Break?)
    ensures Ordered(ServerStep(s, x, limit), r)
  {
  }

  lemma ServerKeepsOrder(s: State, x: Server, limit: nat, r: RoomId)
    requires History(s) && Ordered(s, r)
    ensures Ordered(ServerStep(s, x, limit), r)
  {
    hide Ordered;
    hide History;
    hide ProcessStep;
    hide ForgetStep;
    hide PushFailsStep;
    match x {
      case Process(allow, now) => ProcessKeepsOrder(s, allow, now, limit, r);
      case Push(v) => if v in s.link.pending { PushKeepsOrder(s, v, r); }
      case PushFails(v) => PushFailsKeepsOrder(s, v, r);
      case Forget(now) => ForgetKeepsOrder(s, now, r);
      case _ => VerdictKeepsOrder(s, x, limit, r);
    }
  }

  lemma DeliverKeepsOrder(s: State, r: RoomId)
    requires Ordered(s, r)
    ensures Ordered(DeliverStep(s), r)
  {
    if s.link.phase != Off && s.link.down != [] {
      var v, rest := s.link.down[0], s.link.down[1..];
      forall w | w in rest
        ensures w in s.link.down && (w.room == r == v.room ==> v.stamp.epoch <= w.stamp.epoch)
      {
        var j :| 0 <= j < |rest| && rest[j] == w;
        assert s.link.down[j + 1] == w;
      }
    }
  }

  lemma JoinKeepsOrder(s: State, q: RoomId, r: RoomId)
    requires History(s) && Ordered(s, r) && q !in s.rooms
    ensures Ordered(ClientStep(s, Join(q)), r)
  {
    forall v | v in s.link.down ensures v.stamp.epoch > 0 { assert v.stamp in s.log; }
    if r in s.table {
      assert StampOf(s.table[r]) in s.log;
    }
  }

  lemma ClientKeepsOrder(s: State, c: Client, r: RoomId)
    requires History(s) && Ordered(s, r)
    ensures Ordered(ClientStep(s, c), r)
  {
    match c {
      case Join(q) => if q !in s.rooms { JoinKeepsOrder(s, q, r); }
      case Deliver => DeliverKeepsOrder(s, r);
      case _ =>
    }
  }
}
