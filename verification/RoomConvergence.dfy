/**
 * What the room protocol is for: the client's intent reaches the server, the server's values reach the client, and
 * when the connection is quiet both sides agree.
 */
module RoomConvergence {
  import opened Bytes
  import opened Rooms
  import opened RoomProtocol

  // ---------------------------------------------------------------- intent

  /** Whether the last command about r is an enter; None if there is no command about r. */
  function LastCmd(cmds: seq<Cmd>, r: RoomId): Option<bool> {
    if cmds == [] then None
    else
      var last := cmds[|cmds| - 1];
      if last.room == r then Some(last.enter) else LastCmd(cmds[..|cmds| - 1], r)
  }

  lemma {:induction false} LastAppend(a: seq<Cmd>, b: seq<Cmd>, r: RoomId)
    ensures LastCmd(a + b, r) == if LastCmd(b, r).Some? then LastCmd(b, r) else LastCmd(a, r)
    decreases |b|
  {
    if b == [] {
      assert a + b == a;
    } else {
      LastAppend(a, b[..|b| - 1], r);
      assert (a + b)[..|a + b| - 1] == a + b[..|b| - 1];
    }
  }

  lemma LastOne(cmd: Cmd, r: RoomId)
    ensures LastCmd([cmd], r) == if cmd.room == r then Some(cmd.enter) else None
  {
    assert [cmd][..0] == [];
  }

  lemma LastTail(cmds: seq<Cmd>, r: RoomId)
    requires cmds != []
    ensures LastCmd(cmds, r) == if LastCmd(cmds[1..], r).Some? then LastCmd(cmds[1..], r)
                                else if cmds[0].room == r then Some(cmds[0].enter) else None
  {
    assert cmds == [cmds[0]] + cmds[1..];
    LastAppend([cmds[0]], cmds[1..], r);
    LastOne(cmds[0], r);
  }

  /** The commands staged for a list of rooms say what the client wants of each. */
  lemma {:induction false} LastStaged(order: seq<RoomId>, rooms: map<RoomId, ClientRoom>, r: RoomId)
    ensures LastCmd(Commands(order, rooms), r) == if r in order then Some(r in rooms) else None
    ensures Cmd(r, true) in Commands(order, rooms) <==> r in order && r in rooms
  {
    if order != [] {
      var cmds := Commands(order, rooms);
      LastStaged(order[1..], rooms, r);
      assert cmds[1..] == Commands(order[1..], rooms);
      LastTail(cmds, r);
    }
  }

  predicate Member(t: Table<int>, id: int, r: RoomId) { r in t && id in t[r].members }

  /** The room is waiting to be asked for, or the last command about it says what the client wants, or there is no
      command outstanding and the server has it that way; refusals are the one way to differ. */
  predicate Intent(l: Link, t: Table<int>, rooms: map<RoomId, ClientRoom>, reqSet: set<RoomId>, r: RoomId) {
    l.phase == Started && r !in reqSet ==>
      match LastCmd(l.Out(), r)
      case Some(enter) => enter == (r in rooms)
      case None =>
        !l.stopped ==> (Member(t, l.id, r) ==> r in rooms) && (r in rooms ==> Member(t, l.id, r) || r in l.refused)
  }

  /** A connection that has not started is in no room; one that is off or stopped has been broken. */
  predicate Beginnings(l: Link, t: Table<int>) {
    && (l.stopped ==> l.broken)
    && (l.phase == Waiting ==>
          l.up == [] && l.staged == [] && l.down == [] && l.pending == multiset{} && l.refused == {})
    && (l.phase == Waiting ==> forall r :: r in t ==> l.id !in t[r].members)
  }

  predicate Intended(s: State, r: RoomId) { Intent(s.link, s.table, s.rooms, s.reqSet, r) }

  lemma FireKeepsBeginnings(s: State, r: RoomId, cv: seq<byte>, now: int)
    requires Beginnings(s.link, s.table)
    ensures var s2 := FireStep(s, r, cv, now); Beginnings(s2.link, s2.table)
  {
  }

  lemma WorldKeepsBeginnings(s: State, w: World)
    requires Beginnings(s.link, s.table)
    ensures var s2 := WorldStep(s, w); Beginnings(s2.link, s2.table)
  {
    if w.FireChange? {
      FireKeepsBeginnings(s, w.r, w.cv, w.now);
    }
  }

  lemma EnterKeepsBeginnings(s: State, q: RoomId, allow: bool, limit: nat)
    requires Beginnings(s.link, s.table) && s.link.phase != Waiting
    ensures var s2 := EnterStep(s, q, allow, limit); Beginnings(s2.link, s2.table)
  {
    hide Joined;
    hide Enter;
  }

  lemma ServerKeepsBeginnings(s: State, x: Server, limit: nat)
    requires Beginnings(s.link, s.table)
    ensures var s2 := ServerStep(s, x, limit); Beginnings(s2.link, s2.table)
  {
    if x.Process? && s.link.up != [] {
      hide EnterStep;
      EnterKeepsBeginnings(s.(link := s.link.(up := s.link.up[1..])), s.link.up[0].room, x.allow, limit);
    }
  }

  lemma ClientKeepsBeginnings(s: State, c: Client)
    requires Beginnings(s.link, s.table)
    ensures var s2 := ClientStep(s, c); Beginnings(s2.link, s2.table)
  {
    if c.Dial? && Joined(s.table, c.id) == {} {
      forall q | q in s.table ensures c.id !in s.table[q].members {
        assert q !in Joined(s.table, c.id);
      }
    }
  }

  lemma FireKeepsIntent(s: State, q: RoomId, cv: seq<byte>, now: int, r: RoomId)
    requires Intended(s, r)
    ensures Intended(FireStep(s, q, cv, now), r)
  {
  }

  lemma WorldKeepsIntent(s: State, w: World, r: RoomId)
    requires Beginnings(s.link, s.table) && Intended(s, r)
    ensures Intended(WorldStep(s, w), r)
  {
    if w.FireChange? {
      FireKeepsIntent(s, w.r, w.cv, w.now, r);
    }
  }

  /** Intent once the command cmd has been taken off the queue and before it is acted on. */
  predicate IntentBut(s: State, cmd: Cmd, r: RoomId) {
    if cmd.room == r && LastCmd(s.link.Out(), r).None? then
      s.link.phase == Started && r !in s.reqSet ==> cmd.enter == (r in s.rooms)
    else Intended(s, r)
  }

  lemma TakingKeepsIntent(s: State, r: RoomId)
    requires Intended(s, r) && s.link.up != []
    ensures IntentBut(s.(link := s.link.(up := s.link.up[1..])), s.link.up[0], r)
  {
    var out := s.link.Out();
    LastTail(out, r);
    assert out[1..] == s.link.up[1..] + s.link.staged;
  }

  lemma RefusalKeepsIntent(s: State, q: RoomId, tooMany: bool, r: RoomId)
    requires IntentBut(s, Cmd(q, true), r)
    ensures Intended(s.(link := Refuse(s.link, q, tooMany)), r)
  {
  }

  lemma AdmissionKeepsIntent(s: State, q: RoomId, r: RoomId)
    requires IntentBut(s, Cmd(q, true), r)
    ensures var t := Enter(s.table, q, s.link.id, s.lastEpoch + 1);
      Intended(Record(s, q, t).(link := Choose(s.link, ValueOf(q, t[q]))), r)
  {
  }

  lemma EnterKeepsIntent(s: State, q: RoomId, allow: bool, limit: nat, r: RoomId)
    requires IntentBut(s, Cmd(q, true), r)
    ensures Intended(EnterStep(s, q, allow, limit), r)
  {
    if !s.link.stopped {
      hide Intended;
      hide IntentBut;
      hide Refuse;
      hide Joined;
      AdmissionKeepsIntent(s, q, r);
      RefusalKeepsIntent(s, q, true, r);
      RefusalKeepsIntent(s, q, false, r);
    }
  }

  lemma LeaveKeepsIntent(s: State, q: RoomId, now: int, r: RoomId)
    requires IntentBut(s, Cmd(q, false), r)
    ensures Intended(s.(table := Leave(s.table, q, s.link.id, now)), r)
  {
  }

  lemma ProcessKeepsIntent(s: State, allow: bool, now: int, limit: nat, r: RoomId)
    requires Intended(s, r)
    ensures Intended(ProcessStep(s, allow, now, limit), r)
  {
    if s.link.up != [] {
      var cmd, s1 := s.link.up[0], s.(link := s.link.(up := s.link.up[1..]));
      TakingKeepsIntent(s, r);
      if cmd.enter {
        EnterKeepsIntent(s1, cmd.room, allow, limit, r);
      } else {
        LeaveKeepsIntent(s1, cmd.room, now, r);
      }
    }
  }

  lemma ServerKeepsIntent(s: State, x: Server, limit: nat, r: RoomId)
    requires Beginnings(s.link, s.table) && Intended(s, r)
    ensures Intended(ServerStep(s, x, limit), r)
  {
    match x {
      case Process(allow, now) => ProcessKeepsIntent(s, allow, now, limit, r);
      case _ =>
    }
  }

  lemma StartKeepsIntent(s: State, order: seq<RoomId>, r: RoomId)
    requires Beginnings(s.link, s.table) && Intended(s, r)
    ensures Intended(StartStep(s, order), r)
  {
    LastStaged(order, s.rooms, r);
    LastAppend([], Commands(order, s.rooms), r);
  }

  lemma StageKeepsIntent(s: State, order: seq<RoomId>, r: RoomId)
    requires Intended(s, r)
    ensures Intended(StageStep(s, order), r)
  {
    LastStaged(order, s.rooms, r);
    LastAppend(s.link.up, Commands(order, s.rooms), r);
    assert s.link.up + [] == s.link.up;
  }

  lemma SendKeepsOut(l: Link)
    requires l.staged != []
    ensures (l.up + [l.staged[0]]) + l.staged[1..] == l.up + l.staged
  {
  }

  lemma ClientKeepsIntent(s: State, c: Client, r: RoomId)
    requires Beginnings(s.link, s.table) && Intended(s, r)
    ensures Intended(ClientStep(s, c), r)
  {
    match c {
      case Start(order) => StartKeepsIntent(s, order, r);
      case Stage(order) => StageKeepsIntent(s, order, r);
      case Send => if s.link.staged != [] { SendKeepsOut(s.link); }
      case _ =>
    }
  }

  // ---------------------------------------------------------------- coverage

  /** The value the server holds for r has reached the client or is on its way to it. */
  predicate Reaching(l: Link, t: Table<int>, rooms: map<RoomId, ClientRoom>, r: RoomId)
    requires r in t && r in rooms
  {
    var v := ValueOf(r, t[r]);
    rooms[r] == ClientRoom(v.stamp, v.cv) || v in l.pending || v in l.down
  }

  /** A member's room the client has, with nothing outstanding and no refusal, is being brought up to date. */
  predicate Covered(s: State, r: RoomId) {
    s.link.Live() && Member(s.table, s.link.id, r) && r in s.rooms && r !in s.reqSet && r !in s.link.refused
      && Cmd(r, true) !in s.link.Out()
    ==> Reaching(s.link, s.table, s.rooms, r)
  }

  lemma WorldKeepsCover(s: State, w: World, r: RoomId)
    requires Covered(s, r)
    ensures Covered(WorldStep(s, w), r)
  {
  }

  lemma EnterKeepsCover(s: State, q: RoomId, allow: bool, limit: nat, r: RoomId)
    requires (q == r || Covered(s, r)) && (s.link.stopped ==> s.link.broken)
    ensures Covered(EnterStep(s, q, allow, limit), r)
  {
  }

  lemma LeaveKeepsCover(s: State, q: RoomId, now: int, r: RoomId)
    requires q == r || Covered(s, r)
    ensures Covered(s.(table := Leave(s.table, q, s.link.id, now)), r)
  {
  }

  lemma ProcessKeepsCover(s: State, allow: bool, now: int, limit: nat, r: RoomId)
    requires Covered(s, r) && (s.link.stopped ==> s.link.broken)
    ensures Covered(ProcessStep(s, allow, now, limit), r)
  {
    if s.link.up != [] {
      var cmd, s1 := s.link.up[0], s.(link := s.link.(up := s.link.up[1..]));
      assert s.link.Out() == [cmd] + s1.link.Out();
      if cmd.enter {
        EnterKeepsCover(s1, cmd.room, allow, limit, r);
      } else {
        LeaveKeepsCover(s1, cmd.room, now, r);
      }
    }
  }

  lemma PushKeepsCover(s: State, v: Value, r: RoomId)
    requires Covered(s, r)
    ensures Covered(PushStep(s, v), r)
  {
  }

  lemma ServerKeepsCover(s: State, x: Server, limit: nat, r: RoomId)
    requires Covered(s, r) && (s.link.stopped ==> s.link.broken)
    ensures Covered(ServerStep(s, x, limit), r)
  {
    match x {
      case Process(allow, now) => ProcessKeepsCover(s, allow, now, limit, r);
      case Push(v) => PushKeepsCover(s, v, r);
      case _ =>
    }
  }

  /** What onRoomValue makes of the next message leaves a room that is up to date so, and brings it there. */
  lemma DeliveryReaches(s: State, r: RoomId)
    requires History(s) && Ordered(s, r) && s.link.phase != Off && s.link.down != []
    requires r in s.table && r in s.rooms && Reaching(s.link, s.table, s.rooms, r)
    ensures var s2 := DeliverStep(s); Reaching(s2.link, s2.table, s2.rooms, r)
  {
    hide PendingCurrent;
    hide DownSorted;
    var v, cur := s.link.down[0], ValueOf(r, s.table[r]);
    assert v in s.link.down;
    assert s.link.down == [v] + s.link.down[1..];
    if v.room == r {
      var room := s.rooms[r];
      assert cur.stamp in s.log && v.stamp in s.log;
      if room == ClientRoom(cur.stamp, cur.cv) {
        assert v.stamp.epoch == cur.stamp.epoch;
      } else if v == cur && room.stamp.epoch == cur.stamp.epoch {
        assert room.stamp in s.log;
      }
    }
  }

  lemma DeliverKeepsCover(s: State, r: RoomId)
    requires History(s) && Ordered(s, r) && Covered(s, r)
    ensures Covered(DeliverStep(s), r)
  {
    if s.link.Live() && s.link.down != [] && Member(s.table, s.link.id, r) && r in s.rooms
       && Reaching(s.link, s.table, s.rooms, r) {
      DeliveryReaches(s, r);
    }
  }

  lemma StagingKeepsCover(s: State, order: seq<RoomId>, r: RoomId)
    requires Covered(s, r) && (s.link.phase == Waiting ==> s.link.up == [])
    ensures Covered(StartStep(s, order), r) && Covered(StageStep(s, order), r)
  {
    LastStaged(order, s.rooms, r);
  }

  lemma ClientKeepsCover(s: State, c: Client, r: RoomId)
    requires History(s) && Ordered(s, r) && Beginnings(s.link, s.table) && Covered(s, r)
    ensures Covered(ClientStep(s, c), r)
  {
    match c {
      case Start(order) => StagingKeepsCover(s, order, r);
      case Stage(order) => StagingKeepsCover(s, order, r);
      case Send => if s.link.staged != [] { SendKeepsOut(s.link); }
      case Deliver => DeliverKeepsCover(s, r);
      case _ =>
    }
  }

  // ---------------------------------------------------------------- every run

  /** What every run keeps about room r, as long as cleaning does not overtake a send for it. */
  predicate Inv(s: State, r: RoomId) {
    History(s) && Ordered(s, r) && Beginnings(s.link, s.table) && Intended(s, r) && Covered(s, r)
  }

  lemma StepKeepsRoom(s: State, step: Step, limit: nat, r: RoomId)
    requires Inv(s, r)
    ensures Intended(Next(s, step, limit), r) && Covered(Next(s, step, limit), r)
  {
    match step {
      case ByWorld(w) => WorldKeepsIntent(s, w, r); WorldKeepsCover(s, w, r);
      case ByServer(x) => ServerKeepsIntent(s, x, limit, r); ServerKeepsCover(s, x, limit, r);
      case ByClient(c) => ClientKeepsIntent(s, c, r); ClientKeepsCover(s, c, r);
    }
  }

  lemma StepKeepsRest(s: State, step: Step, limit: nat, r: RoomId)
    requires History(s) && Ordered(s, r) && Beginnings(s.link, s.table) && Timely(s, step, r)
    ensures var s2 := Next(s, step, limit); Ordered(s2, r) && Beginnings(s2.link, s2.table)
  {
    match step {
      case ByWorld(w) => WorldKeepsOrder(s, w, r); WorldKeepsBeginnings(s, w);
      case ByServer(x) => ServerKeepsOrder(s, x, limit, r); ServerKeepsBeginnings(s, x, limit);
      case ByClient(c) => ClientKeepsOrder(s, c, r); ClientKeepsBeginnings(s, c);
    }
  }

  lemma StepKeepsInv(s: State, step: Step, limit: nat, r: RoomId)
    requires Inv(s, r) && Timely(s, step, r)
    ensures Inv(Next(s, step, limit), r)
  {
    StepKeepsHistory(s, step, limit);
    StepKeepsRest(s, step, limit, r);
    StepKeepsRoom(s, step, limit, r);
  }

  lemma {:induction false} RunsKeepInv(s: State, steps: seq<Step>, limit: nat, r: RoomId)
    requires Inv(s, r) && TimelyRun(s, steps, limit, r)
    ensures Inv(Exec(s, steps, limit), r)
    decreases |steps|
  {
    if steps != [] {
      StepKeepsInv(s, steps[0], limit, r);
      RunsKeepInv(Next(s, steps[0], limit), steps[1..], limit, r);
    }
  }

  /**
   * Convergence. However sends reorder, connections break and rooms come and go, and whatever is cleaned away but r
   * itself while a value of it is still to be pushed: a member's room the client has, with nothing about it
   * outstanding or refused, no value of it chosen but unsent and none in the FIFO, holds exactly the server's epoch,
   * sequence number and custom version.
   */
  lemma Converges(steps: seq<Step>, limit: nat, r: RoomId)
    requires TimelyRun(Init(), steps, limit, r)
    ensures var s := Exec(Init(), steps, limit);
      s.link.Live() && Member(s.table, s.link.id, r) && r in s.rooms && r !in s.reqSet && r !in s.link.refused
        && Cmd(r, true) !in s.link.Out()
        && (forall v :: v in s.link.pending || v in s.link.down ==> v.room != r)
      ==> s.rooms[r] == ClientRoom(StampOf(s.table[r]), s.table[r].cv)
  {
    RunsKeepInv(Init(), steps, limit, r);
  }

  /** Nothing left to do on either side of a working connection. */
  predicate Quiet(s: State) {
    s.link.Live() && s.reqSet == {} && s.link.Out() == [] && s.link.pending == multiset{} && s.link.down == []
  }

  predicate Agreed(s: State, r: RoomId) {
    && (Member(s.table, s.link.id, r) <==> r in s.rooms)
    && (r in s.rooms ==> s.rooms[r] == ClientRoom(StampOf(s.table[r]), s.table[r].cv))
  }

  /** When it is quiet, the client is in exactly the rooms it wants, and up to date in each, but for refusals. */
  lemma QuietMeansAgreed(s: State, r: RoomId)
    requires Inv(s, r) && Quiet(s) && r !in s.link.refused
    ensures Agreed(s, r)
  {
  }

  /** A room the client has just created is never forgotten: it stays blank only while it is being asked for, or its
      value is under way, or the server has refused it. */
  lemma BlankRoomsAreWaiting(s: State, r: RoomId)
    requires Inv(s, r) && s.link.Live() && r in s.rooms && s.rooms[r] == BLANK
    ensures r in s.reqSet || r in s.link.refused || LastCmd(s.link.Out(), r) == Some(true)
         || (r in s.table && (ValueOf(r, s.table[r]) in s.link.pending || ValueOf(r, s.table[r]) in s.link.down))
  {
    if LastCmd(s.link.Out(), r).None? {
      NoEnterOutstanding(s.link.Out(), r);
      if r in s.table {
        assert StampOf(s.table[r]) in s.log;
      }
    }
  }

  lemma {:induction false} NoEnterOutstanding(cmds: seq<Cmd>, r: RoomId)
    requires LastCmd(cmds, r).None?
    ensures Cmd(r, true) !in cmds
    decreases |cmds|
  {
    if cmds != [] {
      NoEnterOutstanding(cmds[..|cmds| - 1], r);
    }
  }

  // ---------------------------------------------------------------- refused rooms

  /** Whatever it is, a room the client has is blank or holds a recorded value that is not ahead of the server's. */
  lemma NotAheadOfServer(steps: seq<Step>, limit: nat, r: RoomId)
    requires TimelyRun(Init(), steps, limit, r)
    ensures var s := Exec(Init(), steps, limit);
      r in s.rooms && r in s.table ==>
        || s.rooms[r] == BLANK
        || (Logged(s.log, r, s.rooms[r].stamp, s.rooms[r].cv) && !Before(StampOf(s.table[r]), s.rooms[r].stamp))
  {
    RunsKeepInv(Init(), steps, limit, r);
  }

  /** The step changes room r's value, acts on a command about it, or makes the client forget it. */
  predicate Touches(s: State, step: Step, r: RoomId) {
    match step
    case ByWorld(w) => w.FireChange? && w.r == r
    case ByServer(x) => x.Process? && s.link.up != [] && s.link.up[0].room == r
    case ByClient(c) => c.Quit? && c.r == r
  }

  /** Room r of a working connection: a member's, and one the client has. */
  predicate Shared(s: State, r: RoomId) { s.link.Live() && Member(s.table, s.link.id, r) && r in s.rooms }

  /** r is shared as before: the same value in the table, in the client and in the FIFO, the same values unsent. */
  ghost predicate SameRoom(s: State, s2: State, r: RoomId)
    requires Shared(s, r)
  {
    && Shared(s2, r) && ValueOf(r, s2.table[r]) == ValueOf(r, s.table[r]) && s2.rooms[r] == s.rooms[r]
    && s2.link.down == s.link.down
    && forall v: Value :: v.room == r ==> (v in s2.link.pending <==> v in s.link.pending)
  }

  lemma WorldKeepsShared(s: State, w: World, r: RoomId)
    requires Shared(s, r) && !Touches(s, ByWorld(w), r) && WorldStep(s, w).link.Live()
    ensures SameRoom(s, WorldStep(s, w), r)
  {
  }

  lemma EnterKeepsShared(s: State, q: RoomId, allow: bool, limit: nat, r: RoomId)
    requires Shared(s, r) && q != r && EnterStep(s, q, allow, limit).link.Live()
    ensures SameRoom(s, EnterStep(s, q, allow, limit), r)
  {
    hide Joined;
  }

  lemma LeaveKeepsShared(s: State, q: RoomId, now: int, r: RoomId)
    requires Shared(s, r) && q != r
    ensures SameRoom(s, s.(table := Leave(s.table, q, s.link.id, now)), r)
  {
  }

  lemma ProcessKeepsShared(s: State, allow: bool, now: int, limit: nat, r: RoomId)
    requires Shared(s, r) && !Touches(s, ByServer(Process(allow, now)), r)
    requires ProcessStep(s, allow, now, limit).link.Live()
    ensures SameRoom(s, ProcessStep(s, allow, now, limit), r)
  {
    if s.link.up != [] {
      var cmd, s1 := s.link.up[0], s.(link := s.link.(up := s.link.up[1..]));
      hide EnterStep;
      hide Leave;
      if cmd.enter {
        EnterKeepsShared(s1, cmd.room, allow, limit, r);
      } else {
        LeaveKeepsShared(s1, cmd.room, now, r);
      }
    }
  }

  predicate Pushes(step: Step) { step.ByServer? && step.x.Push? }

  lemma ServerKeepsShared(s: State, x: Server, limit: nat, r: RoomId)
    requires Shared(s, r) && !Touches(s, ByServer(x), r) && !x.Push? && ServerStep(s, x, limit).link.Live()
    ensures SameRoom(s, ServerStep(s, x, limit), r)
  {
    if x.Process? {
      ProcessKeepsShared(s, x.allow, x.now, limit, r);
    }
  }

  lemma ClientKeepsShared(s: State, c: Client, r: RoomId)
    requires Shared(s, r) && !Touches(s, ByClient(c), r) && !c.Deliver? && ClientStep(s, c).link.Live()
    ensures SameRoom(s, ClientStep(s, c), r)
  {
  }

  /** Apart from pushes and deliveries, only a step that touches r changes anything about it. */
  lemma StepKeepsShared(s: State, step: Step, limit: nat, r: RoomId)
    requires Shared(s, r) && !Touches(s, step, r) && Next(s, step, limit).link.Live()
    requires !Pushes(step) && step != ByClient(Deliver)
    ensures SameRoom(s, Next(s, step, limit), r)
  {
    match step {
      case ByWorld(w) => WorldKeepsShared(s, w, r);
      case ByServer(x) => ServerKeepsShared(s, x, limit, r);
      case ByClient(c) => ClientKeepsShared(s, c, r);
    }
  }

  /** Nothing but a step that touches r decides whether the server's value is held or under way. */
  predicate SameReach(s: State, s2: State, r: RoomId)
    requires Shared(s, r)
  {
    Shared(s2, r) && (Reaching(s2.link, s2.table, s2.rooms, r) <==> Reaching(s.link, s.table, s.rooms, r))
  }

  lemma DeliverKeepsReach(s: State, r: RoomId)
    requires History(s) && Ordered(s, r) && Shared(s, r)
    ensures SameReach(s, DeliverStep(s), r)
  {
    if s.link.down != [] {
      assert s.link.down == [s.link.down[0]] + s.link.down[1..];
      if Reaching(s.link, s.table, s.rooms, r) {
        DeliveryReaches(s, r);
      }
    }
  }

  lemma PushKeepsReach(s: State, v: Value, r: RoomId)
    requires Shared(s, r)
    ensures SameReach(s, PushStep(s, v), r)
  {
  }

  lemma StepKeepsReach(s: State, step: Step, limit: nat, r: RoomId)
    requires History(s) && Ordered(s, r) && Shared(s, r) && !Touches(s, step, r) && Next(s, step, limit).link.Live()
    ensures SameReach(s, Next(s, step, limit), r)
  {
    if Pushes(step) {
      PushKeepsReach(s, step.x.v, r);
    } else if step == ByClient(Deliver) {
      DeliverKeepsReach(s, r);
    } else {
      StepKeepsShared(s, step, limit, r);
    }
  }

  /** The connection works throughout, and no step touches r. */
  predicate UntouchedRun(s: State, steps: seq<Step>, limit: nat, r: RoomId)
    decreases |steps|
  {
    s.link.Live()
    && (steps == [] || (!Touches(s, steps[0], r) && UntouchedRun(Next(s, steps[0], limit), steps[1..], limit, r)))
  }

  /** A room with a member is not cleaned away. */
  lemma SharedIsTimely(s: State, step: Step, r: RoomId)
    requires Shared(s, r)
    ensures Timely(s, step, r)
  {
  }

  /**
   * Refused or not, a member's room that is left alone until the connection is quiet agrees with the server's in the
   * end if and only if the server's value was held or under way to begin with: for a refusal, when it was given.
   */
  lemma {:induction false} ReachDecides(s: State, steps: seq<Step>, limit: nat, r: RoomId)
    requires Inv(s, r) && UntouchedRun(s, steps, limit, r) && Shared(s, r)
    ensures SameReach(s, Exec(s, steps, limit), r)
    ensures Quiet(Exec(s, steps, limit)) ==>
      (Agreed(Exec(s, steps, limit), r) <==> Reaching(s.link, s.table, s.rooms, r))
    decreases |steps|
  {
    if steps != [] {
      var s1 := Next(s, steps[0], limit);
      StepKeepsReach(s, steps[0], limit, r);
      SharedIsTimely(s, steps[0], r);
      StepKeepsInv(s, steps[0], limit, r);
      ReachDecides(s1, steps[1..], limit, r);
    }
  }

  // ---------------------------------------------------------------- monotone

  /** Epochs in order of creation, then change sequence numbers. */
  predicate Before(a: Stamp, b: Stamp) {
    a.epoch < b.epoch || (a.epoch == b.epoch && a.changeSeq < b.changeSeq)
  }

  lemma DeliveredIsNewer(s: State, r: RoomId)
    requires Inv(s, r) && r in s.rooms
    ensures var s2 := DeliverStep(s);
      r in s2.rooms && (s2.rooms[r] == s.rooms[r] || Before(s.rooms[r].stamp, s2.rooms[r].stamp))
  {
    if s.link.down != [] {
      assert s.link.down[0] in s.link.down;
    }
  }

  lemma OnlyDeliveryUpdates(s: State, step: Step, limit: nat, r: RoomId)
    requires r in s.rooms && step != ByClient(Quit(r)) && step != ByClient(Deliver)
    ensures r in Next(s, step, limit).rooms && Next(s, step, limit).rooms[r] == s.rooms[r]
  {
  }

  /** An accepted value is always newer: no room ever goes back, not even to an epoch it has left. */
  lemma AcceptedIsNewer(s: State, step: Step, limit: nat, r: RoomId)
    requires Inv(s, r) && r in s.rooms && step != ByClient(Quit(r))
    ensures var s2 := Next(s, step, limit);
      r in s2.rooms && (s2.rooms[r] == s.rooms[r] || Before(s.rooms[r].stamp, s2.rooms[r].stamp))
  {
    if step == ByClient(Deliver) {
      DeliveredIsNewer(s, r);
    } else {
      OnlyDeliveryUpdates(s, step, limit, r);
    }
  }

  /** Over a run in which the client does not leave the room, its stamp only moves forward. */
  lemma {:induction false} RunsAreMonotone(s: State, steps: seq<Step>, limit: nat, r: RoomId)
    requires Inv(s, r) && TimelyRun(s, steps, limit, r) && r in s.rooms
    requires ByClient(Quit(r)) !in steps
    ensures var s2 := Exec(s, steps, limit);
      r in s2.rooms && (s2.rooms[r] == s.rooms[r] || Before(s.rooms[r].stamp, s2.rooms[r].stamp))
    decreases |steps|
  {
    if steps != [] {
      assert steps[0] in steps;
      var s1 := Next(s, steps[0], limit);
      AcceptedIsNewer(s, steps[0], limit, r);
      StepKeepsInv(s, steps[0], limit, r);
      RunsAreMonotone(s1, steps[1..], limit, r);
    }
  }

  // ---------------------------------------------------------------- quieting down

  /** What is left to do for the connection's own machinery. */
  function Work(s: State): nat {
    5 * |s.reqSet| + 4 * |s.link.staged| + 3 * |s.link.up| + 2 * |s.link.pending| + |s.link.down|
  }

  /** The steps that move messages along; they need no decision of a user and no change of a room. */
  predicate Moves(step: Step) {
    || (step.ByServer? && (step.x.Process? || step.x.Push?))
    || (step.ByClient? && (step.c.Stage? || step.c.Send? || step.c.Deliver?))
  }

  lemma {:induction false} CommandsSize(order: seq<RoomId>, rooms: map<RoomId, ClientRoom>)
    ensures |Commands(order, rooms)| == |order|
  {
    if order != [] {
      CommandsSize(order[1..], rooms);
    }
  }

  /** The step lets the connection into a room too many. */
  predicate TooMany(s: State, step: Step, limit: nat) {
    && step.ByServer? && step.x.Process? && step.x.allow && s.link.up != [] && s.link.up[0].enter
    && |Joined(s.table, s.link.id)| >= limit
  }

  lemma ProcessDecreasesWork(s: State, allow: bool, now: int, limit: nat)
    requires s.link.Live() && s.link.up != [] && !TooMany(s, ByServer(Process(allow, now)), limit)
    ensures var s2 := ProcessStep(s, allow, now, limit); s2.link.Live() && Work(s2) < Work(s)
  {
    hide Joined;
  }

  /** Each of them leaves less to do, or does nothing. */
  lemma MovesDecreaseWork(s: State, step: Step, limit: nat)
    requires Moves(step) && s.link.Live() && !TooMany(s, step, limit)
    ensures var s2 := Next(s, step, limit);
      s2.link.Live() && (Work(s2) < Work(s) || s2 == s) && forall r :: Timely(s, step, r)
  {
    if step.ByClient? && step.c.Stage? {
      CommandsSize(step.c.order, s.rooms);
    } else if step.ByServer? && step.x.Process? && s.link.up != [] {
      ProcessDecreasesWork(s, step.x.allow, step.x.now, limit);
    }
  }

  lemma {:induction false} Listing(rs: set<RoomId>) returns (order: seq<RoomId>)
    ensures Enumerates(order, rs)
    decreases |rs|
  {
    if rs == {} {
      return [];
    }
    var r :| r in rs;
    order := Listing(rs - {r});
    order := [r] + order;
  }

  /** As long as there is work, one of them has an effect. */
  lemma WorkCanBeDone(s: State, limit: nat) returns (step: Step)
    requires s.link.Live() && Work(s) > 0
    ensures Moves(step) && !TooMany(s, step, limit) && Work(Next(s, step, limit)) < Work(s)
  {
    if s.link.staged != [] {
      step := ByClient(Send);
    } else if s.reqSet != {} {
      var order := Listing(s.reqSet);
      CommandsSize(order, s.rooms);
      step := ByClient(Stage(order));
    } else if s.link.up != [] {
      step := ByServer(Process(|Joined(s.table, s.link.id)| < limit, 0));
    } else if s.link.pending != multiset{} {
      var v :| v in s.link.pending;
      step := ByServer(Push(v));
    } else {
      step := ByClient(Deliver);
    }
    MovesDecreaseWork(s, step, limit);
  }

  ghost predicate AllInv(s: State) { forall r :: Inv(s, r) }

  ghost predicate AllAgreed(s: State) {
    Quiet(s) && forall r :: r !in s.link.refused ==> Agreed(s, r)
  }

  lemma WorkDone(s: State)
    requires AllInv(s) && s.link.Live() && Work(s) == 0
    ensures AllAgreed(s)
  {
    forall r | r !in s.link.refused ensures Agreed(s, r) {
      assert Inv(s, r);
      QuietMeansAgreed(s, r);
    }
  }

  lemma MovesKeepInv(s: State, step: Step, limit: nat)
    requires AllInv(s) && Moves(step) && s.link.Live() && !TooMany(s, step, limit)
    ensures AllInv(Next(s, step, limit))
  {
    MovesDecreaseWork(s, step, limit);
    forall r ensures Inv(Next(s, step, limit), r) {
      assert Inv(s, r);
      StepKeepsInv(s, step, limit, r);
    }
  }

  /** A schedule of moves, each of which has an effect, and none of which lets the connection into a room too many. */
  predicate Effective(s: State, steps: seq<Step>, limit: nat)
    decreases |steps|
  {
    steps == [] || (
      && Moves(steps[0]) && !TooMany(s, steps[0], limit) && Next(s, steps[0], limit) != s
      && Effective(Next(s, steps[0], limit), steps[1..], limit))
  }

  /** No further move has an effect. */
  ghost predicate Stuck(s: State, limit: nat) {
    forall step :: Moves(step) && !TooMany(s, step, limit) ==> Next(s, step, limit) == s
  }

  lemma StuckIsQuiet(s: State, limit: nat)
    requires AllInv(s) && s.link.Live()
    ensures Stuck(s, limit) <==> Quiet(s)
    ensures Stuck(s, limit) ==> AllAgreed(s)
  {
    if Work(s) > 0 {
      var step := WorkCanBeDone(s, limit);
      assert Next(s, step, limit) != s;
    } else {
      forall step | Moves(step) && !TooMany(s, step, limit) ensures Next(s, step, limit) == s {
        MovesDecreaseWork(s, step, limit);
      }
      WorkDone(s);
    }
  }

  /**
   * Left alone, a working connection quiets down whatever the scheduler does: any schedule of effective moves is
   * bounded by the outstanding work and leaves the connection working, and wherever none is left both sides agree.
   */
  lemma {:induction false} EverySchedule(s: State, steps: seq<Step>, limit: nat)
    requires AllInv(s) && s.link.Live() && Effective(s, steps, limit)
    ensures var s2 := Exec(s, steps, limit);
      s2.link.Live() && |steps| + Work(s2) <= Work(s) && (Stuck(s2, limit) <==> Quiet(s2))
      && (Stuck(s2, limit) ==> AllAgreed(s2))
    decreases |steps|
  {
    hide Next;
    hide Inv;
    hide Work;
    hide TooMany;
    if steps == [] {
      StuckIsQuiet(s, limit);
    } else {
      var s1 := Next(s, steps[0], limit);
      MovesDecreaseWork(s, steps[0], limit);
      MovesKeepInv(s, steps[0], limit);
      EverySchedule(s1, steps[1..], limit);
    }
  }

  /** And there is such a schedule. */
  lemma {:induction false} QuietsDown(s: State, limit: nat) returns (steps: seq<Step>)
    requires AllInv(s) && s.link.Live()
    ensures Effective(s, steps, limit) && AllAgreed(Exec(s, steps, limit))
    decreases Work(s)
  {
    hide Next;
    hide Inv;
    hide AllAgreed;
    hide Work;
    hide TooMany;
    if Work(s) == 0 {
      WorkDone(s);
      return [];
    }
    var step := WorkCanBeDone(s, limit);
    MovesDecreaseWork(s, step, limit);
    MovesKeepInv(s, step, limit);
    steps := QuietsDown(Next(s, step, limit), limit);
    steps := [step] + steps;
  }

  // ---------------------------------------------------------------- what the hypothesis is for

  predicate Cleans(step: Step) { step.ByWorld? && step.w.CleanUp? }

  predicate NothingCleaned(steps: seq<Step>) { forall i :: 0 <= i < |steps| ==> !Cleans(steps[i]) }

  lemma {:induction false} NothingCleanedIsTimely(s: State, steps: seq<Step>, limit: nat, r: RoomId)
    requires NothingCleaned(steps)
    ensures TimelyRun(s, steps, limit, r)
    decreases |steps|
  {
    if steps != [] {
      assert !Cleans(steps[0]);
      NothingCleanedIsTimely(Next(s, steps[0], limit), steps[1..], limit, r);
    }
  }

  /** One more step of a run from the start, with room for one room per connection. */
  lemma More(steps: seq<Step>, s: State, step: Step) returns (steps2: seq<Step>, s2: State)
    requires s == Exec(Init(), steps, 1)
    ensures steps2 == steps + [step] && s2 == Next(s, step, 1) == Exec(Init(), steps2, 1)
    ensures NothingCleaned(steps) && !Cleans(step) ==> NothingCleaned(steps2)
  {
    steps2, s2 := steps + [step], Next(s, step, 1);
    ExecSnoc(Init(), steps, step, 1);
  }

  lemma {:induction false} ExecSnoc(s: State, steps: seq<Step>, step: Step, limit: nat)
    ensures Exec(s, steps + [step], limit) == Next(Exec(s, steps, limit), step, limit)
    decreases |steps|
  {
    if steps == [] {
      assert [step][1..] == [];
    } else {
      ExecSnoc(Next(s, steps[0], limit), steps[1..], step, limit);
      assert (steps + [step])[1..] == steps[1..] + [step];
    }
  }

  lemma OneCommand(r: RoomId, rooms: map<RoomId, ClientRoom>)
    ensures Commands([r], rooms) == [Cmd(r, r in rooms)] && Enumerates([r], {r})
  {
    assert [r][1..] == [];
  }

  /** A client that has asked to enter room r. */
  lemma Asked(r: RoomId) returns (steps: seq<Step>, s: State)
    ensures s == Exec(Init(), steps, 1) && NothingCleaned(steps)
    ensures s == State(map[], 0, map[],
      Link(1, Started, true, false, false, false, multiset{}, [], [Cmd(r, true)], [], {}), map[r := BLANK], {})
  {
    steps, s := [], Init();
    steps, s := More(steps, s, ByClient(Join(r)));
    steps, s := More(steps, s, ByClient(Dial(1)));
    steps, s := More(steps, s, ByServer(Approve));
    OneCommand(r, s.rooms);
    assert s.rooms.Keys == {r};
    steps, s := More(steps, s, ByClient(Start([r])));
    steps, s := More(steps, s, ByClient(Send));
  }

  /** A client in room r, and up to date. */
  lemma Entered(r: RoomId) returns (steps: seq<Step>, s: State)
    ensures s == Exec(Init(), steps, 1) && NothingCleaned(steps)
    ensures s == State(
      map[r := Room(1, 0, [], {1}, None)], 1, map[Stamp(1, 0) := Entry(r, [])],
      Link(1, Started, true, false, false, false, multiset{}, [], [], [], {}), map[r := ClientRoom(Stamp(1, 0), [])],
      {})
  {
    steps, s := Asked(r);
    steps, s := More(steps, s, ByServer(Process(true, 0)));
    var v := Value(r, Stamp(1, 0), []);
    steps, s := More(steps, s, ByServer(Push(v)));
    assert s.link.down == [v];
    steps, s := More(steps, s, ByClient(Deliver));
  }

  /** A client in room r whose one change notification is still to be pushed. */
  lemma ChangeUnsent(r: RoomId, cv: seq<byte>) returns (steps: seq<Step>, s: State)
    ensures s == Exec(Init(), steps, 1) && NothingCleaned(steps)
    ensures s == State(
      map[r := Room(1, 1, cv, {1}, None)], 1, map[Stamp(1, 0) := Entry(r, []), Stamp(1, 1) := Entry(r, cv)],
      Link(1, Started, true, false, false, false, multiset{Value(r, Stamp(1, 1), cv)}, [], [], [], {}),
      map[r := ClientRoom(Stamp(1, 0), [])], {})
  {
    steps, s := Entered(r);
    steps, s := More(steps, s, ByWorld(FireChange(r, cv, 0)));
  }

  /** The client leaves the room, and the room is cleaned away before the change is pushed. */
  lemma RoomCleaned(r: RoomId, cv: seq<byte>) returns (steps: seq<Step>, s: State)
    ensures s == Exec(Init(), steps, 1)
    ensures s == State(
      map[], 1, map[Stamp(1, 0) := Entry(r, []), Stamp(1, 1) := Entry(r, cv)],
      Link(1, Started, true, false, false, false, multiset{Value(r, Stamp(1, 1), cv)}, [], [], [], {}), map[], {})
  {
    steps, s := ChangeUnsent(r, cv);
    steps, s := More(steps, s, ByClient(Quit(r)));
    OneCommand(r, s.rooms);
    assert s.reqSet == {r};
    steps, s := More(steps, s, ByClient(Stage([r])));
    steps, s := More(steps, s, ByClient(Send));
    assert s.link.up == [Cmd(r, false)];
    steps, s := More(steps, s, ByServer(Process(true, 0)));
    assert s.table == map[r := Room(1, 1, cv, {}, Some(0))];
    steps, s := More(steps, s, ByWorld(CleanUp(HOUR)));
  }

  /** It comes back and asks again. */
  lemma AskedAgain(r: RoomId, cv: seq<byte>) returns (steps: seq<Step>, s: State)
    ensures s == Exec(Init(), steps, 1)
    ensures s.table == map[] && s.lastEpoch == 1 && s.reqSet == {} && s.rooms == map[r := BLANK]
    ensures s.link ==
      Link(1, Started, true, false, false, false, multiset{Value(r, Stamp(1, 1), cv)}, [], [Cmd(r, true)], [], {})
  {
    steps, s := RoomCleaned(r, cv);
    steps, s := More(steps, s, ByClient(Join(r)));
    OneCommand(r, s.rooms);
    assert s.reqSet == {r};
    steps, s := More(steps, s, ByClient(Stage([r])));
    steps, s := More(steps, s, ByClient(Send));
  }

  /** A new room is made for it, while the old change is still to be pushed. */
  lemma RoomRemade(r: RoomId, cv: seq<byte>) returns (steps: seq<Step>, s: State)
    ensures s == Exec(Init(), steps, 1)
    ensures s.table == map[r := Room(2, 0, [], {1}, None)] && s.reqSet == {} && s.rooms == map[r := BLANK]
    ensures s.link == Link(1, Started, true, false, false, false,
      multiset{Value(r, Stamp(1, 1), cv), Value(r, Stamp(2, 0), [])}, [], [], [], {})
  {
    steps, s := AskedAgain(r, cv);
    assert Joined(s.table, 1) == {};
    steps, s := More(steps, s, ByServer(Process(true, 0)));
  }

  /** It is given the new room's value first. */
  lemma NewRoomFirst(r: RoomId, cv: seq<byte>) returns (steps: seq<Step>, s: State)
    ensures s == Exec(Init(), steps, 1)
    ensures s.table == map[r := Room(2, 0, [], {1}, None)] && s.reqSet == {}
    ensures s.link == Link(1, Started, true, false, false, false, multiset{Value(r, Stamp(1, 1), cv)}, [], [], [], {})
    ensures s.rooms == map[r := ClientRoom(Stamp(2, 0), [])]
  {
    steps, s := RoomRemade(r, cv);
    var v := Value(r, Stamp(2, 0), []);
    steps, s := More(steps, s, ByServer(Push(v)));
    assert s.link.down == [v] && s.link.pending == multiset{Value(r, Stamp(1, 1), cv)};
    steps, s := More(steps, s, ByClient(Deliver));
  }

  /**
   * Without the hypothesis that cleaning does not overtake a send, convergence fails: a run whose connection is
   * working and quiet, with nothing refused, and whose client holds a value of a room that no longer exists.
   */
  lemma CleaningOvertakes(r: RoomId, cv: seq<byte>) returns (steps: seq<Step>)
    ensures var s := Exec(Init(), steps, 1);
      && Quiet(s) && s.link.refused == {} && Member(s.table, s.link.id, r) && r in s.rooms
      && s.rooms[r].stamp == Stamp(1, 1) && StampOf(s.table[r]) == Stamp(2, 0) && !Agreed(s, r)
  {
    var s;
    steps, s := NewRoomFirst(r, cv);
    var v := Value(r, Stamp(1, 1), cv);
    steps, s := More(steps, s, ByServer(Push(v)));
    assert s.link.down == [v];
    steps, s := More(steps, s, ByClient(Deliver));
  }

  // ---------------------------------------------------------------- a refused room that stays behind

  /** Two change notifications are still to be pushed. */
  lemma TwoUnsent(r: RoomId, cv: seq<byte>, cv2: seq<byte>) returns (steps: seq<Step>, s: State)
    ensures s == Exec(Init(), steps, 1) && NothingCleaned(steps)
    ensures s.table == map[r := Room(1, 2, cv2, {1}, None)] && s.reqSet == {}
    ensures s.link == Link(1, Started, true, false, false, false,
      multiset{Value(r, Stamp(1, 1), cv), Value(r, Stamp(1, 2), cv2)}, [], [], [], {})
    ensures s.rooms == map[r := ClientRoom(Stamp(1, 0), [])]
  {
    steps, s := ChangeUnsent(r, cv);
    steps, s := More(steps, s, ByWorld(FireChange(r, cv2, 0)));
  }

  /** A client in room r that holds the later of two changes while the earlier is still to be pushed. */
  lemma LaterFirst(r: RoomId, cv: seq<byte>, cv2: seq<byte>) returns (steps: seq<Step>, s: State)
    ensures s == Exec(Init(), steps, 1) && NothingCleaned(steps)
    ensures s.table == map[r := Room(1, 2, cv2, {1}, None)] && s.reqSet == {}
    ensures s.link == Link(1, Started, true, false, false, false, multiset{Value(r, Stamp(1, 1), cv)}, [], [], [], {})
    ensures s.rooms == map[r := ClientRoom(Stamp(1, 2), cv2)]
  {
    steps, s := TwoUnsent(r, cv, cv2);
    var first, second := Value(r, Stamp(1, 1), cv), Value(r, Stamp(1, 2), cv2);
    steps, s := More(steps, s, ByServer(Push(second)));
    assert s.link.down == [second] && s.link.pending == multiset{first};
    steps, s := More(steps, s, ByClient(Deliver));
  }

  /** It leaves and comes back before the server hears of it, and its roomEnter is refused. */
  lemma RefusedOnReturn(r: RoomId, cv: seq<byte>, cv2: seq<byte>) returns (steps: seq<Step>, s: State)
    ensures s == Exec(Init(), steps, 1) && NothingCleaned(steps)
    ensures s.table == map[r := Room(1, 2, cv2, {1}, None)] && s.reqSet == {} && s.rooms == map[r := BLANK]
    ensures s.link == Link(1, Started, true, false, false, false, multiset{Value(r, Stamp(1, 1), cv)}, [], [], [], {r})
  {
    steps, s := LaterFirst(r, cv, cv2);
    steps, s := More(steps, s, ByClient(Quit(r)));
    steps, s := More(steps, s, ByClient(Join(r)));
    OneCommand(r, s.rooms);
    assert s.reqSet == {r} && s.rooms == map[r := BLANK];
    steps, s := More(steps, s, ByClient(Stage([r])));
    steps, s := More(steps, s, ByClient(Send));
    assert s.link.up == [Cmd(r, true)];
    steps, s := More(steps, s, ByServer(Process(false, 0)));
  }

  /**
   * Refusals are no idle exception: a run, with nothing cleaned away, whose connection is working and quiet and whose
   * client is a member of r and holds a value older than the server's. The value it held before it left was the
   * newest, and nothing brings that back.
   */
  lemma RefusedStaysBehind(r: RoomId, cv: seq<byte>, cv2: seq<byte>) returns (steps: seq<Step>)
    ensures TimelyRun(Init(), steps, 1, r)
    ensures var s := Exec(Init(), steps, 1);
      && Quiet(s) && s.link.refused == {r} && Member(s.table, s.link.id, r) && r in s.rooms
      && s.rooms[r] == ClientRoom(Stamp(1, 1), cv) && StampOf(s.table[r]) == Stamp(1, 2) && !Agreed(s, r)
  {
    var s;
    steps, s := RefusedOnReturn(r, cv, cv2);
    var v := Value(r, Stamp(1, 1), cv);
    steps, s := More(steps, s, ByServer(Push(v)));
    assert s.link.down == [v];
    steps, s := More(steps, s, ByClient(Deliver));
    NothingCleanedIsTimely(Init(), steps, 1, r);
  }
}
