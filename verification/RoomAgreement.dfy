/**
 * When a room is sure to end in agreement: the exact condition, whatever cleaning has overtaken, on the state from
 * which the room is left alone.
 */
module RoomAgreement {
  import opened Rooms
  import opened RoomProtocol
  import opened RoomConvergence

  // ---------------------------------------------------------------- what is under way

  /** What a message does to room r. */
  function Heard(room: ClientRoom, v: Value, r: RoomId): ClientRoom {
    if v.room == r then OnRoomValue(room, v) else room
  }

  /** What the client will hold for r once everything in the FIFO has been delivered. */
  function Received(room: ClientRoom, down: seq<Value>, r: RoomId): ClientRoom
    decreases |down|
  {
    if down == [] then room else Received(Heard(room, down[0], r), down[1..], r)
  }

  lemma {:induction false} ReceivedSnoc(room: ClientRoom, down: seq<Value>, v: Value, r: RoomId)
    ensures Received(room, down + [v], r) == Heard(Received(room, down, r), v, r)
    decreases |down|
  {
    if down == [] {
      assert [v][1..] == [];
    } else {
      ReceivedSnoc(Heard(room, down[0], r), down[1..], v, r);
      assert (down + [v])[1..] == down[1..] + [v];
    }
  }

  /** Blank, or once the value of room r. */
  predicate Genuine(room: ClientRoom, log: Log, r: RoomId) {
    room == BLANK || Logged(log, r, room.stamp, room.cv)
  }

  lemma {:induction false} ReceivedIsGenuine(room: ClientRoom, down: seq<Value>, log: Log, r: RoomId)
    requires Genuine(room, log, r) && forall v :: v in down ==> Logged(log, v.room, v.stamp, v.cv)
    ensures Genuine(Received(room, down, r), log, r)
    decreases |down|
  {
    if down != [] {
      assert down[0] in down;
      ReceivedIsGenuine(Heard(room, down[0], r), down[1..], log, r);
    }
  }

  lemma {:induction false} NothingReceived(room: ClientRoom, down: seq<Value>, r: RoomId)
    requires forall v :: v in down ==> v.room != r
    ensures Received(room, down, r) == room
    decreases |down|
  {
    if down != [] {
      assert down[0] in down;
      NothingReceived(room, down[1..], r);
    }
  }

  // ---------------------------------------------------------------- the condition

  /** The client's room when it is up to date with the server's. */
  function Current(room: Room<int>): ClientRoom { ClientRoom(StampOf(room), room.cv) }

  /** A value of r still to be pushed belongs to an epoch other than the room's. */
  predicate Strays(s: State, v: Value, r: RoomId)
    requires Shared(s, r)
  {
    v in s.link.pending && v.room == r && v.stamp.epoch != s.table[r].epoch
  }

  /** The server's value is still to be pushed, or is what the client will hold when the FIFO is empty; and no value
      of another epoch is still to be pushed. */
  predicate Sure(s: State, r: RoomId)
    requires Shared(s, r)
  {
    && (ValueOf(r, s.table[r]) in s.link.pending || Received(s.rooms[r], s.link.down, r) == Current(s.table[r]))
    && forall v :: v in s.link.pending ==> !Strays(s, v, r)
  }

  /** With no value of r in the FIFO: the server's value is held or still to be pushed. */
  lemma SureOutsideFifo(s: State, r: RoomId)
    requires Shared(s, r) && forall v :: v in s.link.down ==> v.room != r
    ensures Sure(s, r) <==>
      && Reaching(s.link, s.table, s.rooms, r)
      && forall v :: v in s.link.pending && v.room == r ==> v.stamp.epoch == s.table[r].epoch
  {
    NothingReceived(s.rooms[r], s.link.down, r);
    assert ValueOf(r, s.table[r]) !in s.link.down;
  }

  lemma DeliverKeepsReceived(s: State, r: RoomId)
    requires Shared(s, r)
    ensures Shared(DeliverStep(s), r)
    ensures Received(DeliverStep(s).rooms[r], DeliverStep(s).link.down, r) == Received(s.rooms[r], s.link.down, r)
  {
  }

  /** As long as cleaning has not overtaken a send for r, there is nothing more to the condition than `Reaching`. */
  lemma {:induction false} SureWhenOrdered(s: State, r: RoomId)
    requires History(s) && Ordered(s, r) && Shared(s, r)
    ensures Sure(s, r) <==> Reaching(s.link, s.table, s.rooms, r)
    decreases |s.link.down|
  {
    if s.link.down != [] {
      DeliverKeepsHistory(s);
      DeliverKeepsOrder(s, r);
      DeliverKeepsReach(s, r);
      DeliverKeepsReceived(s, r);
      SureWhenOrdered(DeliverStep(s), r);
    }
  }

  // ---------------------------------------------------------------- it is sufficient

  /** The newest value of the room's epoch is kept and accepted; no other value of that epoch displaces it. */
  lemma HearingCurrent(room: ClientRoom, v: Value, s: State, r: RoomId)
    requires History(s) && Shared(s, r) && Genuine(room, s.log, r) && v in s.link.pending && !Strays(s, v, r)
    ensures v == ValueOf(r, s.table[r]) ==> Heard(room, v, r) == Current(s.table[r])
    ensures room == Current(s.table[r]) ==> Heard(room, v, r) == room
  {
    assert Logged(s.log, v.room, v.stamp, v.cv) && StampOf(s.table[r]) in s.log;
    if room != BLANK {
      assert room.stamp in s.log;
    }
  }

  lemma PushKeepsSure(s: State, v: Value, r: RoomId)
    requires History(s) && Shared(s, r) && Sure(s, r)
    ensures Sure(PushStep(s, v), r)
  {
    if v in s.link.pending {
      var room := Received(s.rooms[r], s.link.down, r);
      ReceivedIsGenuine(s.rooms[r], s.link.down, s.log, r);
      HearingCurrent(room, v, s, r);
      ReceivedSnoc(s.rooms[r], s.link.down, v, r);
      var s2 := PushStep(s, v);
      forall w | w in s2.link.pending ensures !Strays(s2, w, r) { assert !Strays(s, w, r); }
    }
  }

  lemma StepKeepsSure(s: State, step: Step, limit: nat, r: RoomId)
    requires History(s) && Shared(s, r) && Sure(s, r) && !Touches(s, step, r) && Next(s, step, limit).link.Live()
    ensures Shared(Next(s, step, limit), r) && Sure(Next(s, step, limit), r)
  {
    if Pushes(step) {
      PushKeepsSure(s, step.x.v, r);
    } else if step == ByClient(Deliver) {
      DeliverKeepsReceived(s, r);
    } else {
      StepKeepsShared(s, step, limit, r);
      var s2 := Next(s, step, limit);
      forall w | w in s2.link.pending ensures !Strays(s2, w, r) {
        if w.room == r {
          assert !Strays(s, w, r);
        }
      }
    }
  }

  lemma {:induction false} RunsKeepSure(s: State, steps: seq<Step>, limit: nat, r: RoomId)
    requires History(s) && Shared(s, r) && Sure(s, r) && UntouchedRun(s, steps, limit, r)
    ensures Quiet(Exec(s, steps, limit)) ==> Agreed(Exec(s, steps, limit), r)
    decreases |steps|
  {
    if steps != [] {
      StepKeepsHistory(s, steps[0], limit);
      StepKeepsSure(s, steps[0], limit, r);
      RunsKeepSure(Next(s, steps[0], limit), steps[1..], limit, r);
    }
  }

  // ---------------------------------------------------------------- it is necessary

  /** Nothing is asked or still to be asked about r. */
  predicate Unasked(s: State, r: RoomId) {
    r !in s.reqSet && forall cmd :: cmd in s.link.Out() ==> cmd.room != r
  }

  /** A move that leaves r in doubt and less to do. */
  predicate Doubtful(s: State, step: Step, limit: nat, r: RoomId)
    requires Shared(s, r)
  {
    var s2 := Next(s, step, limit);
    Moves(step) && !Touches(s, step, r) && Work(s2) < Work(s) && Shared(s2, r) && !Sure(s2, r) && Unasked(s2, r)
  }

  lemma SameRoomSameDoubt(s: State, s2: State, r: RoomId)
    requires Shared(s, r) && SameRoom(s, s2, r)
    ensures Sure(s2, r) <==> Sure(s, r)
  {
    assert forall v :: v in s.link.pending && v.room == r ==> (Strays(s2, v, r) <==> Strays(s, v, r));
  }

  lemma {:induction false} CommandsAreOf(order: seq<RoomId>, rooms: map<RoomId, ClientRoom>)
    ensures forall cmd :: cmd in Commands(order, rooms) ==> cmd.room in order
  {
    if order != [] {
      CommandsAreOf(order[1..], rooms);
    }
  }

  lemma SendAside(s: State, r: RoomId)
    requires Unasked(s, r) && s.link.staged != []
    ensures Unasked(SendStep(s), r)
  {
    SendKeepsOut(s.link);
  }

  lemma ProcessAside(s: State, limit: nat, r: RoomId)
    requires Shared(s, r) && Unasked(s, r) && s.link.up != []
    ensures s.link.up[0].room != r && Unasked(ProcessStep(s, false, 0, limit), r)
    ensures ProcessStep(s, false, 0, limit).link.Live()
  {
    assert s.link.Out() == [s.link.up[0]] + (s.link.up[1..] + s.link.staged);
  }

  lemma StageAside(s: State, order: seq<RoomId>, r: RoomId)
    requires Unasked(s, r) && Enumerates(order, s.reqSet)
    ensures Unasked(StageStep(s, order), r)
  {
    CommandsAreOf(order, s.rooms);
  }

  /** Other rooms' requests and commands can be worked off, each command refused, without anything happening to r. */
  lemma OthersAside(s: State, limit: nat, r: RoomId) returns (step: Step)
    requires Shared(s, r) && !Sure(s, r) && Unasked(s, r) && (s.reqSet != {} || s.link.Out() != [])
    ensures Doubtful(s, step, limit, r)
  {
    if s.link.staged != [] {
      step := ByClient(Send);
      SendAside(s, r);
    } else if s.link.up != [] {
      step := ByServer(Process(false, 0));
      ProcessAside(s, limit, r);
    } else {
      var order := Listing(s.reqSet);
      CommandsSize(order, s.rooms);
      step := ByClient(Stage(order));
      StageAside(s, order, r);
    }
    MovesDecreaseWork(s, step, limit);
    StepKeepsShared(s, step, limit, r);
    SameRoomSameDoubt(s, Next(s, step, limit), r);
  }

  /** A push other than that of the one stray value leaves the doubt. */
  lemma PushKeepsDoubt(s: State, v: Value, r: RoomId)
    requires Shared(s, r) && v in s.link.pending
    requires || (exists w :: w in s.link.pending - multiset{v} && Strays(s, w, r))
             || (ValueOf(r, s.table[r]) !in s.link.pending
                 && Received(s.rooms[r], s.link.down, r) != Current(s.table[r]))
    ensures !Sure(PushStep(s, v), r)
  {
    var s2 := PushStep(s, v);
    ReceivedSnoc(s.rooms[r], s.link.down, v, r);
    if w :| w in s.link.pending - multiset{v} && Strays(s, w, r) {
      assert Strays(s2, w, r);
    }
  }

  /** Pushed last, a stray value is what the client ends up with, or one of its epoch. */
  lemma LastPushIsStray(s: State, v: Value, r: RoomId)
    requires Shared(s, r) && s.link.pending == multiset{v} && Strays(s, v, r)
    ensures !Sure(PushStep(s, v), r)
  {
    ReceivedSnoc(s.rooms[r], s.link.down, v, r);
  }

  /** The values to be pushed can be pushed in an order that keeps r in doubt. */
  lemma PushInDoubt(s: State, r: RoomId) returns (v: Value)
    requires Shared(s, r) && !Sure(s, r) && s.link.pending != multiset{}
    ensures v in s.link.pending && !Sure(PushStep(s, v), r)
  {
    if w :| w in s.link.pending && Strays(s, w, r) {
      if s.link.pending == multiset{w} {
        LastPushIsStray(s, w, r);
        return w;
      }
      v := Another(s.link.pending, w);
    } else {
      v :| v in s.link.pending;
    }
    PushKeepsDoubt(s, v, r);
  }

  lemma Another(pending: multiset<Value>, w: Value) returns (v: Value)
    requires w in pending && pending != multiset{w}
    ensures v in pending && w in pending - multiset{v}
  {
    assert pending == pending - multiset{w} + multiset{w};
    assert pending - multiset{w} != multiset{};
    v :| v in pending - multiset{w};
  }

  lemma MoveInDoubt(s: State, limit: nat, r: RoomId) returns (step: Step)
    requires Shared(s, r) && !Sure(s, r) && Unasked(s, r) && !Quiet(s)
    ensures Doubtful(s, step, limit, r)
  {
    if s.reqSet != {} || s.link.Out() != [] {
      step := OthersAside(s, limit, r);
    } else if s.link.pending != multiset{} {
      var v := PushInDoubt(s, r);
      step := ByServer(Push(v));
    } else {
      DeliverKeepsReceived(s, r);
      step := ByClient(Deliver);
    }
  }

  /** Left in doubt, the room can end quiet and in disagreement, by moves alone. */
  lemma {:induction false} EndsInDisagreement(s: State, limit: nat, r: RoomId) returns (steps: seq<Step>)
    requires Shared(s, r) && !Sure(s, r) && Unasked(s, r)
    ensures UntouchedRun(s, steps, limit, r) && (forall i :: 0 <= i < |steps| ==> Moves(steps[i]))
    ensures Quiet(Exec(s, steps, limit)) && !Agreed(Exec(s, steps, limit), r)
    decreases Work(s)
  {
    if Quiet(s) {
      return [];
    }
    hide Next;
    var step := MoveInDoubt(s, limit, r);
    steps := EndsInDisagreement(Next(s, step, limit), limit, r);
    steps := [step] + steps;
  }

  // ---------------------------------------------------------------- both

  /**
   * A room that both sides share, and about which nothing is asked, ends in agreement whenever it is left alone until
   * the connection is quiet, whatever else happens, if and only if it is sure to now. No order of epochs is assumed:
   * this says when convergence survives cleaning that overtook a send, and when it does not.
   */
  lemma AgreementIsSureIff(s: State, limit: nat, r: RoomId)
    requires History(s) && Shared(s, r) && Unasked(s, r)
    ensures Sure(s, r) <==>
      forall steps :: UntouchedRun(s, steps, limit, r) && Quiet(Exec(s, steps, limit)) ==>
        Agreed(Exec(s, steps, limit), r)
  {
    if Sure(s, r) {
      forall steps | UntouchedRun(s, steps, limit, r) && Quiet(Exec(s, steps, limit))
        ensures Agreed(Exec(s, steps, limit), r)
      {
        RunsKeepSure(s, steps, limit, r);
      }
    } else {
      var steps := EndsInDisagreement(s, limit, r);
    }
  }
}
