/**
 * The reliable chat on top of room notifications: a store that numbers the messages of a room from 1, a server that
 * stores and then fires, and a client that takes a message from the event when it is the next one and fetches what
 * it lacks otherwise.
 */
module Chat {
  import opened Bytes

  datatype Msg = Msg(room: seq<byte>, index: int, sender: seq<byte>, text: seq<byte>)

  /** Message k of a room's history carries index k + 1. */
  predicate Numbered(room: seq<byte>, msgs: seq<Msg>) {
    forall k :: 0 <= k < |msgs| ==> msgs[k].index == k + 1 && msgs[k].room == room
  }

  class Store {
    var rooms: map<seq<byte>, seq<Msg>>

    constructor ()
      ensures rooms == map[] && Valid()
    {
      rooms := map[];
    }

    ghost predicate Valid()
      reads this
    {
      forall r :: r in rooms ==> Numbered(r, rooms[r])
    }

    function History(room: seq<byte>): seq<Msg>
      reads this
    {
      if room in rooms then rooms[room] else []
    }

    method Post(roomId: seq<byte>, sender: seq<byte>, text: seq<byte>) returns (m: Msg)
      requires Valid()
      modifies this
      ensures Valid() && m.room == roomId && m.sender == sender && m.text == text
      ensures History(roomId) == old(History(roomId)) + [m] && m.index == |History(roomId)|
      ensures forall r :: r != roomId ==> History(r) == old(History(r))
    {
      var list := if roomId in rooms then rooms[roomId] else [];
      m := Msg(roomId, |list| + 1, sender, text);
      rooms := rooms[roomId := list + [m]];
    }

    /** Everything after afterIndex; nothing for an index at or past the end. */
    method After(roomId: seq<byte>, afterIndex: nat) returns (out: seq<Msg>)
      requires Valid()
      ensures afterIndex >= |History(roomId)| ==> out == []
      ensures afterIndex < |History(roomId)| ==> out == History(roomId)[afterIndex..]
      ensures forall m :: m in out <==> m in History(roomId) && m.index > afterIndex
    {
      var list := if roomId in rooms then rooms[roomId] else [];
      assert Numbered(roomId, list);
      if afterIndex >= |list| {
        return [];
      }
      out := list[afterIndex..];
      forall m | m in list && m.index > afterIndex ensures m in out {
        var k :| 0 <= k < |list| && list[k] == m;
        assert out[k - afterIndex] == m;
      }
    }
  }

  // ---------------------------------------------------------------- the client

  /** The messages that extend `last` without a gap, in the order they come. */
  function Consecutive(last: int, msgs: seq<Msg>): seq<Msg>
    decreases |msgs|
  {
    if msgs == [] then []
    else if msgs[0].index == last + 1 then [msgs[0]] + Consecutive(last + 1, msgs[1..])
    else Consecutive(last, msgs[1..])
  }

  datatype Client = Client(room: seq<byte>, applied: seq<Msg>)

  /** The event carries message m of this room and m is not news that leaves a gap. */
  predicate FastPath(c: Client, live: Option<Msg>) {
    live.Some? && live.value.room == c.room && live.value.index <= |c.applied| + 1
  }

  /** onChange: `live` is the message the event carries, if any; `fetched` what a fetch would bring, None if it
      fails. */
  function OnChange(c: Client, live: Option<Msg>, fetched: Option<seq<Msg>>): Client {
    if FastPath(c, live) then
      if live.value.index == |c.applied| + 1 then c.(applied := c.applied + [live.value]) else c
    else if fetched.None? then c
    else c.(applied := c.applied + Consecutive(|c.applied|, fetched.value))
  }

  class ChatClient {
    const roomId: seq<byte>
    var applied: seq<Msg>
    var lastIndex: int

    constructor (roomId: seq<byte>)
      ensures this.roomId == roomId && Valid() && applied == []
    {
      this.roomId, applied, lastIndex := roomId, [], 0;
    }

    ghost predicate Valid()
      reads this
    {
      lastIndex == |applied|
    }

    function Val(): Client
      reads this
    {
      Client(roomId, applied)
    }

    /** `err`: the fetch was needed and failed. */
    method HandleEvent(live: Option<Msg>, fetched: Option<seq<Msg>>) returns (err: bool)
      requires Valid()
      modifies this
      ensures Valid() && Val() == OnChange(old(Val()), live, fetched)
      ensures err <==> !FastPath(old(Val()), live) && fetched.None?
    {
      if live.Some? {
        var m := live.value;
        if m.room == roomId {
          if m.index <= lastIndex {
            return false;
          }
          if m.index == lastIndex + 1 {
            applied := applied + [m];
            lastIndex := m.index;
            return false;
          }
        }
      }
      err := BackfillByAjax(fetched);
    }

    method BackfillByAjax(fetched: Option<seq<Msg>>) returns (err: bool)
      requires Valid()
      modifies this
      ensures Valid() && (err <==> fetched.None?)
      ensures applied == old(applied) + if fetched.None? then [] else Consecutive(|old(applied)|, fetched.value)
    {
      if fetched.None? {
        assert applied == applied + [];
        return true;
      }
      var msgs := fetched.value;
      ghost var goal := applied + Consecutive(|applied|, msgs);
      for i := 0 to |msgs|
        invariant Valid() && applied + Consecutive(lastIndex, msgs[i..]) == goal
      {
        var m := msgs[i];
        assert msgs[i..][1..] == msgs[i + 1..];
        if m.index == lastIndex + 1 {
          Associative(applied, [m], Consecutive(lastIndex + 1, msgs[i + 1..]));
          applied := applied + [m];
          lastIndex := m.index;
        }
      }
      assert applied + [] == applied;
      return false;
    }
  }

  /** What a fetch brings extends the client's prefix of the history to all of it. */
  lemma {:induction false} FetchCompletes(room: seq<byte>, history: seq<Msg>, n: nat)
    requires Numbered(room, history) && n <= |history|
    ensures Consecutive(n, history[n..]) == history[n..]
    decreases |history| - n
  {
    if n < |history| {
      FetchCompletes(room, history, n + 1);
      assert history[n..][1..] == history[n + 1..] && history[n..] == [history[n]] + history[n + 1..];
    }
  }

  /** Messages the client already has are passed over, wherever the fetch begins. */
  lemma {:induction false} FetchOverlaps(room: seq<byte>, history: seq<Msg>, k: nat, n: nat)
    requires Numbered(room, history) && k <= n <= |history|
    ensures Consecutive(n, history[k..]) == history[n..]
    decreases n - k
  {
    if k == n {
      FetchCompletes(room, history, n);
    } else {
      FetchOverlaps(room, history, k + 1, n);
      assert history[k..][1..] == history[k + 1..];
    }
  }

  /** A message that leaves a gap is not applied, and neither is what it would be followed by. */
  lemma {:induction false} GapIsLeft(room: seq<byte>, history: seq<Msg>, k: nat, n: nat)
    requires Numbered(room, history) && n < k <= |history|
    ensures Consecutive(n, history[k..]) == []
    decreases |history| - k
  {
    if k < |history| {
      GapIsLeft(room, history, k + 1, n);
      assert history[k..][1..] == history[k + 1..];
    }
  }

  // ---------------------------------------------------------------- runs

  /** `unfired`: posts stored and not yet fired; `lastFired`: index of the message last fired, 0 if none;
      `settled`: an event at least as recent as the last fire has been handled without a fetch error. */
  datatype State = State(
    room: seq<byte>, history: seq<Msg>, unfired: set<int>, lastFired: int, client: Client, settled: bool)

  function Init(room: seq<byte>): State { State(room, [], {}, 0, Client(room, []), false) }

  /** Handle: the client's listener is run with the message of the given index, or with no message at all; events may
      be dropped, repeated, reordered and replaced by later ones in between. `ok`: a fetch, if needed, succeeds. */
  datatype Step = StorePost(sender: seq<byte>, text: seq<byte>) | Fire(index: int) | Handle(live: Option<int>, ok: bool)

  function Live(s: State, index: Option<int>): Option<Msg> {
    if index.Some? && 1 <= index.value <= |s.history| then Some(s.history[index.value - 1]) else None
  }

  function Fetched(s: State, ok: bool): Option<seq<Msg>> {
    if !ok then None
    else Some(if |s.client.applied| >= |s.history| then [] else s.history[|s.client.applied|..])
  }

  function HandleStep(s: State, index: Option<int>, ok: bool): State {
    var live := Live(s, index);
    var latest := live.None? || live.value.index == s.lastFired;
    var failed := !FastPath(s.client, live) && !ok;
    s.(client := OnChange(s.client, live, Fetched(s, ok)), settled := s.settled || (latest && !failed))
  }

  function Next(s: State, step: Step): State {
    match step
    case StorePost(sender, text) =>
      var n := |s.history| + 1;
      s.(history := s.history + [Msg(s.room, n, sender, text)], unfired := s.unfired + {n})
    case Fire(index) =>
      if index in s.unfired then s.(unfired := s.unfired - {index}, lastFired := index, settled := false) else s
    case Handle(index, ok) => HandleStep(s, index, ok)
  }

  function Exec(s: State, steps: seq<Step>): State
    decreases |steps|
  {
    if steps == [] then s else Exec(Next(s, steps[0]), steps[1..])
  }

  /** What the client has applied is the beginning of the history; a settled client has what was last fired. */
  predicate Inv(s: State) {
    && Numbered(s.room, s.history) && s.client.room == s.room
    && s.client.applied <= s.history
    && (forall n :: n in s.unfired ==> 1 <= n <= |s.history|) && 0 <= s.lastFired <= |s.history|
    && (s.settled ==> s.lastFired <= |s.client.applied|)
  }

  /** What one event does, exactly: nothing for an old message, one message for the next, all there is otherwise. */
  lemma EventEffect(s: State, index: Option<int>, ok: bool)
    requires Inv(s)
    ensures var s2, n := HandleStep(s, index, ok), |s.client.applied|; var live := Live(s, index);
      s2.client.applied ==
        if live.Some? && live.value.index <= n then s.history[..n]
        else if live.Some? && live.value.index == n + 1 then s.history[..n + 1]
        else if ok then s.history else s.history[..n]
  {
    var n := |s.client.applied|;
    FetchCompletes(s.room, s.history, n);
    assert s.history == s.history[..n] + s.history[n..] && s.client.applied == s.history[..n];
    if n < |s.history| {
      assert s.history[..n + 1] == s.history[..n] + [s.history[n]];
    }
  }

  lemma StepKeepsInv(s: State, step: Step)
    requires Inv(s)
    ensures Inv(Next(s, step))
  {
    if step.Handle? {
      EventEffect(s, step.live, step.ok);
    }
  }

  lemma {:induction false} RunsKeepInv(s: State, steps: seq<Step>)
    requires Inv(s)
    ensures Inv(Exec(s, steps)) && Exec(s, steps).room == s.room
    decreases |steps|
  {
    if steps != [] {
      StepKeepsInv(s, steps[0]);
      RunsKeepInv(Next(s, steps[0]), steps[1..]);
    }
  }

  /** In every run, with drops, repeats, reordering, coalescing and failed fetches, the client has applied exactly the
      first messages of the history: none twice, none out of order, none missing in between. */
  lemma AppliedIsAPrefix(room: seq<byte>, steps: seq<Step>)
    ensures var s := Exec(Init(room), steps); Numbered(room, s.history) && s.client.applied <= s.history
  {
    RunsKeepInv(Init(room), steps);
  }

  /** After one event the client is complete unless a message on the fast path stopped short of the end, or a needed
      fetch failed; both ways. */
  lemma CompleteAfterEvent(s: State, index: Option<int>, ok: bool)
    requires Inv(s)
    ensures var n := |s.client.applied|; var live := Live(s, index);
      HandleStep(s, index, ok).client.applied == s.history <==>
        n == |s.history| || (if FastPath(s.client, live) then live.value.index == n + 1 == |s.history| else ok)
  {
    EventEffect(s, index, ok);
    var n := |s.client.applied|;
    assert |s.history[..n]| == n && s.history[..|s.history|] == s.history;
    if n < |s.history| {
      assert |s.history[..n + 1]| == n + 1;
    }
  }

  // ---------------------------------------------------------------- serialised posts

  /** No post is stored while another is still to be fired. */
  predicate Serialised(s: State, steps: seq<Step>)
    decreases |steps|
  {
    steps == [] || ((steps[0].StorePost? ==> s.unfired == {}) && Serialised(Next(s, steps[0]), steps[1..]))
  }

  /** With serialised posts, whatever is not being posted right now has been fired in order. */
  lemma {:induction false} SerialisedFiresInOrder(s: State, steps: seq<Step>)
    requires Inv(s) && Serialised(s, steps)
    requires if s.unfired == {} then s.lastFired == |s.history| else s.unfired == {|s.history|}
    ensures var s2 := Exec(s, steps); s2.unfired == {} ==> s2.lastFired == |s2.history|
    decreases |steps|
  {
    if steps != [] {
      StepKeepsInv(s, steps[0]);
      SerialisedFiresInOrder(Next(s, steps[0]), steps[1..]);
    }
  }

  /** With serialised posts, once the last post's event has been handled without a fetch error, nothing is missing. */
  lemma SerialisedConverges(room: seq<byte>, steps: seq<Step>)
    requires Serialised(Init(room), steps)
    ensures var s := Exec(Init(room), steps); s.unfired == {} && s.settled ==> s.client.applied == s.history
  {
    RunsKeepInv(Init(room), steps);
    SerialisedFiresInOrder(Init(room), steps);
  }

  /**
   * Serialisation is needed: two posts stored one after the other and fired in the opposite order, the second event
   * replacing the first before the client saw it. The last event is handled, nothing is left to fire, and the client
   * lacks a message.
   */
  lemma SwappedFiresLoseAMessage(room: seq<byte>, sender: seq<byte>, a: seq<byte>, b: seq<byte>)
    returns (steps: seq<Step>)
    ensures var s := Exec(Init(room), steps);
      s.unfired == {} && s.settled && |s.history| == 2 && s.client.applied == s.history[..1]
  {
    steps := [StorePost(sender, a), StorePost(sender, b), Fire(2), Fire(1), Handle(Some(1), true)];
    var m1, m2 := Msg(room, 1, sender, a), Msg(room, 2, sender, b);
    var s1 := State(room, [m1], {1}, 0, Client(room, []), false);
    var s2 := State(room, [m1, m2], {1, 2}, 0, Client(room, []), false);
    var s4 := State(room, [m1, m2], {}, 1, Client(room, []), false);
    ExecCons(Init(room), steps, s1);
    ExecCons(s1, steps[1..], s2);
    ExecCons(s2, steps[2..], s2.(unfired := {1}, lastFired := 2));
    ExecCons(s2.(unfired := {1}, lastFired := 2), steps[3..], s4);
    var s5 := s4.(client := Client(room, [m1]), settled := true);
    ExecCons(s4, steps[4..], s5);
    assert s5.history[..1] == [m1];
  }

  lemma ExecCons(s: State, steps: seq<Step>, s2: State)
    requires steps != [] && Next(s, steps[0]) == s2
    ensures Exec(s, steps) == Exec(s2, steps[1..])
    ensures |steps| == 1 ==> Exec(s, steps) == s2
  {
  }
}
