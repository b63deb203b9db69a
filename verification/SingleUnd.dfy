/**
 * SingleUnd and the listener's pendingEv: any number of callers store an event and call Do, a background thread is
 * started on demand and runs fn, which loads the latest event and hands it to onChangeFn.
 */
module SingleUnd {
  /** Where a background thread is: about to call fn, inside onChangeFn with an event, or back from fn. */
  datatype Pc = Ready | Handing(ev: int) | Back

  /** Events are numbered in the order they are stored. `owed` callers have stored and not yet called Do; `unserved`:
      some Do has returned and no run of fn has started since. */
  datatype State = State(
    stored: nat, owed: nat, isRunning: bool, hasMoreCall: bool, threads: seq<Pc>, handed: seq<int>, unserved: bool)

  function Init(): State { State(0, 0, false, false, [], [], false) }

  datatype Step = Store | Do | Load(i: int) | Return(i: int) | Loop(i: int)

  /** The locked section of Do, and the thread it may start. */
  function DoStep(s: State): State {
    if s.hasMoreCall then s.(unserved := true)
    else if s.isRunning then s.(hasMoreCall := true, unserved := true)
    else s.(isRunning := true, threads := s.threads + [Ready], unserved := true)
  }

  /** fn up to the call of onChangeFn; without an event it returns at once. */
  function LoadStep(s: State, i: int): State
    requires 0 <= i < |s.threads|
  {
    if s.stored == 0 then s.(threads := s.threads[i := Back], unserved := false)
    else
      var ev := s.stored - 1;
      s.(threads := s.threads[i := Handing(ev)], handed := s.handed + [ev], unserved := false)
  }

  /** The locked section after fn. */
  function LoopStep(s: State, i: int): State
    requires 0 <= i < |s.threads|
  {
    if !s.hasMoreCall then s.(isRunning := false, threads := s.threads[..i] + s.threads[i + 1..])
    else s.(hasMoreCall := false, threads := s.threads[i := Ready])
  }

  predicate At(s: State, i: int, pc: Pc) { 0 <= i < |s.threads| && s.threads[i] == pc }

  function Next(s: State, step: Step): State {
    match step
    case Store => s.(stored := s.stored + 1, owed := s.owed + 1)
    case Do => if s.owed > 0 then DoStep(s.(owed := s.owed - 1)) else s
    case Load(i) => if At(s, i, Ready) then LoadStep(s, i) else s
    case Return(i) => if 0 <= i < |s.threads| && s.threads[i].Handing? then s.(threads := s.threads[i := Back]) else s
    case Loop(i) => if At(s, i, Back) then LoopStep(s, i) else s
  }

  function Exec(s: State, steps: seq<Step>): State
    decreases |steps|
  {
    if steps == [] then s else Exec(Next(s, steps[0]), steps[1..])
  }

  predicate Sorted(handed: seq<int>) {
    forall i, j :: 0 <= i < j < |handed| ==> handed[i] <= handed[j]
  }

  /** The latest event has been handed over. */
  predicate UpToDate(s: State) {
    s.stored == 0 || (s.handed != [] && s.handed[|s.handed| - 1] == s.stored - 1)
  }

  /** One thread exactly while running; an unserved Do has a run ahead of it; a newer event has a Do ahead of it. */
  predicate Inv(s: State) {
    && |s.threads| == (if s.isRunning then 1 else 0)
    && (s.hasMoreCall ==> s.isRunning)
    && (s.unserved ==> s.hasMoreCall || s.threads == [Ready])
    && (!UpToDate(s) ==> s.owed > 0 || s.unserved)
    && (forall ev :: ev in s.handed ==> 0 <= ev < s.stored)
    && Sorted(s.handed)
  }

  lemma LoadKeepsInv(s: State, i: int)
    requires Inv(s) && At(s, i, Ready)
    ensures Inv(LoadStep(s, i))
  {
    if s.stored > 0 {
      var ev := s.stored - 1;
      forall k | 0 <= k < |s.handed| ensures s.handed[k] <= ev {
        assert s.handed[k] in s.handed;
      }
    }
  }

  lemma StepKeepsInv(s: State, step: Step)
    requires Inv(s)
    ensures Inv(Next(s, step))
  {
    if step.Load? && At(s, step.i, Ready) {
      LoadKeepsInv(s, step.i);
    }
  }

  lemma {:induction false} RunsKeepInv(s: State, steps: seq<Step>)
    requires Inv(s)
    ensures Inv(Exec(s, steps))
    decreases |steps|
  {
    if steps != [] {
      StepKeepsInv(s, steps[0]);
      RunsKeepInv(Next(s, steps[0]), steps[1..]);
    }
  }

  /** Under every interleaving: never two runs of fn at once, and events are handed over in the order of storing,
      with repeats and gaps but never backwards. */
  lemma NeverTwoAndNeverBack(steps: seq<Step>)
    ensures var s := Exec(Init(), steps);
      |s.threads| <= 1 && Sorted(s.handed) && forall ev :: ev in s.handed ==> 0 <= ev < s.stored
  {
    RunsKeepInv(Init(), steps);
  }

  /** Calls of Do, and runs of fn begun, in a run. */
  function Calls(s: State, steps: seq<Step>): nat
    decreases |steps|
  {
    if steps == [] then 0
    else (if steps[0].Do? && s.owed > 0 then 1 else 0) + Calls(Next(s, steps[0]), steps[1..])
  }

  function Begun(s: State, steps: seq<Step>): nat
    decreases |steps|
  {
    if steps == [] then 0
    else (if steps[0].Load? && At(s, steps[0].i, Ready) then 1 else 0) + Begun(Next(s, steps[0]), steps[1..])
  }

  /** Runs of fn still to begin. */
  function Due(s: State): nat {
    (if s.threads == [Ready] then 1 else 0) + (if s.hasMoreCall then 1 else 0)
  }

  /** fn is never run without being asked for: no more runs begin than Do is called, whatever the interleaving. */
  lemma {:induction false} RunsAreAskedFor(s: State, steps: seq<Step>)
    requires Inv(s)
    ensures Begun(s, steps) + Due(Exec(s, steps)) <= Due(s) + Calls(s, steps)
    decreases |steps|
  {
    if steps != [] {
      StepKeepsInv(s, steps[0]);
      RunsAreAskedFor(Next(s, steps[0]), steps[1..]);
    }
  }

  // ---------------------------------------------------------------- progress

  function PcWork(pc: Pc): nat {
    match pc case Ready => 3 case Handing(_) => 2 case Back => 1
  }

  /** Steps of the background thread until it ends, if nobody calls Do in between. */
  function Work(s: State): nat {
    (if s.threads == [] then 0 else PcWork(s.threads[0])) + (if s.hasMoreCall then 3 else 0)
  }

  /** The background thread's next step. */
  function Turn(s: State): Step
    requires s.threads != []
  {
    match s.threads[0] case Ready => Load(0) case Handing(_) => Return(0) case Back => Loop(0)
  }

  lemma TurnDecreasesWork(s: State)
    requires Inv(s) && s.threads != []
    ensures var s2 := Next(s, Turn(s)); Work(s2) < Work(s) && s2.owed == s.owed && s2.stored == s.stored
  {
  }

  /**
   * Once every caller is through with Do, at most six turns of the background thread end it, and the last event
   * stored has then been handed over; the run that did so started after the Do that asked for it.
   */
  lemma {:induction false} LastEventIsHandedOver(s: State) returns (steps: seq<Step>)
    requires Inv(s) && s.owed == 0
    ensures |steps| <= Work(s) <= 6 && (forall i :: 0 <= i < |steps| ==> !steps[i].Store? && !steps[i].Do?)
    ensures var s2 := Exec(s, steps);
      !s2.isRunning && !s2.unserved && UpToDate(s2) && s2.stored == s.stored && s.handed <= s2.handed
    decreases Work(s)
  {
    if s.threads == [] {
      return [];
    }
    var step := Turn(s);
    TurnDecreasesWork(s);
    StepKeepsInv(s, step);
    steps := LastEventIsHandedOver(Next(s, step));
    steps := [step] + steps;
  }

  // ---------------------------------------------------------------- the object

  class Runner {
    var isRunning: bool
    var hasMoreCall: bool
    ghost var state: State

    constructor ()
      ensures Valid() && state == Init()
    {
      isRunning, hasMoreCall, state := false, false, Init();
    }

    ghost predicate Valid()
      reads this
    {
      isRunning == state.isRunning && hasMoreCall == state.hasMoreCall && Inv(state)
    }

    /** Returns whether a background thread is to be started. */
    method Do() returns (start: bool)
      requires Valid() && state.owed > 0
      modifies this
      ensures Valid() && state == Next(old(state), Step.Do)
      ensures start <==> |state.threads| > |old(state).threads|
    {
      StepKeepsInv(state, Step.Do);
      state := Next(state, Step.Do);
      if hasMoreCall {
        return false;
      }
      if isRunning && !hasMoreCall {
        hasMoreCall := true;
        return false;
      }
      isRunning := true;
      return true;
    }

    /** The section of runBgThread after fn; returns whether to run fn once more. */
    method AfterRun() returns (again: bool)
      requires Valid() && state.threads == [Back]
      modifies this
      ensures Valid() && state == Next(old(state), Loop(0)) && (again <==> state.threads == [Ready])
    {
      StepKeepsInv(state, Loop(0));
      state := Next(state, Loop(0));
      if !hasMoreCall {
        isRunning := false;
        return false;
      }
      hasMoreCall := false;
      return true;
    }
  }
}
