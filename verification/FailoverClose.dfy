/** Closing the failover store: however its goroutines stand, they can all end without waiting on each other. */
module FailoverClose {
  import opened Options
  import opened Failover
  import opened FailoverReturn

  /** Every probe loop and every handler has ended, and nobody holds the mutex. */
  predicate Ended(s: State) {
    && (forall g :: 0 <= g < |s.loops| ==> s.loops[g].Done?)
    && (forall i :: 0 <= i < |s.handlers| ==> s.handlers[i].Exited?)
    && s.mutex.Free?
  }

  /** Steps that end something; no new call on the store, and no further ping or signal taken. */
  predicate Ending(step: Step) {
    !step.DemoteLock? && !step.CloseSignal? && !step.CloseStop? && !step.PingOk? && !step.Take?
  }

  // ---------- How much is left to do ----------

  function HandlerWeight(h: Handler): nat {
    match h
    case Taken => 6
    case Switching => 5
    case Switched => 4
    case Waiting => 1
    case Exited => 0
  }

  function HandlersWeight(hs: seq<Handler>): nat {
    if hs == [] then 0 else HandlersWeight(hs[..|hs| - 1]) + HandlerWeight(hs[|hs| - 1])
  }

  function LoopWeight(s: State): nat {
    if s.loops == [] then 0
    else
      match s.loops[|s.loops| - 1]
      case Healthy => 2
      case Probing => 1
      case Signalled => 1
      case Done => 0
  }

  function MutexWeight(m: Mutex): nat {
    match m
    case Demoting => 5
    case Demoted => 4
    case StoppingForClose => 3
    case Free => 2
    case StoppingFor(_) => 1
  }

  function Weight(s: State): nat {
    HandlersWeight(s.handlers) + LoopWeight(s) + MutexWeight(s.mutex)
  }

  lemma {:induction false} HandlersWeightUpdate(hs: seq<Handler>, i: nat, h: Handler)
    requires i < |hs|
    ensures HandlersWeight(hs[i := h]) == HandlersWeight(hs) - HandlerWeight(hs[i]) + HandlerWeight(h)
  {
    var n := |hs| - 1;
    if i < n {
      HandlersWeightUpdate(hs[..n], i, h);
      assert hs[i := h][..n] == hs[..n][i := h];
    } else {
      assert hs[i := h][..n] == hs[..n];
    }
  }

  /** As long as something has not ended, some ending step is possible and leaves less to do. */
  lemma Progress(s: State) returns (step: Step)
    requires Disciplined(s) && s.closed && !Ended(s)
    ensures Ending(step) && Weight(Next(s, step)) < Weight(s)
  {
    hide HandlersWeight;
    var g := |s.loops| - 1;
    if g >= 0 && !s.loops[g].Done? {
      step := if s.loops[g].Healthy? then Signal(g) else LoopExit(g);
    } else if s.mutex.Demoting? {
      step := DemoteStore;
    } else if s.mutex.Demoted? {
      step := DemoteStart;
    } else if !s.mutex.Free? {
      step := StopEnd;
      if s.mutex.StoppingFor? {
        HandlersWeightUpdate(s.handlers, s.mutex.handler, Waiting);
      }
    } else {
      step := HandlerProgress(s);
    }
  }

  lemma HandlerProgress(s: State) returns (step: Step)
    requires Disciplined(s) && s.closed && !Ended(s) && s.mutex.Free?
    requires forall g :: 0 <= g < |s.loops| ==> s.loops[g].Done?
    ensures Ending(step) && Weight(Next(s, step)) < Weight(s)
  {
    hide HandlersWeight;
    var i :| 0 <= i < |s.handlers| && !s.handlers[i].Exited?;
    match s.handlers[i]
    case Waiting =>
      step := HandlerExit(i);
      HandlersWeightUpdate(s.handlers, i, Exited);
    case Taken =>
      step := Check(i);
      HandlersWeightUpdate(s.handlers, i, Waiting);
      HandlersWeightUpdate(s.handlers, i, Switching);
    case Switching =>
      step := Switch(i);
      HandlersWeightUpdate(s.handlers, i, Switched);
    case Switched =>
      step := StopBegin(i);
      HandlersWeightUpdate(s.handlers, i, Waiting);
    case Exited =>
  }

  /** Once the store is closed, ending steps alone bring every goroutine to its end: none waits for another forever. */
  lemma {:induction false} ClosingEnds(s: State) returns (steps: seq<Step>)
    requires Disciplined(s) && s.closed
    ensures Ended(Run(s, steps))
    ensures forall i :: 0 <= i < |steps| ==> Ending(steps[i])
    decreases Weight(s)
  {
    hide Next, Weight, Disciplined, Ended, Ending;
    if Ended(s) {
      steps := [];
    } else {
      var step := Progress(s);
      NextDisciplined(s, step);
      NextKeeps(s, step);
      var rest := ClosingEnds(Next(s, step));
      RunAfterStep(s, step, rest);
      steps := [step] + rest;
    }
  }

  /** Close tells the current probe loop to stop, once, and holds the mutex until it has. */
  lemma CloseStopsProbing(s: State)
    requires Disciplined(s) && s.closed && s.mutex.Free?
    ensures var t := Next(s, CloseStop);
      if !s.probing then t == s
      else
        var g := |s.loops| - 1;
        && g >= 0 && t.closes[g] == 1 && s.closes[g] == 0 && !t.mutex.Free?
        && t.loops == s.loops && t.handlers == s.handlers && t.active == s.active
        && (!t.loops[g].Done? ==> Next(t, StopEnd) == t)
        && (t.loops[g].Done? ==> Next(t, StopEnd) == t.(probing := false, mutex := Free))
  {
  }
}
