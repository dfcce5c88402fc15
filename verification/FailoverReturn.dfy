/** Whether an open store on its fallback can still get back to its primary: by actual further steps. */
module FailoverReturn {
  import opened Options
  import opened Failover

  /** Some further steps of the goroutines put the store back on its primary. */
  ghost predicate Returns(s: State) {
    exists steps :: Run(s, steps).active.Primary?
  }

  lemma {:induction false} RunAfterStep(s: State, step: Step, steps: seq<Step>)
    ensures Run(s, [step] + steps) == Run(Next(s, step), steps)
  {
    hide Next;
    if steps == [] {
      assert [step] + steps == [step] && [step][..0] == [];
      assert Run(s, [step][..0]) == s;
    } else {
      var n := |steps| - 1;
      RunAfterStep(s, step, steps[..n]);
      assert ([step] + steps)[..n + 1] == [step] + steps[..n];
    }
  }

  lemma ReturnsAfter(s: State, step: Step)
    requires Returns(Next(s, step))
    ensures Returns(s)
  {
    hide Run, Next;
    var steps :| Run(Next(s, step), steps).active.Primary?;
    RunAfterStep(s, step, steps);
  }

  lemma OnPrimaryReturns(s: State)
    requires s.active.Primary?
    ensures Returns(s)
  {
    assert Run(s, []) == s;
  }

  // ---------- The handlers of an open store ----------

  /** There is a promotion handler, and none has exited before the store was closed. */
  predicate Manned(s: State) {
    s.handlers != [] && (!s.closed ==> forall i :: 0 <= i < |s.handlers| ==> !s.handlers[i].Exited?)
  }

  lemma NextManned(s: State, step: Step)
    requires Manned(s)
    ensures Manned(Next(s, step))
  {
  }

  lemma {:induction false} RunManned(s: State, steps: seq<Step>)
    requires Manned(s)
    ensures Manned(Run(s, steps))
  {
    if steps != [] {
      hide Next, Manned;
      RunManned(s, steps[..|steps| - 1]);
      NextManned(Run(s, steps[..|steps| - 1]), steps[|steps| - 1]);
    }
  }

  lemma NewStoresManned(onFallback: bool, mixed: bool)
    requires NewStore(onFallback, mixed).Some?
    ensures Manned(NewStore(onFallback, mixed).value)
  {
  }

  /** A handler that carries a signal, if there is one. */
  lemma {:induction false} CarrierExists(hs: seq<Handler>) returns (i: nat)
    requires Carriers(hs) > 0
    ensures i < |hs| && (hs[i].Taken? || hs[i].Switching?)
  {
    i := |hs| - 1;
    if !hs[i].Taken? && !hs[i].Switching? {
      i := CarrierExists(hs[..|hs| - 1]);
    }
  }

  lemma NobodyBusyWaits(hs: seq<Handler>)
    requires hs != [] && Carriers(hs) == 0 && Switchers(hs) == 0 && !hs[0].Exited?
    ensures hs[0].Waiting?
  {
    HandlerMoves(hs, 0, Waiting);
  }

  // ---------- The way back ----------

  /** A handler that holds a signal switches. */
  lemma CarrierReturns(s: State, i: nat)
    requires s.active.Fallback? && i < |s.handlers| && (s.handlers[i].Taken? || s.handlers[i].Switching?)
    ensures Returns(s)
  {
    hide Returns;
    if s.handlers[i].Taken? {
      var checked := Next(s, Check(i));
      OnPrimaryReturns(Next(checked, Switch(i)));
      ReturnsAfter(checked, Switch(i));
      ReturnsAfter(s, Check(i));
    } else {
      OnPrimaryReturns(Next(s, Switch(i)));
      ReturnsAfter(s, Switch(i));
    }
  }

  /** A signal in the channel is taken. */
  lemma PromotedReturns(s: State, i: nat)
    requires s.active.Fallback? && s.promote && i < |s.handlers| && s.handlers[i].Waiting?
    ensures Returns(s)
  {
    hide Returns;
    CarrierReturns(Next(s, Take(i)), i);
    ReturnsAfter(s, Take(i));
  }

  /** A live probe loop signals. */
  lemma LiveReturns(s: State, i: nat)
    requires s.active.Fallback? && LoopLive(s) && i < |s.handlers| && s.handlers[i].Waiting?
    ensures Returns(s)
  {
    hide Returns;
    var g := |s.loops| - 1;
    if s.loops[g].Healthy? {
      PromotedReturns(Next(s, Signal(g)), i);
      ReturnsAfter(s, Signal(g));
    } else {
      var pinged := Next(s, PingOk(g));
      PromotedReturns(Next(pinged, Signal(g)), i);
      ReturnsAfter(pinged, Signal(g));
      ReturnsAfter(s, PingOk(g));
    }
  }

  lemma OnTrackReturns(s: State)
    requires OnTrack(s) && Manned(s) && !s.closed && s.active.Fallback? && !s.mutex.Demoted?
    ensures Returns(s)
  {
    hide Returns, Disciplined, Carriers, Switchers, LoopLive;
    if Carriers(s.handlers) > 0 {
      var i := CarrierExists(s.handlers);
      CarrierReturns(s, i);
    } else {
      NobodyBusyWaits(s.handlers);
      if LoopLive(s) {
        LiveReturns(s, 0);
      } else {
        PromotedReturns(s, 0);
      }
    }
  }

  /** From a doomed store on its fallback no steps lead back. */
  lemma {:induction false} DoomedStays(s: State, steps: seq<Step>)
    requires Doomed(s) && s.active.Fallback?
    ensures Doomed(Run(s, steps)) && Run(s, steps).active.Fallback?
  {
    if steps != [] {
      hide Next, Doomed;
      var n := |steps| - 1;
      DoomedStays(s, steps[..n]);
      NextDoomed(Run(s, steps[..n]), steps[n]);
      DoomedKeepsFallback(Run(s, steps[..n]), steps[n]);
    }
  }

  lemma DoomedKeepsFallback(s: State, step: Step)
    requires Doomed(s) && s.active.Fallback?
    ensures Next(s, step).active.Fallback?
  {
    if step.Switch? && Enabled(s, step) {
      HandlerMoves(s.handlers, step.handler, Waiting);
    }
  }

  /**
   * Whenever an open store is on its fallback and no demotion is half done, some further steps bring it
   * back to its primary exactly when every demotion so far was polite.
   */
  lemma RunReturnsIff(s: State, steps: seq<Step>)
    requires OnTrack(s) && Manned(s) && !s.closed && !s.mixed
    ensures var t := Run(s, steps);
      !t.closed && t.active.Fallback? && !t.mutex.Demoted? ==> (Returns(t) <==> PoliteRun(s, steps))
  {
    hide OnTrack, Doomed, Run, Manned;
    var t := Run(s, steps);
    TrackedOrDoomed(s, steps);
    RunManned(s, steps);
    if !t.closed && t.active.Fallback? && !t.mutex.Demoted? {
      if PoliteRun(s, steps) {
        OnTrackReturns(t);
      } else {
        forall more
          ensures Run(t, more).active.Fallback?
        {
          DoomedStays(t, more);
        }
      }
    }
  }

  /** The handlers' look at the active store before they switch never decides: a signal is only held on the fallback. */
  lemma RecheckNeverActs(s: State, steps: seq<Step>, i: nat)
    requires OnTrack(s) && !s.closed && !s.mixed
    requires var t := Run(s, steps);
      !t.closed && i < |t.handlers| && t.handlers[i].Taken?
    ensures Run(s, steps).active.Fallback?
    ensures Next(Run(s, steps), Check(i)).handlers[i].Switching?
  {
    hide Run, Disciplined;
    TrackedOrDoomed(s, steps);
    HandlerMoves(Run(s, steps).handlers, i, Waiting);
  }
}
