/**
 * The failover store (pkg/kv/failover.go) as a state machine over the atomic steps of its
 * goroutines: demotions, promotion handlers, probe loops and Close.
 */
module Failover {
  import opened Options

  datatype Backend = Primary | Fallback

  /** A probe goroutine: between pings, after a good ping, after signalling, after closing probeDone. */
  datatype Loop = Probing | Healthy | Signalled | Done

  /** A promotion handler: in its select, holding a signal, past its check, past its switch. */
  datatype Handler = Waiting | Taken | Switching | Switched | Exited

  /** Who holds the mutex, and where: a demotion, or a stop (by a handler or by Close). */
  datatype Mutex = Free | Demoting | Demoted | StoppingFor(handler: nat) | StoppingForClose

  /**
   * `loops` and `closes` hold one entry per probe goroutine ever started; `closes` counts how
   * often its stop channel was closed. The fields probeStop and probeDone belong to the last one.
   * `mixed` is whether the two stores have different concrete types: an atomic.Value panics when a
   * value of another type than the first is stored in it.
   */
  datatype State = State(
    active: Backend, probing: bool, loops: seq<Loop>, closes: seq<nat>,
    promote: bool, closed: bool, handlers: seq<Handler>, mutex: Mutex, mixed: bool)

  datatype Step =
    | DemoteLock | DemoteStore | DemoteStart
    | PingOk(loop: nat) | Signal(loop: nat) | LoopExit(loop: nat)
    | Take(handler: nat) | Check(handler: nat) | Switch(handler: nat) | StopBegin(handler: nat)
    | StopEnd
    | HandlerExit(handler: nat)
    | CloseSignal | CloseStop

  /**
   * The two constructors: on the primary with one promotion handler, or on the fallback with a
   * probe loop and a second handler. None when storing the fallback panics.
   */
  function NewStore(onFallback: bool, mixed: bool): Option<State> {
    if !onFallback then Some(State(Primary, false, [], [], false, false, [Waiting], Free, mixed))
    else if mixed then None
    else Some(State(Fallback, true, [Probing], [0], false, false, [Waiting, Waiting], Free, mixed))
  }

  predicate Enabled(s: State, step: Step) {
    match step
    case DemoteLock => s.mutex.Free?
    case DemoteStore => s.mutex.Demoting?
    case DemoteStart => s.mutex.Demoted?
    case PingOk(g) => g < |s.loops| && s.loops[g].Probing?
    case Signal(g) => g < |s.loops| && s.loops[g].Healthy?
    case LoopExit(g) =>
      g < |s.loops| && g < |s.closes|
      && (s.loops[g].Signalled? || (s.loops[g].Probing? && (s.closed || s.closes[g] > 0)))
    case Take(i) => i < |s.handlers| && s.handlers[i].Waiting? && s.promote
    case Check(i) => i < |s.handlers| && s.handlers[i].Taken?
    case Switch(i) => i < |s.handlers| && s.handlers[i].Switching?
    case StopBegin(i) => i < |s.handlers| && s.handlers[i].Switched? && s.mutex.Free?
    case StopEnd =>
      (s.mutex.StoppingFor? || s.mutex.StoppingForClose?) && |s.loops| > 0 && s.loops[|s.loops| - 1].Done?
    case HandlerExit(i) => i < |s.handlers| && s.handlers[i].Waiting? && s.closed
    case CloseSignal => !s.closed
    case CloseStop => s.closed && s.mutex.Free?
  }

  /** stopProbingUnsafe up to its wait: closes the current stop channel if probing. */
  function StopCurrent(s: State, holder: Mutex): State
    requires s.probing && |s.closes| > 0
  {
    var g := |s.closes| - 1;
    s.(closes := s.closes[g := s.closes[g] + 1], mutex := holder)
  }

  /** One step; a step that is not enabled does not happen. */
  function Next(s: State, step: Step): State {
    if !Enabled(s, step) then s
    else match step
      case DemoteLock => if s.active.Fallback? then s else s.(mutex := Demoting)
      case DemoteStore => if s.mixed then s.(mutex := Free) else s.(active := Fallback, mutex := Demoted)
      case DemoteStart =>
        if s.probing then s.(mutex := Free)
        else s.(mutex := Free, probing := true, loops := s.loops + [Probing], closes := s.closes + [0])
      case PingOk(g) => s.(loops := s.loops[g := Healthy])
      case Signal(g) => s.(loops := s.loops[g := Signalled], promote := true)
      case LoopExit(g) => s.(loops := s.loops[g := Done])
      case Take(i) => s.(handlers := s.handlers[i := Taken], promote := false)
      case Check(i) => s.(handlers := s.handlers[i := if s.active.Primary? then Waiting else Switching])
      case Switch(i) => s.(handlers := s.handlers[i := Switched], active := Primary)
      case StopBegin(i) =>
        if s.probing && |s.closes| > 0 then StopCurrent(s, StoppingFor(i))
        else s.(handlers := s.handlers[i := Waiting])
      case StopEnd =>
        s.(probing := false, mutex := Free,
           handlers := if s.mutex.StoppingFor? && s.mutex.handler < |s.handlers|
                       then s.handlers[s.mutex.handler := Waiting] else s.handlers)
      case HandlerExit(i) => s.(handlers := s.handlers[i := Exited])
      case CloseSignal => s.(closed := true)
      case CloseStop => if s.probing && |s.closes| > 0 then StopCurrent(s, StoppingForClose) else s
  }

  function Run(s: State, steps: seq<Step>): State {
    if steps == [] then s else Next(Run(s, steps[..|steps| - 1]), steps[|steps| - 1])
  }

  // ---------- Every interleaving ----------

  /** What the mutex protects, in every interleaving. */
  predicate Disciplined(s: State) {
    && |s.closes| == |s.loops|
    && (s.probing ==> |s.loops| > 0)
    && (forall g :: 0 <= g < |s.loops| && (g < |s.loops| - 1 || !s.probing) ==> s.loops[g].Done?)
    && (forall g :: 0 <= g < |s.loops| ==> s.closes[g] <= 1)
    && (s.mutex.StoppingFor? || s.mutex.StoppingForClose? ==> s.probing)
    && (s.probing && !(s.mutex.StoppingFor? || s.mutex.StoppingForClose?) ==> s.closes[|s.loops| - 1] == 0)
    && (s.mutex.StoppingFor? ==>
          s.mutex.handler < |s.handlers| && s.handlers[s.mutex.handler].Switched?)
  }

  lemma NextDisciplined(s: State, step: Step)
    requires Disciplined(s)
    ensures Disciplined(Next(s, step))
  {
    if step.StopEnd? || step.StopBegin? || step.CloseStop? {
      StopDisciplined(s, step);
    }
  }

  lemma StopDisciplined(s: State, step: Step)
    requires Disciplined(s) && (step.StopEnd? || step.StopBegin? || step.CloseStop?)
    ensures Disciplined(Next(s, step))
  {
  }

  /** In every interleaving at most one probe goroutine is live, and no stop channel is closed twice. */
  lemma {:induction false} RunDisciplined(s: State, steps: seq<Step>)
    requires Disciplined(s)
    ensures Disciplined(Run(s, steps))
    ensures var t := Run(s, steps);
      && (forall g, h :: 0 <= g < h < |t.loops| ==> t.loops[g].Done? || t.loops[h].Done?)
      && (forall g :: 0 <= g < |t.closes| ==> t.closes[g] <= 1)
  {
    if steps != [] {
      RunDisciplined(s, steps[..|steps| - 1]);
      NextDisciplined(Run(s, steps[..|steps| - 1]), steps[|steps| - 1]);
    }
  }

  // ---------- Recovery ----------

  function Carriers(hs: seq<Handler>): nat {
    if hs == [] then 0
    else Carriers(hs[..|hs| - 1]) + if hs[|hs| - 1].Taken? || hs[|hs| - 1].Switching? then 1 else 0
  }

  function Switchers(hs: seq<Handler>): nat {
    if hs == [] then 0 else Switchers(hs[..|hs| - 1]) + if hs[|hs| - 1].Switched? then 1 else 0
  }

  lemma {:induction false} CountUpdate(hs: seq<Handler>, i: nat, h: Handler)
    requires i < |hs|
    ensures Carriers(hs[i := h]) == Carriers(hs) - Carriers([hs[i]]) + Carriers([h])
    ensures Switchers(hs[i := h]) == Switchers(hs) - Switchers([hs[i]]) + Switchers([h])
  {
    var n := |hs| - 1;
    assert [hs[i]][..0] == [] && [h][..0] == [];
    if i < n {
      CountUpdate(hs[..n], i, h);
      assert hs[i := h][..n] == hs[..n][i := h];
    } else {
      assert hs[i := h][..n] == hs[..n];
    }
  }

  lemma {:induction false} CountAtLeast(hs: seq<Handler>, i: nat)
    requires i < |hs|
    ensures Carriers(hs) >= Carriers([hs[i]]) && Switchers(hs) >= Switchers([hs[i]])
  {
    CountUpdate(hs, i, Waiting);
    assert Carriers([Waiting]) == 0 by { assert [Waiting][..0] == []; }
    assert Switchers([Waiting]) == 0 by { assert [Waiting][..0] == []; }
  }

  /** Promotion signals under way: in the channel, or taken by a handler that has not switched yet. */
  function Signals(s: State): nat {
    Carriers(s.handlers) + if s.promote then 1 else 0
  }

  predicate LoopLive(s: State) {
    |s.loops| > 0 && (s.loops[|s.loops| - 1].Probing? || s.loops[|s.loops| - 1].Healthy?)
  }

  /**
   * What polite runs keep while the store is open: on the primary nothing is under way, on the
   * fallback exactly one of a live probe loop and a promotion signal is.
   */
  predicate OnTrack(s: State) {
    && Disciplined(s)
    && !s.mutex.StoppingForClose?
    && (s.mutex.Demoting? ==> s.active.Primary?)
    && (s.mutex.Demoted? ==> s.active.Fallback?)
    && if s.active.Primary? then
         && !LoopLive(s) && Signals(s) == 0
         && Switchers(s.handlers) == (if s.probing then 1 else 0)
         && (s.mutex.Demoting? ==> !s.probing)
       else
         && Switchers(s.handlers) == 0
         && if s.mutex.Demoted? then !s.probing && Signals(s) == 0
            else s.probing && Signals(s) == (if LoopLive(s) then 0 else 1)
  }

  /** No demotion takes effect while a handler is between its switch to the primary and its stop. */
  predicate Polite(s: State, step: Step) {
    step.DemoteLock? && s.mutex.Free? && s.active.Primary? ==> Switchers(s.handlers) == 0
  }

  predicate PoliteRun(s: State, steps: seq<Step>) {
    steps == [] ||
    (PoliteRun(s, steps[..|steps| - 1]) && Polite(Run(s, steps[..|steps| - 1]), steps[|steps| - 1]))
  }

  /** An open store on its fallback still has a way back. */
  predicate CanRecover(s: State) {
    s.active.Fallback? && !s.closed ==> LoopLive(s) || Signals(s) > 0 || s.mutex.Demoted?
  }

  lemma NextOnTrack(s: State, step: Step)
    requires OnTrack(s) && !s.closed && Polite(s, step)
    ensures OnTrack(Next(s, step))
  {
    NextDisciplined(s, step);
    if Enabled(s, step) {
      match step
      case Take(i) => HandlerMoves(s.handlers, i, Taken);
      case Check(i) =>
        HandlerMoves(s.handlers, i, Waiting);
        HandlerMoves(s.handlers, i, Switching);
      case Switch(i) => HandlerMoves(s.handlers, i, Switched);
      case StopBegin(i) => HandlerMoves(s.handlers, i, Waiting);
      case StopEnd => HandlerMoves(s.handlers, s.mutex.handler, Waiting);
      case LoopExit(g) =>
        if s.mutex.StoppingFor? {
          CountAtLeast(s.handlers, s.mutex.handler);
        }
      case _ =>
    }
  }

  lemma HandlerMoves(hs: seq<Handler>, i: nat, h: Handler)
    requires i < |hs|
    ensures Carriers(hs[i := h]) == Carriers(hs) - (if hs[i].Taken? || hs[i].Switching? then 1 else 0)
                                    + (if h.Taken? || h.Switching? then 1 else 0)
    ensures Switchers(hs[i := h]) == Switchers(hs) - (if hs[i].Switched? then 1 else 0)
                                     + (if h.Switched? then 1 else 0)
    ensures Carriers(hs) >= (if hs[i].Taken? || hs[i].Switching? then 1 else 0)
    ensures Switchers(hs) >= (if hs[i].Switched? then 1 else 0)
  {
    CountUpdate(hs, i, h);
    CountAtLeast(hs, i);
    assert [hs[i]][..0] == [] && [h][..0] == [];
  }

  lemma OnTrackRecovers(s: State)
    requires s.closed || OnTrack(s)
    ensures CanRecover(s)
  {
  }

  /** Closing is for good, and the stores stay what they are. */
  lemma NextKeeps(s: State, step: Step)
    ensures s.closed ==> Next(s, step).closed
    ensures Next(s, step).mixed == s.mixed
    ensures s.mixed && s.active.Primary? ==> Next(s, step).active.Primary?
  {
  }

  /** In every polite run, an open store on its fallback is probing or about to be promoted. */
  lemma {:induction false} PoliteRunRecovers(s: State, steps: seq<Step>)
    requires OnTrack(s) && !s.closed && PoliteRun(s, steps)
    ensures Run(s, steps).closed || OnTrack(Run(s, steps))
    ensures CanRecover(Run(s, steps))
  {
    hide Next, OnTrack, CanRecover, Polite;
    if steps != [] {
      var n := |steps| - 1;
      var t := Run(s, steps[..n]);
      PoliteRunRecovers(s, steps[..n]);
      NextKeeps(t, steps[n]);
      if !t.closed {
        NextOnTrack(t, steps[n]);
      }
    }
    OnTrackRecovers(Run(s, steps));
  }

  lemma NewStoresOnTrack(onFallback: bool, mixed: bool)
    ensures NewStore(onFallback, mixed).None? <==> onFallback && mixed
    ensures NewStore(onFallback, mixed).Some? ==>
      var s := NewStore(onFallback, mixed).value; OnTrack(s) && !s.closed && s.mixed == mixed
  {
  }

  /** Two stores of different concrete types never fail over: every demotion panics. */
  lemma {:induction false} MixedNeverFailsOver(s: State, steps: seq<Step>)
    requires s.mixed && s.active.Primary?
    ensures Run(s, steps).mixed && Run(s, steps).active.Primary?
  {
    if steps != [] {
      hide Next;
      MixedNeverFailsOver(s, steps[..|steps| - 1]);
      NextKeeps(Run(s, steps[..|steps| - 1]), steps[|steps| - 1]);
    }
  }

  // ---------- The demotion that strands the store ----------

  /** On the fallback with nothing under way that could lead back. */
  predicate Stranded(s: State) {
    && Disciplined(s)
    && s.active.Fallback? && !s.probing && Signals(s) == 0 && Switchers(s.handlers) == 0
    && s.mutex.Free?
  }

  /** Nothing that happens afterwards leads back. */
  lemma {:induction false} StrandedForever(s: State, steps: seq<Step>)
    requires Stranded(s)
    ensures Stranded(Run(s, steps))
  {
    if steps != [] {
      var n := |steps| - 1;
      StrandedForever(s, steps[..n]);
      var t := Run(s, steps[..n]);
      if Enabled(t, steps[n]) {
        match steps[n]
        case Check(i) => HandlerMoves(t.handlers, i, Waiting);
        case Switch(i) => HandlerMoves(t.handlers, i, Switched);
        case StopBegin(i) => HandlerMoves(t.handlers, i, Waiting);
        case HandlerExit(i) => HandlerMoves(t.handlers, i, Exited);
        case _ =>
      }
    }
  }

  /**
   * A demotion has met a handler between its switch and its stop: the probe it would have started
   * is taken for running, and nothing that leads back is under way.
   */
  predicate Doomed(s: State) {
    && Disciplined(s) && !s.mixed && !LoopLive(s) && Signals(s) == 0
    && (s.mutex.Demoting? ==> s.active.Primary? && s.probing)
    && (!s.mutex.Demoting? ==> s.active.Fallback?)
    && (s.mutex.Demoted? ==> s.probing)
  }

  lemma NextDoomed(s: State, step: Step)
    requires Doomed(s)
    ensures Doomed(Next(s, step))
  {
    NextDisciplined(s, step);
    if Enabled(s, step) {
      match step
      case Check(i) => HandlerMoves(s.handlers, i, Waiting);
      case Switch(i) => HandlerMoves(s.handlers, i, Switched);
      case StopBegin(i) => HandlerMoves(s.handlers, i, Waiting);
      case HandlerExit(i) => HandlerMoves(s.handlers, i, Exited);
      case StopEnd =>
        if s.mutex.StoppingFor? {
          HandlerMoves(s.handlers, s.mutex.handler, Waiting);
        }
      case _ =>
    }
  }

  lemma ImpoliteDooms(s: State, step: Step)
    requires OnTrack(s) && !s.mixed && !Polite(s, step)
    ensures Doomed(Next(s, step))
  {
    NextDisciplined(s, step);
  }

  /** Every open state of a run is on track or doomed, by whether all its demotions were polite. */
  lemma {:induction false} TrackedOrDoomed(s: State, steps: seq<Step>)
    requires OnTrack(s) && !s.closed && !s.mixed
    ensures var t := Run(s, steps);
      !t.mixed && (!t.closed ==> if PoliteRun(s, steps) then OnTrack(t) else Doomed(t))
  {
    hide Next, OnTrack, Doomed, Polite;
    if steps != [] {
      var n := |steps| - 1;
      var u := Run(s, steps[..n]);
      TrackedOrDoomed(s, steps[..n]);
      NextKeeps(u, steps[n]);
      if !u.closed {
        if !PoliteRun(s, steps[..n]) {
          NextDoomed(u, steps[n]);
        } else if Polite(u, steps[n]) {
          NextOnTrack(u, steps[n]);
        } else {
          ImpoliteDooms(u, steps[n]);
        }
      }
    }
  }

  /**
   * Whenever no demotion is half done, an open store has a way back exactly when every demotion so
   * far was polite. One impolite demotion, whatever happens around it, is one too many.
   */
  lemma RunRecoversIff(s: State, steps: seq<Step>)
    requires OnTrack(s) && !s.closed && !s.mixed
    ensures var t := Run(s, steps);
      !t.closed && !t.mutex.Demoting? && !t.mutex.Demoted? ==> (CanRecover(t) <==> PoliteRun(s, steps))
  {
    TrackedOrDoomed(s, steps);
  }

  /** The same for one demotion that nothing comes between. */
  lemma DemotionRecoversIff(s: State)
    requires OnTrack(s) && !s.closed && !s.mixed && s.active.Primary? && s.mutex.Free?
    ensures CanRecover(Next(Next(Next(s, DemoteLock), DemoteStore), DemoteStart)) <==> Polite(s, DemoteLock)
  {
  }

  function LastLoop(s: State): nat {
    if s.loops == [] then 0 else |s.loops| - 1
  }

  /** The steps of a demotion that meets handler i between its switch and its stop. */
  function Collision(s: State, i: nat): seq<Step> {
    [DemoteLock, DemoteStore, DemoteStart, StopBegin(i), LoopExit(LastLoop(s)), StopEnd]
  }

  /** Whenever a demotion is impolite, the store can end up on its fallback for good. */
  lemma ImpoliteDemotionStrands(s: State, i: nat)
    requires OnTrack(s) && !s.mixed && s.mutex.Free? && i < |s.handlers| && s.handlers[i].Switched?
    ensures !Polite(s, DemoteLock)
    ensures Stranded(Run(s, Collision(s, i)))
  {
    HandlerMoves(s.handlers, i, Waiting);
    RunSix(s, Collision(s, i));
    var demoted := UnprobedDemotion(s);
    var stopped := StopRuns(demoted, i);
    StoppedStranded(s, i, stopped);
  }

  lemma UnprobedDemotion(s: State) returns (t: State)
    requires s.active.Primary? && s.mutex.Free? && s.probing && !s.mixed
    ensures t == Next(Next(Next(s, DemoteLock), DemoteStore), DemoteStart)
    ensures t == s.(active := Fallback)
  {
    t := s.(active := Fallback);
  }

  lemma StopRuns(s: State, i: nat) returns (t: State)
    requires s.mutex.Free? && s.probing && i < |s.handlers| && s.handlers[i].Switched?
    requires |s.loops| == |s.closes| > 0
    requires s.loops[LastLoop(s)].Signalled? || s.loops[LastLoop(s)].Done?
    ensures t == Next(Next(Next(s, StopBegin(i)), LoopExit(LastLoop(s))), StopEnd)
    ensures var g := LastLoop(s);
      t == s.(probing := false, loops := s.loops[g := Done], closes := s.closes[g := s.closes[g] + 1],
              handlers := s.handlers[i := Waiting])
  {
    var g := LastLoop(s);
    var stopping := Next(s, StopBegin(i));
    assert stopping == s.(closes := s.closes[g := s.closes[g] + 1], mutex := StoppingFor(i));
    var exited := Next(stopping, LoopExit(g));
    assert exited == stopping.(loops := s.loops[g := Done]);
    t := Next(exited, StopEnd);
  }

  lemma StoppedStranded(s: State, i: nat, t: State)
    requires OnTrack(s) && s.active.Primary? && s.probing && s.mutex.Free?
    requires i < |s.handlers| && s.handlers[i].Switched?
    requires Carriers(s.handlers[i := Waiting]) == 0 && Switchers(s.handlers[i := Waiting]) == 0
    requires var g := LastLoop(s);
      t == s.(active := Fallback, probing := false, loops := s.loops[g := Done],
              closes := s.closes[g := s.closes[g] + 1], handlers := s.handlers[i := Waiting])
    ensures Stranded(t)
  {
    hide Carriers, Switchers;
  }

  lemma RunSix(s: State, c: seq<Step>)
    requires |c| == 6
    ensures Run(s, c) == Next(Next(Next(Next(Next(Next(s, c[0]), c[1]), c[2]), c[3]), c[4]), c[5])
  {
    assert c[..5][..4] == c[..4] && c[..4][..3] == c[..3] && c[..3][..2] == c[..2] && c[..2][..1] == c[..1]
        && c[..1][..0] == [];
    assert Run(s, c[..1]) == Next(s, c[0]);
    assert Run(s, c[..2]) == Next(Run(s, c[..1]), c[1]);
    assert Run(s, c[..3]) == Next(Run(s, c[..2]), c[2]);
    assert Run(s, c[..4]) == Next(Run(s, c[..3]), c[3]);
    assert Run(s, c[..5]) == Next(Run(s, c[..4]), c[4]);
  }

  /** One whole failover and recovery up to the switch: the window is reached in every life cycle. */
  function Recovery(s: State, i: nat): seq<Step> {
    var g := |s.loops|;
    [DemoteLock, DemoteStore, DemoteStart, PingOk(g), Signal(g), Take(i), Check(i), Switch(i)]
  }

  lemma WindowIsReachable(s: State, i: nat)
    requires OnTrack(s) && !s.closed && !s.mixed && s.active.Primary? && s.mutex.Free? && !s.probing
    requires i < |s.handlers| && s.handlers[i].Waiting?
    ensures var t := Run(s, Recovery(s, i));
      OnTrack(t) && t.mutex.Free? && i < |t.handlers| && t.handlers[i].Switched?
  {
    RunEight(s, Recovery(s, i));
    var probing := DemotionRuns(s);
    var pending := PingRuns(probing, |s.loops|);
    PromotionRuns(pending, i);
    HandlerMoves(s.handlers, i, Switched);
    hide Next, Run, Carriers, Switchers;
  }

  lemma RunEight(s: State, c: seq<Step>)
    requires |c| == 8
    ensures Run(s, c)
         == Next(Next(Next(Next(Next(Next(Next(Next(s, c[0]), c[1]), c[2]), c[3]), c[4]), c[5]), c[6]), c[7])
  {
    RunSix(s, c[..6]);
    assert c[..7][..6] == c[..6] && c[..8][..7] == c[..7] && c[..8] == c;
    assert Run(s, c[..7]) == Next(Run(s, c[..6]), c[6]);
  }

  lemma DemotionRuns(s: State) returns (t: State)
    requires s.active.Primary? && s.mutex.Free? && !s.probing && !s.mixed
    ensures t == Next(Next(Next(s, DemoteLock), DemoteStore), DemoteStart)
    ensures t == s.(active := Fallback, probing := true, loops := s.loops + [Probing], closes := s.closes + [0])
  {
    t := s.(active := Fallback, probing := true, loops := s.loops + [Probing], closes := s.closes + [0]);
  }

  lemma PingRuns(s: State, g: nat) returns (t: State)
    requires |s.loops| == g + 1 && s.loops[g].Probing?
    ensures t == Next(Next(s, PingOk(g)), Signal(g))
    ensures t == s.(loops := s.loops[g := Signalled], promote := true)
  {
    t := s.(loops := s.loops[g := Signalled], promote := true);
    assert s.loops[g := Healthy][g := Signalled] == s.loops[g := Signalled];
  }

  lemma PromotionRuns(s: State, i: nat)
    requires s.active.Fallback? && s.promote && i < |s.handlers| && s.handlers[i].Waiting?
    ensures Next(Next(Next(s, Take(i)), Check(i)), Switch(i))
         == s.(promote := false, active := Primary, handlers := s.handlers[i := Switched])
  {
  }
}
