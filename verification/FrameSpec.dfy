/** Frames on their way from the sensor processor (LRT) to the MIPI transmitter and back: the
    event thread, the transmitter's callbacks and the callers that start and stop sources, one
    step for each stretch that the locks make atomic. */
module FrameSpec {
  import opened Basics

  const INSTANCES := 3
  const FRAMES_TO_SKIP: nat := 8

  /** What a frame is, by the order in which the LRT emitted it: its output (which is the source
      instance) and its format. */
  datatype Source = Source(inst: nat, format: nat)

  datatype Event = Data(frame: nat) | SourceStopped(inst: nat) | TornDown

  /** The event thread: waiting for an event, holding a frame it has counted in but not yet handed
      to the transmitter, ended by a teardown, or about to be created again. */
  datatype Pc = Waiting | Counted(frame: nat) | Ended | Restarting

  /** A source as its starting and stopping callers see it. */
  datatype Phase = Off | Starting | On | AwaitStopped | Draining

  /** A source as the LRT sees it. */
  datatype Lrt = Quiet | Live | Stopping

  datatype State = State(
    emitted: seq<Source>, events: seq<Event>, pc: Pc, skipFrames: nat,
    waitToSend: seq<int>, sending: set<nat>, returning: set<nat>, checking: set<nat>, clearing: set<nat>,
    sent: multiset<nat>, lost: multiset<nat>,
    phase: seq<Phase>, lrt: seq<Lrt>, stopped: nat, lock: Option<nat>, captureBusy: bool)

  datatype Op =
    // The LRT
    | Emit(inst: nat, format: nat)
    | EmitStopped(inst: nat)
    | EmitTornDown
    // The event thread
    | TakeEvent
    | SendFrame
    | StartLoop
    // A transmitter callback
    | DataWasSent(frame: nat)
    | CountOut(frame: nat)
    | LookBusy(frame: nat)
    | ClearBusy(frame: nat)
    // Callers
    | LosStart
    | StartReset(inst: nat)
    | StartSource(inst: nat)
    | StopSource(inst: nat)
    | StoppedSeen(inst: nat)
    | StopReturns(inst: nat)
    | Capture

  function Init(): State {
    State([], [], Waiting, FRAMES_TO_SKIP, seq(INSTANCES, _ => 0), {}, {}, {}, {}, multiset{}, multiset{},
          seq(INSTANCES, _ => Off), seq(INSTANCES, _ => Quiet), 0, None, false)
  }

  ghost predicate Shaped(s: State) {
    |s.waitToSend| == |s.phase| == |s.lrt| == INSTANCES && forall f | f in s.emitted :: f.inst < INSTANCES
  }

  /** When a step can happen. The LRT emits a source's frames from its start to its stopped event,
      and that event once for each stop; a source is started when off and stopped when on. */
  ghost predicate Enabled(s: State, op: Op)
    requires Shaped(s)
  {
    match op
    case Emit(i, _) => i < INSTANCES && s.lrt[i] != Quiet
    case EmitStopped(i) => i < INSTANCES && s.lrt[i] == Stopping
    case EmitTornDown => true
    case TakeEvent => s.pc == Waiting && s.events != [] && EventKnown(s, s.events[0])
    case SendFrame => s.pc.Counted?
    case StartLoop => s.pc == Restarting
    case DataWasSent(f) => f in s.sending
    case CountOut(f) => f in s.returning && f < |s.emitted|
    case LookBusy(f) => f in s.checking && f < |s.emitted|
    case ClearBusy(f) => f in s.clearing
    case LosStart => s.pc == Ended && s.lock == None
    case StartReset(i) => i < INSTANCES && s.phase[i] == Off
    case StartSource(i) => i < INSTANCES && s.phase[i] == Starting && s.lock == None
    case StopSource(i) => i < INSTANCES && s.phase[i] == On && s.lock == None
    case StoppedSeen(i) => i < INSTANCES && s.phase[i] == AwaitStopped && s.stopped > 0
    case StopReturns(i) => i < INSTANCES && s.phase[i] == Draining && s.waitToSend[i] == 0
    case Capture => !s.captureBusy
  }

  predicate EventKnown(s: State, e: Event) {
    match e
    case Data(f) => f < |s.emitted|
    case SourceStopped(i) => i < INSTANCES
    case TornDown => true
  }

  /** A source other than instance 0 puts out stills. */
  predicate Still(source: Source) { source.inst != 0 }

  ghost function Handled(s: State, e: Event, clients: set<Source>): State
    requires Shaped(s) && EventKnown(s, e)
  {
    match e
    case Data(f) =>
      var i := s.emitted[f].inst;
      if s.skipFrames > 0 then s.(sent := s.sent + multiset{f}, skipFrames := s.skipFrames - 1)
      else if s.emitted[f] !in clients then s.(lost := s.lost + multiset{f})
      else s.(waitToSend := s.waitToSend[i := s.waitToSend[i] + 1], pc := Counted(f))
    case SourceStopped(_) => s.(stopped := s.stopped + 1)
    case TornDown => s.(skipFrames := FRAMES_TO_SKIP, pc := Ended)
  }

  ghost function Step(s: State, op: Op, clients: set<Source>): (after: State)
    requires Shaped(s)
    ensures Shaped(after)
  {
    if !Enabled(s, op) then s else
      match op
      case Emit(i, format) =>
        s.(emitted := s.emitted + [Source(i, format)], events := s.events + [Data(|s.emitted|)])
      case EmitStopped(i) => s.(lrt := s.lrt[i := Quiet], events := s.events + [SourceStopped(i)])
      case EmitTornDown => s.(events := s.events + [TornDown])
      case TakeEvent => Handled(s.(events := s.events[1..]), s.events[0], clients)
      case SendFrame => s.(sending := s.sending + {s.pc.frame}, pc := Waiting)
      case StartLoop => s.(pc := Waiting)
      case DataWasSent(f) =>
        s.(sending := s.sending - {f}, returning := s.returning + {f}, sent := s.sent + multiset{f})
      case CountOut(f) =>
        var i := s.emitted[f].inst;
        s.(returning := s.returning - {f}, checking := s.checking + {f},
           waitToSend := s.waitToSend[i := s.waitToSend[i] - 1])
      case LookBusy(f) =>
        s.(checking := s.checking - {f},
           clearing := s.clearing + if Still(s.emitted[f]) && s.waitToSend[s.emitted[f].inst] == 0 then {f} else {})
      case ClearBusy(f) => s.(clearing := s.clearing - {f}, captureBusy := false)
      case LosStart => s.(pc := Restarting, stopped := 0, captureBusy := false)
      case StartReset(i) => s.(waitToSend := s.waitToSend[i := 0], phase := s.phase[i := Starting])
      case StartSource(i) => s.(phase := s.phase[i := On], lrt := s.lrt[i := Live])
      case StopSource(i) => s.(phase := s.phase[i := AwaitStopped], lrt := s.lrt[i := Stopping], lock := Some(i))
      case StoppedSeen(i) => s.(phase := s.phase[i := Draining], stopped := s.stopped - 1, lock := None)
      case StopReturns(i) => s.(phase := s.phase[i := Off])
      case Capture => s.(captureBusy := true)
  }

  ghost function Run(ops: seq<Op>, clients: set<Source>): (s: State)
    ensures Shaped(s)
  {
    if ops == [] then Init() else Step(Run(ops[..|ops| - 1], clients), ops[|ops| - 1], clients)
  }

  // ---- Where a frame is

  function Queued(events: seq<Event>, f: nat): nat {
    if events == [] then 0 else (if events[0] == Data(f) then 1 else 0) + Queued(events[1..], f)
  }

  function OnThread(s: State, f: nat): nat { if s.pc == Counted(f) then 1 else 0 }

  function Sending(s: State, f: nat): nat { if f in s.sending then 1 else 0 }

  /** In how many places a frame is: queued, with the event thread, with the transmitter, handed
      back to the LRT, or dropped. */
  ghost function Places(s: State, f: nat): nat {
    Queued(s.events, f) + OnThread(s, f) + Sending(s, f) + s.sent[f] + s.lost[f]
  }

  function Exists(s: State, f: nat): nat { if f < |s.emitted| then 1 else 0 }

  /** Every frame emitted is in one place, once. */
  ghost predicate Placed(s: State) {
    && (forall f: nat :: Places(s, f) == Exists(s, f))
    && (forall f | f in s.returning :: f in s.sent)
  }

  /** The frames of an instance counted in whose callback has not counted them out. */
  ghost function Flight(s: State, i: nat): set<nat> {
    set f | f in Here(s) && f < |s.emitted| && s.emitted[f].inst == i
  }

  ghost function Here(s: State): set<nat> {
    (if s.pc.Counted? then {s.pc.frame} else {}) + s.sending + s.returning
  }

  lemma QueuedSnoc(events: seq<Event>, e: Event, f: nat)
    ensures Queued(events + [e], f) == Queued(events, f) + if e == Data(f) then 1 else 0
  {
    if events == [] {
    } else {
      assert (events + [e])[1..] == events[1..] + [e];
    }
  }

  lemma QueuedHead(events: seq<Event>, f: nat)
    requires events != []
    ensures Queued(events, f) == Queued(events[1..], f) + if events[0] == Data(f) then 1 else 0
  {
  }

  lemma {:induction false} QueuedIn(events: seq<Event>, k: nat, f: nat)
    requires k < |events| && events[k] == Data(f)
    ensures Queued(events, f) > 0
  {
    if k > 0 { QueuedIn(events[1..], k - 1, f); }
  }

  lemma NotQueued(events: seq<Event>, f: nat)
    requires Data(f) !in events
    ensures Queued(events, f) == 0
  {
  }

  lemma StepPlaces(s: State, op: Op, clients: set<Source>, f: nat)
    requires Shaped(s) && Places(s, f) == Exists(s, f)
    ensures var after := Step(s, op, clients); Places(after, f) == Exists(after, f)
  {
    hide Shaped, Queued;
    if op.Emit? { QueuedSnoc(s.events, Data(|s.emitted|), f); }
    if op.EmitStopped? { QueuedSnoc(s.events, SourceStopped(op.inst), f); }
    if op.EmitTornDown? { QueuedSnoc(s.events, TornDown, f); }
    if op.TakeEvent? && s.events != [] { QueuedHead(s.events, f); }
  }

  lemma StepPlaced(s: State, op: Op, clients: set<Source>)
    requires Shaped(s) && Placed(s)
    ensures Placed(Step(s, op, clients))
  {
    hide Shaped, Places, Exists;
    forall f: nat ensures var after := Step(s, op, clients); Places(after, f) == Exists(after, f) {
      StepPlaces(s, op, clients, f);
    }
  }

  // ---- The counter

  /** `wait_to_send_in_mipi_tx` is the number of the instance's frames in flight. */
  ghost predicate CountedIn(s: State)
    requires Shaped(s)
  {
    forall i | 0 <= i < INSTANCES :: s.waitToSend[i] == |Flight(s, i)|
  }

  /** A frame in flight has been emitted and is off the queue. */
  lemma HereKnown(s: State, f: nat)
    requires Placed(s) && f in Here(s)
    ensures f < |s.emitted| && Queued(s.events, f) == 0
    ensures f in s.sending ==> s.pc != Counted(f) && f !in s.returning
    ensures s.pc == Counted(f) ==> f !in s.returning
  {
    hide Queued;
    assert Places(s, f) == Exists(s, f);
  }

  /** The frame of the instance that the step counts in, if any. */
  ghost function CountedInBy(s: State, op: Op, clients: set<Source>, i: nat): set<nat>
    requires Shaped(s)
  {
    if op.TakeEvent? && Enabled(s, op) && s.events[0].Data? && s.skipFrames == 0
       && s.emitted[s.events[0].frame] in clients && s.emitted[s.events[0].frame].inst == i
    then {s.events[0].frame} else {}
  }

  ghost function CountedOutBy(s: State, op: Op, i: nat): set<nat>
    requires Shaped(s)
  {
    if op.CountOut? && Enabled(s, op) && s.emitted[op.frame].inst == i then {op.frame} else {}
  }

  lemma FlightHere(s: State, i: nat, f: nat)
    ensures f in Flight(s, i) <==> f in Here(s) && f < |s.emitted| && s.emitted[f].inst == i
  {
  }

  /** The frames in flight change only where one is counted in or out. */
  lemma FlightStep(s: State, op: Op, clients: set<Source>, i: nat, f: nat)
    requires Shaped(s) && Placed(s)
    ensures f in Flight(Step(s, op, clients), i) <==>
            f in CountedInBy(s, op, clients, i) || (f in Flight(s, i) && f !in CountedOutBy(s, op, i))
    ensures f in CountedInBy(s, op, clients, i) ==> f !in Flight(s, i)
    ensures f in CountedOutBy(s, op, i) ==> f in Flight(s, i)
  {
    hide Shaped, Placed, Queued, Flight;
    FlightHere(s, i, f);
    FlightHere(Step(s, op, clients), i, f);
    if f in Here(s) { HereKnown(s, f); }
    if op.TakeEvent? && s.events != [] && s.events[0] == Data(f) { QueuedIn(s.events, 0, f); }
  }

  lemma CounterStep(s: State, op: Op, clients: set<Source>, i: nat)
    requires Shaped(s) && i < INSTANCES && (op == StartReset(i) && s.phase[i] == Off ==> s.waitToSend[i] == 0)
    ensures Step(s, op, clients).waitToSend[i]
         == s.waitToSend[i] + |CountedInBy(s, op, clients, i)| - |CountedOutBy(s, op, i)|
    ensures CountedInBy(s, op, clients, i) == {} || CountedOutBy(s, op, i) == {}
  {
  }

  /** The counter follows. */
  lemma StepCounted(s: State, op: Op, clients: set<Source>, i: nat)
    requires Shaped(s) && Placed(s) && i < INSTANCES
    requires s.waitToSend[i] == |Flight(s, i)| && (op == StartReset(i) && s.phase[i] == Off ==> s.waitToSend[i] == 0)
    ensures var after := Step(s, op, clients); after.waitToSend[i] == |Flight(after, i)|
  {
    hide Shaped, Placed, Flight, Step, CountedInBy, CountedOutBy;
    var after := Step(s, op, clients);
    var into, out := CountedInBy(s, op, clients, i), CountedOutBy(s, op, i);
    forall f: nat
      ensures f in Flight(after, i) <==> f in into || (f in Flight(s, i) && f !in out)
      ensures (f in into ==> f !in Flight(s, i)) && (f in out ==> f in Flight(s, i))
    {
      FlightStep(s, op, clients, i, f);
    }
    CounterStep(s, op, clients, i);
    assert Flight(after, i) == Flight(s, i) + into - out;
  }

  // ---- Starting and stopping

  ghost predicate NotOf(s: State, e: Event, i: nat) {
    e.Data? ==> e.frame < |s.emitted| && s.emitted[e.frame].inst != i
  }

  /** The LRT emits no more frames of the source, and none is left before the transmitter. */
  ghost predicate Drained(s: State, i: nat)
    requires Shaped(s) && i < INSTANCES
  {
    && s.lrt[i] == Quiet
    && (forall e | e in s.events :: NotOf(s, e, i))
    && (s.pc.Counted? ==> NotOf(s, Data(s.pc.frame), i))
  }

  /** The k-th queued event is the only stopped event, is that of the source, and has no frame of the
      source behind it. */
  ghost predicate StopAt(s: State, i: nat, k: nat) {
    && k < |s.events| && s.events[k] == SourceStopped(i)
    && (forall m | 0 <= m < |s.events| && m != k :: !s.events[m].SourceStopped?)
    && (forall m | k < m < |s.events| :: NotOf(s, s.events[m], i))
  }

  ghost predicate NoStop(s: State) { forall e | e in s.events :: !e.SourceStopped? }

  /** One source between its callers and the LRT. */
  ghost predicate SourceSound(s: State, i: nat)
    requires Shaped(s) && i < INSTANCES
  {
    && (s.phase[i] == Off || s.phase[i] == Starting ==> Drained(s, i) && s.waitToSend[i] == 0)
    && (s.phase[i] == Draining ==> Drained(s, i))
    && (s.phase[i] == On <==> s.lrt[i] == Live)
    && (s.phase[i] == AwaitStopped <==> s.lock == Some(i))
    && (s.lrt[i] == Stopping ==> s.lock == Some(i))
  }

  /** The semaphore: whoever holds the lock in `los_stopSource` awaits the one stopped event there is
      or will be, which is that of its own source. */
  ghost predicate StopSound(s: State)
    requires Shaped(s)
  {
    match s.lock
    case None => s.stopped == 0 && NoStop(s)
    case Some(i) =>
      && i < INSTANCES
      && if s.lrt[i] == Stopping then s.stopped == 0 && NoStop(s)
         else s.lrt[i] == Quiet && ((s.stopped == 0 && exists k :: StopAt(s, i, k))
                                    || (s.stopped == 1 && NoStop(s) && Drained(s, i)))
  }

  lemma EventStep(s: State, op: Op, clients: set<Source>, e: Event)
    requires Shaped(s) && e in Step(s, op, clients).events
    ensures e in s.events || !e.Data? || (op.Emit? && Enabled(s, op) && e == Data(|s.emitted|))
  {
  }

  lemma ThreadStep(s: State, op: Op, clients: set<Source>)
    requires Shaped(s) && Step(s, op, clients).pc.Counted?
    ensures var pc := Step(s, op, clients).pc; pc == s.pc || Data(pc.frame) in s.events
  {
  }

  lemma EmittedStep(s: State, op: Op, clients: set<Source>)
    requires Shaped(s)
    ensures Step(s, op, clients).emitted
         == s.emitted + if op.Emit? && Enabled(s, op) then [Source(op.inst, op.format)] else []
  {
  }

  lemma LrtStep(s: State, op: Op, clients: set<Source>, i: nat)
    requires Shaped(s) && i < INSTANCES && s.phase[i] != On && s.lrt[i] == Quiet
    requires op == StartSource(i) ==> !Enabled(s, op)
    ensures Step(s, op, clients).lrt[i] == Quiet
  {
  }

  lemma DrainedStep(s: State, op: Op, clients: set<Source>, i: nat)
    requires Shaped(s) && i < INSTANCES && Drained(s, i) && s.phase[i] != On
    requires op == StartSource(i) ==> !Enabled(s, op)
    ensures Drained(Step(s, op, clients), i)
  {
    hide Step, Shaped;
    var after := Step(s, op, clients);
    LrtStep(s, op, clients, i);
    EmittedStep(s, op, clients);
    forall e | e in after.events ensures NotOf(after, e, i) {
      EventStep(s, op, clients, e);
      if e in s.events { assert NotOf(s, e, i); }
    }
    if after.pc.Counted? {
      ThreadStep(s, op, clients);
      assert NotOf(s, Data(after.pc.frame), i);
    }
  }

  lemma IdleStep(s: State, op: Op, clients: set<Source>, i: nat)
    requires Shaped(s) && i < INSTANCES && Placed(s) && Drained(s, i)
    requires s.waitToSend[i] == |Flight(s, i)| == 0
    ensures Step(s, op, clients).waitToSend[i] == 0
  {
    hide Placed, Flight, Step, Shaped;
    CounterStep(s, op, clients, i);
    if op.CountOut? { FlightStep(s, op, clients, i, op.frame); }
    if op.TakeEvent? && s.events != [] { assert NotOf(s, s.events[0], i); }
    assert Flight(s, i) == {};
  }

  /** The caller's side of a step: phases and the lock. */
  lemma PhaseStep(s: State, op: Op, clients: set<Source>, i: nat)
    requires Shaped(s) && i < INSTANCES && StopSound(s)
    requires forall j | 0 <= j < INSTANCES :: SourceSound(s, j)
    ensures op == StartSource(i) && Enabled(s, op) ==> Step(s, op, clients).phase[i] == On
    ensures var after := Step(s, op, clients);
            && (after.phase[i] == On <==> after.lrt[i] == Live)
            && (after.lrt[i] == Stopping ==> after.lock == Some(i))
            && (after.phase[i] == Off ==>
                  s.phase[i] == Off || (op == StopReturns(i) && s.phase[i] == Draining && s.waitToSend[i] == 0))
            && (after.phase[i] == Starting ==> s.phase[i] == Starting || s.phase[i] == Off)
            && (after.phase[i] == Draining ==>
                  s.phase[i] == Draining || (op == StoppedSeen(i) && s.phase[i] == AwaitStopped && s.stopped > 0))
  {
    hide Drained, NoStop, StopAt;
    assert SourceSound(s, i);
    if op.StoppedSeen? && op.inst < INSTANCES { assert SourceSound(s, op.inst); }
  }

  lemma LockStep(s: State, op: Op, clients: set<Source>, i: nat)
    requires Shaped(s) && i < INSTANCES
    requires forall j | 0 <= j < INSTANCES :: SourceSound(s, j)
    ensures var after := Step(s, op, clients); after.phase[i] == AwaitStopped <==> after.lock == Some(i)
  {
    hide Drained;
    assert SourceSound(s, i);
    if op.StoppedSeen? && op.inst < INSTANCES { assert SourceSound(s, op.inst); }
  }

  lemma SourceStep(s: State, op: Op, clients: set<Source>, i: nat)
    requires Shaped(s) && Placed(s) && i < INSTANCES && StopSound(s)
    requires forall j | 0 <= j < INSTANCES :: SourceSound(s, j)
    requires s.waitToSend[i] == |Flight(s, i)|
    ensures SourceSound(Step(s, op, clients), i)
  {
    hide Placed, Flight, NoStop, StopAt, Step, Drained;
    var after := Step(s, op, clients);
    assert SourceSound(s, i);
    PhaseStep(s, op, clients, i);
    LockStep(s, op, clients, i);
    if after.phase[i] == Off || after.phase[i] == Starting || after.phase[i] == Draining {
      assert Drained(s, i);
      DrainedStep(s, op, clients, i);
      if after.phase[i] != Draining { IdleStep(s, op, clients, i); }
    }
  }

  lemma StopSeen(s: State, clients: set<Source>, i: nat, k: nat)
    requires Shaped(s) && i < INSTANCES && s.lrt[i] == Quiet && StopAt(s, i, k) && Enabled(s, TakeEvent)
    ensures var after := Step(s, TakeEvent, clients);
            if k > 0 then after.stopped == s.stopped && StopAt(after, i, k - 1)
            else after.stopped == s.stopped + 1 && NoStop(after) && Drained(after, i)
  {
    var after := Step(s, TakeEvent, clients);
    forall m | 0 <= m < |after.events| ensures after.events[m] == s.events[m + 1] {}
    if k > 0 {
      forall m | k - 1 < m < |after.events| ensures NotOf(after, after.events[m], i) {
        assert NotOf(s, s.events[m + 1], i);
      }
    } else {
      forall e | e in after.events ensures NotOf(after, e, i) && !e.SourceStopped? {
        var m :| 0 <= m < |after.events| && after.events[m] == e;
        assert NotOf(s, s.events[m + 1], i);
      }
    }
  }

  lemma StopQueued(s: State, clients: set<Source>, i: nat)
    requires Shaped(s) && Placed(s) && i < INSTANCES && s.lrt[i] == Stopping && NoStop(s)
    ensures var after := Step(s, EmitStopped(i), clients); StopAt(after, i, |s.events|)
  {
  }

  lemma StopKept(s: State, op: Op, clients: set<Source>, i: nat, k: nat)
    requires Shaped(s) && i < INSTANCES && s.lrt[i] == Quiet && StopAt(s, i, k)
    requires !op.TakeEvent? && !op.EmitStopped?
    ensures StopAt(Step(s, op, clients), i, k)
  {
    var after := Step(s, op, clients);
    forall m | k < m < |after.events| ensures NotOf(after, after.events[m], i) {
      if m < |s.events| { assert NotOf(s, s.events[m], i); }
    }
  }

  lemma NoStopKept(s: State, op: Op, clients: set<Source>)
    requires Shaped(s) && NoStop(s) && !op.EmitStopped?
    ensures NoStop(Step(s, op, clients))
    ensures !op.StoppedSeen? && !op.LosStart? ==> Step(s, op, clients).stopped == s.stopped
  {
  }

  lemma StopStep(s: State, op: Op, clients: set<Source>)
    requires Shaped(s) && Placed(s) && StopSound(s)
    requires forall j | 0 <= j < INSTANCES :: SourceSound(s, j)
    ensures StopSound(Step(s, op, clients))
  {
    hide Placed, NoStop, StopAt, Drained;
    var after := Step(s, op, clients);
    if !op.EmitStopped? && NoStop(s) { NoStopKept(s, op, clients); }
    if Enabled(s, op) && (op.EmitStopped? || op.StoppedSeen?) { assert SourceSound(s, op.inst); }
    if s.lock.Some? && Enabled(s, op) {
      var i := s.lock.value;
      assert SourceSound(s, i);
      if op == EmitStopped(i) && s.lrt[i] == Stopping {
        StopQueued(s, clients, i);
      } else if s.lrt[i] == Quiet && s.stopped == 0 {
        var k :| StopAt(s, i, k);
        if op.TakeEvent? {
          StopSeen(s, clients, i, k);
        } else if !op.EmitStopped? {
          StopKept(s, op, clients, i, k);
        }
      } else if s.lrt[i] == Quiet {
        DrainedStep(s, op, clients, i);
      }
    }
  }

  // ---- Runs

  ghost predicate Sound(s: State)
    requires Shaped(s)
  {
    && Placed(s) && CountedIn(s) && StopSound(s)
    && forall i | 0 <= i < INSTANCES :: SourceSound(s, i)
  }

  lemma SoundStep(s: State, op: Op, clients: set<Source>)
    requires Shaped(s) && Sound(s)
    ensures Sound(Step(s, op, clients))
  {
    hide Placed, StopSound, Flight, Step;
    StepPlaced(s, op, clients);
    StopStep(s, op, clients);
    forall i | 0 <= i < INSTANCES
      ensures SourceSound(Step(s, op, clients), i)
      ensures var after := Step(s, op, clients); after.waitToSend[i] == |Flight(after, i)|
    {
      assert SourceSound(s, i);
      StepCounted(s, op, clients, i);
      SourceStep(s, op, clients, i);
    }
  }

  /** In every interleaving each frame emitted is in one place, once, the counter of each instance is
      the number of its frames in flight, and starting and stopping are sound. */
  lemma {:induction false} RunSound(ops: seq<Op>, clients: set<Source>)
    ensures Sound(Run(ops, clients))
  {
    hide Sound, Step;
    if ops == [] {
      InitSound();
    } else {
      var n := |ops| - 1;
      RunSound(ops[..n], clients);
      SoundStep(Run(ops[..n], clients), ops[n], clients);
    }
  }

  lemma InitSound()
    ensures Sound(Init())
  {
    var s := Init();
    forall i | 0 <= i < INSTANCES ensures SourceSound(s, i) && |Flight(s, i)| == 0 {
      assert Here(s) == {};
      assert Flight(s, i) == {};
    }
  }

  // ---- What callers and the LRT can rely on

  /** Each frame is returned at most once, and one that is neither queued nor in flight has been
      returned or dropped. */
  lemma ReturnedOnce(ops: seq<Op>, clients: set<Source>, f: nat)
    requires f < |Run(ops, clients).emitted|
    ensures var s := Run(ops, clients);
            && s.sent[f] + s.lost[f] <= 1
            && (s.sent[f] + s.lost[f] == 1 <==> Data(f) !in s.events && s.pc != Counted(f) && f !in s.sending)
  {
    var s := Run(ops, clients);
    RunSound(ops, clients);
    assert Places(s, f) == Exists(s, f);
    if k :| 0 <= k < |s.events| && s.events[k] == Data(f) {
      QueuedIn(s.events, k, f);
    } else {
      NotQueued(s.events, f);
    }
  }

  /** `los_stopSource` returns only once every frame of the instance is back, unless it was dropped. */
  lemma StopReturnsAllBack(ops: seq<Op>, clients: set<Source>, i: nat, f: nat)
    requires var s := Run(ops, clients); Enabled(s, StopReturns(i)) && f < |s.emitted| && s.emitted[f].inst == i
    ensures var s := Run(ops, clients); s.sent[f] + s.lost[f] == 1 && f !in s.returning
  {
    var s := Run(ops, clients);
    RunSound(ops, clients);
    assert SourceSound(s, i) && Drained(s, i);
    assert |Flight(s, i)| == 0 && Flight(s, i) == {};
    FlightHere(s, i, f);
    assert !NotOf(s, Data(f), i);
    ReturnedOnce(ops, clients, f);
  }

  /** Only frames without a registered client are dropped. */
  lemma {:induction false} DroppedUnregistered(ops: seq<Op>, clients: set<Source>, f: nat)
    requires f in Run(ops, clients).lost
    ensures f < |Run(ops, clients).emitted| && Run(ops, clients).emitted[f] !in clients
  {
    if ops == [] {
    } else {
      var n := |ops| - 1;
      var s := Run(ops[..n], clients);
      EmittedStep(s, ops[n], clients);
      if f in s.lost { DroppedUnregistered(ops[..n], clients, f); }
    }
  }

  /** So with a client for each source in use, every frame is returned exactly once or is still under
      way, and a stop returns only once all of them are back. */
  lemma AllReturned(ops: seq<Op>, clients: set<Source>, f: nat)
    requires var s := Run(ops, clients); f < |s.emitted| && s.emitted[f] in clients
    ensures var s := Run(ops, clients);
            && s.sent[f] <= 1
            && (s.sent[f] == 1 <==> Data(f) !in s.events && s.pc != Counted(f) && f !in s.sending)
            && (Enabled(s, StopReturns(s.emitted[f].inst)) ==> s.sent[f] == 1)
  {
    var s := Run(ops, clients);
    if f in s.lost { DroppedUnregistered(ops, clients, f); }
    ReturnedOnce(ops, clients, f);
    if Enabled(s, StopReturns(s.emitted[f].inst)) { StopReturnsAllBack(ops, clients, s.emitted[f].inst, f); }
  }

  lemma RunSnoc(ops: seq<Op>, op: Op, clients: set<Source>)
    ensures Run(ops + [op], clients) == Step(Run(ops, clients), op, clients)
  {
    assert (ops + [op])[..|ops|] == ops;
  }

  lemma Then(ops: seq<Op>, op: Op, clients: set<Source>) returns (more: seq<Op>)
    ensures more == ops + [op] && Run(more, clients) == Step(Run(ops, clients), op, clients)
  {
    more := ops + [op];
    RunSnoc(ops, op, clients);
  }

  lemma FlightStepSet(s: State, op: Op, clients: set<Source>, i: nat)
    requires Shaped(s) && Placed(s) && !op.TakeEvent?
    ensures Flight(Step(s, op, clients), i) == Flight(s, i) - CountedOutBy(s, op, i)
  {
    hide Placed, Step, Flight;
    forall f: nat
      ensures f in Flight(Step(s, op, clients), i) <==> f in Flight(s, i) && f !in CountedOutBy(s, op, i)
    {
      FlightStep(s, op, clients, i, f);
    }
  }

  /** The transmitter hands a frame over, unless its callback has already begun. */
  lemma CallbackBegins(s: State, clients: set<Source>, i: nat, f: nat) returns (first: Op)
    requires Shaped(s) && Sound(s) && i < INSTANCES && s.phase[i] == Draining && f in Flight(s, i)
    ensures first == DataWasSent(f)
    ensures var mid := Step(s, first, clients);
            mid.phase == s.phase && f in mid.returning && mid.emitted == s.emitted && Flight(mid, i) == Flight(s, i)
  {
    first := DataWasSent(f);
    assert SourceSound(s, i) && Drained(s, i);
    FlightHere(s, i, f);
    assert s.pc.Counted? ==> NotOf(s, Data(s.pc.frame), i);
    FlightStepSet(s, first, clients, i);
  }

  lemma CallbackEnds(s: State, clients: set<Source>, i: nat, f: nat)
    requires Shaped(s) && Sound(s) && i < INSTANCES && f in Flight(s, i) && f in s.returning
    ensures var after := Step(s, CountOut(f), clients);
            after.phase == s.phase && Flight(after, i) == Flight(s, i) - {f}
  {
    FlightHere(s, i, f);
    FlightStepSet(s, CountOut(f), clients, i);
  }

  /** A stop never hangs on the counter: from any point where it drains, the callbacks of the frames
      in flight let it return. */
  lemma {:induction false} DrainEnds(ops: seq<Op>, clients: set<Source>, i: nat) returns (more: seq<Op>)
    requires i < INSTANCES && Run(ops, clients).phase[i] == Draining
    ensures forall op | op in more :: op.DataWasSent? || op.CountOut?
    ensures Enabled(Run(ops + more, clients), StopReturns(i))
    decreases |Flight(Run(ops, clients), i)|
  {
    hide Step, Flight, Placed, StopSound, SourceSound, Run;
    var s := Run(ops, clients);
    RunSound(ops, clients);
    assert s.waitToSend[i] == |Flight(s, i)|;
    if Flight(s, i) == {} {
      more := [];
      assert ops + [] == ops;
    } else {
      var f :| f in Flight(s, i);
      var first := CallbackBegins(s, clients, i, f);
      RunSnoc(ops, first, clients);
      RunSound(ops + [first], clients);
      CallbackEnds(Run(ops + [first], clients), clients, i, f);
      RunSnoc(ops + [first], CountOut(f), clients);
      var rest := DrainEnds(ops + [first] + [CountOut(f)], clients, i);
      more := [first, CountOut(f)] + rest;
      assert ops + [first] + [CountOut(f)] + rest == ops + more;
    }
  }

  lemma LostStep(s: State, op: Op, clients: set<Source>)
    requires Shaped(s)
    ensures s.lost <= Step(s, op, clients).lost
  {
  }

  lemma {:induction false} LostStays(ops: seq<Op>, more: seq<Op>, clients: set<Source>)
    ensures Run(ops, clients).lost <= Run(ops + more, clients).lost
    ensures Run(ops, clients).emitted <= Run(ops + more, clients).emitted
  {
    hide Step, Run;
    if more == [] {
      assert ops + more == ops;
    } else {
      var n := |more| - 1;
      LostStays(ops, more[..n], clients);
      RunSnoc(ops + more[..n], more[n], clients);
      assert ops + more[..n] + [more[n]] == ops + more;
      EmittedStep(Run(ops + more[..n], clients), more[n], clients);
      LostStep(Run(ops + more[..n], clients), more[n], clients);
    }
  }

  /** A frame taken while none is to be skipped and without a client is dropped for good: it is never
      returned. */
  lemma UnregisteredDropped(ops: seq<Op>, more: seq<Op>, clients: set<Source>, f: nat)
    requires var s := Run(ops, clients);
             Enabled(s, TakeEvent) && s.events[0] == Data(f) && s.skipFrames == 0 && s.emitted[f] !in clients
    ensures var s := Run(ops + [TakeEvent] + more, clients); s.lost[f] == 1 && s.sent[f] == 0
  {
    RunSnoc(ops, TakeEvent, clients);
    LostStays(ops + [TakeEvent], more, clients);
    ReturnedOnce(ops + [TakeEvent] + more, clients, f);
  }

  lemma TakenGoesBack(ops: seq<Op>, clients: set<Source>, f: nat) returns (more: seq<Op>)
    requires var s := Run(ops, clients);
             Enabled(s, TakeEvent) && s.events[0] == Data(f) && (s.skipFrames > 0 || s.emitted[f] in clients)
    ensures Run(ops + [TakeEvent] + more, clients).sent[f] == 1
  {
    var s := Run(ops, clients);
    var taken := Then(ops, TakeEvent, clients);
    if s.skipFrames > 0 {
      more := [];
      ReturnedOnce(taken, clients, f);
      assert taken + [] == taken;
    } else {
      var passed := Then(taken, SendFrame, clients);
      var back := Then(passed, DataWasSent(f), clients);
      more := [SendFrame, DataWasSent(f)];
      ReturnedOnce(back, clients, f);
      assert back == ops + [TakeEvent] + more;
    }
  }

  /** The frame at the head of the queue can still be returned once it is taken exactly when frames are
      being skipped or it has a client. */
  lemma ReturnableExactly(ops: seq<Op>, clients: set<Source>, f: nat)
    requires var s := Run(ops, clients); Enabled(s, TakeEvent) && s.events[0] == Data(f)
    ensures var s := Run(ops, clients);
            (exists more :: Run(ops + [TakeEvent] + more, clients).sent[f] == 1)
            <==> s.skipFrames > 0 || s.emitted[f] in clients
  {
    hide Run, Step;
    var s := Run(ops, clients);
    if s.skipFrames > 0 || s.emitted[f] in clients {
      var more := TakenGoesBack(ops, clients, f);
    } else {
      forall more ensures Run(ops + [TakeEvent] + more, clients).sent[f] == 0 {
        UnregisteredDropped(ops, more, clients, f);
      }
    }
  }

  // ---- Skipped frames

  /** How many frames the event thread has taken since the start or the last teardown it has handled. */
  ghost function TakenSince(ops: seq<Op>, clients: set<Source>): nat {
    if ops == [] then 0 else
      var init, op := ops[..|ops| - 1], ops[|ops| - 1];
      var s := Run(init, clients);
      if op != TakeEvent || !Enabled(s, op) then TakenSince(init, clients)
      else
        match s.events[0]
        case TornDown => 0
        case Data(_) => TakenSince(init, clients) + 1
        case SourceStopped(_) => TakenSince(init, clients)
  }

  lemma {:induction false} SkipsEight(ops: seq<Op>, clients: set<Source>)
    ensures var taken := TakenSince(ops, clients);
            Run(ops, clients).skipFrames == if taken < 8 then 8 - taken else 0
  {
    if ops == [] {
    } else {
      SkipsEight(ops[..|ops| - 1], clients);
      SkipStep(Run(ops[..|ops| - 1], clients), ops[|ops| - 1], clients);
    }
  }

  lemma SkipStep(s: State, op: Op, clients: set<Source>)
    requires Shaped(s)
    ensures Step(s, op, clients).skipFrames ==
            if op != TakeEvent || !Enabled(s, op) then s.skipFrames
            else
              match s.events[0]
              case TornDown => 8
              case Data(_) => if s.skipFrames > 0 then s.skipFrames - 1 else 0
              case SourceStopped(_) => s.skipFrames
  {
  }

  /** The first eight frames after the start or a teardown go straight back to the LRT, with a client or
      without; each later one is counted in for the transmitter exactly if it has a client, and dropped if
      not. */
  lemma FirstEightGoBack(ops: seq<Op>, clients: set<Source>, f: nat)
    requires var s := Run(ops, clients); Enabled(s, TakeEvent) && s.events[0] == Data(f)
    ensures var s := Run(ops, clients);
            var after, i := Step(s, TakeEvent, clients), s.emitted[f].inst;
            if TakenSince(ops, clients) < 8 then
              after.sent == s.sent + multiset{f}
              && (after.lost, after.waitToSend, after.pc) == (s.lost, s.waitToSend, Waiting)
            else if s.emitted[f] in clients then
              after.pc == Counted(f) && after.waitToSend == s.waitToSend[i := s.waitToSend[i] + 1]
              && (after.sent, after.lost) == (s.sent, s.lost)
            else
              after.lost == s.lost + multiset{f}
              && (after.sent, after.waitToSend, after.pc) == (s.sent, s.waitToSend, Waiting)
  {
    SkipsEight(ops, clients);
    hide Run, TakenSince;
  }
}
