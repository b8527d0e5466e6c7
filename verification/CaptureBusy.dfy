/** The flag `capture_busy`, which a capture sets and the transmitter's callbacks clear, on the runs of
    `FrameSpec`: when a callback's store is right, and two ways in which it is early. */
module CaptureBusy {
  import opened Basics
  import opened FrameSpec

  /** The flag falls only with the store of a callback that found the counter at zero, or with
      `los_start`. */
  lemma BusyFalls(s: State, op: Op, clients: set<Source>)
    requires Shaped(s) && s.captureBusy && !Step(s, op, clients).captureBusy
    ensures op == LosStart || (op.ClearBusy? && op.frame in s.clearing)
  {
  }

  /** A callback that will store has seen the counter of a still instance with no counted frame left. */
  lemma LookSeesNone(ops: seq<Op>, clients: set<Source>, f: nat)
    requires var s := Run(ops, clients); Enabled(s, LookBusy(f)) && f !in s.clearing
    ensures var s := Run(ops, clients);
            f in Step(s, LookBusy(f), clients).clearing
            <==> s.emitted[f].inst != 0 && Flight(s, s.emitted[f].inst) == {}
  {
    var s := Run(ops, clients);
    RunSound(ops, clients);
    var i := s.emitted[f].inst;
    assert s.waitToSend[i] == |Flight(s, i)|;
  }

  /** Frames of an instance counted in during `more` and not counted out again. */
  ghost function Newcomers(ops: seq<Op>, more: seq<Op>, clients: set<Source>, i: nat): set<nat> {
    if more == [] then {} else
      var n := |more| - 1;
      var s := Run(ops + more[..n], clients);
      Newcomers(ops, more[..n], clients, i) + CountedInBy(s, more[n], clients, i) - CountedOutBy(s, more[n], i)
  }

  lemma {:induction false} FlightSince(ops: seq<Op>, more: seq<Op>, clients: set<Source>, i: nat)
    requires Flight(Run(ops, clients), i) == {}
    ensures Flight(Run(ops + more, clients), i) == Newcomers(ops, more, clients, i)
  {
    hide Step, Run, Flight, CountedInBy, CountedOutBy, Sound;
    if more == [] {
      assert ops + more == ops;
    } else {
      var n := |more| - 1;
      FlightSince(ops, more[..n], clients, i);
      var s := Run(ops + more[..n], clients);
      RunSound(ops + more[..n], clients);
      assert ops + more[..n] + [more[n]] == ops + more;
      RunSnoc(ops + more[..n], more[n], clients);
      assert Placed(s) by { SoundPlaced(s); }
      CountedOnce(s, more[n], clients, i);
      forall f: nat
        ensures f in Flight(Step(s, more[n], clients), i) <==>
                f in Flight(s, i) + CountedInBy(s, more[n], clients, i) - CountedOutBy(s, more[n], i)
      {
        FlightStep(s, more[n], clients, i, f);
      }
    }
  }

  lemma SoundPlaced(s: State)
    requires Shaped(s) && Sound(s)
    ensures Placed(s)
  {
  }

  lemma CountedOnce(s: State, op: Op, clients: set<Source>, i: nat)
    requires Shaped(s)
    ensures CountedInBy(s, op, clients, i) == {} || CountedOutBy(s, op, i) == {}
  {
  }

  /** Between the look, which takes no lock, and the store, more stills can be counted in: at the
      store those of the callback's own instance in flight are exactly the newcomers. */
  lemma NewcomersExactly(ops: seq<Op>, more: seq<Op>, clients: set<Source>, f: nat)
    requires var s := Run(ops, clients);
             Enabled(s, LookBusy(f)) && f !in s.clearing && f in Step(s, LookBusy(f), clients).clearing
    ensures var i := Run(ops, clients).emitted[f].inst;
            Flight(Run(ops + [LookBusy(f)] + more, clients), i) == Newcomers(ops + [LookBusy(f)], more, clients, i)
  {
    var s := Run(ops, clients);
    var i := s.emitted[f].inst;
    LookSeesNone(ops, clients, f);
    RunSnoc(ops, LookBusy(f), clients);
    RunSound(ops, clients);
    FlightStepSet(s, LookBusy(f), clients, i);
    FlightSince(ops + [LookBusy(f)], more, clients, i);
  }

  // ---- When a fall is right

  /** The counted stills in flight, whatever their instance: the flag is one for all. */
  ghost function Stills(s: State): set<nat> {
    set f | f in Here(s) && f < |s.emitted| && s.emitted[f].inst != 0
  }

  /** A callback's store takes the flag down. */
  ghost predicate Falls(s: State, op: Op) { op.ClearBusy? && op.frame in s.clearing && s.captureBusy }

  /** The counters of the instances that put out stills are at zero. */
  ghost predicate CountersZero(s: State)
    requires Shaped(s)
  {
    forall i | 0 < i < INSTANCES :: s.waitToSend[i] == 0
  }

  lemma StillsCounted(s: State)
    requires Shaped(s) && Sound(s)
    ensures Stills(s) == {} <==> CountersZero(s)
  {
    hide Here;
    assert CountedIn(s);
    if CountersZero(s) {
      forall f | f in Here(s) && f < |s.emitted| ensures !Still(s.emitted[f]) {
        var i := s.emitted[f].inst;
        assert s.emitted[f] in s.emitted;
        FlightHere(s, i, f);
        assert s.waitToSend[i] == |Flight(s, i)|;
      }
    } else {
      var i :| 0 < i < INSTANCES && s.waitToSend[i] != 0;
      assert s.waitToSend[i] == |Flight(s, i)|;
      var f :| f in Flight(s, i);
      FlightHere(s, i, f);
      assert f in Stills(s);
    }
  }

  /** No callback of the run takes the flag down while a counted still is in flight. */
  ghost predicate FallsSafe(ops: seq<Op>, clients: set<Source>) {
    forall n | 0 <= n < |ops| && Falls(Run(ops[..n], clients), ops[n]) :: Stills(Run(ops[..n], clients)) == {}
  }

  ghost predicate FallsAtZero(ops: seq<Op>, clients: set<Source>) {
    forall n | 0 <= n < |ops| && Falls(Run(ops[..n], clients), ops[n]) :: CountersZero(Run(ops[..n], clients))
  }

  /** In every run the falls by callbacks are right exactly when just before each the counters of all
      still instances, and not only the callback's own, are at zero. */
  lemma FallsSafeExactly(ops: seq<Op>, clients: set<Source>)
    ensures FallsSafe(ops, clients) <==> FallsAtZero(ops, clients)
  {
    hide Run, Stills, CountersZero, Falls;
    forall n | 0 <= n < |ops| ensures var s := Run(ops[..n], clients); Stills(s) == {} <==> CountersZero(s) {
      RunSound(ops[..n], clients);
      StillsCounted(Run(ops[..n], clients));
    }
  }

  // ---- Two runs with an early fall

  /** Two sources, or one twice, have been on since the start, with `k` frames emitted and skipped. */
  ghost predicate Warm(s: State, src: Source, other: Source, k: nat)
    requires Shaped(s)
  {
    && src.inst < INSTANCES && s.lrt[src.inst] == Live && s.waitToSend[src.inst] == 0
    && other.inst < INSTANCES && s.lrt[other.inst] == Live && s.waitToSend[other.inst] == 0
    && s.pc == Waiting && s.events == [] && |s.emitted| == k <= FRAMES_TO_SKIP && s.skipFrames == FRAMES_TO_SKIP - k
    && s.sending == {} && s.returning == {} && s.checking == {} && s.clearing == {} && !s.captureBusy
  }

  lemma WarmStart(src: Source, other: Source, clients: set<Source>)
    requires src.inst < INSTANCES && other.inst < INSTANCES
    ensures var s := Step(Step(Init(), StartReset(src.inst), clients), StartSource(src.inst), clients);
            Warm(Step(Step(s, StartReset(other.inst), clients), StartSource(other.inst), clients), src, other, 0)
  {
  }

  lemma WarmStep(s: State, src: Source, other: Source, k: nat, clients: set<Source>)
    requires Shaped(s) && Warm(s, src, other, k) && k < FRAMES_TO_SKIP
    ensures Warm(Step(Step(s, Emit(src.inst, src.format), clients), TakeEvent, clients), src, other, k + 1)
  {
  }

  lemma {:induction false} WarmUp(src: Source, other: Source, k: nat, clients: set<Source>) returns (ops: seq<Op>)
    requires src.inst < INSTANCES && other.inst < INSTANCES && k <= FRAMES_TO_SKIP
    ensures Warm(Run(ops, clients), src, other, k)
  {
    hide Step, Run, Warm;
    if k == 0 {
      RunNone(clients);
      WarmStart(src, other, clients);
      ops := Then([], StartReset(src.inst), clients);
      ops := Then(ops, StartSource(src.inst), clients);
      ops := Then(ops, StartReset(other.inst), clients);
      ops := Then(ops, StartSource(other.inst), clients);
    } else {
      ops := WarmUp(src, other, k - 1, clients);
      WarmStep(Run(ops, clients), src, other, k - 1, clients);
      ops := Then(ops, Emit(src.inst, src.format), clients);
      ops := Then(ops, TakeEvent, clients);
    }
  }

  lemma RunNone(clients: set<Source>)
    ensures Run([], clients) == Init()
  {
  }

  /** The first still after the skipped frames is with the transmitter, while a capture is on. */
  ghost predicate OneSent(s: State, src: Source, other: Source)
    requires Shaped(s)
  {
    && src.inst < INSTANCES && s.waitToSend[src.inst] == 1
    && other.inst < INSTANCES && s.lrt[other.inst] == Live && (other.inst != src.inst ==> s.waitToSend[other.inst] == 0)
    && |s.emitted| == FRAMES_TO_SKIP + 1 && s.emitted[FRAMES_TO_SKIP] == src
    && s.pc == Waiting && s.events == [] && s.skipFrames == 0 && s.sending == {FRAMES_TO_SKIP}
    && s.returning == {} && s.checking == {} && s.clearing == {} && s.captureBusy
  }

  lemma SendFirst(s: State, src: Source, other: Source, clients: set<Source>)
    requires Shaped(s) && Warm(s, src, other, FRAMES_TO_SKIP) && src in clients
    ensures var a := Step(Step(s, Capture, clients), Emit(src.inst, src.format), clients);
            OneSent(Step(Step(a, TakeEvent, clients), SendFrame, clients), src, other)
  {
  }

  /** Its callback has looked and is about to store. */
  ghost predicate Looked(s: State, src: Source)
    requires Shaped(s)
  {
    && src.inst < INSTANCES && s.waitToSend[src.inst] == 0 && s.skipFrames == 0 && s.pc == Waiting && s.events == []
    && s.clearing == {FRAMES_TO_SKIP} && s.captureBusy
  }

  /** The frame after it is counted in and on its way too, from another instance. */
  ghost predicate OtherSent(s: State, src: Source, other: Source)
    requires Shaped(s)
  {
    && other.inst < INSTANCES && other.inst != src.inst && s.waitToSend[other.inst] == 1
    && |s.emitted| == FRAMES_TO_SKIP + 2 && s.emitted[FRAMES_TO_SKIP + 1] == other
    && FRAMES_TO_SKIP + 1 in s.sending
  }

  lemma SendOther(s: State, src: Source, other: Source, clients: set<Source>)
    requires Shaped(s) && OneSent(s, src, other) && other in clients && other.inst != src.inst
    ensures var a := Step(Step(s, Emit(other.inst, other.format), clients), TakeEvent, clients);
            var b := Step(a, SendFrame, clients);
            && OtherSent(b, src, other) && b.waitToSend[src.inst] == 1
            && b.emitted[FRAMES_TO_SKIP] == src && b.sending == {FRAMES_TO_SKIP, FRAMES_TO_SKIP + 1}
            && b.pc == Waiting && b.events == [] && b.skipFrames == 0
            && b.returning == {} && b.checking == {} && b.clearing == {} && b.captureBusy
  {
  }

  /** The callback of the first still up to its store. */
  lemma LookFirst(b: State, src: Source, clients: set<Source>)
    requires Shaped(b) && src.inst < INSTANCES && Still(src) && b.waitToSend[src.inst] == 1
    requires |b.emitted| > FRAMES_TO_SKIP && b.emitted[FRAMES_TO_SKIP] == src && FRAMES_TO_SKIP in b.sending
    requires b.pc == Waiting && b.events == [] && b.skipFrames == 0
    requires b.returning == {} && b.checking == {} && b.clearing == {} && b.captureBusy
    ensures var f := FRAMES_TO_SKIP;
            var c := Step(Step(Step(b, DataWasSent(f), clients), CountOut(f), clients), LookBusy(f), clients);
            && Looked(c, src) && c.lrt == b.lrt && c.emitted == b.emitted && c.sending == b.sending - {f}
            && forall i | 0 <= i < INSTANCES && i != src.inst :: c.waitToSend[i] == b.waitToSend[i]
  {
    var f := FRAMES_TO_SKIP;
    var m := Step(Step(b, DataWasSent(f), clients), CountOut(f), clients);
    assert m.checking == {f} && m.waitToSend[src.inst] == 0 && m.clearing == {};
  }

  lemma Follow(s: State, src: Source, clients: set<Source>)
    requires Shaped(s) && Looked(s, src) && Still(src) && src in clients && s.lrt[src.inst] == Live
    ensures var after := Step(Step(s, Emit(src.inst, src.format), clients), TakeEvent, clients);
            Falls(after, ClearBusy(FRAMES_TO_SKIP)) && |s.emitted| in Stills(after)
  {
  }

  /** One source is enough: its second still is counted in between the look and the store of the first
      one's callback. */
  lemma BusyFallsEarly(src: Source, clients: set<Source>) returns (ops: seq<Op>)
    requires Still(src) && src.inst < INSTANCES && src in clients
    ensures var s := Run(ops, clients); Falls(s, ClearBusy(FRAMES_TO_SKIP)) && Stills(s) != {}
  {
    hide Step, Run, Warm, Looked, Falls, Stills;
    var f := FRAMES_TO_SKIP;
    ops := WarmUp(src, src, f, clients);
    SendFirst(Run(ops, clients), src, src, clients);
    ops := Then(ops, Capture, clients);
    ops := Then(ops, Emit(src.inst, src.format), clients);
    ops := Then(ops, TakeEvent, clients);
    ops := Then(ops, SendFrame, clients);
    LookFirst(Run(ops, clients), src, clients);
    ops := Then(ops, DataWasSent(f), clients);
    ops := Then(ops, CountOut(f), clients);
    ops := Then(ops, LookBusy(f), clients);
    Follow(Run(ops, clients), src, clients);
    ops := Then(ops, Emit(src.inst, src.format), clients);
    ops := Then(ops, TakeEvent, clients);
  }

  lemma OtherInFlight(c: State, src: Source, other: Source)
    requires Shaped(c) && Looked(c, src) && Still(other)
    requires |c.emitted| > FRAMES_TO_SKIP + 1 && c.emitted[FRAMES_TO_SKIP + 1] == other
    requires FRAMES_TO_SKIP + 1 in c.sending
    ensures Falls(c, ClearBusy(FRAMES_TO_SKIP)) && FRAMES_TO_SKIP + 1 in Stills(c)
  {
  }

  /** With two still instances not even that gap is needed: the store that follows the look at once
      takes the flag down while a still of the other instance is in flight. */
  lemma BusyFallsBeside(src: Source, other: Source, clients: set<Source>) returns (ops: seq<Op>)
    requires Still(src) && src.inst < INSTANCES && src in clients
    requires Still(other) && other.inst < INSTANCES && other in clients && src.inst != other.inst
    ensures |ops| > 0 && ops[|ops| - 1] == LookBusy(FRAMES_TO_SKIP)
    ensures var s := Run(ops, clients);
            && Falls(s, ClearBusy(FRAMES_TO_SKIP)) && s.waitToSend[src.inst] == 0 && Stills(s) != {}
  {
    hide Step, Run, Warm, OneSent, Falls, Stills;
    var f := FRAMES_TO_SKIP;
    ops := WarmUp(src, other, f, clients);
    SendFirst(Run(ops, clients), src, other, clients);
    ops := Then(ops, Capture, clients);
    ops := Then(ops, Emit(src.inst, src.format), clients);
    ops := Then(ops, TakeEvent, clients);
    ops := Then(ops, SendFrame, clients);
    SendOther(Run(ops, clients), src, other, clients);
    ops := Then(ops, Emit(other.inst, other.format), clients);
    ops := Then(ops, TakeEvent, clients);
    ops := Then(ops, SendFrame, clients);
    LookFirst(Run(ops, clients), src, clients);
    ops := Then(ops, DataWasSent(f), clients);
    ops := Then(ops, CountOut(f), clients);
    ops := Then(ops, LookBusy(f), clients);
    OtherInFlight(Run(ops, clients), src, other);
  }

  // ---- All runs

  /** Counted frames have a client, and a callback that will store is that of a still. */
  ghost predicate Registered(s: State, clients: set<Source>) {
    && (forall f | f in Here(s) + s.checking :: f < |s.emitted| && s.emitted[f] in clients)
    && (forall f | f in s.clearing :: f < |s.emitted| && s.emitted[f] in clients && Still(s.emitted[f]))
  }

  lemma RegisteredStep(s: State, op: Op, clients: set<Source>)
    requires Shaped(s) && Registered(s, clients)
    ensures Registered(Step(s, op, clients), clients)
  {
  }

  lemma {:induction false} RunRegistered(ops: seq<Op>, clients: set<Source>)
    ensures Registered(Run(ops, clients), clients)
  {
    hide Registered, Step;
    if ops == [] {
      NoneRegistered(clients);
    } else {
      RunRegistered(ops[..|ops| - 1], clients);
      RegisteredStep(Run(ops[..|ops| - 1], clients), ops[|ops| - 1], clients);
    }
  }

  lemma NoneRegistered(clients: set<Source>)
    ensures Registered(Init(), clients)
  {
  }

  /** The falls of all runs are right exactly when no still source has a client, and then there are
      none: one registered still source is enough for an early one. */
  lemma AllFallsSafeExactly(clients: set<Source>)
    ensures (forall ops :: FallsSafe(ops, clients)) <==> (forall c | c in clients && c.inst < INSTANCES :: !Still(c))
  {
    hide Run, Falls, Stills;
    if c :| c in clients && c.inst < INSTANCES && Still(c) {
      var ops := BusyFallsEarly(c, clients);
      var more := ops + [ClearBusy(FRAMES_TO_SKIP)];
      assert more[..|ops|] == ops && more[|ops|] == ClearBusy(FRAMES_TO_SKIP);
      assert !FallsSafe(more, clients);
    } else {
      forall ops: seq<Op>, n | 0 <= n < |ops| ensures !Falls(Run(ops[..n], clients), ops[n]) {
        RunRegistered(ops[..n], clients);
        NoFall(Run(ops[..n], clients), ops[n], clients);
      }
    }
  }

  lemma NoFall(s: State, op: Op, clients: set<Source>)
    requires Shaped(s) && Registered(s, clients) && forall c | c in clients && c.inst < INSTANCES :: !Still(c)
    ensures !Falls(s, op)
  {
    assert forall k | 0 <= k < |s.emitted| :: s.emitted[k] in s.emitted;
  }
}
