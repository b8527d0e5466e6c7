/** The event loop, the transmitter's callback and the source calls of `ic_main.c` in the
    `STREAM_ON_MIPI` build, each method one stretch that `FrameSpec` takes as a step. */
module FrameChannel {
  import opened Basics
  import opened S = FrameSpec

  class Channel {
    const clients: set<Source>
    /** The LRT's side: what it has emitted and the sources it is running. */
    var emitted: seq<Source>
    ghost var lrt: seq<Lrt>
    ghost var sent: multiset<nat>
    ghost var lost: multiset<nat>
    /** Events on their way to the event thread, and what the thread is doing. */
    var events: seq<Event>
    var pc: Pc
    var skipFrames: nat
    var waitToSend: array<int>
    /** Frames with the transmitter, and those whose callback is between two of its locks. */
    var sending: set<nat>
    var returning: set<nat>
    var checking: set<nat>
    var clearing: set<nat>
    var phase: array<Phase>
    var stopped: nat
    var lock: Option<nat>
    var captureBusy: bool

    ghost predicate Valid()
      reads this, waitToSend, phase
    {
      waitToSend.Length == phase.Length == |lrt| == INSTANCES && forall f | f in emitted :: f.inst < INSTANCES
    }

    ghost function View(): (s: State)
      requires Valid()
      reads this, waitToSend, phase
      ensures Shaped(s)
    {
      State(emitted, events, pc, skipFrames, waitToSend[..], sending, returning, checking, clearing, sent, lost,
            phase[..], lrt, stopped, lock, captureBusy)
    }

    constructor (clients: set<Source>)
      ensures Valid() && View() == Init() && this.clients == clients && fresh(waitToSend) && fresh(phase)
    {
      this.clients := clients;
      emitted, lrt, sent, lost := [], seq(INSTANCES, _ => Quiet), multiset{}, multiset{};
      events, pc, skipFrames := [], Waiting, FRAMES_TO_SKIP;
      waitToSend := new int[INSTANCES](_ => 0);
      sending, returning, checking, clearing := {}, {}, {}, {};
      phase := new Phase[INSTANCES](_ => Off);
      stopped, lock, captureBusy := 0, None, false;
    }

    /** The frame's buffer goes back to the LRT. */
    method LosDataWasSent(f: nat)
      modifies `sent
      ensures sent == old(sent) + multiset{f}
    {
      sent := sent + multiset{f};
    }

    // ---- The LRT

    method Emit(inst: nat, format: nat)
      requires Valid() && Enabled(View(), S.Emit(inst, format))
      modifies `emitted, `events
      ensures Valid() && View() == Step(old(View()), S.Emit(inst, format), clients)
    {
      events := events + [Data(|emitted|)];
      emitted := emitted + [Source(inst, format)];
    }

    method EmitStopped(inst: nat)
      requires Valid() && Enabled(View(), S.EmitStopped(inst))
      modifies `lrt, `events
      ensures Valid() && View() == Step(old(View()), S.EmitStopped(inst), clients)
    {
      events := events + [SourceStopped(inst)];
      lrt := lrt[inst := Quiet];
    }

    method EmitTornDown()
      requires Valid()
      modifies `events
      ensures Valid() && View() == Step(old(View()), S.EmitTornDown, clients)
    {
      events := events + [TornDown];
    }

    // ---- The event thread

    method StartLoop()
      requires Valid() && pc == Restarting
      modifies `pc
      ensures Valid() && View() == Step(old(View()), S.StartLoop, clients)
      ensures pc == Waiting
    {
      pc := Waiting;
    }

    /** The frame case of `eventLoop`, up to the hand-over to the transmitter. `source` is the output
        and format that the event carries. */
    method SendOutputData(f: nat, source: Source)
      requires Valid() && f < |emitted| && source == emitted[f]
      modifies `pc, `skipFrames, `sent, `lost, waitToSend
      ensures Valid() && View() == Handled(old(View()), Data(f), clients)
    {
      ghost var was := waitToSend[..];
      if skipFrames == 0 {
        if source !in clients {
          lost := lost + multiset{f};
        } else {
          waitToSend[source.inst] := waitToSend[source.inst] + 1;
          pc := Counted(f);
          assert waitToSend[..] == was[source.inst := was[source.inst] + 1];
        }
      } else {
        LosDataWasSent(f);
        skipFrames := skipFrames - 1;
      }
    }

    /** One turn of `eventLoop`. */
    method TakeEvent(source: Source)
      requires Valid() && Enabled(View(), S.TakeEvent)
      requires events[0].Data? ==> source == emitted[events[0].frame]
      modifies `events, `pc, `skipFrames, `stopped, `sent, `lost, waitToSend
      ensures Valid() && View() == Step(old(View()), S.TakeEvent, clients)
      ensures old(events[0]).TornDown? ==> skipFrames == 8 && pc == Ended
      ensures old(events[0]).SourceStopped? ==> stopped == old(stopped) + 1
    {
      var ev := events[0];
      events := events[1..];
      match ev
      case SourceStopped(_) =>
        stopped := stopped + 1;
      case TornDown =>
        skipFrames := FRAMES_TO_SKIP;
        pc := Ended;
      case Data(f) =>
        SendOutputData(f, source);
    }

    /** `mipi_tx_thread_send`. */
    method SendFrame()
      requires Valid() && pc.Counted?
      modifies `sending, `pc
      ensures Valid() && View() == Step(old(View()), S.SendFrame, clients)
    {
      sending := sending + {pc.frame};
      pc := Waiting;
    }

    /** A frame event from the queue to the transmitter when nothing comes in between: the frame goes
        straight back while frames are to be skipped, is dropped without a client, and is counted in
        and handed over otherwise. */
    method PassFrame(f: nat, source: Source)
      requires Valid() && pc == Waiting && events != [] && events[0] == Data(f) && f < |emitted| && source == emitted[f]
      modifies `events, `pc, `skipFrames, `stopped, `sent, `lost, `sending, waitToSend
      ensures Valid() && pc == Waiting && events == old(events)[1..] && stopped == old(stopped)
      ensures if old(skipFrames) > 0 then
                sent == old(sent) + multiset{f} && skipFrames == old(skipFrames) - 1
                && lost == old(lost) && sending == old(sending) && waitToSend[..] == old(waitToSend[..])
              else if source !in clients then
                lost == old(lost) + multiset{f} && skipFrames == 0
                && sent == old(sent) && sending == old(sending) && waitToSend[..] == old(waitToSend[..])
              else
                sending == old(sending) + {f} && skipFrames == 0 && sent == old(sent) && lost == old(lost)
                && waitToSend[..] == old(waitToSend[..])[source.inst := old(waitToSend[source.inst]) + 1]
    {
      ghost var was := View();
      TakeEvent(source);
      assert View() == Handled(was.(events := was.events[1..]), Data(f), clients);
      hide Step, Handled;
      if pc.Counted? {
        SendFrame();
      }
    }

    // ---- `free_header_and_return_frame`, as the transmitter calls it back

    method DataWasSent(f: nat)
      requires Valid() && f in sending
      modifies `sending, `returning, `sent
      ensures Valid() && View() == Step(old(View()), S.DataWasSent(f), clients)
    {
      sending, returning := sending - {f}, returning + {f};
      LosDataWasSent(f);
    }

    /** The locked section; `cameraId` is in the frame's header. */
    method CountOut(f: nat, cameraId: nat)
      requires Valid() && Enabled(View(), S.CountOut(f)) && cameraId == emitted[f].inst
      modifies `returning, `checking, waitToSend
      ensures Valid() && View() == Step(old(View()), S.CountOut(f), clients)
    {
      ghost var was := waitToSend[..];
      waitToSend[cameraId] := waitToSend[cameraId] - 1;
      returning, checking := returning - {f}, checking + {f};
      assert waitToSend[..] == was[cameraId := was[cameraId] - 1];
    }

    /** After the lock: the counter is read once more without it. */
    method LookBusy(f: nat, header: Source) returns (clear: bool)
      requires Valid() && Enabled(View(), S.LookBusy(f)) && header == emitted[f]
      modifies `checking, `clearing
      ensures Valid() && View() == Step(old(View()), S.LookBusy(f), clients)
      ensures clear <==> header.inst != 0 && waitToSend[header.inst] == 0
    {
      clear := Still(header) && waitToSend[header.inst] == 0;
      checking := checking - {f};
      clearing := clearing + if clear then {f} else {};
    }

    /** The store that follows, which is not under the lock either. */
    method ClearBusy(f: nat)
      requires Valid() && f in clearing
      modifies `clearing, `captureBusy
      ensures Valid() && View() == Step(old(View()), S.ClearBusy(f), clients)
    {
      clearing := clearing - {f};
      captureBusy := false;
    }

    /** The callback up to the look at the counter, nothing coming in between. */
    method ReturnFrame(f: nat, cameraId: nat)
      requires Valid() && f in sending && f < |emitted| && cameraId == emitted[f].inst && f !in returning
      modifies `sending, `returning, `checking, `sent, waitToSend
      ensures Valid() && sending == old(sending) - {f} && sent == old(sent) + multiset{f}
      ensures returning == old(returning) && checking == old(checking) + {f}
      ensures waitToSend[..] == old(waitToSend[..])[cameraId := old(waitToSend[cameraId]) - 1]
    {
      DataWasSent(f);
      CountOut(f, cameraId);
    }

    /** The whole callback when nothing comes in between: the frame is back and counted out, and the
        flag falls exactly for the last counted still of its instance. */
    method FreeHeaderAndReturnFrame(f: nat, header: Source)
      requires Valid() && f in sending && f < |emitted| && header == emitted[f]
      requires f !in returning && f !in checking && f !in clearing
      modifies `sending, `returning, `checking, `clearing, `sent, `captureBusy, waitToSend
      ensures Valid() && sending == old(sending) - {f} && sent == old(sent) + multiset{f}
      ensures returning == old(returning) && checking == old(checking) && clearing == old(clearing)
      ensures waitToSend[..] == old(waitToSend[..])[header.inst := old(waitToSend[header.inst]) - 1]
      ensures captureBusy <==> old(captureBusy) && !(header.inst != 0 && old(waitToSend[header.inst]) == 1)
    {
      ReturnFrame(f, header.inst);
      assert waitToSend[header.inst] == waitToSend[..][header.inst];
      var clear := LookBusy(f, header);
      if clear {
        ClearBusy(f);
      }
    }

    // ---- Callers

    /** What `los_start` does to the flag and to the semaphore before it creates the event thread. */
    method LosStart()
      requires Valid() && pc == Ended && lock == None
      modifies `pc, `stopped, `captureBusy
      ensures Valid() && View() == Step(old(View()), S.LosStart, clients)
      ensures pc == Restarting && stopped == 0 && !captureBusy
    {
      captureBusy := false;
      stopped := 0;
      pc := Restarting;
    }

    method StartReset(i: nat)
      requires Valid() && Enabled(View(), S.StartReset(i))
      modifies waitToSend, phase
      ensures Valid() && View() == Step(old(View()), S.StartReset(i), clients)
      ensures waitToSend[i] == 0
    {
      ghost var was := View();
      waitToSend[i] := 0;
      phase[i] := Starting;
      assert waitToSend[..] == was.waitToSend[i := 0] && phase[..] == was.phase[i := Starting];
    }

    method StartSource(i: nat)
      requires Valid() && Enabled(View(), S.StartSource(i))
      modifies `lrt, phase
      ensures Valid() && View() == Step(old(View()), S.StartSource(i), clients)
    {
      ghost var was := View();
      lrt := lrt[i := Live];
      phase[i] := On;
      assert phase[..] == was.phase[i := On];
    }

    method StopSource(i: nat)
      requires Valid() && Enabled(View(), S.StopSource(i))
      modifies `lrt, `lock, phase
      ensures Valid() && View() == Step(old(View()), S.StopSource(i), clients)
    {
      ghost var was := View();
      lock := Some(i);
      lrt := lrt[i := Stopping];
      phase[i] := AwaitStopped;
      assert phase[..] == was.phase[i := AwaitStopped];
    }

    method StoppedSeen(i: nat)
      requires Valid() && Enabled(View(), S.StoppedSeen(i))
      modifies `stopped, `lock, phase
      ensures Valid() && View() == Step(old(View()), S.StoppedSeen(i), clients)
    {
      ghost var was := View();
      stopped := stopped - 1;
      lock := None;
      phase[i] := Draining;
      assert phase[..] == was.phase[i := Draining];
    }

    /** One look at the counter in the wait loop of `los_stopSource`; `done` when it returns. */
    method StopReturns(i: nat) returns (done: bool)
      requires Valid() && i < INSTANCES && phase[i] == Draining
      modifies phase
      ensures Valid() && View() == Step(old(View()), S.StopReturns(i), clients)
      ensures done <==> waitToSend[i] == 0
    {
      ghost var was := View();
      done := waitToSend[i] == 0;
      if done {
        phase[i] := Off;
        assert phase[..] == was.phase[i := Off];
      }
    }

    method Capture()
      requires Valid() && !captureBusy
      modifies `captureBusy
      ensures Valid() && View() == Step(old(View()), S.Capture, clients)
      ensures captureBusy
    {
      captureBusy := true;
    }
  }
}
