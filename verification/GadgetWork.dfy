/** The callbacks and work items of `android.c` on the device's fields, each method one atomic
    step of the interleaving that `WorkSpec` describes. */
module GadgetWork {
  import opened Basics
  import opened S = WorkSpec

  class GadgetWork {
    const params: Params
    var connected: bool
    var swConnected: bool
    var suspended: bool
    var swSuspended: bool
    var configured: bool
    var pmQosLow: bool
    var workPending: bool
    ghost var toSchedule: nat
    var work: WorkPc
    var currPmQosState: PmState
    var sampler: SamplerPc
    var noIntSampleCount: nat
    ghost var samples: seq<nat>
    var qosActive: bool
    var qosLatency: int
    var lastVote: int
    ghost var sent: seq<Uevent>
    var lastUevent: Uevent

    ghost function QosView(): Qos
      reads `qosActive, `qosLatency, `lastVote
    {
      Qos(qosActive, qosLatency, lastVote)
    }

    ghost function FlagsView(): Flags
      reads `connected, `swConnected, `suspended, `swSuspended, `configured, `pmQosLow
    {
      Flags(connected, swConnected, suspended, swSuspended, configured, pmQosLow)
    }

    ghost function PmView(): Pm
      reads `currPmQosState, `sampler, `noIntSampleCount, `samples, `qosActive, `qosLatency, `lastVote
    {
      Pm(currPmQosState, sampler, QosView(), noIntSampleCount, samples)
    }

    ghost function View(): State
      reads this
    {
      State(FlagsView(), workPending, toSchedule, work, PmView(), sent, lastUevent)
    }

    constructor (params: Params)
      ensures View() == START && this.params == params
    {
      this.params := params;
      connected, swConnected, suspended, swSuspended, configured, pmQosLow := false, false, false, false, false, false;
      workPending, toSchedule, work := false, 0, Idle;
      currPmQosState, sampler, noIntSampleCount, samples := NoUsbVote, Off, 0, [];
      qosActive, qosLatency, lastVote := false, PM_QOS_DEFAULT_VALUE, PM_QOS_DEFAULT_VALUE;
      sent, lastUevent := [], Disconnected;
    }

    // ---- The controller's callbacks

    /** The locked section that closes `android_setup`. */
    method SetupLocked(setConfig: bool, prevConfigured: bool) returns (doWork: bool)
      requires params.upSec > 0
      modifies this
      ensures View() == Step(params, old(View()), S.SetupLocked(setConfig, prevConfigured))
      ensures doWork <==> !old(connected) || (setConfig && configured && !prevConfigured)
      ensures connected && toSchedule == old(toSchedule) + Bit(doWork)
    {
      doWork := false;
      if !connected {
        connected := true;
        doWork := true;
      } else if setConfig && configured {
        if !prevConfigured {
          doWork := true;
        }
      }
      if doWork {
        toSchedule := toSchedule + 1;
      }
    }

    /** `schedule_work` by a notifier that changed a flag before. */
    method ScheduleWork()
      requires params.upSec > 0 && toSchedule > 0
      modifies this
      ensures View() == Step(params, old(View()), S.Schedule)
    {
      workPending := true;
      toSchedule := toSchedule - 1;
    }

    /** The store of `android_disconnect`, which takes no lock. */
    method DisconnectStore()
      requires params.upSec > 0
      modifies this
      ensures View() == Step(params, old(View()), S.Disconnect)
      ensures !connected && toSchedule == old(toSchedule) + 1
    {
      connected := false;
      toSchedule := toSchedule + 1;
    }

    method AndroidSuspend()
      requires params.upSec > 0
      modifies this
      ensures View() == Step(params, old(View()), S.Suspend)
      ensures suspended && (workPending <==> old(workPending) || !old(suspended))
    {
      if !suspended {
        suspended := true;
        workPending := true;
      }
    }

    method AndroidResume()
      requires params.upSec > 0
      modifies this
      ensures View() == Step(params, old(View()), S.Resume)
      ensures !suspended && (workPending <==> old(workPending) || old(suspended))
    {
      if suspended {
        suspended := false;
        workPending := true;
      }
    }

    // ---- android_work

    method WorkBegin()
      requires params.upSec > 0 && workPending && work == Idle
      modifies this
      ensures View() == Step(params, old(View()), S.WorkBegin)
    {
      workPending := false;
      work := Started;
    }

    /** The section of `android_work` under the composite device's lock. */
    method WorkLocked()
      requires params.upSec > 0 && work == Started
      modifies this
      ensures View() == Step(params, old(View()), WorkStep)
    {
      WorkAlone(params, View());
      hide Step, Sampler, Choose, Vote;
      var vote: Option<bool> := None;
      var notice: Option<Notice> := None;
      if suspended != swSuspended && configured {
        if !pmQosLow {
          vote := Some(!suspended);
        }
        notice := Some(if suspended then Suspended else Resumed);
      } else if configured {
        notice := Some(Event(Configured));
      } else if connected != swConnected {
        notice := Some(Event(if connected then Connected else Disconnected));
        if connected && !pmQosLow {
          vote := Some(true);
        } else if !connected || pmQosLow {
          vote := Some(false);
        }
      }
      swConnected := connected;
      swSuspended := suspended;
      work := Locked(vote, notice);
    }

    /** `android_pm_qos_update_latency`. */
    method UpdateLatency(latency: int)
      modifies `qosActive, `qosLatency, `lastVote
      ensures QosView() == Vote(old(QosView()), latency)
      ensures latency == 0 || latency == old(lastVote) ==> QosView() == old(QosView())
      ensures latency != 0 && latency != old(lastVote) ==>
                lastVote == latency && qosLatency == latency && (qosActive <==> latency != PM_QOS_DEFAULT_VALUE)
    {
      if latency == lastVote || latency == 0 {
        return;
      }
      if latency == PM_QOS_DEFAULT_VALUE {
        qosLatency := latency;
        lastVote := latency;
        qosActive := false;
      } else {
        if !qosActive {
          qosActive := true;
          qosLatency := PM_QOS_DEFAULT_VALUE;
        }
        qosLatency := latency;
        lastVote := latency;
      }
    }

    /** `cancel_delayed_work_sync`, which returns only once the sampler is not running; without
        a vote or without latencies the PM-QoS part is skipped. */
    method WorkCancel()
      requires params.upSec > 0 && work.Locked?
      requires params.gate != 0 && work.vote.Some? ==> sampler == Off || sampler == Armed
      modifies this
      ensures View() == Step(params, old(View()), WorkStep)
    {
      WorkAlone(params, View());
      hide Step, Sampler, Choose, Vote, Sent, Decide;
      if params.gate != 0 && work.vote.Some? {
        sampler := Off;
        work := Cancelled(work.vote.value, work.notice);
      } else {
        work := Emitting(work.notice);
      }
    }

    method WorkVote()
      requires params.upSec > 0 && work.Cancelled?
      modifies this
      ensures View() == Step(params, old(View()), WorkStep)
    {
      WorkAlone(params, View());
      hide Step, Sampler, Choose, Sent, Decide;
      UpdateLatency(if work.up then params.wfi else PM_QOS_DEFAULT_VALUE);
      work := Voted(work.up, work.notice);
    }

    method WorkSetState()
      requires params.upSec > 0 && work.Voted?
      modifies this
      ensures View() == Step(params, old(View()), WorkStep)
    {
      WorkAlone(params, View());
      hide Step, Sampler, Choose, Vote, Sent, Decide;
      if work.up {
        currPmQosState := Wfi;
        work := StateSet(work.notice);
      } else {
        currPmQosState := NoUsbVote;
        work := Emitting(work.notice);
      }
    }

    method WorkArm()
      requires params.upSec > 0 && work.StateSet?
      modifies this
      ensures View() == Step(params, old(View()), WorkStep)
    {
      WorkAlone(params, View());
      hide Step, Sampler, Choose, Vote, Sent, Decide;
      sampler := Armed;
      work := Emitting(work.notice);
    }

    /** The uevents at the end of `android_work`, with the DISCONNECTED that was missed. */
    method WorkEmit()
      requires params.upSec > 0 && work.Emitting?
      modifies this
      ensures View() == Step(params, old(View()), WorkStep)
    {
      WorkAlone(params, View());
      hide Step, Sampler, Choose, Vote;
      if work.notice.Some? && work.notice.value.Event? {
        var e := work.notice.value.e;
        ghost var before := sent;
        if (e == Connected && lastUevent != Disconnected) || (e == Configured && lastUevent == Configured) {
          sent := sent + [Disconnected];
        }
        sent := sent + [e];
        lastUevent := e;
        assert sent == before + Sent(old(work.notice), old(lastUevent));
      }
      work := Idle;
    }

    /** The PM-QoS part of `android_work` as a whole, the sampler not running. */
    method CastVote()
      requires params.upSec > 0 && work.Locked? && (sampler == Off || sampler == Armed)
      modifies this
      ensures View() == old(View()).(pm := AfterVote(params, old(PmView()), old(work.vote)),
                                         work := Emitting(old(work.notice)))
    {
      hide Sampler, Sent, Vote, Choose, Decide;
      WorkCancel();
      if work.Cancelled? {
        WorkVote();
        WorkSetState();
        if work.StateSet? {
          WorkArm();
        }
      }
    }

    /** A whole run of `android_work` when nothing comes in between and the sampler is not running:
        nothing is stale afterwards, the uevents of the notice are out and the vote it took is cast. */
    method AndroidWork()
      requires params.upSec > 0 && workPending && work == Idle && (sampler == Off || sampler == Armed)
      modifies this
      ensures !Stale(View()) && !workPending && work == Idle && toSchedule == old(toSchedule)
      ensures FlagsView() == old(FlagsView()).(swConnected := connected, swSuspended := suspended)
      ensures var (vote, notice) := Decide(old(FlagsView()));
              && PmView() == AfterVote(params, old(PmView()), vote)
              && sent == old(sent) + Sent(notice, old(lastUevent))
      // A suspension that is newly seen drops the vote, a resume votes for WFI, and "low" keeps both from voting.
      ensures params.gate != 0 && configured && !pmQosLow && suspended && !old(swSuspended) ==>
                currPmQosState == NoUsbVote && sampler == Off && lastVote == PM_QOS_DEFAULT_VALUE
      ensures params.gate != 0 && configured && !pmQosLow && !suspended && old(swSuspended) ==>
                currPmQosState == Wfi && sampler == Armed && (params.wfi != 0 ==> lastVote == params.wfi)
      // A change of connection that is newly seen before a configuration votes up if it is there and not "low".
      ensures params.gate != 0 && !configured && connected != old(swConnected) ==>
                if connected && !pmQosLow
                then currPmQosState == Wfi && sampler == Armed && (params.wfi != 0 ==> lastVote == params.wfi)
                else currPmQosState == NoUsbVote && sampler == Off && lastVote == PM_QOS_DEFAULT_VALUE
      ensures params.gate == 0
              || (if configured then pmQosLow || suspended == old(swSuspended) else connected == old(swConnected)) ==>
                PmView() == old(PmView())
      ensures old(qosActive <==> lastVote != PM_QOS_DEFAULT_VALUE) ==>
                (qosActive <==> lastVote != PM_QOS_DEFAULT_VALUE)
      // The uevents: none on suspend and resume, a CONFIGURED or CONNECTED after a DISCONNECTED that was missed.
      ensures configured && suspended != old(swSuspended) ==> sent == old(sent)
      ensures configured && suspended == old(swSuspended) ==>
                sent == old(sent) + (if old(lastUevent) == Configured then [Disconnected, Configured] else [Configured])
      ensures !configured && connected && !old(swConnected) ==>
                sent == old(sent) + (if old(lastUevent) != Disconnected then [Disconnected, Connected] else [Connected])
      ensures !configured && !connected && old(swConnected) ==> sent == old(sent) + [Disconnected]
      ensures !configured && connected == old(swConnected) ==> sent == old(sent)
    {
      DecideVotes(FlagsView(), lastUevent);
      AfterVoteIs(params, PmView());
      hide Sampler, Sent, Vote, Choose, AfterVote, Decide;
      WorkBegin();
      WorkLocked();
      CastVote();
      WorkEmit();
    }

    // ---- android_pm_qos_work

    method SamplerFire()
      requires params.upSec > 0 && sampler == Armed
      modifies this
      ensures forall count :: View() == Step(params, old(View()), SamplerStep(count))
    {
      sampler := Sampling;
    }

    /** The switch of `android_pm_qos_work` on one interrupt count, but for its default case. */
    method SwitchState(count: nat) returns (nextState: PmState)
      requires params.upSec > 0 && currPmQosState != NoUsbVote
      modifies `noIntSampleCount, `samples
      ensures (nextState, noIntSampleCount) == Choose(params, old(PmView()), count)
      ensures samples == if currPmQosState == IdlePc then old(samples) + [count]
                         else if nextState == IdlePc then [] else old(samples)
    {
      nextState := currPmQosState;
      match currPmQosState {
        case Wfi =>
          if count <= params.downThreshold {
            nextState := IdlePc;
            noIntSampleCount := 0;
            samples := [];
          }
        case IdlePc =>
          samples := samples + [count];
          if count == 0 {
            noIntSampleCount := noIntSampleCount + 1;
          } else {
            noIntSampleCount := 0;
          }
          if count >= params.upThreshold {
            nextState := Wfi;
          } else if noIntSampleCount >= params.idleSecs / params.upSec {
            nextState := IdlePcRpm;
          }
        case IdlePcRpm =>
          if count != 0 {
            nextState := Wfi;
            noIntSampleCount := 0;
          }
      }
    }

    /** What one interrupt count does to the state; the default case stops the sampler. */
    method SamplerChoose(count: nat)
      requires params.upSec > 0 && sampler == Sampling
      modifies this
      ensures View() == Step(params, old(View()), SamplerStep(count))
    {
      SamplerAlone(params, View(), count);
      hide Step, Vote;
      if currPmQosState == NoUsbVote {
        sampler := Off;
        return;
      }
      var nextState := SwitchState(count);
      if nextState != currPmQosState {
        currPmQosState := nextState;
        sampler := Chosen;
      } else {
        sampler := Rearming;
      }
    }

    method SamplerVote()
      requires params.upSec > 0 && sampler == Chosen
      modifies this
      ensures forall count :: View() == Step(params, old(View()), SamplerStep(count))
    {
      hide Work, Choose;
      UpdateLatency(params.Latency(currPmQosState));
      sampler := Rearming;
    }

    method SamplerRearm()
      requires params.upSec > 0 && sampler == Rearming
      modifies this
      ensures forall count :: View() == Step(params, old(View()), SamplerStep(count))
    {
      sampler := Armed;
    }

    /** A whole run of `android_pm_qos_work` when nothing comes in between: the state moves as the
        count says, a change casts the vote of the new state, and the sampler is armed again. */
    method AndroidPmQosWork(count: nat)
      requires params.upSec > 0 && sampler == Armed && currPmQosState != NoUsbVote
      modifies this
      ensures FlagsView() == old(FlagsView()) && sent == old(sent) && work == old(work)
      ensures (currPmQosState, noIntSampleCount) == Choose(params, old(PmView()), count) && sampler == Armed
      ensures QosView() == if currPmQosState == old(currPmQosState) then old(QosView())
                           else Vote(old(QosView()), params.Latency(currPmQosState))
      // The transitions, by the state the sample is taken in.
      ensures old(currPmQosState) == Wfi ==> currPmQosState == if count <= params.downThreshold then IdlePc else Wfi
      ensures old(currPmQosState) == Wfi ==>
                noIntSampleCount == if count <= params.downThreshold then 0 else old(noIntSampleCount)
      ensures old(currPmQosState) == IdlePc ==>
                noIntSampleCount == (if count == 0 then old(noIntSampleCount) + 1 else 0)
                && currPmQosState == if count >= params.upThreshold then Wfi
                                     else if noIntSampleCount >= params.idleSecs / params.upSec then IdlePcRpm
                                     else IdlePc
      ensures old(currPmQosState) == IdlePcRpm ==> currPmQosState == if count > 0 then Wfi else IdlePcRpm
      ensures old(currPmQosState) == IdlePcRpm ==>
                noIntSampleCount == if count > 0 then 0 else old(noIntSampleCount)
      // A change carries the vote of the new state.
      ensures currPmQosState != old(currPmQosState) ==>
                var latency := match currPmQosState
                               case Wfi => params.wfi
                               case IdlePc => params.idlePc
                               case IdlePcRpm => params.idlePcRpm
                               case NoUsbVote => PM_QOS_DEFAULT_VALUE;
                (latency != 0 ==> lastVote == latency)
                && (latency != 0 && latency != PM_QOS_DEFAULT_VALUE && latency != old(lastVote) ==>
                      qosActive && qosLatency == latency)
    {
      VoteIs(QosView());
      hide Work, Vote;
      ghost var s := View();
      SamplerFire();
      assert View() == Step(params, s, SamplerStep(count));
      SamplerChoose(count);
      if sampler == Chosen {
        ghost var chosen := View();
        SamplerVote();
        assert View() == Step(params, chosen, SamplerStep(count));
      }
      ghost var rearming := View();
      SamplerRearm();
      assert View() == Step(params, rearming, SamplerStep(count));
    }
  }
}
