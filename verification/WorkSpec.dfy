/** Notification of user space by one gadget, as interleaved atomic steps: the controller's
    callbacks, the work item that turns flags into uevents and latency votes, and the delayed
    work that samples interrupts. */
module WorkSpec {
  import opened Basics

  const PM_QOS_DEFAULT_VALUE := -1

  datatype Uevent = Disconnected | Connected | Configured
  datatype Notice = Event(e: Uevent) | Suspended | Resumed
  datatype PmState = NoUsbVote | Wfi | IdlePc | IdlePcRpm

  /** What the platform and the sysfs attributes fix; `gate` is the first latency entry. */
  datatype Params = Params(
    gate: int, wfi: int, idlePc: int, idlePcRpm: int,
    downThreshold: nat, upThreshold: nat, upSec: nat, idleSecs: nat)
  {
    function Latency(s: PmState): int {
      match s
      case NoUsbVote => PM_QOS_DEFAULT_VALUE
      case Wfi => wfi
      case IdlePc => idlePc
      case IdlePcRpm => idlePcRpm
    }

    /** Quiet samples in a row that send the sampler to the deepest state. */
    function QuietLimit(): nat
      requires upSec > 0
    {
      idleSecs / upSec
    }

    /** Votes happen only with a gate; then the latencies voted for are neither zero, which casts no
        vote, nor the default, which withdraws one. With no up threshold the deepest state is never
        entered. */
    predicate Usable() {
      gate != 0 ==> Effective(Wfi) && Effective(IdlePc) && (upThreshold > 0 ==> Effective(IdlePcRpm))
    }

    predicate Effective(s: PmState) { Latency(s) != 0 && Latency(s) != PM_QOS_DEFAULT_VALUE }
  }

  /** The QoS request and the static `last_vote`. */
  datatype Qos = Qos(active: bool, programmed: int, lastVote: int)

  /** `android_pm_qos_update_latency`. */
  function Vote(q: Qos, latency: int): Qos {
    if latency == q.lastVote || latency == 0 then q
    else if latency == PM_QOS_DEFAULT_VALUE then Qos(false, latency, latency)
    else Qos(true, latency, latency)
  }

  /** Where `android_work` stands; `vote` is the PM-QoS vote it took under the lock. */
  datatype WorkPc =
    | Idle
    | Started
    | Locked(vote: Option<bool>, notice: Option<Notice>)
    | Cancelled(up: bool, notice: Option<Notice>)
    | Voted(up: bool, notice: Option<Notice>)
    | StateSet(notice: Option<Notice>)
    | Emitting(notice: Option<Notice>)

  /** Where `android_pm_qos_work` stands. */
  datatype SamplerPc = Off | Armed | Sampling | Chosen | Rearming

  datatype Flags = Flags(connected: bool, swConnected: bool, suspended: bool, swSuspended: bool,
                         configured: bool, pmQosLow: bool)

  /** `samples` are the interrupt counts taken in IDLE_PC since it was last entered. */
  datatype Pm = Pm(state: PmState, sampler: SamplerPc, qos: Qos, noIntCount: nat, samples: seq<nat>)

  /** `toSchedule` counts notifiers that changed a flag and have yet to call `schedule_work`;
      `sent` is the stream of uevents so far. */
  datatype State = State(flags: Flags, pending: bool, toSchedule: nat, work: WorkPc, pm: Pm,
                         sent: seq<Uevent>, lastUevent: Uevent)

  datatype Action =
    | SetupLocked(setConfig: bool, prevConfigured: bool)
    | Disconnect
    | Schedule
    | Suspend
    | Resume
    | ConfigChange(configured: bool)
    | PmQosWrite(low: bool)
    | EnableFailed
    | WorkBegin
    | WorkStep
    | SamplerStep(count: nat)

  const START := State(
    Flags(false, false, false, false, false, false), false, 0, Idle,
    Pm(NoUsbVote, Off, Qos(false, PM_QOS_DEFAULT_VALUE, PM_QOS_DEFAULT_VALUE), 0, []), [], Disconnected)

  // ---- android_work

  /** What the locked section decides: the vote and the notice. */
  function Decide(f: Flags): (Option<bool>, Option<Notice>) {
    if f.suspended != f.swSuspended && f.configured then
      (if f.pmQosLow then None else Some(!f.suspended), Some(if f.suspended then Suspended else Resumed))
    else if f.configured then (None, Some(Event(Configured)))
    else if f.connected != f.swConnected then
      (Some(f.connected && !f.pmQosLow), Some(Event(if f.connected then Connected else Disconnected)))
    else (None, None)
  }

  /** The uevents sent for a notice: a missed DISCONNECTED is made up for first. */
  function Sent(notice: Option<Notice>, last: Uevent): seq<Uevent> {
    match notice
    case Some(Event(e)) =>
      if (e == Connected && last != Disconnected) || (e == Configured && last == Configured)
      then [Disconnected, e] else [e]
    case _ => []
  }

  function Work(p: Params, s: State): State {
    match s.work
    case Idle => s
    case Started =>
      var (vote, notice) := Decide(s.flags);
      s.(flags := s.flags.(swConnected := s.flags.connected, swSuspended := s.flags.suspended),
         work := Locked(vote, notice))
    case Locked(vote, notice) =>
      if p.gate == 0 || vote == None then s.(work := Emitting(notice))
      else if s.pm.sampler in {Off, Armed} then
        s.(pm := s.pm.(sampler := Off), work := Cancelled(vote.value, notice))
      else s
    case Cancelled(up, notice) =>
      s.(pm := s.pm.(qos := Vote(s.pm.qos, if up then p.wfi else PM_QOS_DEFAULT_VALUE)), work := Voted(up, notice))
    case Voted(up, notice) =>
      s.(pm := s.pm.(state := if up then Wfi else NoUsbVote),
         work := if up then StateSet(notice) else Emitting(notice))
    case StateSet(notice) =>
      s.(pm := s.pm.(sampler := Armed), work := Emitting(notice))
    case Emitting(notice) =>
      var out := Sent(notice, s.lastUevent);
      s.(sent := s.sent + out, lastUevent := if out == [] then s.lastUevent else out[|out| - 1], work := Idle)
  }

  // ---- android_pm_qos_work

  /** The state machine proper: the next state and the quiet-sample counter. */
  function Choose(p: Params, pm: Pm, count: nat): (PmState, nat)
    requires p.upSec > 0
  {
    match pm.state
    case NoUsbVote => (NoUsbVote, pm.noIntCount)
    case Wfi => if count <= p.downThreshold then (IdlePc, 0) else (Wfi, pm.noIntCount)
    case IdlePc =>
      var quiet := if count == 0 then pm.noIntCount + 1 else 0;
      (if count >= p.upThreshold then Wfi else if quiet >= p.QuietLimit() then IdlePcRpm else IdlePc, quiet)
    case IdlePcRpm => if count > 0 then (Wfi, 0) else (IdlePcRpm, pm.noIntCount)
  }

  function Sampler(p: Params, pm: Pm, count: nat): Pm
    requires p.upSec > 0
  {
    match pm.sampler
    case Off => pm
    case Armed => pm.(sampler := Sampling)
    case Sampling =>
      var (next, quiet) := Choose(p, pm, count);
      Pm(next,
         if pm.state == NoUsbVote then Off else if next != pm.state then Chosen else Rearming,
         pm.qos, quiet,
         if pm.state == IdlePc then pm.samples + [count] else if next == IdlePc then [] else pm.samples)
    case Chosen => pm.(sampler := Rearming, qos := Vote(pm.qos, p.Latency(pm.state)))
    case Rearming => pm.(sampler := Armed)
  }

  function Step(p: Params, s: State, a: Action): State
    requires p.upSec > 0
  {
    match a
    case SetupLocked(setConfig, prev) =>
      if !s.flags.connected then
        s.(flags := s.flags.(connected := true), toSchedule := s.toSchedule + 1)
      else if setConfig && s.flags.configured && !prev then s.(toSchedule := s.toSchedule + 1)
      else s
    case Disconnect => s.(flags := s.flags.(connected := false), toSchedule := s.toSchedule + 1)
    case Schedule => if s.toSchedule > 0 then s.(pending := true, toSchedule := s.toSchedule - 1) else s
    case Suspend => if s.flags.suspended then s else s.(flags := s.flags.(suspended := true), pending := true)
    case Resume => if s.flags.suspended then s.(flags := s.flags.(suspended := false), pending := true) else s
    case ConfigChange(b) => s.(flags := s.flags.(configured := b))
    case PmQosWrite(low) => s.(flags := s.flags.(pmQosLow := low))
    case EnableFailed => s.(flags := s.flags.(connected := false))
    case WorkBegin => if s.pending && s.work == Idle then s.(pending := false, work := Started) else s
    case WorkStep => Work(p, s)
    case SamplerStep(count) => s.(pm := Sampler(p, s.pm, count))
  }

  lemma WorkAlone(p: Params, s: State)
    requires p.upSec > 0
    ensures Step(p, s, WorkStep) == Work(p, s)
  {
  }

  /** The step is the locked section of `android_work`. */
  predicate IsSection(s: State, a: Action) { a == WorkStep && s.work == Started }

  /** What a whole run of `android_work` leaves of the votes when the sampler does not run in between. */
  function AfterVote(p: Params, pm: Pm, vote: Option<bool>): Pm {
    if p.gate == 0 || vote == None then pm
    else if vote.value then pm.(state := Wfi, sampler := Armed, qos := Vote(pm.qos, p.wfi))
    else pm.(state := NoUsbVote, sampler := Off, qos := Vote(pm.qos, PM_QOS_DEFAULT_VALUE))
  }

  lemma VoteIs(q: Qos)
    ensures forall latency: int ::
              var v := Vote(q, latency);
              && (latency != 0 ==> v.lastVote == latency)
              && (latency != 0 && latency != q.lastVote ==>
                    v.programmed == latency && (v.active <==> latency != PM_QOS_DEFAULT_VALUE))
              && ((q.active <==> q.lastVote != PM_QOS_DEFAULT_VALUE) ==>
                    (v.active <==> v.lastVote != PM_QOS_DEFAULT_VALUE))
  {
  }

  lemma AfterVoteIs(p: Params, pm: Pm)
    ensures AfterVote(p, pm, None) == pm
    ensures forall vote :: p.gate == 0 ==> AfterVote(p, pm, vote) == pm
    ensures p.gate != 0 ==>
              var up, down := AfterVote(p, pm, Some(true)), AfterVote(p, pm, Some(false));
              && up.state == Wfi && up.sampler == Armed && (p.wfi != 0 ==> up.qos.lastVote == p.wfi)
              && down.state == NoUsbVote && down.sampler == Off && down.qos.lastVote == PM_QOS_DEFAULT_VALUE
    ensures (pm.qos.active <==> pm.qos.lastVote != PM_QOS_DEFAULT_VALUE) ==>
              forall vote :: var q := AfterVote(p, pm, vote).qos; q.active <==> q.lastVote != PM_QOS_DEFAULT_VALUE
  {
  }

  /** Whether a locked section that finds these flags takes a vote. */
  predicate TakesVote(f: Flags) {
    if f.configured then f.suspended != f.swSuspended && !f.pmQosLow else f.connected != f.swConnected
  }

  /** The bus is suspended, the connection lost, or the vote is held low. */
  predicate BusIdle(f: Flags) {
    if f.configured then f.suspended else !f.connected || f.pmQosLow
  }

  lemma DecideVotes(f: Flags, last: Uevent)
    ensures var (vote, notice) := Decide(f);
            && vote == (if TakesVote(f) then Some(!BusIdle(f)) else None)
            && Sent(notice, last) ==
               if f.configured then
                 if f.suspended != f.swSuspended then []
                 else if last == Configured then [Disconnected, Configured] else [Configured]
               else if f.connected == f.swConnected then []
               else if !f.connected then [Disconnected]
               else if last != Disconnected then [Disconnected, Connected] else [Connected]
  {
  }

  lemma SamplerAlone(p: Params, s: State, count: nat)
    requires p.upSec > 0
    ensures Step(p, s, SamplerStep(count)) == s.(pm := Sampler(p, s.pm, count))
  {
  }

  function Run(p: Params, actions: seq<Action>): State
    requires p.upSec > 0
  {
    if actions == [] then START
    else Step(p, Run(p, actions[..|actions| - 1]), actions[|actions| - 1])
  }

  lemma RunSnoc(p: Params, actions: seq<Action>, a: Action)
    requires p.upSec > 0
    ensures Run(p, actions + [a]) == Step(p, Run(p, actions), a)
  {
    assert (actions + [a])[..|actions|] == actions;
  }

  lemma StartRun(p: Params)
    requires p.upSec > 0
    ensures Run(p, []) == START
  {
  }

  // ---- No lost notification

  predicate Stale(s: State) {
    s.flags.connected != s.flags.swConnected || s.flags.suspended != s.flags.swSuspended
  }

  /** The work item will look at the flags again. */
  predicate WillRun(s: State) {
    s.pending || s.work == Started || s.toSchedule > 0
  }

  predicate Noticed(s: State) { Stale(s) ==> WillRun(s) }

  lemma NoticedStep(p: Params, s: State, a: Action)
    requires p.upSec > 0 && Noticed(s) && !a.EnableFailed?
    ensures Noticed(Step(p, s, a))
  {
    hide Sampler, Vote, Sent, Decide;
  }

  /** Whatever setups, disconnects, suspends and resumes interleave with the work item, flags that
      differ from what it last looked at keep a run of it ahead. */
  lemma {:induction false} NoLostNotification(p: Params, actions: seq<Action>)
    requires p.upSec > 0
    requires EnableFailed !in actions
    ensures Noticed(Run(p, actions))
    decreases |actions|
  {
    if actions != [] {
      var n := |actions| - 1;
      NoLostNotification(p, actions[..n]);
      assert actions[n] in actions;
      NoticedStep(p, Run(p, actions[..n]), actions[n]);
    }
  }

  /** The failure path of `enable_store` clears `connected` and schedules nothing: it loses the
      change exactly when user space was told of a connection and no run lies ahead. */
  lemma EnableFailedLoses(p: Params, s: State)
    requires p.upSec > 0 && Noticed(s)
    ensures Noticed(Step(p, s, EnableFailed)) <==> !s.flags.swConnected || WillRun(s)
  {
    assert Stale(s) ==> WillRun(s);
  }

  /** Each failure of the run came before user space was told of a connection, or with a run ahead. */
  ghost predicate FailuresSafe(p: Params, actions: seq<Action>)
    requires p.upSec > 0
  {
    forall n | 0 <= n < |actions| && actions[n].EnableFailed? ::
      var s := Run(p, actions[..n]); !s.flags.swConnected || WillRun(s)
  }

  ghost predicate NoticedThroughout(p: Params, actions: seq<Action>)
    requires p.upSec > 0
  {
    forall n | 0 <= n <= |actions| :: Noticed(Run(p, actions[..n]))
  }

  lemma ThroughoutSnoc(p: Params, actions: seq<Action>, a: Action)
    requires p.upSec > 0
    ensures NoticedThroughout(p, actions + [a]) <==>
            NoticedThroughout(p, actions) && Noticed(Run(p, actions + [a]))
    ensures FailuresSafe(p, actions + [a]) <==>
            FailuresSafe(p, actions)
            && (a.EnableFailed? ==> var s := Run(p, actions); !s.flags.swConnected || WillRun(s))
  {
    hide Run, Noticed, WillRun;
    var all := actions + [a];
    assert forall n | 0 <= n <= |actions| :: all[..n] == actions[..n];
    assert all[..|all|] == all && actions[..|actions|] == actions;
  }

  /** A run keeps user space up to date from end to end exactly when its failures are safe. */
  lemma {:induction false} NoticedThroughoutExactly(p: Params, actions: seq<Action>)
    requires p.upSec > 0
    ensures NoticedThroughout(p, actions) <==> FailuresSafe(p, actions)
    decreases |actions|
  {
    hide Run, Noticed, WillRun, Step, NoticedThroughout, FailuresSafe;
    if actions == [] {
      NothingMissed(p);
    } else {
      var init, a := actions[..|actions| - 1], actions[|actions| - 1];
      assert actions == init + [a];
      NoticedThroughoutExactly(p, init);
      ThroughoutSnoc(p, init, a);
      RunSnoc(p, init, a);
      if NoticedThroughout(p, init) {
        LastNoticed(p, init);
        if a.EnableFailed? { EnableFailedLoses(p, Run(p, init)); } else { NoticedStep(p, Run(p, init), a); }
      }
    }
  }

  lemma NothingMissed(p: Params)
    requires p.upSec > 0
    ensures NoticedThroughout(p, []) && FailuresSafe(p, [])
  {
  }

  lemma LastNoticed(p: Params, actions: seq<Action>)
    requires p.upSec > 0 && NoticedThroughout(p, actions)
    ensures Noticed(Run(p, actions))
  {
    hide Run, Noticed;
    assert actions[..|actions|] == actions;
  }

  lemma Then(p: Params, actions: seq<Action>, a: Action) returns (more: seq<Action>)
    requires p.upSec > 0
    ensures more == actions + [a] && Run(p, more) == Step(p, Run(p, actions), a)
  {
    more := actions + [a];
    RunSnoc(p, actions, a);
  }

  lemma ToldThenFailed(p: Params)
    requires p.upSec > 0
    ensures var told := Step(p, Step(p, Step(p, START, SetupLocked(false, false)), Schedule), WorkBegin);
            var s := Step(p, Step(p, told, WorkStep), EnableFailed);
            !Noticed(s) && s.flags.swConnected && !s.flags.connected
  {
    hide Sampler, Vote, Sent;
  }

  /** Such a loss is within reach: a connection is told to user space, and then enabling fails. */
  lemma FailureLoses(p: Params) returns (actions: seq<Action>)
    requires p.upSec > 0
    ensures actions == [SetupLocked(false, false), Schedule, WorkBegin, WorkStep, EnableFailed]
    ensures var s := Run(p, actions);
            !Noticed(s) && s.flags.swConnected && !s.flags.connected && !NoticedThroughout(p, actions)
  {
    hide Run, Step, Noticed;
    StartRun(p);
    ToldThenFailed(p);
    actions := Then(p, [], SetupLocked(false, false));
    actions := Then(p, actions, Schedule);
    actions := Then(p, actions, WorkBegin);
    actions := Then(p, actions, WorkStep);
    actions := Then(p, actions, EnableFailed);
    if NoticedThroughout(p, actions) { LastNoticed(p, actions); }
  }

  // ---- The uevent stream

  predicate OrderedAt(sent: seq<Uevent>, i: nat)
    requires i < |sent|
  {
    && (sent[i] == Connected ==> i == 0 || sent[i - 1] == Disconnected)
    && (sent[i] == Configured ==> i == 0 || sent[i - 1] != Configured)
  }

  predicate Ordered(sent: seq<Uevent>) {
    forall i | 0 <= i < |sent| :: OrderedAt(sent, i)
  }

  predicate LastSent(s: State) {
    s.lastUevent == if s.sent == [] then Disconnected else s.sent[|s.sent| - 1]
  }

  lemma EmitOrdered(sent: seq<Uevent>, last: Uevent, notice: Option<Notice>)
    requires Ordered(sent)
    requires last == if sent == [] then Disconnected else sent[|sent| - 1]
    ensures Ordered(sent + Sent(notice, last))
  {
    var out := Sent(notice, last);
    forall i | 0 <= i < |sent + out| ensures OrderedAt(sent + out, i) {
      if i < |sent| { assert OrderedAt(sent, i); }
    }
  }

  lemma OrderedStep(p: Params, s: State, a: Action)
    requires p.upSec > 0 && Ordered(s.sent) && LastSent(s)
    ensures var after := Step(p, s, a); Ordered(after.sent) && LastSent(after)
  {
    hide Sampler, Ordered, Vote, Decide;
    if a == WorkStep && s.work.Emitting? {
      EmitOrdered(s.sent, s.lastUevent, s.work.notice);
    }
  }

  lemma {:induction false} RunOrdered(p: Params, actions: seq<Action>)
    requires p.upSec > 0
    ensures var s := Run(p, actions); Ordered(s.sent) && LastSent(s)
    decreases |actions|
  {
    hide Step;
    if actions != [] {
      RunOrdered(p, actions[..|actions| - 1]);
      OrderedStep(p, Run(p, actions[..|actions| - 1]), actions[|actions| - 1]);
    }
  }

  /** Two CONFIGURED events have a DISCONNECTED between them. */
  lemma {:induction false} ConfiguredApart(sent: seq<Uevent>, i: nat, j: nat)
    requires Ordered(sent) && i < j < |sent|
    requires sent[i] == Configured && sent[j] == Configured
    ensures exists k :: i < k < j && sent[k] == Disconnected
    decreases j - i
  {
    assert OrderedAt(sent, i + 1);
    assert sent[i + 1] == Disconnected;
  }

  /** In the stream of any run every CONNECTED is first or right after DISCONNECTED, and a
      DISCONNECTED lies between any two CONFIGURED. */
  lemma StreamOrder(p: Params, actions: seq<Action>)
    requires p.upSec > 0
    ensures var sent := Run(p, actions).sent;
            (forall i | 0 <= i < |sent| && sent[i] == Connected :: i == 0 || sent[i - 1] == Disconnected)
            && (forall i, j | 0 <= i < j < |sent| && sent[i] == Configured && sent[j] == Configured ::
                  exists k :: i < k < j && sent[k] == Disconnected)
  {
    RunOrdered(p, actions);
    var sent := Run(p, actions).sent;
    forall i | 0 <= i < |sent| && sent[i] == Connected ensures i == 0 || sent[i - 1] == Disconnected {
      assert OrderedAt(sent, i);
    }
    forall i, j | 0 <= i < j < |sent| && sent[i] == Configured && sent[j] == Configured
      ensures exists k :: i < k < j && sent[k] == Disconnected
    {
      ConfiguredApart(sent, i, j);
    }
  }

  // ---- PM-QoS votes

  predicate QosExact(q: Qos) {
    (q.active <==> q.lastVote != PM_QOS_DEFAULT_VALUE) && (q.active ==> q.programmed == q.lastVote)
  }

  /** The vote is that of the state, and the sampler lives exactly while there is one. */
  predicate Agree(p: Params, pm: Pm) {
    && (pm.sampler != Off <==> pm.state != NoUsbVote)
    && (pm.sampler != Chosen ==> pm.qos.lastVote == p.Latency(pm.state))
  }

  /** The invariant of the two work items, by where `android_work` stands. */
  predicate PmInv(p: Params, s: State) {
    && QosExact(s.pm.qos)
    && (p.gate == 0 ==> s.pm.state == NoUsbVote && !s.work.Cancelled? && !s.work.Voted? && !s.work.StateSet?)
    && (p.upThreshold == 0 ==> s.pm.state != IdlePcRpm)
    && match s.work
       case Cancelled(_, _) => s.pm.sampler == Off && s.pm.qos.lastVote == p.Latency(s.pm.state)
       case Voted(up, _) => s.pm.sampler == Off && s.pm.qos.lastVote == (if up then p.wfi else PM_QOS_DEFAULT_VALUE)
       case StateSet(_) => s.pm.sampler == Off && s.pm.state == Wfi && s.pm.qos.lastVote == p.wfi
       case _ => Agree(p, s.pm)
  }

  /** Neither work item is between changing the state and the vote that goes with it. */
  predicate Settled(s: State) {
    !s.work.Cancelled? && !s.work.Voted? && !s.work.StateSet? && s.pm.sampler != Chosen
  }

  lemma PmStep(p: Params, s: State, a: Action)
    requires p.upSec > 0 && p.Usable() && PmInv(p, s)
    ensures PmInv(p, Step(p, s, a))
  {
    assert p.Latency(Wfi) == p.wfi;
  }

  lemma {:induction false} PmRun(p: Params, actions: seq<Action>)
    requires p.upSec > 0 && p.Usable()
    ensures PmInv(p, Run(p, actions))
    decreases |actions|
  {
    if actions != [] {
      PmRun(p, actions[..|actions| - 1]);
      PmStep(p, Run(p, actions[..|actions| - 1]), actions[|actions| - 1]);
    }
  }

  /** The request is active exactly when the last vote is not the default, which is exactly when
      there is a USB vote; an active request carries the latency of the state; and the sampler is
      armed or running exactly when there is a USB vote. */
  predicate Follows(p: Params, pm: Pm) {
    && (pm.qos.active <==> pm.qos.lastVote != PM_QOS_DEFAULT_VALUE)
    && (pm.qos.active <==> pm.state != NoUsbVote)
    && (pm.qos.active ==> pm.qos.programmed == p.Latency(pm.state))
    && (pm.sampler != Off <==> pm.state != NoUsbVote)
  }

  lemma QosFollowsState(p: Params, actions: seq<Action>)
    requires p.upSec > 0 && p.Usable()
    ensures var s := Run(p, actions); Settled(s) ==> Follows(p, s.pm)
  {
    PmRun(p, actions);
  }

  /** A first connection, up to where the sampler is armed. */
  lemma Connect(p: Params) returns (actions: seq<Action>)
    requires p.upSec > 0 && p.gate != 0
    ensures var s := Run(p, actions);
            s.work.Emitting? && s.pm == Pm(Wfi, Armed, Vote(START.pm.qos, p.wfi), 0, [])
  {
    hide Run, Vote;
    var s0 := [SetupLocked(false, false)];
    assert Run(p, []) == START by { StartRun(p); }
    assert s0 == [] + s0;
    RunSnoc(p, [], SetupLocked(false, false));
    RunSnoc(p, s0, Schedule);
    var s1 := s0 + [Schedule];
    RunSnoc(p, s1, WorkBegin);
    var s2 := s1 + [WorkBegin];
    RunSnoc(p, s2, WorkStep);
    var s3 := s2 + [WorkStep];
    RunSnoc(p, s3, WorkStep);
    var s4 := s3 + [WorkStep];
    RunSnoc(p, s4, WorkStep);
    var s5 := s4 + [WorkStep];
    RunSnoc(p, s5, WorkStep);
    var s6 := s5 + [WorkStep];
    RunSnoc(p, s6, WorkStep);
    actions := s6 + [WorkStep];
  }

  /** One whole sample with no interrupt, from armed to armed. */
  lemma QuietSample(p: Params, actions: seq<Action>) returns (more: seq<Action>)
    requires p.upSec > 0 && Run(p, actions).pm.sampler == Armed && Run(p, actions).work.Emitting?
    requires Run(p, actions).pm.state in {Wfi, IdlePc}
    ensures var s, pm := Run(p, more), Run(p, actions).pm;
            && s.work.Emitting? && s.pm.sampler == Armed
            && (pm.state == Wfi ==> s.pm.state == IdlePc && s.pm.noIntCount == 0 && s.pm.qos == Vote(pm.qos, p.idlePc))
            && (pm.state == IdlePc && p.upThreshold > 0 ==>
                  if pm.noIntCount + 1 >= p.QuietLimit()
                  then s.pm.state == IdlePcRpm && s.pm.qos == Vote(pm.qos, p.idlePcRpm)
                  else s.pm.state == IdlePc && s.pm.noIntCount == pm.noIntCount + 1 && s.pm.qos == pm.qos)
  {
    hide Run, Vote;
    RunSnoc(p, actions, SamplerStep(0));
    var s1 := actions + [SamplerStep(0)];
    RunSnoc(p, s1, SamplerStep(0));
    more := s1 + [SamplerStep(0)];
    RunSnoc(p, more, SamplerStep(0));
    if Run(p, more).pm.sampler == Chosen {
      RunSnoc(p, more + [SamplerStep(0)], SamplerStep(0));
      more := more + [SamplerStep(0)];
    }
    more := more + [SamplerStep(0)];
  }

  /** Quiet samples lead to the deepest state. */
  lemma {:induction false} StayQuiet(p: Params, actions: seq<Action>) returns (more: seq<Action>)
    requires p.upSec > 0 && p.upThreshold > 0
    requires Run(p, actions).pm.sampler == Armed && Run(p, actions).work.Emitting? && Run(p, actions).pm.state == IdlePc
    ensures var s := Run(p, more); s.work.Emitting? && s.pm.sampler == Armed && s.pm.state == IdlePcRpm
    ensures Run(p, more).pm.qos == Vote(Run(p, actions).pm.qos, p.idlePcRpm)
    decreases p.QuietLimit() - Run(p, actions).pm.noIntCount
  {
    hide Run, Vote;
    more := QuietSample(p, actions);
    if Run(p, more).pm.state == IdlePc { more := StayQuiet(p, more); }
  }

  /** With a latency that casts no vote or withdraws it, some run settles without following. */
  lemma UnusableFails(p: Params) returns (actions: seq<Action>)
    requires p.upSec > 0 && !p.Usable()
    ensures var s := Run(p, actions); Settled(s) && !Follows(p, s.pm)
  {
    hide Run;
    actions := Connect(p);
    if p.Effective(Wfi) {
      actions := QuietSample(p, actions);
      if p.Effective(IdlePc) { actions := StayQuiet(p, actions); }
    }
  }

  /** In every interleaving, whenever neither item is in the middle of a change, the request follows
      the state: exactly for usable latencies. */
  lemma QosFollowsStateExactly(p: Params)
    requires p.upSec > 0
    ensures p.Usable() <==>
            forall actions :: var s := Run(p, actions); Settled(s) ==> Follows(p, s.pm)
  {
    hide Run, Follows, Settled;
    if p.Usable() {
      forall actions ensures var s := Run(p, actions); Settled(s) ==> Follows(p, s.pm) {
        QosFollowsState(p, actions);
      }
    } else {
      var actions := UnusableFails(p);
    }
  }

  // ---- Quiet samples

  /** Length of the run of zeros at the end. */
  function TrailingZeros(s: seq<nat>): (n: nat)
    ensures n <= |s|
  {
    if s == [] || s[|s| - 1] != 0 then 0 else 1 + TrailingZeros(s[..|s| - 1])
  }

  lemma {:induction false} TrailingZerosMeaning(s: seq<nat>)
    ensures forall i | |s| - TrailingZeros(s) <= i < |s| :: s[i] == 0
    ensures TrailingZeros(s) < |s| ==> s[|s| - TrailingZeros(s) - 1] != 0
    decreases |s|
  {
    if s != [] && s[|s| - 1] == 0 {
      TrailingZerosMeaning(s[..|s| - 1]);
    }
  }

  predicate QuietInv(p: Params, pm: Pm)
    requires p.upSec > 0
  {
    && (pm.state == IdlePc ==> pm.noIntCount == TrailingZeros(pm.samples))
    && (pm.state == IdlePcRpm ==> TrailingZeros(pm.samples) >= p.QuietLimit())
  }

  lemma QuietSampler(p: Params, pm: Pm, count: nat)
    requires p.upSec > 0 && QuietInv(p, pm)
    ensures QuietInv(p, Sampler(p, pm, count))
  {
    if pm.sampler == Sampling {
      var more := pm.samples + [count];
      assert more[..|more| - 1] == pm.samples;
    }
  }

  lemma QuietWork(p: Params, s: State)
    requires p.upSec > 0 && QuietInv(p, s.pm)
    ensures QuietInv(p, Work(p, s).pm)
  {
  }

  lemma QuietStep(p: Params, s: State, a: Action)
    requires p.upSec > 0 && QuietInv(p, s.pm)
    ensures QuietInv(p, Step(p, s, a).pm)
  {
    hide Sampler, Work, QuietInv;
    match a
    case WorkStep => QuietWork(p, s);
    case SamplerStep(count) => QuietSampler(p, s.pm, count);
    case _ =>
  }

  lemma {:induction false} QuietRun(p: Params, actions: seq<Action>)
    requires p.upSec > 0
    ensures QuietInv(p, Run(p, actions).pm)
    decreases |actions|
  {
    hide Step;
    if actions != [] {
      QuietRun(p, actions[..|actions| - 1]);
      QuietStep(p, Run(p, actions[..|actions| - 1]), actions[|actions| - 1]);
    }
  }

  /** In every run the counter is the length of the current run of quiet samples, and the
      deepest state is only ever entered after enough of them to cover more than the idle time
      less one sampling period. */
  lemma DeepIdleIsQuiet(p: Params, actions: seq<Action>)
    requires p.upSec > 0
    ensures var pm := Run(p, actions).pm;
            && (pm.state == IdlePc ==> pm.noIntCount == TrailingZeros(pm.samples))
            && (pm.state == IdlePcRpm ==>
                  var k := p.QuietLimit();
                  k <= |pm.samples|
                  && (forall i | |pm.samples| - k <= i < |pm.samples| :: pm.samples[i] == 0)
                  && k * p.upSec > p.idleSecs - p.upSec)
  {
    QuietRun(p, actions);
    TrailingZerosMeaning(Run(p, actions).pm.samples);
    PeriodsCover(p.idleSecs, p.upSec);
  }

  lemma PeriodsCover(idle: nat, up: nat)
    requires up > 0
    ensures idle / up * up > idle - up
  {
    assert idle == idle / up * up + idle % up;
  }
}
