/** What the PM-QoS vote and the sampler's state say about the bus, on the runs of `WorkSpec`: each
    is read back from what the locked sections found and what the sampler counted. */
module VoteLaws {
  import opened Basics
  import opened WorkSpec

  // ---- The vote follows the bus

  /** The flags that the last section to take a vote found. */
  function LastVoting(p: Params, actions: seq<Action>): Option<Flags>
    requires p.upSec > 0
  {
    if actions == [] then None else
      var init, a := actions[..|actions| - 1], actions[|actions| - 1];
      Voting(Run(p, init), a, LastVoting(p, init))
  }

  function Voting(s: State, a: Action, last: Option<Flags>): Option<Flags> {
    if IsSection(s, a) && TakesVote(s.flags) then Some(s.flags) else last
  }

  /** No section has taken a vote yet, or the last one that did found nothing to vote up for. */
  predicate VotedDown(last: Option<Flags>) { last.None? || BusIdle(last.value) }

  /** A vote has been taken and is not yet in the state. */
  predicate VotePending(s: State) {
    match s.work
    case Locked(vote, _) => vote.Some?
    case Cancelled(_, _) | Voted(_, _) => true
    case _ => false
  }

  predicate VoteInv(p: Params, s: State, last: Option<Flags>) {
    && (VotePending(s) ==> (VoteOf(s) <==> !VotedDown(last)))
    && (!VotePending(s) ==> (s.pm.state == NoUsbVote <==> VotedDown(last)))
  }

  predicate VoteOf(s: State)
    requires VotePending(s)
  {
    match s.work
    case Locked(vote, _) => vote.value
    case Cancelled(up, _) => up
    case Voted(up, _) => up
  }

  lemma VoteStep(p: Params, s: State, a: Action, last: Option<Flags>)
    requires p.upSec > 0 && p.gate != 0 && VoteInv(p, s, last)
    ensures VoteInv(p, Step(p, s, a), Voting(s, a, last))
  {
    hide Vote, Sent, Decide, BusIdle, TakesVote;
    if IsSection(s, a) { SectionVotes(p, s); }
  }

  lemma SectionVotes(p: Params, s: State)
    requires p.upSec > 0 && s.work == Started
    ensures var after := Step(p, s, WorkStep);
            && after.pm == s.pm && after.work.Locked?
            && (after.work.vote.Some? <==> TakesVote(s.flags))
            && (after.work.vote.Some? ==> after.work.vote.value == !BusIdle(s.flags))
  {
    hide Vote, Sent, Sampler;
    DecideVotes(s.flags, s.lastUevent);
  }

  lemma {:induction false} VoteRun(p: Params, actions: seq<Action>)
    requires p.upSec > 0 && p.gate != 0
    ensures VoteInv(p, Run(p, actions), LastVoting(p, actions))
    decreases |actions|
  {
    hide Step, VoteInv, Voting;
    if actions == [] {
      VoteAtStart(p);
    } else {
      var init, a := actions[..|actions| - 1], actions[|actions| - 1];
      VoteRun(p, init);
      VoteStep(p, Run(p, init), a, LastVoting(p, init));
    }
  }

  lemma VoteAtStart(p: Params)
    requires p.upSec > 0
    ensures VoteInv(p, START, None)
  {
  }

  /** Whatever the sampler does in between, and once no vote is pending, the state is NO_USB_VOTE
      exactly when the last section that voted found a configured device suspended, or before a
      configuration the connection lost or the vote held low; or none has voted. */
  lemma StateFollowsBus(p: Params, actions: seq<Action>)
    requires p.upSec > 0 && p.gate != 0 && !VotePending(Run(p, actions))
    ensures var last := LastVoting(p, actions);
            Run(p, actions).pm.state == NoUsbVote <==>
            (last.None? ||
             var f := last.value; if f.configured then f.suspended else !f.connected || f.pmQosLow)
  {
    hide Run, LastVoting;
    VoteRun(p, actions);
  }

  /** With usable latencies the request is then inactive exactly in those cases, and the sampler off. */
  lemma RequestFollowsBus(p: Params, actions: seq<Action>)
    requires p.upSec > 0 && p.gate != 0 && p.Usable()
    requires var s := Run(p, actions); Settled(s) && !VotePending(s)
    ensures var last, pm := LastVoting(p, actions), Run(p, actions).pm;
            && (pm.qos.active <==>
                last.Some? &&
                var f := last.value; if f.configured then !f.suspended else f.connected && !f.pmQosLow)
            && (pm.qos.active <==> pm.sampler != Off)
  {
    hide Run, LastVoting;
    StateFollowsBus(p, actions);
    QosFollowsState(p, actions);
  }

  // ---- The state follows the samples

  /** A sample of the interrupts and the state it was taken in. */
  datatype Sample = Sample(was: PmState, count: nat)

  /** The last sample since the work item last stored a state. */
  function LastSample(p: Params, actions: seq<Action>): Option<Sample>
    requires p.upSec > 0
  {
    if actions == [] then None else
      var init, a := actions[..|actions| - 1], actions[|actions| - 1];
      Sampled(Run(p, init), a, LastSample(p, init))
  }

  function Sampled(s: State, a: Action, last: Option<Sample>): Option<Sample> {
    if a == WorkStep && s.work.Voted? then None
    else if a.SamplerStep? && s.pm.sampler == Sampling then Some(Sample(s.pm.state, a.count))
    else last
  }

  /** Few enough interrupts for the state the sample was taken in. */
  predicate IsCalm(p: Params, last: Option<Sample>) {
    last.Some? &&
    match last.value.was
    case NoUsbVote => false
    case Wfi => last.value.count <= p.downThreshold
    case IdlePc => last.value.count < p.upThreshold
    case IdlePcRpm => last.value.count == 0
  }

  predicate CalmInv(p: Params, s: State, last: Option<Sample>) {
    s.pm.state in {IdlePc, IdlePcRpm} <==> IsCalm(p, last)
  }

  lemma CalmStep(p: Params, s: State, a: Action, last: Option<Sample>)
    requires p.upSec > 0 && CalmInv(p, s, last)
    ensures CalmInv(p, Step(p, s, a), Sampled(s, a, last))
  {
    hide Vote, Sent, Decide;
  }

  lemma {:induction false} CalmRun(p: Params, actions: seq<Action>)
    requires p.upSec > 0
    ensures CalmInv(p, Run(p, actions), LastSample(p, actions))
    decreases |actions|
  {
    hide Step, IsCalm, Sampled;
    if actions == [] {
      CalmAtStart(p);
    } else {
      var init, a := actions[..|actions| - 1], actions[|actions| - 1];
      CalmRun(p, init);
      CalmStep(p, Run(p, init), a, LastSample(p, init));
    }
  }

  lemma CalmAtStart(p: Params)
    requires p.upSec > 0
    ensures CalmInv(p, START, None)
  {
  }

  /** In every interleaving the state is IDLE_PC or IDLE_PC_RPM exactly when a sample was taken since the
      work item last stored a state, and the last one was calm: at most the down threshold in WFI, below
      the up threshold in IDLE_PC, none in IDLE_PC_RPM. */
  lemma IdleIsCalm(p: Params, actions: seq<Action>)
    requires p.upSec > 0
    ensures var last := LastSample(p, actions);
            Run(p, actions).pm.state in {IdlePc, IdlePcRpm} <==>
            last.Some? &&
            (var x := last.value;
             || (x.was == Wfi && x.count <= p.downThreshold)
             || (x.was == IdlePc && x.count < p.upThreshold)
             || (x.was == IdlePcRpm && x.count == 0))
  {
    hide Run, LastSample;
    CalmRun(p, actions);
  }

  // ---- A new configuration is looked at

  lemma WillRunStep(p: Params, s: State, a: Action)
    requires p.upSec > 0 && WillRun(s) && !IsSection(s, a)
    ensures WillRun(Step(p, s, a))
  {
    hide Sampler, Vote, Sent, Decide;
  }

  /** After a SET_CONFIGURATION that configures a device, the work item looks at the flags again before
      it comes to rest. */
  lemma {:induction false} ConfigurationSeen(p: Params, actions: seq<Action>, n: nat)
    requires p.upSec > 0 && n < |actions|
    requires actions[n] == SetupLocked(true, false) && Run(p, actions[..n]).flags.configured
    ensures WillRun(Run(p, actions))
            || exists m :: n < m < |actions| && IsSection(Run(p, actions[..m]), actions[m])
    decreases |actions|
  {
    hide WillRun, IsSection, Run, Step;
    var last := |actions| - 1;
    var init := actions[..last];
    assert actions == init + [actions[last]];
    RunSnoc(p, init, actions[last]);
    if last == n {
      ConfigurationOwes(p, Run(p, init));
    } else {
      assert init[..n] == actions[..n];
      ConfigurationSeen(p, init, n);
      if WillRun(Run(p, init)) {
        if !IsSection(Run(p, init), actions[last]) { WillRunStep(p, Run(p, init), actions[last]); }
      } else {
        var m :| n < m < |init| && IsSection(Run(p, init[..m]), init[m]);
        assert init[..m] == actions[..m];
      }
    }
  }

  lemma ConfigurationOwes(p: Params, s: State)
    requires p.upSec > 0 && s.flags.configured
    ensures WillRun(Step(p, s, SetupLocked(true, false)))
  {
  }
}
