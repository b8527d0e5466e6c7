/** What the uevents tell user space, on the runs of `WorkSpec`. The shadow flags that the work item
    compares with can catch up without any uevent, so that being up to date with them is less than
    having told the truth; this module says how much less. */
module UeventsTell {
  import opened Basics
  import opened WorkSpec

  /** The last uevent once the notice at hand, if any, is out. */
  function LastShown(s: State): Uevent {
    var out := match s.work
               case Idle | Started => []
               case Locked(_, notice) => Sent(notice, s.lastUevent)
               case Cancelled(_, notice) => Sent(notice, s.lastUevent)
               case Voted(_, notice) => Sent(notice, s.lastUevent)
               case StateSet(notice) => Sent(notice, s.lastUevent)
               case Emitting(notice) => Sent(notice, s.lastUevent);
    if out == [] then s.lastUevent else out[|out| - 1]
  }

  /** User space is told of a connection exactly when the shadow flag says so. */
  predicate Told(s: State) { LastShown(s) == Disconnected <==> !s.flags.swConnected }

  /** The controller is connected exactly when user space was told so. */
  predicate Truthful(s: State) { s.lastUevent == Disconnected <==> !s.flags.connected }

  /** Nothing is under way that would tell more. */
  predicate AtRest(s: State) { s.work == Idle && !s.pending && s.toSchedule == 0 }

  /** Whether a locked section that finds these flags leaves user space told: a changed suspend flag of a
      configured device sends nothing, so that it turns a changed connection into an untold one, or back;
      a configured device is announced as such; and otherwise a change of connection is. */
  function Leaves(told: bool, f: Flags): bool {
    if f.suspended != f.swSuspended && f.configured then told == (f.connected == f.swConnected)
    else if f.configured then f.connected
    else told || f.connected != f.swConnected
  }

  lemma TellWork(p: Params, s: State)
    ensures Told(Work(p, s)) <==> if s.work == Started then Leaves(Told(s), s.flags) else Told(s)
  {
    hide Vote;
  }

  lemma TellStep(p: Params, s: State, a: Action)
    requires p.upSec > 0
    ensures Told(Step(p, s, a)) <==> if IsSection(s, a) then Leaves(Told(s), s.flags) else Told(s)
  {
    hide Sampler, Work, Leaves, Sent;
    if a == WorkStep { TellWork(p, s); }
  }

  /** Whether user space is told, from the flags that the locked sections of a run find. */
  function ToldBy(p: Params, actions: seq<Action>): bool
    requires p.upSec > 0
  {
    if actions == [] then true else
      var init, a := actions[..|actions| - 1], actions[|actions| - 1];
      var s := Run(p, init);
      if IsSection(s, a) then Leaves(ToldBy(p, init), s.flags) else ToldBy(p, init)
  }

  lemma {:induction false} ToldExactly(p: Params, actions: seq<Action>)
    requires p.upSec > 0
    ensures Told(Run(p, actions)) <==> ToldBy(p, actions)
    decreases |actions|
  {
    hide Step, Told, Leaves;
    if actions == [] {
      ToldAtStart(p);
    } else {
      var init, a := actions[..|actions| - 1], actions[|actions| - 1];
      ToldExactly(p, init);
      TellStep(p, Run(p, init), a);
    }
  }

  lemma ToldAtStart(p: Params)
    requires p.upSec > 0
    ensures Told(Run(p, []))
  {
  }

  /** Between two runs of the work item the last uevent tells the truth exactly when either the sections
      left user space told and the shadow flag is up to date, or neither. */
  lemma TruthfulExactly(p: Params, actions: seq<Action>)
    requires p.upSec > 0 && Run(p, actions).work == Idle
    ensures var s := Run(p, actions);
            Truthful(s) <==> (ToldBy(p, actions) <==> s.flags.connected == s.flags.swConnected)
  {
    hide Run;
    ToldExactly(p, actions);
  }

  /** A run whose failures are safe tells the truth whenever it comes to rest, exactly as its locked
      sections leave it. */
  lemma RestTellsTruthExactly(p: Params, actions: seq<Action>)
    requires p.upSec > 0 && FailuresSafe(p, actions) && AtRest(Run(p, actions))
    ensures Truthful(Run(p, actions)) <==> ToldBy(p, actions)
  {
    hide Run, FailuresSafe;
    NoticedThroughoutExactly(p, actions);
    LastNoticed(p, actions);
    TruthfulExactly(p, actions);
  }

  // ---- Sections that never leave user space untold

  /** The flags that a section tells truly of when all before was told. */
  predicate Tells(f: Flags) { Leaves(true, f) }

  ghost predicate SectionsTell(p: Params, actions: seq<Action>)
    requires p.upSec > 0
  {
    forall n | 0 <= n < |actions| && IsSection(Run(p, actions[..n]), actions[n]) :: Tells(Run(p, actions[..n]).flags)
  }

  ghost predicate ToldThroughout(p: Params, actions: seq<Action>)
    requires p.upSec > 0
  {
    forall n | 0 <= n <= |actions| :: Told(Run(p, actions[..n]))
  }

  /** No section sends nothing for a changed connection, or announces a configuration without one. */
  lemma TellsExactly(f: Flags)
    ensures Tells(f) <==>
            (f.configured ==> if f.suspended != f.swSuspended then f.connected == f.swConnected else f.connected)
  {
  }

  lemma SectionsSnoc(p: Params, actions: seq<Action>, a: Action)
    requires p.upSec > 0
    ensures SectionsTell(p, actions + [a]) <==>
            SectionsTell(p, actions) && (IsSection(Run(p, actions), a) ==> Tells(Run(p, actions).flags))
  {
    hide Run, Tells, IsSection;
    var all := actions + [a];
    assert forall n | 0 <= n <= |actions| :: all[..n] == actions[..n];
    assert actions[..|actions|] == actions;
  }

  lemma ToldSnoc(p: Params, actions: seq<Action>, a: Action)
    requires p.upSec > 0
    ensures ToldThroughout(p, actions + [a]) <==> ToldThroughout(p, actions) && Told(Run(p, actions + [a]))
  {
    hide Run, Told;
    var all := actions + [a];
    assert forall n | 0 <= n <= |actions| :: all[..n] == actions[..n];
    assert all[..|all|] == all;
  }

  /** A run keeps user space told from end to end exactly when each of its sections tells. */
  lemma {:induction false} ToldThroughoutExactly(p: Params, actions: seq<Action>)
    requires p.upSec > 0
    ensures ToldThroughout(p, actions) <==> SectionsTell(p, actions)
    decreases |actions|
  {
    hide Run, Step, Told, Leaves, IsSection, SectionsTell, ToldThroughout;
    if actions == [] {
      NothingUntold(p);
    } else {
      var init, a := actions[..|actions| - 1], actions[|actions| - 1];
      assert actions == init + [a];
      ToldThroughoutExactly(p, init);
      SectionsSnoc(p, init, a);
      ToldSnoc(p, init, a);
      RunSnoc(p, init, a);
      if ToldThroughout(p, init) {
        LastTold(p, init);
        TellStep(p, Run(p, init), a);
      }
    }
  }

  lemma NothingUntold(p: Params)
    requires p.upSec > 0
    ensures ToldThroughout(p, []) && SectionsTell(p, [])
  {
  }

  lemma LastTold(p: Params, actions: seq<Action>)
    requires p.upSec > 0 && ToldThroughout(p, actions)
    ensures Told(Run(p, actions))
  {
    hide Run, Told;
    assert actions[..|actions|] == actions;
  }

  /** So with safe failures and telling sections the truth is out at every rest. */
  lemma RestTellsTruth(p: Params, actions: seq<Action>)
    requires p.upSec > 0 && FailuresSafe(p, actions) && SectionsTell(p, actions) && AtRest(Run(p, actions))
    ensures Truthful(Run(p, actions))
  {
    hide Run, FailuresSafe;
    ToldThroughoutExactly(p, actions);
    LastTold(p, actions);
    ToldExactly(p, actions);
    RestTellsTruthExactly(p, actions);
  }

  // ---- A run that leaves user space untold

  function Rank(w: WorkPc): nat {
    match w
    case Idle | Started => 0
    case Emitting(_) => 1
    case StateSet(_) => 2
    case Voted(_, _) => 3
    case Cancelled(_, _) => 4
    case Locked(_, _) => 5
  }

  predicate Still(s: State, after: State) {
    after.flags == s.flags && after.pending == s.pending && after.toSchedule == s.toSchedule
  }

  /** The work item past its locked section, the sampler not running, comes to its end by itself. */
  lemma WorkGoesOn(p: Params, s: State)
    requires p.upSec > 0 && Rank(s.work) > 0 && s.pm.sampler in {Off, Armed}
    ensures var after := Step(p, s, WorkStep);
            && Still(s, after) && LastShown(after) == LastShown(s) && after.pm.sampler in {Off, Armed}
            && Rank(after.work) < Rank(s.work) && after.work != Started
  {
    hide Vote, Sampler, Decide;
  }

  lemma {:induction false} Finish(p: Params, actions: seq<Action>) returns (more: seq<Action>)
    requires p.upSec > 0
    requires var s := Run(p, actions); s.work != Started && s.pm.sampler in {Off, Armed}
    ensures actions <= more && forall a | a in more[|actions|..] :: a == WorkStep
    ensures var s, after := Run(p, actions), Run(p, more);
            && after.work == Idle && Still(s, after) && after.pm.sampler in {Off, Armed}
            && after.lastUevent == LastShown(s)
    decreases Rank(Run(p, actions).work)
  {
    hide Run, Step;
    more := actions;
    if Rank(Run(p, actions).work) > 0 {
      WorkGoesOn(p, Run(p, actions));
      var next := Then(p, actions, WorkStep);
      more := Finish(p, next);
      assert more[|actions|..] == [WorkStep] + more[|next|..];
    }
  }

  /** A connection is told; the configured device is suspended and the connection lost before the work
      item runs. It comes to rest with user space told of a connection that is gone. */
  lemma Untold(p: Params) returns (actions: seq<Action>)
    requires p.upSec > 0
    ensures EnableFailed !in actions && AtRest(Run(p, actions)) && !Truthful(Run(p, actions))
    ensures !Run(p, actions).flags.connected && Run(p, actions).lastUevent == Connected
  {
    hide Run, Step;
    StartRun(p);
    Connecting(p);
    actions := Then(p, [], SetupLocked(false, false));
    actions := Then(p, actions, Schedule);
    actions := Then(p, actions, WorkBegin);
    actions := Then(p, actions, WorkStep);
    var told := Finish(p, actions);
    assert EnableFailed !in told by { assert told == actions + told[|actions|..]; }
    Suspending(p, Run(p, told));
    actions := Then(p, told, ConfigChange(true));
    actions := Then(p, actions, Suspend);
    actions := Then(p, actions, Disconnect);
    actions := Then(p, actions, Schedule);
    actions := Then(p, actions, WorkBegin);
    actions := Then(p, actions, WorkStep);
    var last := actions;
    actions := Finish(p, last);
    assert EnableFailed !in actions by { assert actions == last + actions[|last|..]; }
  }

  /** Connected and about to say so. */
  lemma Connecting(p: Params)
    requires p.upSec > 0
    ensures var s := Step(p, Step(p, Step(p, START, SetupLocked(false, false)), Schedule), WorkBegin);
            var locked := Step(p, s, WorkStep);
            && locked.work.Locked? && locked.pm.sampler == Off && LastShown(locked) == Connected
            && locked.flags == START.flags.(connected := true, swConnected := true)
            && !locked.pending && locked.toSchedule == 0
  {
    hide Vote, Sampler;
  }

  lemma Suspending(p: Params, s: State)
    requires p.upSec > 0 && s.work == Idle && !s.pending && s.toSchedule == 0 && s.lastUevent == Connected
    requires s.flags == START.flags.(connected := true, swConnected := true)
    ensures var a := Step(p, Step(p, Step(p, s, ConfigChange(true)), Suspend), Disconnect);
            var locked := Step(p, Step(p, Step(p, a, Schedule), WorkBegin), WorkStep);
            && locked.work.Locked? && locked.pm.sampler == s.pm.sampler && LastShown(locked) == Connected
            && !locked.flags.connected && !locked.pending && locked.toSchedule == 0
  {
    hide Vote, Sampler;
  }
}
