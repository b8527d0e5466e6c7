# Verified models of the gadget, camera and frame-transmission cores

A Dafny project that models three parts of the repository and proves what they keep. `dafny verify
dfyconfig.toml` checks all of it. Nothing here runs the modelled programs.

**USB gadget controller** (`usb/gadget/android.c`)

- `Basics`: the option type and a count that the modules share.
- `CStrings`: the kernel's `strlcpy`, `strim` and `strsep` on strings.
- `FunctionsText`: what a write to the `functions` attribute denotes and what a read shows, as pure
  functions, and exactly when reading and writing back restores the lists.
- `DepthSpec`: the pull-up with its nested disable counter as an abstract machine, and its invariant
  over all runs of writes and FunctionFS callbacks.
- `AndroidDev`: the devices, configurations and drivers as classes. The methods follow the code's
  loops and list reuse, refine both modules above, and keep ownership exact across devices.
- `WorkSpec`, `GadgetWork`: the uevent work item, the PM-QoS sampler and the notifiers as interleaved
  atomic steps: the specification with its run theorems, and the class whose methods refine it.
- `VoteLaws`: on those runs, what the PM-QoS vote and the sampler's state say about the bus and the samples.
- `UeventsTell`: on those runs, when the last uevent is the truth about the connection.
- `BindConfig`, `AcmPorts`: binding with rollback, and the ACM acquisition whose rollback is entered
  by a jump into its loop.

**Frame transmission** (`littlecola_bug/mtkcamera/ic_main.c`, the `STREAM_ON_MIPI` build)

- `FrameSpec`, `FrameChannel`: event thread, transmitter callbacks and the callers that start and stop
  sources, again as a specification over all interleavings and a class that refines it.
- `CaptureBusy`: on those runs, when the flag of a still capture falls at the right moment.

**Camera ISP** (`littlecola_bug/mtkcamera/isp_function.cpp`)

- `MdpLayout`: the three-level table carved out of one allocation.
- `HeaderPool`: the headers handed out with pass-1 buffers.
- `Pass2Queue`: the pass-2 lists with redelivery.
- `DigitalZoom`: the digital-zoom arithmetic in 32-bit words.
- `CqScan`: the two scans of the pass-2 module table.

How to read the contracts. Calls into code outside these files are parameters: what a registration, a
port, a control call or the MDP answers is given to the method, so a theorem covers every answer.
A module that imitates concurrency has one `Step` function with a case per stretch that a lock or a
single store makes atomic; its run theorems are inductions over all sequences of steps, and each
method of the class beside it ensures that its effect is one such step.

What the code does against first expectation, each with a lemma:

- A stored `rndis` can come back as FunctionFS when an alias names the QC driver, and an empty
  configuration is not shown, so it is lost; `FunctionsText.RoundTrip` has the exact condition.
- FunctionFS can be stored twice exactly when it can be had and its own name is not among its aliases
  (`FunctionsText.FfsOnceExactly`), and exactly where lists may hold it twice the gadget can be connected
  while not enabled (`DepthSpec.ConnectedEnabledLimit`).
- The failure path of `enable_store` can leave user space with a stale CONNECTED
  (`WorkSpec.FailureLoses`); `WorkSpec.NoticedThroughoutExactly` says in which runs.
- A PM-QoS latency of zero or of the default leaves the request off its state
  (`WorkSpec.UnusableFails`, `WorkSpec.QosFollowsStateExactly`).
- The emptying loop of a failed bind does not end if a listed function has no configuration
  (`BindConfig.DropEnds`); a driver that another configuration had bound loses its mark, and its
  `unbind_config` is called, when a configuration that also holds it fails to bind.
- An ACM list of four or more ports that all open is reported as bound with nothing acquired, and a
  failed addition keeps its references with `instances_on` at zero (`AcmPorts.AcmFunction.BindConfig`).
- A frame taken without a transmitter client is never returned, unless frames are being skipped
  (`FrameSpec.ReturnableExactly`).
- At rest the last uevent can say CONNECTED of a connection that is gone, without any failure
  (`UeventsTell.Untold`); `UeventsTell.TruthfulExactly` has the exact condition.
- The still-capture flag can fall while a counted still is in flight, for two reasons: a callback looks at
  the counter and stores without the lock, and it looks at the counter of its own instance although the
  flag is one for all (`CaptureBusy.BusyFallsEarly`, `CaptureBusy.BusyFallsBeside`).
  `CaptureBusy.FallsSafeExactly` has the exact condition.
- A pass-1 dequeue that fails leaks its header for good (`HeaderPool.LeaksStay`), but for the return of a
  buffer at address zero (`HeaderPool.ZeroAddressFrees`).
- Exactly below a zoom of one the zoom window can exceed its frame (`DigitalZoom.FitsExactly`).

Assumptions that the theorems state as preconditions or enabling conditions: FunctionFS closes only what
it opened and opens only what is closed; functions added to a configuration are attached to it; a source
is started when stopped and stopped when started, and the LRT emits nothing of a source after its stopped
event; a delivered pass-1 buffer has a non-zero address that nobody owes.

## Model

| member | source | states |
|---|---|---|
| `CStrings.StrimLine` | usb/gadget/android.c:3712-3713 | `strim` undoes a trailing newline on a text without outer blanks |
| `CStrings.SplitJoin` | usb/gadget/android.c:3715-3716 | the tokens that a `strsep` loop takes from a joined text are the texts joined, when none of them holds the separator |
| `CStrings.StrimExactly` | usb/gadget/android.c:3712-3713 | `strim` removes the blanks at both ends, all of them and nothing else |
| `CStrings.SplitParts` | usb/gadget/android.c:3715-3716 | for every text: the tokens of a `strsep` loop joined again are the text, and none holds the separator |
| `CStrings.JoinTrimmed` | usb/gadget/android.c:3659-3672 | a text joined from trimmed names has no blanks for `strim` to take at its ends |
| `FunctionsText.FfsExact` | usb/gadget/android.c:3729-3763 | how often one write stores FunctionFS, for every alias list and text: once if any token is an alias, and once more for each token that is its own name unless that is an alias |
| `FunctionsText.FfsOnce` | usb/gadget/android.c:3731-3753 | under every alias list the aliases alone add FunctionFS at most once: the count is at most one plus the tokens that are its own name |
| `FunctionsText.FfsTwice` | usb/gadget/android.c:3731-3759 | where its own name is no alias, as under the empty list a device starts with, `ffs,ffs` stores it twice |
| `FunctionsText.FfsOnceExactly` | usb/gadget/android.c:3729-3763 | main result: every text stores FunctionFS at most once exactly when its own name is an alias or it is not to be had |
| `FunctionsText.TakenUsable` | usb/gadget/android.c:3566-3600 | only drivers of the table that are free or already owned are kept; `rndis` never is while the transport selects the QC driver; a kept name that is an alias is FunctionFS or the QC driver |
| `FunctionsText.ParseExactly` | usb/gadget/android.c:3712-3763 | main result: what a write of any text stores, token by token. A configuration holds, in order, the drivers of exactly those tokens of its part that are kept: an alias as FunctionFS, if that is to be had and no token before it in the text is an alias; any other if its driver, `rndis_qc` for `rndis` under that transport, is to be had |
| `FunctionsText.HeldExactly` | usb/gadget/android.c:3729-3763 | how often a configuration holds any driver but FunctionFS: as often as its part names it, with `rndis` counted as `rndis_qc` under that transport and aliases not at all |
| `FunctionsText.TakenExact` | usb/gadget/android.c:3729-3763 | that count over one part, whatever alias came before |
| `FunctionsText.StoresAll` | usb/gadget/android.c:3675-3776 | main result: a text of drivers that are to be had, no alias and not a mapped `rndis` denotes exactly their lists, all of them in order, with or without its final newline |
| `FunctionsText.TakeAgain` | usb/gadget/android.c:3729-3763 | reading kept names again keeps them all: the parser is idempotent on what it kept |
| `FunctionsText.TakeConfigsAgain` | usb/gadget/android.c:3715-3764 | the same over all configurations, with the alias flag carried across them |
| `FunctionsText.ShownSplits` | usb/gadget/android.c:3649-3673 | the text shown splits into one part per non-empty configuration and each part into its drivers |
| `FunctionsText.BodySnoc` | usb/gadget/android.c:3659-3672 | one more configuration appends its names after a colon, and nothing when it is empty |
| `FunctionsText.ShownIs` | usb/gadget/android.c:3649-3673 | nothing is shown exactly if all configurations are empty; otherwise the non-empty ones joined, with a newline |
| `FunctionsText.ShadowedIsLost` | usb/gadget/android.c:3735-3753 | a kept driver hidden behind an alias does not survive a read and a write |
| `FunctionsText.RoundTripEmpty` | usb/gadget/android.c:3649-3776 | the round trip when nothing is shown: it holds exactly for one empty configuration that the empty name does not turn into FunctionFS |
| `FunctionsText.RoundTrip` | usb/gadget/android.c:3649-3776 | main result: writing back what a read showed restores the lists an earlier write made exactly when they are all non-empty with no driver hidden behind an alias (or are the one empty list just described), whenever the text fits the 255 characters |
| `FunctionsText.AliasShadowsQc` | usb/gadget/android.c:3743-3757 | the failing input: an alias that names the QC driver turns a stored `rndis` into FunctionFS on the way back |
| `DepthSpec.EnableHoldersEffect` | usb/gadget/android.c:3821-3829 | while the gadget is down the enable loop only deepens the count, once for each FunctionFS holder that is not open |
| `DepthSpec.DisableHoldersEffect` | usb/gadget/android.c:3843-3848 | above the count of closed FunctionFS holders the disable loop never reaches depth zero, so it registers and connects nothing |
| `DepthSpec.StepGood` | usb/gadget/android.c:500-574 | each locked section keeps the depth formula, raises no warning and keeps the gadget connected exactly at depth zero with configurations registered and no video |
| `DepthSpec.CallbackExact` | usb/gadget/android.c:813-854 | a FunctionFS callback keeps that invariant exactly when it toggles `opened` or FunctionFS is not enabled |
| `DepthSpec.StorePulls` | usb/gadget/android.c:3786-3858 | no write connects on the way: enabling pulls up at most once and never down, disabling pulls down exactly when the gadget was up, rewriting the lists pulls nothing |
| `DepthSpec.RunGood` | usb/gadget/android.c:500-574 | main result: in every reachable state of a run with at most one FunctionFS holder and toggling callbacks, `disable_depth` is 1 while disabled plus 1 while FunctionFS is enabled but not opened, the WARN never fires, and the connection state follows |
| `DepthSpec.HoldersComeUp` | usb/gadget/android.c:660-682 | storing, enabling and opening a list of n FunctionFS holders leaves depth n - 1, so the gadget comes up exactly for one |
| `DepthSpec.FormulaLimit` | usb/gadget/android.c:660-682 | the formula holds over all such runs exactly when lists hold FunctionFS at most once |
| `DepthSpec.TwoHoldersConnectWhileDisabled` | usb/gadget/android.c:3841-3849 | a permitted run with two holders in which a write of 0 leaves the gadget connected and not enabled |
| `DepthSpec.ConnectedEnabledLimit` | usb/gadget/android.c:3786-3858 | main result: over all permitted runs the gadget is connected only while enabled exactly when lists hold FunctionFS at most once |
| `AndroidDev.AndroidDev.constructor` | usb/gadget/android.c:4445-4467 | a new device has the table, switches and controller it is given, no configurations and no aliases, and is disabled at depth one and pulled down; FunctionFS may be in use elsewhere |
| `AndroidDev.AndroidDev.EnableFunction` | usb/gadget/android.c:3566-3600 | the first driver of that name that is free or owned already is appended and owned, if there is one; otherwise an error and nothing changes |
| `AndroidDev.AndroidDev.MatchesAlias` | usb/gadget/android.c:3731-3741 | true exactly when the name is one of the comma-separated aliases, the empty name included for an empty list |
| `AndroidDev.AndroidDev.StoreName` | usb/gadget/android.c:3730-3763 | one token: an alias appends FunctionFS exactly if that is to be had and no alias has before, any other token its driver exactly if that is to be had, with the transport mapping; owners change only for what is held, and nothing becomes unusable |
| `AndroidDev.AndroidDev.StoreNames` | usb/gadget/android.c:3729-3763 | the inner `strsep` loop stores one configuration as the parser says, of which ParseExactly, HeldExactly and StoresAll say what that is |
| `AndroidDev.AndroidDev.ClearLists` | usb/gadget/android.c:3698-3710 | all lists are emptied and exactly the drivers this device owned become free |
| `AndroidDev.AndroidDev.AllocConfig` | usb/gadget/android.c:4296-4318 | a new last configuration whose value is the new count |
| `AndroidDev.AndroidDev.FreeConfig` | usb/gadget/android.c:4320-4326 | one configuration leaves the list, the others keep their order |
| `AndroidDev.AndroidDev.StoreConfig` | usb/gadget/android.c:3720-3763 | the next configuration is reused or appended, filled with what the parser keeps, the ones before untouched |
| `AndroidDev.AndroidDev.FreeSurplus` | usb/gadget/android.c:3766-3771 | the surplus goes from the tail: the configurations left are a prefix, with values 1 to `configs_num` |
| `AndroidDev.AndroidDev.StorePart` | usb/gadget/android.c:3715-3764 | one turn of the `:` loop moves one configuration from the parser's remaining list to the stored ones |
| `AndroidDev.AndroidDev.StoreParts` | usb/gadget/android.c:3715-3764 | the `:` loop stores one configuration per part, reusing objects from the front |
| `AndroidDev.AndroidDev.StoreText` | usb/gadget/android.c:3698-3771 | from any lists: the text is what the lists hold afterwards, with objects reused and ownership exact |
| `AndroidDev.AndroidDev.FunctionsStore` | usb/gadget/android.c:3675-3776 | main result: an enabled device refuses with -EBUSY and nothing changes; otherwise the lists hold exactly what the text denotes, and all of a text of drivers that are to be had and no alias, in order; configuration i has value i + 1, objects are reused from the front, ownership stays exact, other devices' drivers stay theirs, and the pull-up does not move |
| `AndroidDev.AndroidDev.FunctionsShow` | usb/gadget/android.c:3649-3673 | shows exactly the non-empty lists, colons overwriting trailing commas and the newline the last, and nothing if all are empty |
| `AndroidDev.AndroidDev.FfsAliasesStore` | usb/gadget/android.c:762-784 | refused while enabled, else the trimmed text, cut to 255 characters |
| `AndroidDev.AndroidDev.FfsHeld` | usb/gadget/android.c:3577-3596 | FunctionFS is among the holders exactly when the device owns it |
| `AndroidDev.AndroidDev.KindsNamed` | usb/gadget/android.c:3821-3848 | the pull-up machine sees FunctionFS, and video, exactly when some configuration holds a driver of that name |
| `AndroidDev.AndroidDev.AndroidEnable` | usb/gadget/android.c:500-540 | refines one level up of the pull-up machine; it fails exactly at the last level when a configuration does not register |
| `AndroidDev.AndroidDev.AndroidDisable` | usb/gadget/android.c:542-574 | refines one level down |
| `AndroidDev.AndroidDev.EnableHook` | usb/gadget/android.c:660-670 | the two enable hooks that drivers have, those of FunctionFS and video, refine the machine's step for one holder |
| `AndroidDev.AndroidDev.DisableHook` | usb/gadget/android.c:672-682 | likewise the two disable hooks |
| `AndroidDev.AndroidDev.EnableAll` | usb/gadget/android.c:3821-3829 | the nested enable loops run the hooks over all holders in list order |
| `AndroidDev.AndroidDev.DisableAll` | usb/gadget/android.c:3843-3848 | the nested disable loops likewise |
| `AndroidDev.AndroidDev.EnableStore` | usb/gadget/android.c:3786-3858 | -ENODEV without a composite device; otherwise the write is a step of the pull-up machine, ownership and lists untouched |
| `AndroidDev.AndroidDev.StoredCount` | usb/gadget/android.c:3743-3763 | the pull-up machine sees FunctionFS as often as the stored lists name it |
| `AndroidDev.AndroidDev.StoreIsPermitted` | usb/gadget/android.c:3743-3753 | a write is a step the run theorem permits exactly when its text denotes FunctionFS at most once, as all do under aliases that name FunctionFS itself |
| `AndroidDev.AndroidDev.StoredExactly` | usb/gadget/android.c:3715-3763 | after a write of any text there is one configuration for each part, holding each driver as often as the part names it (one that is to be had, no alias and not of the `rndis` pair) |
| `AndroidDev.FunctionfsReady` | usb/gadget/android.c:813-830 | without an owner -ENODEV; otherwise a ready step of the owner |
| `AndroidDev.FunctionfsClosed` | usb/gadget/android.c:832-854 | a closed step of the owner; without one FunctionFS is only marked closed |
| `AndroidDev.HeldOnce` | usb/gadget/android.c:3577-3596 | no driver is held by two devices |
| `AndroidDev.ProbeAmong` | usb/gadget/android.c:4366-4467 | a valid world of devices grows by one with each probe, the other devices looking as before |
| `AndroidDev.StoreAmong` | usb/gadget/android.c:3675-3776 | a write to one of any number of devices keeps the invariants of all, and leaves what the others hold and own |
| `AndroidDev.EnableAmong` | usb/gadget/android.c:3786-3858 | a write to `enable` of one device is a step of its machine, keeps the invariants of all devices, and changes the others at most in the shared video switch |
| `AndroidDev.ReadyAmong` | usb/gadget/android.c:813-830 | a ready callback is a step of the owner and, for each other device, one delivered elsewhere; the invariants of all hold |
| `AndroidDev.ClosedAmong` | usb/gadget/android.c:832-854 | a closed callback likewise |
| `WorkSpec.NoLostNotification` | usb/gadget/android.c:430-448 | main result: under any interleaving of setup, disconnect, suspend, resume and the work item, flags that differ from the shadow flags it last left keep a run of it ahead |
| `WorkSpec.EnableFailedLoses` | usb/gadget/android.c:3833-3839 | the failure path of `enable_store` keeps that exactly when no connection had been told or a run is ahead |
| `WorkSpec.NoticedThroughoutExactly` | usb/gadget/android.c:3833-3839 | main result: a run that may fail to enable keeps it from end to end exactly when each failure came before a connection was told or with a run ahead |
| `WorkSpec.FailureLoses` | usb/gadget/android.c:3833-3839 | such a loss is within reach: a connection told, then a failure |
| `WorkSpec.EmitOrdered` | usb/gadget/android.c:462-495 | what one notice sends keeps the stream ordered, making up for a missed DISCONNECTED |
| `WorkSpec.ConfiguredApart` | usb/gadget/android.c:469-477 | in an ordered stream two CONFIGURED have a DISCONNECTED between them, however many events lie between |
| `WorkSpec.StreamOrder` | usb/gadget/android.c:425-495 | main result: in every run each CONNECTED is first or right after DISCONNECTED, and a DISCONNECTED lies between any two CONFIGURED |
| `UeventsTell.TellStep` | usb/gadget/android.c:430-446 | what a locked section leaves told: a changed suspend flag of a configured device sends nothing, a configured device is announced, and otherwise a change of connection is; no other step changes it |
| `UeventsTell.TruthfulExactly` | usb/gadget/android.c:430-491 | main result: between two runs of the work item the last uevent says DISCONNECTED exactly when the controller is not connected, exactly if the sections of the run left user space told and the shadow flag is up to date, or neither |
| `UeventsTell.RestTellsTruthExactly` | usb/gadget/android.c:430-491 | with safe failures, at rest: exactly if its locked sections left user space told |
| `UeventsTell.TellsExactly` | usb/gadget/android.c:430-446 | a section tells exactly unless it sends nothing for a changed connection of a configured device or announces a configuration without a connection |
| `UeventsTell.ToldThroughoutExactly` | usb/gadget/android.c:430-491 | main result: a run keeps user space told from end to end exactly when each of its locked sections tells |
| `UeventsTell.RestTellsTruth` | usb/gadget/android.c:430-491 | so with safe failures and telling sections the last uevent tells the truth at every rest |
| `UeventsTell.Untold` | usb/gadget/android.c:430-491 | a run without failures that comes to rest not connected, with CONNECTED the last uevent |
| `WorkSpec.PmRun` | usb/gadget/android.c:306-460 | at each point of `android_work` and of the sampler, in every interleaving, the vote and the sampler match the state being entered or left |
| `WorkSpec.QosFollowsState` | usb/gadget/android.c:306-460 | with usable latencies, whenever neither work item is in the middle of a change: the request is active exactly when the last vote is not the default, exactly when there is a USB vote, at the latency of the state, with the sampler armed or running |
| `WorkSpec.UnusableFails` | usb/gadget/android.c:306-312 | a zero or default latency of a state that can be entered gives a run that settles otherwise |
| `WorkSpec.QosFollowsStateExactly` | usb/gadget/android.c:306-460 | main result: that property of all runs holds exactly for usable latencies (or none at all); the deepest state's matters only with an up threshold |
| `WorkSpec.TrailingZerosMeaning` | usb/gadget/android.c:372-376 | the count of trailing zeros is that of the quiet samples since the last noisy one |
| `WorkSpec.DeepIdleIsQuiet` | usb/gadget/android.c:360-399 | main result: while in IDLE_PC the counter is the length of the current run of quiet samples since entry, and IDLE_PC_RPM implies enough of them to cover more than the idle time less one period |
| `VoteLaws.StateFollowsBus` | usb/gadget/android.c:430-460 | main result: in every run, once no vote is pending, the state is NO_USB_VOTE exactly if no section has voted or the last one that did found a configured device suspended, or before a configuration the connection lost or the vote held low |
| `VoteLaws.RequestFollowsBus` | usb/gadget/android.c:430-460 | with usable latencies the request is inactive, and the sampler off, in exactly those cases |
| `VoteLaws.IdleIsCalm` | usb/gadget/android.c:359-409 | main result: in every run the state is IDLE_PC or IDLE_PC_RPM exactly if a sample was taken since the work item last stored a state and the last one was within the threshold of the state it was taken in |
| `VoteLaws.ConfigurationSeen` | usb/gadget/android.c:4170-4179 | after a SET_CONFIGURATION that configures a device the work item looks at the flags again before it comes to rest |
| `GadgetWork.GadgetWork.SetupLocked` | usb/gadget/android.c:4170-4179 | refines the step: a schedule is owed exactly for a new connection and for a configuration newly set |
| `GadgetWork.GadgetWork.DisconnectStore` | usb/gadget/android.c:4196-4196 | refines the step: the flag falls and a schedule is owed |
| `GadgetWork.GadgetWork.AndroidSuspend` | usb/gadget/android.c:4216-4221 | refines the step: the flag rises, and work is scheduled exactly if it was not up |
| `GadgetWork.GadgetWork.AndroidResume` | usb/gadget/android.c:4232-4237 | refines the step: the flag falls, and work is scheduled exactly if it was up |
| `GadgetWork.GadgetWork.WorkLocked` | usb/gadget/android.c:429-448 | refines the step: vote and notice are decided and the shadow flags follow; AndroidWork says in which direction |
| `GadgetWork.GadgetWork.UpdateLatency` | usb/gadget/android.c:306-339 | a vote is ignored when repeated or zero, removes the request for the default and programs it otherwise |
| `GadgetWork.GadgetWork.WorkCancel` | usb/gadget/android.c:450-457 | refines the step: the sampler is off before anything is voted |
| `GadgetWork.GadgetWork.WorkVote` | usb/gadget/android.c:450-459 | refines the step |
| `GadgetWork.GadgetWork.WorkSetState` | usb/gadget/android.c:450-460 | refines the step |
| `GadgetWork.GadgetWork.WorkArm` | usb/gadget/android.c:454-455 | refines the step |
| `GadgetWork.GadgetWork.WorkEmit` | usb/gadget/android.c:462-495 | refines the step: the events appended are those of the notice |
| `GadgetWork.GadgetWork.CastVote` | usb/gadget/android.c:450-460 | the vote, state and sampler after the PM-QoS part as a whole |
| `GadgetWork.GadgetWork.AndroidWork` | usb/gadget/android.c:414-496 | main result: a whole run with nothing in between. A suspension newly seen leaves NO_USB_VOTE and the sampler off, a resume WFI with the sampler armed and its vote cast, a change of connection before a configuration either of these by whether it is there and not "low", and "low" keeps suspend and resume from voting; the uevents are CONFIGURED, CONNECTED (each after a DISCONNECTED that was missed), DISCONNECTED, or none on suspend and resume; nothing is stale |
| `GadgetWork.GadgetWork.SamplerChoose` | usb/gadget/android.c:359-400 | refines the sampler's choice of state and its quiet count, whose transitions AndroidPmQosWork states |
| `GadgetWork.GadgetWork.SwitchState` | usb/gadget/android.c:359-396 | the switch computes the next state and the quiet count, as AndroidPmQosWork states them |
| `GadgetWork.GadgetWork.SamplerVote` | usb/gadget/android.c:402-409 | refines the vote that follows a change of state |
| `GadgetWork.GadgetWork.AndroidPmQosWork` | usb/gadget/android.c:347-412 | main result: a whole run with nothing in between. WFI is left for IDLE_PC exactly at or below the down threshold; IDLE_PC for WFI exactly at or above the up threshold, and else for IDLE_PC_RPM exactly if the quiet run reaches its limit; IDLE_PC_RPM for WFI exactly on an interrupt; each change casts the vote of the new state, and the sampler is armed again |
| `BindConfig.Configuration.DropFunctions` | usb/gadget/android.c:3532-3542 | empties the list, unbinding each function once |
| `BindConfig.Configuration.UnbindEnabledFunctions` | usb/gadget/android.c:3552-3565 | every holder ends unbound, and one that was bound and has the hook got one call |
| `BindConfig.Configuration.RollBack` | usb/gadget/android.c:3532-3545 | a failed bind leaves no function and no bound holder |
| `BindConfig.Configuration.BindEnabledFunctions` | usb/gadget/android.c:3519-3550 | main result: all or nothing. On success every holder is bound and the list holds what the drivers added, in order; at the first failure the list is empty, each function added so far was unbound once, no holder is bound and each holder bound by then had its `unbind_config` called once |
| `BindConfig.DropEnds` | usb/gadget/android.c:3532-3542 | the emptying loop ends exactly when every listed function has its configuration set |
| `AcmPorts.AcmFunction.PutBack` | usb/gadget/android.c:965-970 | the rollback, entered at its head or by the jump into its body, puts exactly the references acquired, each once |
| `AcmPorts.AcmFunction.Acquire` | usb/gadget/android.c:933-945 | all instances and functions are held exactly when every get succeeds, and none otherwise |
| `AcmPorts.AcmFunction.AddAll` | usb/gadget/android.c:947-963 | all functions are added exactly when every add succeeds, and none otherwise |
| `AcmPorts.AcmFunction.OpenPorts` | usb/gadget/android.c:907-926 | one port per name up to the limit, stopping at the first that does not open |
| `AcmPorts.AcmFunction.BindConfig` | usb/gadget/android.c:894-975 | the first bind: when it succeeds, and exactly what is held and added for every failure point |
| `FrameSpec.StepPlaced` | littlecola_bug/mtkcamera/ic_main.c:754-827 | no step duplicates or loses a frame: each is in one place, once |
| `FrameSpec.FlightStep` | littlecola_bug/mtkcamera/ic_main.c:511-550 | a frame enters flight only by being counted in and leaves only by being counted out |
| `FrameSpec.StepCounted` | littlecola_bug/mtkcamera/ic_main.c:796-798 | the counter moves with the frames in flight |
| `FrameSpec.DrainedStep` | littlecola_bug/mtkcamera/ic_main.c:1297-1305 | once drained a source stays so until it is started again |
| `FrameSpec.StopSeen` | littlecola_bug/mtkcamera/ic_main.c:750-753 | handling the stopped event leaves none of the source's frames before the transmitter |
| `FrameSpec.StopStep` | littlecola_bug/mtkcamera/ic_main.c:1297-1303 | whoever holds the lock in a stop awaits the one stopped event, that of its own source |
| `FrameSpec.RunSound` | littlecola_bug/mtkcamera/ic_main.c:754-827 | main result: in every interleaving of event thread, callbacks and callers each frame is in one place once, and `wait_to_send_in_mipi_tx` is the number of the instance's frames counted in and not yet counted out |
| `FrameSpec.ReturnedOnce` | littlecola_bug/mtkcamera/ic_main.c:511-536 | each frame is returned at most once, and is returned or dropped exactly when no longer queued, with the event thread or with the transmitter |
| `FrameSpec.StopReturnsAllBack` | littlecola_bug/mtkcamera/ic_main.c:1297-1321 | `los_stopSource` returns only once every frame of the instance is back or was dropped |
| `FrameSpec.DroppedUnregistered` | littlecola_bug/mtkcamera/ic_main.c:790-794 | only frames without a registered client are dropped |
| `FrameSpec.UnregisteredDropped` | littlecola_bug/mtkcamera/ic_main.c:779-794 | a frame taken while none is skipped and without a client is never returned, whatever follows |
| `FrameSpec.ReturnableExactly` | littlecola_bug/mtkcamera/ic_main.c:779-825 | main result: the frame at the head of the queue can still be returned once taken exactly when frames are being skipped or it has a client |
| `FrameSpec.SkipsEight` | littlecola_bug/mtkcamera/ic_main.c:605-849 | in every run eight frames less those taken since the start or the last teardown are still to be skipped |
| `FrameSpec.FirstEightGoBack` | littlecola_bug/mtkcamera/ic_main.c:779-825 | main result: the first eight frames go straight back to the LRT, with a client or without; a later one is counted in exactly if it has a client and dropped if not |
| `FrameSpec.AllReturned` | littlecola_bug/mtkcamera/ic_main.c:754-827 | main result: a frame with a client is returned exactly once or still under way, and a stop of its source returns only once it is back |
| `FrameSpec.DrainEnds` | littlecola_bug/mtkcamera/ic_main.c:1305-1313 | a draining stop can always return after the callbacks of the frames in flight |
| `CaptureBusy.BusyFalls` | littlecola_bug/mtkcamera/ic_main.c:528-532 | the still-capture flag falls only with the store of a callback that found its counter at zero, or with `los_start` |
| `CaptureBusy.LookSeesNone` | littlecola_bug/mtkcamera/ic_main.c:528-529 | a callback goes on to the store exactly for a still with no counted frame of its instance left at the look |
| `CaptureBusy.NewcomersExactly` | littlecola_bug/mtkcamera/ic_main.c:528-531 | at the store the frames of its instance in flight are exactly those counted in since the look and not counted out |
| `CaptureBusy.StillsCounted` | littlecola_bug/mtkcamera/ic_main.c:768-770 | no counted still of any instance is in flight exactly when the counters of all still instances are at zero |
| `CaptureBusy.FallsSafeExactly` | littlecola_bug/mtkcamera/ic_main.c:528-532 | main result: in every run each fall by a callback comes with no counted still in flight exactly when just before each the counters of all still instances are at zero |
| `CaptureBusy.BusyFallsEarly` | littlecola_bug/mtkcamera/ic_main.c:528-532 | one still source is enough for an early fall: its second still is counted in between the look and the store |
| `CaptureBusy.BusyFallsBeside` | littlecola_bug/mtkcamera/ic_main.c:528-532 | with two still instances a store right after the look, its own counter at zero, is early while a still of the other is in flight |
| `CaptureBusy.AllFallsSafeExactly` | littlecola_bug/mtkcamera/ic_main.c:528-532 | main result: the falls of all runs are right exactly when no still source has a client |
| `FrameChannel.Channel.SendOutputData` | littlecola_bug/mtkcamera/ic_main.c:754-827 | the frame case refines the step: skipped frames go straight back, unregistered ones are dropped, others are counted in |
| `FrameChannel.Channel.TakeEvent` | littlecola_bug/mtkcamera/ic_main.c:617-849 | one turn of the event loop refines the step: frames, stopped events and the teardown |
| `FrameChannel.Channel.SendFrame` | littlecola_bug/mtkcamera/ic_main.c:808-820 | refines the hand-over |
| `FrameChannel.Channel.PassFrame` | littlecola_bug/mtkcamera/ic_main.c:754-827 | a frame event from the queue to the transmitter with nothing in between: straight back, dropped, or counted in and handed over |
| `FrameChannel.Channel.DataWasSent` | littlecola_bug/mtkcamera/ic_main.c:511-521 | refines the first part of the callback |
| `FrameChannel.Channel.CountOut` | littlecola_bug/mtkcamera/ic_main.c:523-526 | refines its locked section |
| `FrameChannel.Channel.LookBusy` | littlecola_bug/mtkcamera/ic_main.c:528-529 | refines its unlocked look at the counter |
| `FrameChannel.Channel.ClearBusy` | littlecola_bug/mtkcamera/ic_main.c:530-531 | refines the store that follows |
| `FrameChannel.Channel.FreeHeaderAndReturnFrame` | littlecola_bug/mtkcamera/ic_main.c:511-536 | the whole callback with nothing in between: the frame is back, counted out, and the flag falls exactly for the last counted still |
| `FrameChannel.Channel.LosStart` | littlecola_bug/mtkcamera/ic_main.c:1084-1098 | refines the reset of the flag and of the semaphore |
| `FrameChannel.Channel.StartReset` | littlecola_bug/mtkcamera/ic_main.c:1283-1287 | refines the reset of the counter before the lock |
| `FrameChannel.Channel.StartSource` | littlecola_bug/mtkcamera/ic_main.c:1288-1293 | refines the start |
| `FrameChannel.Channel.StopSource` | littlecola_bug/mtkcamera/ic_main.c:1299-1301 | refines the request to stop, which takes the lock |
| `FrameChannel.Channel.StoppedSeen` | littlecola_bug/mtkcamera/ic_main.c:1302-1303 | refines the end of the wait for the stopped event |
| `FrameChannel.Channel.StopReturns` | littlecola_bug/mtkcamera/ic_main.c:1305-1321 | returns exactly when the counter is zero |
| `MdpLayout.FillSlot` | littlecola_bug/mtkcamera/isp_function.cpp:2071-2078 | no write clobbers an earlier pointer: setting one slot of the two layers keeps all others |
| `MdpLayout.Memory.FillPointers` | littlecola_bug/mtkcamera/isp_function.cpp:2068-2078 | the loops set every pointer of both layers to its row or its structures and touch nothing else |
| `MdpLayout.EntryIs` | littlecola_bug/mtkcamera/isp_function.cpp:2068-2078 | through the pointers, entry (k, i, j) is the structure numbered (k * cqs + i) * dups + j |
| `MdpLayout.EntryPlace` | littlecola_bug/mtkcamera/isp_function.cpp:2068-2078 | the address of entry (k, i, j): behind all pointers, in row-major order |
| `MdpLayout.AllocationTight` | littlecola_bug/mtkcamera/isp_function.cpp:2059-2068 | from 1 to 8 bytes of the allocation lie behind the last structure |
| `MdpLayout.IndexUnique` | littlecola_bug/mtkcamera/isp_function.cpp:2071-2078 | distinct (k, i, j) are numbered differently |
| `MdpLayout.TableSound` | littlecola_bug/mtkcamera/isp_function.cpp:2059-2078 | main result: for all counts and addresses, distinct entries are disjoint structures behind both pointer layers and inside the bytes allocated, despite the alignment |
| `HeaderPool.BufHeaderList.constructor` | littlecola_bug/mtkcamera/isp_function.cpp:8970-8986 | all headers start free at address zero |
| `HeaderPool.BufHeaderList.SaveDeqBufInfo` | littlecola_bug/mtkcamera/isp_function.cpp:9605-9631 | takes the first free header, or none when all are taken |
| `HeaderPool.BufHeaderList.ReturnDeqBufInfo` | littlecola_bug/mtkcamera/isp_function.cpp:9514-9590 | frees the first header with the physical address of the buffer, or of the buffer exchanged for it when its virtual address is known; otherwise nothing |
| `HeaderPool.BufHeaderList.FillHeader` | littlecola_bug/mtkcamera/isp_function.cpp:9710-9890 | a delivery carries every buffer with the header taken, which keeps the last; a failed control call or too long a list delivers nothing and leaves the header as it was taken |
| `HeaderPool.BufHeaderList.DequeueHwBuf` | littlecola_bug/mtkcamera/isp_function.cpp:9684-9890 | taking and filling with nothing in between |
| `HeaderPool.TakeExact` | littlecola_bug/mtkcamera/isp_function.cpp:9605-9631 | taking a header keeps the pool exact and never reissues one that is out, under way or leaked |
| `HeaderPool.FillExact` | littlecola_bug/mtkcamera/isp_function.cpp:9863-9871 | filling keeps the pool exact, whatever other dequeues and returns came since the header was taken |
| `HeaderPool.FillOutstanding` | littlecola_bug/mtkcamera/isp_function.cpp:9863-9871 | exactly the delivered buffers become outstanding |
| `HeaderPool.ReturnFreesOwn` | littlecola_bug/mtkcamera/isp_function.cpp:9529-9542 | a returned buffer frees its own header and no other; one without a header frees nothing |
| `HeaderPool.ReturnExact` | littlecola_bug/mtkcamera/isp_function.cpp:9514-9590 | a return keeps the pool exact and takes exactly that buffer off what is outstanding |
| `HeaderPool.RunExact` | littlecola_bug/mtkcamera/isp_function.cpp:9605-9631 | main result: in every run of dequeues under way at once and returns, with distinct non-zero addresses, a header is occupied exactly when under way, out or leaked, one that is out holds exactly its own buffer and no other holds an address, and the buffers out plus those without a header are exactly what was delivered and not returned |
| `HeaderPool.Conserved` | littlecola_bug/mtkcamera/isp_function.cpp:9605-9631 | no header is lost or made, and a dequeue finds one exactly while fewer than all are under way, out or leaked |
| `HeaderPool.LeaksStay` | littlecola_bug/mtkcamera/isp_function.cpp:9744-9773 | each dequeue that has a header and delivers nothing leaks it for the rest of the run |
| `HeaderPool.ZeroAddressFrees` | littlecola_bug/mtkcamera/isp_function.cpp:9531-9541 | in any exact pool an address of zero frees the first header without an address, which is one under way or leaked exactly when it comes before the first free one |
| `Pass2Queue.StepInOrder` | littlecola_bug/mtkcamera/isp_function.cpp:9905-10153 | every enqueue, dequeue and clear keeps the list in step with what was delivered |
| `Pass2Queue.RunInOrder` | littlecola_bug/mtkcamera/isp_function.cpp:9905-10153 | main result: whatever the MDP answers, the n-th delivery since the last clear is of the enqueued buffer whose position is the number of successful deliveries before it, and the list holds the rest in order |
| `Pass2Queue.RedeliveredExactly` | littlecola_bug/mtkcamera/isp_function.cpp:10134-10140 | two deliveries are of one buffer exactly when every answer from the first up to the second was not-ready |
| `Pass2Queue.Pass2Buffers.EnqueueHwBuf` | littlecola_bug/mtkcamera/isp_function.cpp:9407-9446 | appends an empty buffer to its own list only |
| `Pass2Queue.Pass2Buffers.ClearLists` | littlecola_bug/mtkcamera/isp_function.cpp:5346-5348 | empties exactly the lists named |
| `Pass2Queue.Pass2Buffers.Deliver` | littlecola_bug/mtkcamera/isp_function.cpp:10098-10140 | the front goes out marked as filled, with the final size of a JPEG, and leaves its list unless kept |
| `Pass2Queue.Pass2Buffers.DequeueHwBuf` | littlecola_bug/mtkcamera/isp_function.cpp:9905-10153 | main result: an empty list delivers nothing. On the channels that go through the MDP (Wrot, Wdma, Jpeg, VencStream, Imgo, Imgi but in the IP scenario, Img2o and Img3o when enabled) an error fails and leaves the list, not-ready delivers the front and keeps it, and success delivers and removes it; on the others the MDP's answer does not matter; other lists are untouched |
| `DigitalZoom.CamGetDZCfg` | littlecola_bug/mtkcamera/isp_function.cpp:157-226 | exact 32-bit results for all inputs; outside the video scenario the references are untouched, and VR with tpipe returns 1 |
| `DigitalZoom.ReducedGood` | littlecola_bug/mtkcamera/isp_function.cpp:197-202 | the reducer alone: window inside frame inside input, within a pixel and a half of the zoom |
| `DigitalZoom.EnlargedGood` | littlecola_bug/mtkcamera/isp_function.cpp:203-207 | the enlarger on the whole input: likewise |
| `DigitalZoom.AxisIsGood` | littlecola_bug/mtkcamera/isp_function.cpp:196-223 | each axis is good whichever branch is taken |
| `DigitalZoom.AxisNearest` | littlecola_bug/mtkcamera/isp_function.cpp:196-207 | for every zoom within 32 bits, below one too: where the zoomed request fits the input the window is the request and the reduced size its zoom to the nearest pixel, and otherwise the frame is the input and the window the nearest |
| `DigitalZoom.ZoomNear` | littlecola_bug/mtkcamera/isp_function.cpp:186-225 | the same of both axes of the result, made even |
| `DigitalZoom.ZoomGood` | littlecola_bug/mtkcamera/isp_function.cpp:186-225 | main result: for a zoom of at least one within 32 bits all sizes are even, `curz_i` <= `cdrz_o` <= `cdrz_i`, `curz_i` is at most the requested output, the window is exactly centred, and |`curz_i` * ratio - 100 * `cdrz_o`| is at most one and a half ratios |
| `DigitalZoom.WindowInside` | littlecola_bug/mtkcamera/isp_function.cpp:224-224 | each pixel of the window, addressed from `curz_iOfst`, is a pixel of the frame |
| `DigitalZoom.ShrinkingFails` | littlecola_bug/mtkcamera/isp_function.cpp:197-202 | for every zoom below one, 1000 pixels are to be taken from a reduction to fewer |
| `DigitalZoom.FitsExactly` | littlecola_bug/mtkcamera/isp_function.cpp:186-225 | main result: on all sizes within 32 bits the window fits its frame, and the whole result is good, exactly for a zoom of at least one |
| `CqScan.Config` | littlecola_bug/mtkcamera/isp_function.cpp:7146-7172 | the handlers called and the modules each is told of, in table order: OneCall says what one entry yields and CallsSplit that tables add up |
| `CqScan.Write2CQ` | littlecola_bug/mtkcamera/isp_function.cpp:7235-7248 | the modules added to the queue, in table order |
| `CqScan.CallsAre` | littlecola_bug/mtkcamera/isp_function.cpp:5581-5604 | for every table the calls are those of the entries of the pipe with a handler that a bit selects; the first module is told exactly if the first function is updated, the second exactly if the second is, the DMA module exactly if one of those is real, and the dummy otherwise |
| `CqScan.AddedIs` | littlecola_bug/mtkcamera/isp_function.cpp:5967-5977 | the modules added are exactly those of the entries of the pipe that a bit selects, the dummy excepted |
| `CqScan.CallsSplit` | littlecola_bug/mtkcamera/isp_function.cpp:7151-7172 | the calls for two tables in a row are those for the first and then those for the second |
| `CqScan.AddedSplit` | littlecola_bug/mtkcamera/isp_function.cpp:7235-7248 | likewise the modules added |
| `CqScan.OneCall` | littlecola_bug/mtkcamera/isp_function.cpp:7151-7172 | one entry yields its call exactly if it is of the pipe, has a handler and is selected |
| `CqScan.EachScanned` | littlecola_bug/mtkcamera/isp_function.cpp:7151-7172 | whatever one entry yields alone is among what a table that holds it yields |
| `CqScan.PassedIsAdded` | littlecola_bug/mtkcamera/isp_function.cpp:7337-7376 | for any table and any enable bits of the two scans, a module passed to a handler is added when the queue is written with at least the configured update bits |
| `CqScan.ScansAgree` | littlecola_bug/mtkcamera/isp_function.cpp:7475-7488 | main result: the scans agree on all tables exactly under that condition on the update bits |

## Left out

- Allocation failure (`-ENOMEM` paths): allocation is total.
- NUL bytes inside sysfs texts: strings end where they end.
- The `PAGE_SIZE` bound that `functions_show` passes to `snprintf` for each name: no bound is reached.
- `sscanf` in `enable_store`: the parsed number is the parameter; the device descriptor copies, the audio delay and the rate-limited message are dropped.
- The ready and closed callbacks of the video driver (usb/gadget/android.c:1747-1780): they connect and disconnect the gadget directly, past the counter.
- DepthSpec.RunGood: the video switch is one for all devices; a device whose switch another device moves is covered by AndroidDev.EnableAmong, but not by the runs of this machine.
- FunctionFS data and function references in the ready and closed callbacks, and its `bind_config`.
- The delay until the next sample (usb/gadget/android.c:362-392, 411-412): the sampler fires at any time it is armed.
- Which configurations stay registered when one of several does not register: the model keeps only whether all did.
- Writes of sampling parameters through sysfs while the sampler runs: they are fixed for a run.
- The header that defines the PM-QoS states is not part of this model; NO_USB_VOTE is taken as entry 0, as `pm_qos_latency[0]` gates the votes.
- More than one device in the uevent and PM-QoS statics (`last_uevent`, `last_vote`, `no_int_sample_count`): one device.
- UeventsTell.TruthfulExactly: the last uevent only; that a disconnection and reconfiguration between two runs of the work item can pass without any uevent is not stated.
- AcmPorts.AcmFunction.BindConfig: the first bind only; what the static `acm_initialized` and `ports` do to a second bind after a failure is unclear in intent.
- The attribute-file rollback in `android_init_functions`, sysfs plumbing, uevent delivery, sleeps, probe and remove, and the drivers themselves.
- FrameSpec.RunSound: metadata sends share the counter and are taken as disabled; their callback counts out in the same way.
- The condition variable of `los_stopSource`: the wait is a repeated look at the counter, so a lost wake-up is not expressible.
- Tearing down while a source is being stopped: `los_start` comes only when no stop is under way, and what a new set-up does to events still queued is in files not shown.
- A source started a second time while its frames are in flight: the counter would be reset under them.
- Event types of `eventLoop` other than frames, stopped and torn down; loss of events when the event queue overflows.
- The size and reuse of the MIPI header pool, HDMI output, FPS metering and profiling.
- MdpLayout.TableSound: addresses are natural numbers, so a table that wraps the address space is not modelled; the tpipe buffers, and the virtual ISP tables that are overwritten right after being laid out, are not either.
- HeaderPool.RunExact: the copies of one delivered list into a header are one step; the header fields other than the addresses are left out; the number of headers and the longest buffer list are parameters, as their constants are defined elsewhere.
- Pass2Queue.RunInOrder: one consumer per list, and no `stop` in the middle of a dequeue: the size check and the pop are two locked sections, and `stop` clears the list under no condition that keeps it out of the gap (isp_function.cpp:5346-5348); the DMA channels beyond those named are one numbered constructor.
- DigitalZoom.ZoomGood: products beyond 32 bits, for which only the exact results are stated.
- CqScan.ScansAgree: the P1 table that the raw pipe scans for one scenario, where `_write2CQ` takes `en_p2` for the enable bits; modules added outside the table scans; aborted `_config` runs.
- Register programming, interrupt waits, dumps, `configTdriSetting`, `setP1TuneCfg`, `clearPath`, the advance of the duplicate index and the tuning queue in `isp_function.cpp`.
- `main.c` command dispatch beyond the capture flag, `f_loopback.c`, the dpfp examples, the Python scripts, socket and test programs: straight-line I/O or very small state.
