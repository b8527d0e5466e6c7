/** The pull-up of one gadget as an abstract machine: a nested disable counter moved by
    writes to `enable`, by rewriting the function lists and by the FunctionFS callbacks. */
module DepthSpec {
  import opened Basics

  /** Holders as far as the pull-up is concerned; only these drivers have enable hooks. */
  datatype Kind = Ffs | Video | Other

  /** `pulls` is the history of pull-up calls, true for connect; `added` tells whether the
      last attempt to register the configurations succeeded; `warned` that `android_enable`
      was called at depth zero. */
  datatype PullUp = PullUp(depth: nat, connected: bool, added: bool, warned: bool, pulls: seq<bool>)

  datatype Gadget = Gadget(
    enabled: bool, ffsEnabled: bool, isOpen: bool, videoEnabled: bool, holders: seq<Kind>, pull: PullUp)

  /** `ok` answers whether registering every configuration would succeed. `Elsewhere` is a
      callback that FunctionFS delivers to another device. */
  datatype Action =
    | EnableWrite(ok: bool)
    | DisableWrite(ok: bool)
    | StoreFunctions(holders: seq<Kind>)
    | Ready(ok: bool)
    | Closed
    | Elsewhere(isOpen: bool)

  const START := Gadget(false, false, false, false, [], PullUp(1, false, false, false, [false]))

  function Up(p: PullUp, ok: bool, video: bool): PullUp {
    if p.depth == 0 then p.(warned := true)
    else if p.depth > 1 then p.(depth := p.depth - 1)
    else if !ok then p.(depth := 0, added := false)
    else if video then p.(depth := 0, added := true)
    else PullUp(0, true, true, p.warned, p.pulls + [true])
  }

  function Down(p: PullUp): PullUp {
    if p.depth > 0 then p.(depth := p.depth + 1)
    else PullUp(1, false, false, p.warned, p.pulls + [false])
  }

  function Enable(g: Gadget, ok: bool): Gadget {
    g.(pull := Up(g.pull, ok, g.videoEnabled))
  }

  function Disable(g: Gadget): Gadget {
    g.(pull := Down(g.pull))
  }

  function EnableHolder(g: Gadget, k: Kind): Gadget {
    match k
    case Ffs => var h := g.(ffsEnabled := true); if g.isOpen then h else Disable(h)
    case Video => g.(videoEnabled := true)
    case Other => g
  }

  function DisableHolder(g: Gadget, k: Kind, ok: bool): Gadget {
    match k
    case Ffs => var h := g.(ffsEnabled := false); if g.isOpen then h else Enable(h, ok)
    case Video => g.(videoEnabled := false)
    case Other => g
  }

  function EnableHolders(g: Gadget, ks: seq<Kind>): Gadget {
    if ks == [] then g
    else EnableHolder(EnableHolders(g, ks[..|ks| - 1]), ks[|ks| - 1])
  }

  function DisableHolders(g: Gadget, ks: seq<Kind>, ok: bool): Gadget {
    if ks == [] then g
    else DisableHolder(DisableHolders(g, ks[..|ks| - 1], ok), ks[|ks| - 1], ok)
  }

  function Step(g: Gadget, a: Action): Gadget {
    match a
    case EnableWrite(ok) =>
      if g.enabled then g
      else Enable(EnableHolders(g, g.holders), ok).(enabled := true)
    case DisableWrite(ok) =>
      if !g.enabled then g
      else DisableHolders(Disable(g), g.holders, ok).(enabled := false)
    case StoreFunctions(ks) =>
      if g.enabled then g else g.(holders := ks)
    case Ready(ok) =>
      if Ffs !in g.holders then g
      else
        var h := g.(isOpen := true);
        if g.ffsEnabled then Enable(h, ok) else h
    case Closed =>
      (if Ffs in g.holders && g.ffsEnabled then Disable(g) else g).(isOpen := false)
    case Elsewhere(b) =>
      if Ffs in g.holders then g else g.(isOpen := b)
  }

  function Run(g: Gadget, actions: seq<Action>): Gadget {
    if actions == [] then g
    else Step(Run(g, actions[..|actions| - 1]), actions[|actions| - 1])
  }

  function FfsCount(ks: seq<Kind>): nat {
    if ks == [] then 0
    else FfsCount(ks[..|ks| - 1]) + if ks[|ks| - 1] == Ffs then 1 else 0
  }

  /** The depth formula. */
  predicate Formula(g: Gadget) {
    g.pull.depth == Bit(!g.enabled) + Bit(g.ffsEnabled && !g.isOpen)
  }

  /** What holds between any two mutex sections. */
  predicate Good(g: Gadget) {
    && Formula(g)
    && !g.pull.warned
    && FfsCount(g.holders) <= 1
    && (g.ffsEnabled <==> g.enabled && Ffs in g.holders)
    && (g.videoEnabled <==> g.enabled && Video in g.holders)
    && (g.pull.connected <==> g.pull.depth == 0 && g.pull.added && !g.videoEnabled)
    && (g.pull.added ==> g.pull.depth == 0)
    && g.pull.pulls != [] && g.pull.connected == g.pull.pulls[|g.pull.pulls| - 1]
  }

  /** FunctionFS closes only what it opened and opens only what is closed, and no list
      holds it more than `limit` times. */
  predicate Permitted(g: Gadget, a: Action, limit: nat) {
    match a
    case Ready(_) => !g.isOpen
    case Closed => g.isOpen
    case StoreFunctions(ks) => FfsCount(ks) <= limit
    case _ => true
  }

  predicate PermittedRun(g: Gadget, actions: seq<Action>, limit: nat) {
    actions == [] ||
    (PermittedRun(g, actions[..|actions| - 1], limit) &&
     Permitted(Run(g, actions[..|actions| - 1]), actions[|actions| - 1], limit))
  }

  /** One level up: at depth zero it warns, above the last level it only counts, and on the last it leaves
      the configurations registered exactly if that succeeds, and connects exactly if no video waits. */
  lemma UpIs(p: PullUp, ok: bool, video: bool)
    ensures var q := Up(p, ok, video);
            && (p.depth == 0 ==> q == p.(warned := true))
            && (p.depth > 0 ==> q.depth == p.depth - 1 && q.warned == p.warned)
            && (p.depth > 1 ==> q == p.(depth := p.depth - 1))
            && (p.depth == 1 ==>
                  && (q.added <==> ok)
                  && q.connected == (p.connected || (ok && !video))
                  && q.pulls == p.pulls + if ok && !video then [true] else [])
  {
  }

  /** One level down: from zero it disconnects and takes the configurations off, below it only counts. */
  lemma DownIs(p: PullUp)
    ensures var q := Down(p);
            && q.depth == p.depth + 1 && q.warned == p.warned
            && (p.depth > 0 ==> q == p.(depth := p.depth + 1))
            && (p.depth == 0 ==> !q.connected && !q.added && q.pulls == p.pulls + [false])
  {
  }

  // ---- The enable and disable loops over the holders

  lemma NoHolders(g: Gadget, ok: bool)
    ensures EnableHolders(g, []) == g && DisableHolders(g, [], ok) == g
  {
  }

  lemma EnableHoldersSnoc(g: Gadget, ks: seq<Kind>, k: Kind)
    ensures EnableHolders(g, ks + [k]) == EnableHolder(EnableHolders(g, ks), k)
  {
    assert (ks + [k])[..|ks|] == ks;
  }

  lemma DisableHoldersSnoc(g: Gadget, ks: seq<Kind>, k: Kind, ok: bool)
    ensures DisableHolders(g, ks + [k], ok) == DisableHolder(DisableHolders(g, ks, ok), k, ok)
  {
    assert (ks + [k])[..|ks|] == ks;
  }

  lemma {:induction false} FfsCountIn(ks: seq<Kind>)
    ensures FfsCount(ks) == 0 <==> Ffs !in ks
  {
    if ks != [] {
      FfsCountIn(ks[..|ks| - 1]);
      assert ks == ks[..|ks| - 1] + [ks[|ks| - 1]];
    }
  }

  /** `h` is `g` but for the counter, the pull-up and the hooks' flags. */
  predicate SameSetup(g: Gadget, h: Gadget) {
    h.enabled == g.enabled && h.holders == g.holders && h.isOpen == g.isOpen
  }

  lemma EnableHolderFrame(g: Gadget, k: Kind)
    ensures SameSetup(g, EnableHolder(g, k))
    ensures EnableHolder(g, k).ffsEnabled == (g.ffsEnabled || k == Ffs)
  {
  }

  lemma DisableHolderFrame(g: Gadget, k: Kind, ok: bool)
    ensures SameSetup(g, DisableHolder(g, k, ok))
    ensures DisableHolder(g, k, ok).ffsEnabled == (g.ffsEnabled && k != Ffs)
  {
  }

  /** What the enable loop never touches, and where it leaves the FunctionFS flag. */
  lemma {:induction false} EnableHoldersFrame(g: Gadget, ks: seq<Kind>)
    ensures SameSetup(g, EnableHolders(g, ks))
    ensures EnableHolders(g, ks).ffsEnabled == (g.ffsEnabled || Ffs in ks)
  {
    if ks != [] {
      var init, last := ks[..|ks| - 1], ks[|ks| - 1];
      EnableHoldersFrame(g, init);
      assert ks == init + [last];
      EnableHolderFrame(EnableHolders(g, init), last);
    }
  }

  lemma {:induction false} DisableHoldersFrame(g: Gadget, ks: seq<Kind>, ok: bool)
    ensures SameSetup(g, DisableHolders(g, ks, ok))
    ensures DisableHolders(g, ks, ok).ffsEnabled == (g.ffsEnabled && Ffs !in ks)
  {
    if ks != [] {
      var init, last := ks[..|ks| - 1], ks[|ks| - 1];
      DisableHoldersFrame(g, init, ok);
      assert ks == init + [last];
      DisableHolderFrame(DisableHolders(g, init, ok), last, ok);
    }
  }

  /** Where the two writes of `enable` lead, up to the flag they set last. */
  lemma EnableWriteFrame(g: Gadget, ok: bool)
    requires !g.enabled
    ensures var h := Enable(EnableHolders(g, g.holders), ok);
            Step(g, EnableWrite(ok)) == h.(enabled := true)
            && h.holders == g.holders && h.ffsEnabled == (g.ffsEnabled || Ffs in g.holders)
  {
    EnableHoldersFrame(g, g.holders);
  }

  lemma DisableWriteFrame(g: Gadget, ok: bool)
    requires g.enabled
    ensures var h := DisableHolders(Disable(g), g.holders, ok);
            Step(g, DisableWrite(ok)) == h.(enabled := false)
            && h.holders == g.holders && h.ffsEnabled == (g.ffsEnabled && Ffs !in g.holders)
  {
    DisableHoldersFrame(Disable(g), g.holders, ok);
  }

  /** While the gadget is down, enabling the holders only deepens the count: one level for
      each FunctionFS holder that is not open. */
  lemma {:induction false} EnableHoldersEffect(g: Gadget, ks: seq<Kind>)
    requires g.pull.depth > 0
    ensures EnableHolders(g, ks) ==
            g.(pull := g.pull.(depth := g.pull.depth + if g.isOpen then 0 else FfsCount(ks)),
               ffsEnabled := g.ffsEnabled || Ffs in ks,
               videoEnabled := g.videoEnabled || Video in ks)
  {
    if ks != [] {
      EnableHoldersEffect(g, ks[..|ks| - 1]);
      assert ks == ks[..|ks| - 1] + [ks[|ks| - 1]];
    }
  }

  /** Above the count of closed FunctionFS holders, disabling them never reaches zero. */
  lemma {:induction false} DisableHoldersEffect(g: Gadget, ks: seq<Kind>, ok: bool)
    requires g.isOpen || g.pull.depth > FfsCount(ks)
    ensures DisableHolders(g, ks, ok) ==
            g.(pull := g.pull.(depth := g.pull.depth - if g.isOpen then 0 else FfsCount(ks)),
               ffsEnabled := g.ffsEnabled && Ffs !in ks,
               videoEnabled := g.videoEnabled && Video !in ks)
  {
    if ks != [] {
      DisableHoldersEffect(g, ks[..|ks| - 1], ok);
      assert ks == ks[..|ks| - 1] + [ks[|ks| - 1]];
    }
  }

  // ---- One step

  lemma StepGood(g: Gadget, a: Action)
    requires Good(g) && Permitted(g, a, 1)
    ensures Good(Step(g, a))
  {
    FfsCountIn(g.holders);
    match a
    case EnableWrite(ok) => if !g.enabled { EnableHoldersEffect(g, g.holders); }
    case DisableWrite(ok) => if g.enabled { DisableHoldersEffect(Disable(g), g.holders, ok); }
    case _ =>
  }

  /** A callback keeps the invariant exactly when it toggles `isOpen`, or FunctionFS is not
      part of an enabled gadget; a repeated `Ready` trips the warning, a repeated `Closed`
      leaves the count one too deep. */
  lemma CallbackExact(g: Gadget, ok: bool)
    requires Good(g)
    ensures Good(Step(g, Ready(ok))) <==> !g.isOpen || !g.ffsEnabled
    ensures Good(Step(g, Closed)) <==> g.isOpen || !g.ffsEnabled
  {
    FfsCountIn(g.holders);
  }

  /** A write to `enable` sets the flag as written, whether or not enabling succeeds, and one that changes
      nothing does nothing. */
  lemma EnableWritten(g: Gadget, ok: bool)
    ensures Step(g, EnableWrite(ok)).enabled && !Step(g, DisableWrite(ok)).enabled
    ensures g.enabled ==> Step(g, EnableWrite(ok)) == g
    ensures !g.enabled ==> Step(g, DisableWrite(ok)) == g
  {
  }

  /** No store connects on the way: writing 1 pulls up at most once and never down, writing 0
      pulls down exactly when the gadget was up and never pulls up, and rewriting the lists
      pulls nothing. */
  lemma StorePulls(g: Gadget, ok: bool, ks: seq<Kind>)
    requires Good(g)
    ensures var h := Step(g, EnableWrite(ok));
            h.pull.pulls == g.pull.pulls + if h.pull.connected && !g.pull.connected then [true] else []
    ensures var h := Step(g, DisableWrite(ok));
            h.pull.pulls == g.pull.pulls + if g.enabled && g.pull.depth == 0 then [false] else []
    ensures Step(g, StoreFunctions(ks)).pull == g.pull
  {
    FfsCountIn(g.holders);
    if g.enabled {
      DisableHoldersEffect(Disable(g), g.holders, ok);
    } else {
      EnableHoldersEffect(g, g.holders);
    }
  }

  // ---- Whole runs

  /** Every reachable state of a permitted run satisfies the depth formula, raises no
      warning, and is connected exactly at depth zero with configurations and no video. */
  lemma {:induction false} RunGood(actions: seq<Action>)
    requires PermittedRun(START, actions, 1)
    ensures Good(Run(START, actions))
  {
    if actions != [] {
      RunGood(actions[..|actions| - 1]);
      StepGood(Run(START, actions[..|actions| - 1]), actions[|actions| - 1]);
    }
  }

  lemma RunSnoc(g: Gadget, actions: seq<Action>, a: Action)
    ensures Run(g, actions + [a]) == Step(Run(g, actions), a)
    ensures forall limit: nat ::
      PermittedRun(g, actions + [a], limit) <==>
      PermittedRun(g, actions, limit) && Permitted(Run(g, actions), a, limit)
  {
    assert (actions + [a])[..|actions|] == actions;
  }

  /** Storing, enabling and then opening a list of `n` FunctionFS holders leaves depth n - 1,
      so the gadget comes up exactly when the list holds FunctionFS once. */
  lemma HoldersComeUp(ks: seq<Kind>)
    requires Ffs in ks && Video !in ks
    ensures var g := Run(START, [StoreFunctions(ks), EnableWrite(true), Ready(true)]);
            g.pull.depth == FfsCount(ks) - 1 && (g.pull.connected <==> FfsCount(ks) == 1)
    ensures PermittedRun(START, [StoreFunctions(ks), EnableWrite(true), Ready(true)], FfsCount(ks))
    ensures var g := Run(START, [StoreFunctions(ks), EnableWrite(true)]);
            g.pull.depth == FfsCount(ks) && (Formula(g) <==> FfsCount(ks) == 1)
    ensures PermittedRun(START, [StoreFunctions(ks), EnableWrite(true)], FfsCount(ks))
  {
    FfsCountIn(ks);
    var a, b, c := StoreFunctions(ks), EnableWrite(true), Ready(true);
    RunSnoc(START, [], a);
    assert [] + [a] == [a];
    RunSnoc(START, [a], b);
    assert [a] + [b] == [a, b];
    RunSnoc(START, [a, b], c);
    assert [a, b] + [c] == [a, b, c];
    EnableHoldersEffect(Step(START, a), ks);
  }

  /** The formula holds over all permitted runs exactly when lists hold FunctionFS at most once. */
  lemma FormulaLimit(limit: nat)
    ensures (forall actions | PermittedRun(START, actions, limit) :: Formula(Run(START, actions)))
            <==> limit <= 1
  {
    if limit <= 1 {
      forall actions | PermittedRun(START, actions, limit) ensures Formula(Run(START, actions)) {
        PermittedMono(actions, limit, 1);
        RunGood(actions);
      }
    } else {
      var ks := [Ffs, Ffs];
      assert FfsCount(ks) == 2 by { assert ks[..1] == [Ffs] && [Ffs][..0] == []; }
      HoldersComeUp(ks);
      PermittedMono([StoreFunctions(ks), EnableWrite(true)], 2, limit);
      assert !Formula(Run(START, [StoreFunctions(ks), EnableWrite(true)]));
    }
  }

  lemma {:induction false} PermittedMono(actions: seq<Action>, low: nat, high: nat)
    requires low <= high && PermittedRun(START, actions, low)
    ensures PermittedRun(START, actions, high)
  {
    if actions != [] {
      PermittedMono(actions[..|actions| - 1], low, high);
    }
  }

  /** Two FunctionFS holders let a write of 0 connect: stored, opened, enabled, closed and then
      disabled, the gadget ends up connected while `enabled` is false, in a permitted run. */
  lemma TwoHoldersConnectWhileDisabled() returns (actions: seq<Action>)
    ensures PermittedRun(START, actions, 2)
    ensures var g := Run(START, actions); g.pull.connected && !g.enabled && g.pull.depth == 0
  {
    var ks := [Ffs, Ffs];
    assert ks[..1] == [Ffs] && [Ffs][..0] == [];
    var stored := Step(START, StoreFunctions(ks));
    var op := Step(stored, Ready(true));
    EnableHoldersEffect(op, ks);
    var up := Step(op, EnableWrite(true));
    var closed := Step(up, Closed);
    assert closed.pull.depth == 1 && closed.ffsEnabled;
    var d := Disable(closed);
    assert DisableHolders(d, ks, true) == DisableHolder(DisableHolder(d, Ffs, true), Ffs, true) by {
      assert DisableHolders(d, [Ffs], true) == DisableHolder(d, Ffs, true);
    }
    var a := [StoreFunctions(ks)];
    assert [] + a == a;
    RunSnoc(START, [], a[0]);
    RunSnoc(START, a, Ready(true));
    RunSnoc(START, a + [Ready(true)], EnableWrite(true));
    RunSnoc(START, a + [Ready(true)] + [EnableWrite(true)], Closed);
    RunSnoc(START, a + [Ready(true)] + [EnableWrite(true)] + [Closed], DisableWrite(true));
    actions := a + [Ready(true)] + [EnableWrite(true)] + [Closed] + [DisableWrite(true)];
  }

  /** Over all permitted runs the gadget is connected only while enabled exactly when lists hold
      FunctionFS at most once. */
  lemma ConnectedEnabledLimit(limit: nat)
    ensures (forall actions | PermittedRun(START, actions, limit) ::
               var g := Run(START, actions); g.pull.connected ==> g.enabled)
            <==> limit <= 1
  {
    if limit <= 1 {
      forall actions | PermittedRun(START, actions, limit)
        ensures var g := Run(START, actions); g.pull.connected ==> g.enabled
      {
        PermittedMono(actions, limit, 1);
        RunGood(actions);
      }
    } else {
      var actions := TwoHoldersConnectWhileDisabled();
      PermittedMono(actions, 2, limit);
    }
  }
}
