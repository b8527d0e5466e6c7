/** Binding the drivers of one configuration, with the rollback of a failed bind. */
module BindConfig {
  import opened Basics

  /** `struct usb_function`: what a driver adds to a configuration. */
  class UsbFunction {
    var config: bool
    ghost var unbinds: nat
  }

  /** `struct android_usb_function` as binding sees it. */
  class Driver {
    var bound: bool
    const hasUnbindConfig: bool
    ghost var unbindConfigs: nat

    constructor (hasUnbindConfig: bool)
      ensures !bound && this.hasUnbindConfig == hasUnbindConfig && unbindConfigs == 0
    {
      bound := false;
      this.hasUnbindConfig := hasUnbindConfig;
      unbindConfigs := 0;
    }
  }

  /** What one `bind_config` call returns, and how many functions it adds. */
  datatype Outcome = Outcome(ret: int, count: nat)

  function Total(outcomes: seq<Outcome>): nat {
    if outcomes == [] then 0 else Total(outcomes[..|outcomes| - 1]) + outcomes[|outcomes| - 1].count
  }

  lemma {:induction false} TotalPrefix(outcomes: seq<Outcome>, i: nat)
    requires i <= |outcomes|
    ensures Total(outcomes[..0]) == 0 && Total(outcomes[..i]) <= Total(outcomes)
    ensures i < |outcomes| ==> Total(outcomes[..i + 1]) == Total(outcomes[..i]) + outcomes[i].count
    decreases |outcomes| - i
  {
    if i < |outcomes| {
      assert outcomes[..i + 1][..i] == outcomes[..i];
      TotalPrefix(outcomes, i + 1);
    } else {
      assert outcomes[..i] == outcomes;
    }
  }

  /** Functions of a configuration, all distinct and attached to it. */
  ghost predicate Attached(fs: seq<UsbFunction>)
    reads fs
  {
    && (forall f | f in fs :: f.config)
    && (forall i, j | 0 <= i < j < |fs| :: fs[i] != fs[j])
  }

  class Configuration {
    var functions: seq<UsbFunction>

    /** The loop that empties the function list of a configuration whose bind failed. */
    method DropFunctions()
      requires Attached(functions)
      modifies this, functions`unbinds
      ensures functions == []
      ensures forall f | f in old(functions) :: f.unbinds == old(f.unbinds) + 1
    {
      ghost var all, d := functions, 0;
      while functions != []
        invariant d <= |all| && functions == all[d..]
        invariant forall i | 0 <= i < |all| :: all[i].unbinds == old(all[i].unbinds) + (if i < d then 1 else 0)
        decreases |functions|
      {
        var f := functions[0];
        assert f == all[d];
        if f.config {
          functions := functions[1..];
          f.unbinds := f.unbinds + 1;
        }
        d := d + 1;
      }
    }

    /** `android_unbind_enabled_functions`: a bound driver with the hook gets one call, however
        often the configuration holds it. */
    method UnbindEnabledFunctions(holders: seq<Driver>)
      modifies holders
      ensures forall d | d in holders ::
                !d.bound && d.unbindConfigs == old(d.unbindConfigs) + Bit(old(d.bound) && d.hasUnbindConfig)
    {
      var i := 0;
      while i < |holders|
        invariant 0 <= i <= |holders|
        invariant forall d | d in holders ::
                    if d in holders[..i]
                    then !d.bound && d.unbindConfigs == old(d.unbindConfigs) + Bit(old(d.bound) && d.hasUnbindConfig)
                    else d.bound == old(d.bound) && d.unbindConfigs == old(d.unbindConfigs)
      {
        var d := holders[i];
        if d.bound && d.hasUnbindConfig {
          d.unbindConfigs := d.unbindConfigs + 1;
        }
        d.bound := false;
        i := i + 1;
      }
    }

    /** The failure branch of `android_bind_enabled_functions`; `all` are the functions that its
        drivers have or will come to add. */
    method RollBack(holders: seq<Driver>, ghost all: seq<UsbFunction>)
      requires functions <= all && Attached(all)
      modifies this, functions`unbinds, holders
      ensures functions == []
      ensures forall f | f in old(functions) :: f.unbinds == old(f.unbinds) + 1
      ensures forall d | d in holders ::
                !d.bound && d.unbindConfigs == old(d.unbindConfigs) + Bit(old(d.bound) && d.hasUnbindConfig)
    {
      AttachedPrefix(functions, all);
      DropFunctions();
      UnbindEnabledFunctions(holders);
    }

    /** One driver's `bind_config`: it adds what it draws from `supply` after the first `next`. */
    method BindOne(next: nat, outcome: Outcome, supply: seq<UsbFunction>) returns (ret: int, more: nat)
      requires next + outcome.count <= |supply|
      modifies `functions
      ensures ret == outcome.ret && more == next + outcome.count
      ensures functions == old(functions) + supply[next..more]
    {
      more := next + outcome.count;
      functions := functions + supply[next..more];
      ret := outcome.ret;
    }

    /** `android_bind_enabled_functions`, the drivers drawing what they add from `supply` in
        turn: all drivers are bound, or none is. When driver `k` is the first to fail, every
        function added so far is unbound once and the list is empty, and a driver that was
        bound by then has its `unbind_config` called once. */
    method BindEnabledFunctions(holders: seq<Driver>, outcomes: seq<Outcome>, supply: seq<UsbFunction>)
        returns (ret: int, k: nat)
      requires |outcomes| == |holders| && |supply| == Total(outcomes)
      requires Attached(functions + supply)
      modifies this, functions`unbinds, supply`unbinds, holders
      ensures k <= |holders| && (forall i | 0 <= i < k :: outcomes[i].ret == 0)
      ensures ret == if k == |holders| then 0 else outcomes[k].ret
      ensures k < |holders| <==> ret != 0
      ensures ret == 0 ==>
                && functions == old(functions) + supply
                && (forall d | d in holders :: d.bound && d.unbindConfigs == old(d.unbindConfigs))
                && (forall f | f in functions :: f.unbinds == old(f.unbinds))
      ensures ret != 0 ==>
                && functions == []
                && (forall d | d in holders ::
                      !d.bound &&
                      d.unbindConfigs == old(d.unbindConfigs)
                                         + Bit(d.hasUnbindConfig && (old(d.bound) || d in holders[..k])))
                && Total(outcomes[..k + 1]) <= |supply|
                && (forall f | f in old(functions) + supply[..Total(outcomes[..k + 1])] ::
                      f.unbinds == old(f.unbinds) + 1)
    {
      hide Total, Attached;
      k := 0;
      ghost var all := functions + supply;
      var next := 0;
      TotalPrefix(outcomes, 0);
      while k < |holders|
        invariant k <= |holders| && forall i | 0 <= i < k :: outcomes[i].ret == 0
        invariant next == Total(outcomes[..k]) <= |supply|
        invariant functions == old(functions) + supply[..next]
        invariant forall d | d in holders ::
                    d.bound == (old(d.bound) || d in holders[..k]) && d.unbindConfigs == old(d.unbindConfigs)
        invariant forall f | f in all :: f.unbinds == old(f.unbinds)
      {
        TotalPrefix(outcomes, k);
        TotalPrefix(outcomes, k + 1);
        ret, next := BindOne(next, outcomes[k], supply);
        assert functions == old(functions) + supply[..next];
        if ret != 0 {
          assert functions == all[..|functions|];
          RollBack(holders, all);
          return;
        }
        holders[k].bound := true;
        k := k + 1;
      }
      assert outcomes[..k] == outcomes && supply[..next] == supply;
      ret := 0;
    }
  }

  lemma AttachedPrefix(fs: seq<UsbFunction>, all: seq<UsbFunction>)
    requires fs <= all && Attached(all)
    ensures Attached(fs)
  {
    forall f | f in fs ensures f.config {
      assert f in all;
    }
  }

  // ---- When the emptying loop ends

  /** One turn of the emptying loop on the functions' `config` marks. */
  function DropStep(marks: seq<bool>): seq<bool> {
    if marks == [] || !marks[0] then marks else marks[1..]
  }

  function DropSteps(marks: seq<bool>, n: nat): seq<bool> {
    if n == 0 then marks else DropSteps(DropStep(marks), n - 1)
  }

  lemma {:induction false} DropStuck(marks: seq<bool>, n: nat)
    requires false in marks
    ensures false in DropSteps(marks, n)
    decreases n
  {
    if n > 0 { DropStuck(DropStep(marks), n - 1); }
  }

  lemma {:induction false} DropAll(marks: seq<bool>)
    requires false !in marks
    ensures DropSteps(marks, |marks|) == []
    decreases |marks|
  {
    if marks != [] { DropAll(marks[1..]); }
  }

  /** The emptying loop ends exactly when every function in the list has its configuration set. */
  lemma DropEnds(marks: seq<bool>)
    ensures (exists n: nat :: DropSteps(marks, n) == []) <==> false !in marks
  {
    if false in marks {
      forall n: nat ensures DropSteps(marks, n) != [] { DropStuck(marks, n); }
    } else {
      DropAll(marks);
    }
  }
}
