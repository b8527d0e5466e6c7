/** Binding the ACM function: opening the ports named by a list, taking one function instance
    and one function per port, and adding them, with rollback at every failure point. */
module AcmPorts {
  import opened Basics
  import opened CStrings

  const MAX_ACM_INSTANCES := 4
  const TRANSPORTS_SIZE := 32

  /** A counted reference to a function instance or to a function. */
  datatype Ref = Instance(port: nat) | Function(port: nat)

  /** References held at the function core. A put without a matching get has no meaning. */
  class Core {
    ghost var held: set<Ref>
    ghost var added: set<Ref>

    method Get(r: Ref, err: int) returns (ret: int)
      requires r !in held
      modifies `held
      ensures ret == err && held == if err == 0 then old(held) + {r} else old(held)
    {
      ret := err;
      if err == 0 {
        held := held + {r};
      }
    }

    method Put(r: Ref)
      requires r in held
      modifies `held
      ensures held == old(held) - {r}
    {
      held := held - {r};
    }

    method Add(port: nat, err: int) returns (ret: int)
      requires Function(port) in held && Function(port) !in added
      modifies `added
      ensures ret == err && added == if err == 0 then old(added) + {Function(port)} else old(added)
    {
      ret := err;
      if err == 0 {
        added := added + {Function(port)};
      }
    }

    method Remove(port: nat)
      requires Function(port) in added
      modifies `added
      ensures added == old(added) - {Function(port)}
    {
      added := added - {Function(port)};
    }
  }

  ghost function Both(n: nat): set<Ref> {
    (set i | 0 <= i < n :: Instance(i)) + Functions(n)
  }

  ghost function Functions(n: nat): set<Ref> {
    set i | 0 <= i < n :: Function(i)
  }

  /** How many ports a list names. */
  function PortCount(transports: string): nat {
    |Split(Strim(Strlcpy(transports, TRANSPORTS_SIZE)), ',')|
  }

  /** What the function core answers: error codes for the i-th get and add. */
  datatype Answers = Answers(getInstance: nat -> int, getFunction: nat -> int, addFunction: nat -> int)
  {
    ghost predicate Gets(n: nat) {
      forall i | 0 <= i < n :: getInstance(i) == 0 && getFunction(i) == 0
    }

    ghost predicate Adds(n: nat) {
      forall i | 0 <= i < n :: addFunction(i) == 0
    }
  }

  class AcmFunction {
    var instancesOn: nat

    /** The rollback of the acquisition. The jump for a failed `usb_get_function` enters the
        loop behind its condition and its first statement, which is what `inside` stands for. */
    method PutBack(core: Core, failed: nat, inside: bool, ghost before: set<Ref>)
      requires before !! Both(failed + 1)
      requires core.held == before + Both(failed) + if inside then {Instance(failed)} else {}
      modifies core`held
      ensures core.held == before
    {
      var i: nat := failed;
      var jumped := inside;
      while jumped || i > 0
        invariant i <= failed
        invariant core.held == before + Both(i) + if jumped then {Instance(i)} else {}
        decreases i, jumped
      {
        if jumped {
          jumped := false;
        } else {
          i := i - 1;
          core.Put(Function(i));
        }
        core.Put(Instance(i));
        assert core.held == before + Both(i);
      }
      assert Both(0) == {};
    }

    /** The get loop: every reference of every port, or none. */
    method Acquire(core: Core, ports: nat, answers: Answers) returns (err: int)
      requires core.held !! Both(ports)
      modifies this, core`held
      ensures err == 0 <==> answers.Gets(ports)
      ensures core.held == old(core.held) + if err == 0 then Both(ports) else {}
      ensures instancesOn == if err == 0 then ports else 0
    {
      err := 0;
      var i := 0;
      while i < ports
        invariant i <= ports && answers.Gets(i)
        invariant core.held == old(core.held) + Both(i)
      {
        err := core.Get(Instance(i), answers.getInstance(i));
        if err != 0 {
          PutBack(core, i, false, old(core.held));
          instancesOn := 0;
          return;
        }
        err := core.Get(Function(i), answers.getFunction(i));
        if err != 0 {
          PutBack(core, i, true, old(core.held));
          instancesOn := 0;
          return;
        }
        i := i + 1;
      }
      err := 0;
      instancesOn := ports;
    }

    /** The `bind_config` loop: every port's function is added, or none. */
    method AddAll(core: Core, ports: nat, answers: Answers) returns (err: int)
      requires Both(ports) <= core.held && core.added !! Functions(ports)
      modifies this, core`added
      ensures err == 0 <==> answers.Adds(ports)
      ensures core.added == old(core.added) + if err == 0 then Functions(ports) else {}
      ensures instancesOn == if err == 0 then old(instancesOn) else 0
    {
      var i := 0;
      while i < ports
        invariant i <= ports && answers.Adds(i)
        invariant core.added == old(core.added) + Functions(i)
        invariant instancesOn == old(instancesOn)
      {
        err := core.Add(i, answers.addFunction(i));
        if err != 0 {
          while i > 0
            invariant core.added == old(core.added) + Functions(i)
          {
            i := i - 1;
            core.Remove(i);
          }
          instancesOn := 0;
          return;
        }
        i := i + 1;
      }
      err := 0;
    }

    /** The parsing loop: one port per token, up to the limit, stopping at the first failure.
        A list that reaches the limit leaves with `full` set and no error. */
    method OpenPorts(transports: string, initPort: nat -> int) returns (err: int, ports: nat, full: bool)
      ensures var tokens := PortCount(transports);
              && ports <= tokens && ports <= MAX_ACM_INSTANCES
              && (forall i | 0 <= i < ports :: initPort(i) == 0)
              && (if err != 0 then !full && ports < MAX_ACM_INSTANCES && ports < tokens && err == initPort(ports)
                  else if full then ports == MAX_ACM_INSTANCES
                  else ports == tokens < MAX_ACM_INSTANCES)
    {
      hide Split, Strim, Strlcpy;
      err, ports, full := -1, 0, false;
      var text := Strim(Strlcpy(transports, TRANSPORTS_SIZE));
      var b := Some(text);
      while b.Some?
        invariant ports < MAX_ACM_INSTANCES
        invariant ports + |SplitRest(b, ',')| == |Split(text, ',')|
        invariant forall i | 0 <= i < ports :: initPort(i) == 0
        invariant b.None? ==> err == 0
        decreases if b.Some? then |b.value| + 1 else 0
      {
        var (name, rest) := Strsep(b.value, ',');
        b := rest;
        err := initPort(ports);
        if err != 0 {
          return;
        }
        ports := ports + 1;
        if ports >= MAX_ACM_INSTANCES {
          full := true;
          return;
        }
      }
    }

    /** The first `acm_function_bind_config`. It succeeds with every named port acquired and
        added, or adds none; a failure up to the acquisition leaves no reference behind, while a
        failed addition keeps the references with `instancesOn` at zero. A list of at least
        MAX_ACM_INSTANCES ports that all open reports success with nothing acquired. */
    method BindConfig(core: Core, transports: string, initPort: nat -> int, setupErr: int, answers: Answers)
        returns (err: int, ports: nat)
      requires core.held == {} && core.added == {}
      modifies this, core
      ensures var tokens := PortCount(transports);
              var allOpen := forall i | 0 <= i < tokens && i < MAX_ACM_INSTANCES :: initPort(i) == 0;
              && (err == 0 <==>
                    allOpen && (tokens >= MAX_ACM_INSTANCES
                               || (setupErr == 0 && answers.Gets(tokens) && answers.Adds(tokens))))
              && (core.added == if err == 0 && tokens < MAX_ACM_INSTANCES then Functions(tokens) else {})
              && (err == 0 ==> core.held == if tokens < MAX_ACM_INSTANCES then Both(tokens) else {})
              && (err == 0 ==> instancesOn == if tokens < MAX_ACM_INSTANCES then tokens else 0)
              && (err != 0 ==>
                    instancesOn == 0 &&
                    core.held == if allOpen && setupErr == 0 && answers.Gets(tokens) then Both(tokens) else {})
    {
      var full;
      err, ports, full := OpenPorts(transports, initPort);
      if err != 0 || full {
        instancesOn := 0;
        return;
      }
      err := setupErr;
      if err != 0 {
        instancesOn := 0;
        return;
      }
      err := Acquire(core, ports, answers);
      if err != 0 {
        return;
      }
      err := AddAll(core, ports, answers);
    }
  }
}
