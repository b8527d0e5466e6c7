/** The gadget device of `android.c`: configuration lists rewritten in place from text, the
    holders' enable hooks, and the pull-up counter, each tied to its specification. */
module AndroidDev {
  import opened Basics
  import opened CStrings
  import T = FunctionsText
  import D = DepthSpec

  const EINVAL := 22
  const EBUSY := 16
  const ENODEV := 19
  const BAM2BAM_IPA := "BAM2BAM_IPA"
  const VIDEO := "video"

  /** `struct android_usb_function`. */
  class AndroidFunction {
    const name: string
    var androidDev: AndroidDev?

    constructor (name: string)
      ensures this.name == name && androidDev == null
    {
      this.name := name;
      androidDev := null;
    }
  }

  /** `struct android_configuration`, with the holder list as the functions it holds. */
  class AndroidConfiguration {
    const bConfigurationValue: int
    var enabledFunctions: seq<AndroidFunction>

    constructor (value: int)
      ensures bConfigurationValue == value && enabledFunctions == []
    {
      bConfigurationValue := value;
      enabledFunctions := [];
    }
  }

  function NamesOf(fs: seq<AndroidFunction>): (names: seq<string>)
    ensures |names| == |fs|
    ensures forall i | 0 <= i < |fs| :: names[i] == fs[i].name
  {
    seq(|fs|, i requires 0 <= i < |fs| => fs[i].name)
  }

  lemma PrefixSnoc<A>(was: seq<A>, now: seq<A>, n: nat)
    requires was <= now && n <= |was| && n < |now|
    ensures now[..n + 1] == was[..n] + [now[n]]
  {
  }

  /** The driver hooks that matter to the pull-up go by name. */
  function KindOf(f: AndroidFunction): D.Kind {
    if f.name == T.FFS then D.Ffs else if f.name == VIDEO then D.Video else D.Other
  }

  function KindsIn(fs: seq<AndroidFunction>): (ks: seq<D.Kind>)
    ensures |ks| == |fs|
    ensures forall i | 0 <= i < |fs| :: ks[i] == KindOf(fs[i])
  {
    seq(|fs|, i requires 0 <= i < |fs| => KindOf(fs[i]))
  }

  /** The FunctionFS driver's `struct functionfs_config`, shared by all devices. */
  class FunctionFs {
    var isOpen: bool
    var enabled: bool
  }

  /** The `video_enabled` switch. */
  class VideoSwitch {
    var enabled: bool
  }

  /** The pull-up of a USB device controller, with the history of its calls. */
  class UsbGadget {
    var connected: bool
    ghost var pulls: seq<bool>

    method Connect()
      modifies this
      ensures connected && pulls == old(pulls) + [true]
    {
      connected := true;
      pulls := pulls + [true];
    }

    method Disconnect()
      modifies this
      ensures !connected && pulls == old(pulls) + [false]
    {
      connected := false;
      pulls := pulls + [false];
    }
  }

  /** `struct android_dev`. */
  class AndroidDev {
    const functions: seq<AndroidFunction>
    const ffsFunction: AndroidFunction
    const ffs: FunctionFs
    const video: VideoSwitch
    const gadget: UsbGadget
    var bound: bool
    var disableDepth: nat
    ghost var added: bool
    ghost var warned: bool
    var configs: seq<AndroidConfiguration>
    var configsNum: int
    var enabled: bool
    var ffsAliases: string

    /** `android_probe` and the disconnect of `android_bind`. FunctionFS may be in use on another
        device already. */
    constructor (functions: seq<AndroidFunction>, ffsFunction: AndroidFunction, ffs: FunctionFs,
                 video: VideoSwitch, gadget: UsbGadget)
      requires ffsFunction in functions
      requires forall f | f in functions :: f.name == T.FFS <==> f == ffsFunction
      requires ffs.enabled ==> ffsFunction.androidDev != null
      modifies gadget
      ensures Valid() && HooksValid()
      ensures this.functions == functions && this.ffsFunction == ffsFunction && this.ffs == ffs
      ensures this.video == video && this.gadget == gadget && configs == [] && ffsAliases == "" && bound
      ensures gadget.pulls == old(gadget.pulls) + [false]
      ensures View() == D.START.(isOpen := ffs.isOpen, videoEnabled := video.enabled,
                                 pull := D.START.pull.(pulls := gadget.pulls))
    {
      this.functions := functions;
      this.ffsFunction := ffsFunction;
      this.ffs := ffs;
      this.video := video;
      this.gadget := gadget;
      bound := true;
      disableDepth := 1;
      enabled, added, warned := false, false, false;
      configs, configsNum := [], 0;
      ffsAliases := "";
      new;
      gadget.Disconnect();
    }

    /** Configuration `i` carries value `i + 1`, and a function's `androidDev` is this device
        exactly when some configuration holds it. */
    ghost predicate Valid()
      reads `configs, `configsNum, `ffsAliases, configs, functions
    {
      && configsNum == |configs|
      && (forall i, j | 0 <= i < j < |configs| :: configs[i] != configs[j])
      && (forall i | 0 <= i < |configs| :: configs[i].bConfigurationValue == i + 1)
      && (forall f | f in functions :: f.androidDev == this <==> Holds(f))
      && (forall i | 0 <= i < |configs| :: forall f | f in configs[i].enabledFunctions :: f in functions)
      && |ffsAliases| < T.BUFFER_SIZE
    }

    ghost predicate Holds(f: AndroidFunction)
      reads `configs, configs
    {
      exists i :: 0 <= i < |configs| && f in configs[i].enabledFunctions
    }

    /** The configurations hold exactly these drivers, in this order. */
    ghost predicate Stores(lists: seq<seq<string>>)
      reads `configs, configs
    {
      StoresIn(configs, lists)
    }

    static ghost predicate StoresIn(cs: seq<AndroidConfiguration>, lists: seq<seq<string>>)
      reads cs
    {
      |lists| == |cs| && forall i | 0 <= i < |cs| :: NamesOf(cs[i].enabledFunctions) == lists[i]
    }

    /** One function table entry goes by the FunctionFS name; while FunctionFS is enabled some
        device owns it, and that device is enabled. */
    ghost predicate HooksValid()
      reads `enabled, ffs`enabled, ffsFunction
    {
      && ffsFunction in functions
      && (forall f | f in functions :: f.name == T.FFS <==> f == ffsFunction)
      && (ffs.enabled ==> ffsFunction.androidDev != null && (ffsFunction.androidDev == this ==> enabled))
    }

    static ghost function KindsOf(cs: seq<AndroidConfiguration>): seq<D.Kind>
      reads cs
    {
      if cs == [] then [] else KindsOf(cs[..|cs| - 1]) + KindsIn(cs[|cs| - 1].enabledFunctions)
    }

    ghost function PullView(): D.PullUp
      reads `disableDepth, `added, `warned, gadget
    {
      D.PullUp(disableDepth, gadget.connected, added, warned, gadget.pulls)
    }

    /** The device as the pull-up machine sees it. */
    ghost function View(): D.Gadget
      reads `enabled, `configs, `disableDepth, `added, `warned, configs, ffs, video, gadget
    {
      var ks := KindsOf(configs);
      D.Gadget(enabled, enabled && ffs.enabled && D.Ffs in ks, ffs.isOpen, video.enabled, ks, PullView())
    }

    /** The device agrees with `g` on all that the hooks and the counter touch. */
    ghost predicate InStep(g: D.Gadget, held: bool)
      reads `disableDepth, `added, `warned, ffs, video, gadget
    {
      && PullView() == g.pull
      && ffs.isOpen == g.isOpen && video.enabled == g.videoEnabled
      && (held ==> ffs.enabled == g.ffsEnabled)
    }

    /** Free to this device: unowned, or owned by it already. */
    ghost predicate Usable(f: AndroidFunction)
      reads f
    {
      f.androidDev == null || f.androidDev == this
    }

    ghost function UsableNames(): set<string>
      reads functions
    {
      set f | f in functions && Usable(f) :: f.name
    }

    ghost function Rules(rndisTransports: string): T.Rules
      reads `ffsAliases, functions
    {
      T.Rules(ffsAliases, Strim(rndisTransports) == BAM2BAM_IPA, UsableNames())
    }

    /** `android_enable_function`. */
    method EnableFunction(conf: AndroidConfiguration, name: string) returns (err: int)
      modifies conf`enabledFunctions, functions`androidDev
      ensures err == if name in old(UsableNames()) then 0 else -EINVAL
      ensures err == 0 <==>
                exists i :: 0 <= i < |functions| && functions[i].name == name && functions[i].androidDev == this
                            && old(functions[i].androidDev == null || functions[i].androidDev == this)
                            && conf.enabledFunctions == old(conf.enabledFunctions) + [functions[i]]
                            && forall j | 0 <= j < i && functions[j].name == name ::
                                 old(functions[j].androidDev != null && functions[j].androidDev != this)
      ensures err != 0 ==> conf.enabledFunctions == old(conf.enabledFunctions)
      ensures err == 0 ==>
                |conf.enabledFunctions| == |old(conf.enabledFunctions)| + 1
                && conf.enabledFunctions[..|old(conf.enabledFunctions)|] == old(conf.enabledFunctions)
                && var f := conf.enabledFunctions[|old(conf.enabledFunctions)|];
                   f in functions && old(Usable(f)) && f.name == name
      ensures forall f | f in functions ::
                f.androidDev == if err == 0 && f == conf.enabledFunctions[|conf.enabledFunctions| - 1]
                                then this else old(f.androidDev)
    {
      var i := 0;
      while i < |functions|
        invariant 0 <= i <= |functions|
        invariant forall j | 0 <= j < i :: functions[j].name == name ==> !Usable(functions[j])
        invariant conf.enabledFunctions == old(conf.enabledFunctions)
        invariant forall f | f in functions :: f.androidDev == old(f.androidDev)
      {
        var f := functions[i];
        i := i + 1;
        if f.name == name && (f.androidDev == null || f.androidDev == this) {
          f.androidDev := this;
          conf.enabledFunctions := conf.enabledFunctions + [f];
          assert f in functions && old(Usable(f));
          return 0;
        }
      }
      return -EINVAL;
    }

    /** Whether `name` is one of the FunctionFS aliases. */
    method MatchesAlias(name: string) returns (isFfs: bool)
      requires |ffsAliases| < T.BUFFER_SIZE
      ensures isFfs <==> name in Split(ffsAliases, ',')
    {
      isFfs := false;
      var a := Some(Strlcpy(ffsAliases, T.BUFFER_SIZE));
      while a.Some?
        invariant !isFfs ==> (name in Split(ffsAliases, ',') <==> name in SplitRest(a, ','))
        invariant isFfs ==> name in Split(ffsAliases, ',')
        decreases if a.Some? then |a.value| + 1 else 0
      {
        var (alias, rest) := Strsep(a.value, ',');
        a := rest;
        if alias == name {
          isFfs := true;
          break;
        }
      }
    }

    /** The body of the inner loop of `functions_store`: one name of one configuration. */
    method StoreName(conf: AndroidConfiguration, token: string, ffsEnabled: bool, rndisTransports: string)
        returns (ffs: bool)
      requires |ffsAliases| < T.BUFFER_SIZE
      requires forall f | f in conf.enabledFunctions :: f in functions && f.androidDev == this
      modifies conf`enabledFunctions, functions`androidDev
      ensures var t := T.TakeName(old(Rules(rndisTransports)), token, ffsEnabled);
              NamesOf(conf.enabledFunctions) == NamesOf(old(conf.enabledFunctions)) + t.holders && ffs == t.ffs
      // A token that is no alias is stored exactly if its driver is to be had, and an alias exactly if FunctionFS
      // is and no alias has stored it before.
      ensures var before, now := NamesOf(old(conf.enabledFunctions)), NamesOf(conf.enabledFunctions);
              if token in Split(ffsAliases, ',') then
                var added := !ffsEnabled && "ffs" in old(UsableNames());
                now == before + (if added then ["ffs"] else []) && ffs == (ffsEnabled || added)
              else
                var name := if token == "rndis" && Strim(rndisTransports) == "BAM2BAM_IPA" then "rndis_qc" else token;
                now == before + (if name in old(UsableNames()) then [name] else []) && ffs == ffsEnabled
      ensures old(conf.enabledFunctions) <= conf.enabledFunctions
      ensures forall f | f in conf.enabledFunctions :: f in functions && f.androidDev == this && old(Usable(f))
      ensures forall f | f in functions ::
                f.androidDev == if f in conf.enabledFunctions then this else old(f.androidDev)
      ensures UsableNames() == old(UsableNames())
    {
      ffs := ffsEnabled;
      var name := token;
      var isFfs := MatchesAlias(name);
      if isFfs && ffs {
        return;
      }
      if isFfs {
        name := T.FFS;
      } else if name == T.RNDIS && Strim(rndisTransports) == BAM2BAM_IPA {
        name := T.RNDIS_QC;
      }
      var err := EnableFunction(conf, name);
      if isFfs && err == 0 {
        ffs := true;
      }
      ghost var n := |old(conf.enabledFunctions)|;
      if err == 0 {
        assert conf.enabledFunctions == old(conf.enabledFunctions) + [conf.enabledFunctions[n]];
      }
      assert forall f | f in functions :: Usable(f) <==> old(Usable(f));
    }

    /** The inner loop of `functions_store`: the names of one configuration. */
    method StoreNames(conf: AndroidConfiguration, confStr: string, ffsEnabled: bool, rndisTransports: string)
        returns (ffs: bool)
      requires |ffsAliases| < T.BUFFER_SIZE
      requires conf.enabledFunctions == []
      modifies conf`enabledFunctions, functions`androidDev
      ensures var t := T.TakeNames(old(Rules(rndisTransports)), Split(confStr, ','), ffsEnabled);
              NamesOf(conf.enabledFunctions) == t.holders && ffs == t.ffs
      ensures forall f | f in conf.enabledFunctions :: f in functions && f.androidDev == this && old(Usable(f))
      ensures forall f | f in functions ::
                f.androidDev == if f in conf.enabledFunctions then this else old(f.androidDev)
      ensures UsableNames() == old(UsableNames())
    {
      ghost var r := Rules(rndisTransports);
      ghost var whole := T.TakeNames(r, Split(confStr, ','), ffsEnabled);
      var s := Some(confStr);
      ffs := ffsEnabled;
      while s.Some?
        invariant Rules(rndisTransports) == r
        invariant forall f | f in conf.enabledFunctions :: f in functions && f.androidDev == this && old(Usable(f))
        invariant forall f | f in functions ::
                    f.androidDev == if f in conf.enabledFunctions then this else old(f.androidDev)
        invariant var rest := T.TakeNames(r, SplitRest(s, ','), ffs);
                  NamesOf(conf.enabledFunctions) + rest.holders == whole.holders && rest.ffs == whole.ffs
        decreases if s.Some? then |s.value| + 1 else 0
      {
        T.TakeNamesStep(r, s.value, ffs, NamesOf(conf.enabledFunctions));
        var (name, rest) := Strsep(s.value, ',');
        s := rest;
        ffs := StoreName(conf, name, ffs, rndisTransports);
      }
    }

    /** The clearing loop over the holders of one configuration. */
    method ClearHolders(conf: AndroidConfiguration)
      requires forall f | f in conf.enabledFunctions :: f in functions
      modifies conf`enabledFunctions, functions`androidDev
      ensures conf.enabledFunctions == []
      ensures forall f | f in functions ::
                f.androidDev == if f in old(conf.enabledFunctions) then null else old(f.androidDev)
    {
      ghost var held, d := conf.enabledFunctions, 0;
      while conf.enabledFunctions != []
        invariant d <= |held| && conf.enabledFunctions == held[d..]
        invariant forall f | f in functions :: f.androidDev == if f in held[..d] then null else old(f.androidDev)
        decreases |conf.enabledFunctions|
      {
        var f := conf.enabledFunctions[0];
        assert f in held;
        f.androidDev := null;
        conf.enabledFunctions := conf.enabledFunctions[1..];
        d := d + 1;
        assert held[..d] == held[..d - 1] + [held[d - 1]];
      }
      assert held[..d] == held;
    }

    twostate lemma UsableKept()
      requires forall f | f in functions :: Usable(f) <==> old(Usable(f))
      ensures UsableNames() == old(UsableNames())
    {
    }

    /** The clearing loop of `functions_store`. */
    method ClearLists()
      requires Valid()
      modifies configs`enabledFunctions, functions`androidDev
      ensures Valid() && UsableNames() == old(UsableNames())
      ensures forall i | 0 <= i < |configs| :: configs[i].enabledFunctions == []
      ensures forall f | f in functions ::
                f.androidDev == if old(f.androidDev) == this then null else old(f.androidDev)
    {
      hide UsableNames;
      var i := 0;
      while i < |configs|
        invariant 0 <= i <= |configs|
        invariant forall k | 0 <= k < i :: configs[k].enabledFunctions == []
        invariant forall k | i <= k < |configs| :: configs[k].enabledFunctions == old(configs[k].enabledFunctions)
        invariant forall f | f in functions ::
                    f.androidDev == old(f.androidDev) || (f.androidDev == null && old(f.androidDev) == this)
        invariant forall k | 0 <= k < i :: forall f | f in old(configs[k].enabledFunctions) :: f.androidDev == null
      {
        assert forall f | f in configs[i].enabledFunctions :: old(Holds(f));
        var conf := configs[i];
        assert forall f | f in conf.enabledFunctions :: f in functions;
        ClearHolders(conf);
        i := i + 1;
      }
      forall f | f in functions
        ensures f.androidDev == if old(f.androidDev) == this then null else old(f.androidDev)
      {
        if old(f.androidDev) == this { assert old(Holds(f)); }
      }
      UsableKept();
    }

    /** `alloc_android_config`. */
    method AllocConfig() returns (conf: AndroidConfiguration)
      requires Valid()
      modifies this`configs, this`configsNum
      ensures Valid() && fresh(conf)
      ensures configs == old(configs) + [conf] && conf.enabledFunctions == []
    {
      configsNum := configsNum + 1;
      conf := new AndroidConfiguration(configsNum);
      configs := configs + [conf];
      assert forall i | 0 <= i < |old(configs)| :: configs[i] == old(configs)[i];
      forall f | f in functions && old(Holds(f)) ensures Holds(f) {
        var i :| 0 <= i < |old(configs)| && f in old(configs[i].enabledFunctions);
        assert configs[i] == old(configs)[i];
      }
    }

    /** `free_android_config` on a configuration without holders. */
    method FreeConfig(at: nat)
      requires configsNum == |configs| && at < |configs|
      modifies this`configs, this`configsNum
      ensures configsNum == |configs|
      ensures configs == old(configs)[..at] + old(configs)[at + 1..]
    {
      configs := configs[..at] + configs[at + 1..];
      configsNum := configsNum - 1;
    }

    /** Filling configuration `curr`, all later ones being empty. */
    method FillConfig(ghost curr: nat, conf: AndroidConfiguration, confStr: string, ffsEnabled: bool,
                      rndisTransports: string)
        returns (ffs: bool)
      requires Valid() && curr < |configs| && conf == configs[curr]
      requires conf.enabledFunctions == []
      modifies conf`enabledFunctions, functions`androidDev
      ensures Valid()
      ensures var t := T.TakeNames(old(Rules(rndisTransports)), Split(confStr, ','), ffsEnabled);
              NamesOf(conf.enabledFunctions) == t.holders && ffs == t.ffs
      ensures forall f | f in functions ::
                f.androidDev == old(f.androidDev) || (f.androidDev == this && old(f.androidDev) == null)
      ensures UsableNames() == old(UsableNames())
    {
      ffs := StoreNames(conf, confStr, ffsEnabled, rndisTransports);
      forall f | f in functions ensures f.androidDev == this <==> Holds(f) {
        if f in conf.enabledFunctions {
          assert Holds(f);
        } else if f.androidDev == this {
          assert old(Holds(f));
          var i :| 0 <= i < |configs| && f in old(configs[i].enabledFunctions);
          assert f in configs[i].enabledFunctions;
        }
      }
    }

    /** The outer loop body of `functions_store`: reuse the next configuration or append one,
        then fill it. */
    method StoreConfig(curr: nat, confStr: string, ffsEnabled: bool, rndisTransports: string) returns (ffs: bool)
      requires Valid() && curr <= |configs|
      requires forall i | curr <= i < |configs| :: configs[i].enabledFunctions == []
      modifies this`configs, this`configsNum, configs`enabledFunctions, functions`androidDev
      ensures Valid() && old(configs) <= configs
      ensures |configs| == if curr == |old(configs)| then curr + 1 else |old(configs)|
      ensures forall i | |old(configs)| <= i < |configs| :: fresh(configs[i])
      ensures forall i | curr < i < |configs| :: configs[i].enabledFunctions == []
      ensures forall i | 0 <= i < curr :: configs[i].enabledFunctions == old(configs[i].enabledFunctions)
      ensures var t := T.TakeNames(old(Rules(rndisTransports)), Split(confStr, ','), ffsEnabled);
              NamesOf(configs[curr].enabledFunctions) == t.holders && ffs == t.ffs
      ensures forall f | f in functions ::
                f.androidDev == old(f.androidDev) || (f.androidDev == this && old(f.androidDev) == null)
      ensures UsableNames() == old(UsableNames())
    {
      if curr == |configs| {
        var added := AllocConfig();
      }
      ffs := FillConfig(curr, configs[curr], confStr, ffsEnabled, rndisTransports);
    }

    /** The closing loop of `functions_store`: each turn frees the configuration after the last
        one used, so what goes is the tail. */
    method FreeSurplus(curr: nat)
      requires Valid() && curr <= |configs|
      requires forall i | curr <= i < |configs| :: configs[i].enabledFunctions == []
      modifies this`configs, this`configsNum
      ensures Valid() && configs == old(configs)[..curr]
    {
      while curr < |configs|
        invariant curr <= |configs| <= |old(configs)| && configsNum == |configs|
        invariant configs[..curr] == old(configs)[..curr]
        decreases |configs|
      {
        FreeConfig(curr);
      }
      assert configs == old(configs)[..curr];
      forall f | f in functions && old(Holds(f)) ensures Holds(f) {
        var i :| 0 <= i < |old(configs)| && f in old(configs[i].enabledFunctions);
        assert configs[i] == old(configs)[i];
      }
    }

    static lemma StoresSnoc(cs: seq<AndroidConfiguration>, lists: seq<seq<string>>,
                            conf: AndroidConfiguration, names: seq<string>)
      requires StoresIn(cs, lists) && NamesOf(conf.enabledFunctions) == names
      ensures StoresIn(cs + [conf], lists + [names])
    {
    }

    /** The first `curr` configurations hold `stored`; the others are empty. */
    ghost predicate Filled(curr: nat, stored: seq<seq<string>>)
      reads `configs, configs
    {
      && curr <= |configs| && StoresIn(configs[..curr], stored)
      && forall i | curr <= i < |configs| :: configs[i].enabledFunctions == []
    }

    /** One turn of the loop over the `:` parts. */
    method StorePart(curr: nat, b: string, ffsEnabled: bool, rndisTransports: string, ghost stored: seq<seq<string>>)
        returns (rest: Option<string>, ffs: bool, ghost now: seq<seq<string>>)
      requires Valid() && Filled(curr, stored)
      modifies this`configs, this`configsNum, configs`enabledFunctions, functions`androidDev
      ensures Valid() && Filled(curr + 1, now)
      ensures rest.Some? ==> |rest.value| < |b|
      ensures var r := old(Rules(rndisTransports));
              now + T.TakeConfigs(r, SplitRest(rest, ':'), ffs)
              == stored + T.TakeConfigs(r, Split(b, ':'), ffsEnabled)
      ensures old(configs) <= configs
      ensures |configs| == if curr == |old(configs)| then curr + 1 else |old(configs)|
      ensures forall i | |old(configs)| <= i < |configs| :: fresh(configs[i])
      ensures forall f | f in functions ::
                f.androidDev == old(f.androidDev) || (f.androidDev == this && old(f.androidDev) == null)
      ensures UsableNames() == old(UsableNames())
    {
      ghost var r, before := Rules(rndisTransports), configs;
      T.TakeConfigsStep(r, b, ffsEnabled, stored);
      var (confStr, later) := Strsep(b, ':');
      rest := later;
      ghost var names := T.TakeNames(r, Split(confStr, ','), ffsEnabled).holders;
      ffs := StoreConfig(curr, confStr, ffsEnabled, rndisTransports);
      PrefixSnoc(before, configs, curr);
      StoresSnoc(before[..curr], stored, configs[curr], names);
      now := stored + [names];
    }

    /** The loop over the `:` parts of `functions_store`, starting from empty lists. */
    method StoreParts(text: string, rndisTransports: string) returns (curr: nat)
      requires Valid() && Filled(0, [])
      modifies this`configs, this`configsNum, configs`enabledFunctions, functions`androidDev
      ensures Valid()
      ensures Filled(curr, T.TakeConfigs(old(Rules(rndisTransports)), Split(text, ':'), false))
      ensures old(configs) <= configs && (|configs| > |old(configs)| ==> curr == |configs|)
      ensures forall i | |old(configs)| <= i < |configs| :: fresh(configs[i])
      ensures forall f | f in functions ::
                f.androidDev == old(f.androidDev) || (f.androidDev == this && old(f.androidDev) == null)
    {
      hide Filled, Valid, Split, SplitRest, T.TakeConfigs;
      ghost var r := Rules(rndisTransports);
      ghost var stored: seq<seq<string>> := [];
      var ffs := false;
      curr := 0;
      SplitRestIs(text, ':');
      var b := Some(text);
      while b.Some?
        invariant Valid() && Filled(curr, stored) && Rules(rndisTransports) == r && curr <= |configs|
        invariant stored + T.TakeConfigs(r, SplitRest(b, ':'), ffs) == T.TakeConfigs(r, Split(text, ':'), false)
        invariant old(configs) <= configs && (|configs| > |old(configs)| ==> curr == |configs|)
        invariant forall i | |old(configs)| <= i < |configs| :: fresh(configs[i])
        invariant forall f | f in functions ::
                    f.androidDev == old(f.androidDev) || (f.androidDev == this && old(f.androidDev) == null)
        decreases if b.Some? then |b.value| + 1 else 0
      {
        SplitRestIs(b.value, ':');
        b, ffs, stored := StorePart(curr, b.value, ffs, rndisTransports, stored);
        curr := curr + 1;
      }
      SplitRestIs(text, ':');
      T.NoConfigs(r, ffs);
      assert stored + [] == stored;
    }

    /** The part of `functions_store` behind the check: clear, store, free the surplus. */
    method StoreText(buff: string, rndisTransports: string)
      requires Valid()
      modifies this`configs, this`configsNum, configs`enabledFunctions, functions`androidDev
      ensures Valid()
      ensures Stores(T.Parse(old(Rules(rndisTransports)), buff))
      ensures forall i | 0 <= i < |configs| ::
                if i < |old(configs)| then configs[i] == old(configs)[i] else fresh(configs[i])
      ensures forall f | f in functions && old(f.androidDev) != this ::
                f.androidDev == old(f.androidDev) || (f.androidDev == this && old(f.androidDev) == null)
      ensures forall f | f in functions && old(f.androidDev) == this :: f.androidDev in {null, this}
    {
      hide T.TakeConfigs, T.TakeNames;
      ClearLists();
      var curr := StoreParts(Strim(Strlcpy(buff, T.BUFFER_SIZE)), rndisTransports);
      FreeSurplus(curr);
    }

    lemma RulesAre(rndisTransports: string)
      ensures Rules(rndisTransports) == T.Rules(ffsAliases, Strim(rndisTransports) == "BAM2BAM_IPA", UsableNames())
    {
    }

    /** `functions_store`: what the text denotes is what the lists hold afterwards, unless the
        gadget is enabled; configurations are reused from the front and freed from the tail. */
    method FunctionsStore(buff: string, rndisTransports: string) returns (result: int)
      requires Valid()
      modifies this`configs, this`configsNum, configs`enabledFunctions, functions`androidDev
      ensures Valid()
      ensures result == if old(enabled) then -EBUSY else |buff|
      ensures old(enabled) ==> unchanged(this) && unchanged(configs) && unchanged(functions)
      ensures !old(enabled) ==>
                var r := T.Rules(old(ffsAliases), Strim(rndisTransports) == "BAM2BAM_IPA", old(UsableNames()));
                && Stores(T.Parse(r, buff))
                // A text of drivers that are to be had and no alias stores all of them, in order.
                && forall lists | T.Storable(r, lists) && T.IsTextOf(buff, lists) :: Stores(lists)
      ensures forall i | 0 <= i < |configs| ::
                if i < |old(configs)| then configs[i] == old(configs)[i] else fresh(configs[i])
      ensures forall f | f in functions && old(f.androidDev) != this ::
                f.androidDev == old(f.androidDev) || (f.androidDev == this && old(f.androidDev) == null)
      ensures forall f | f in functions && old(f.androidDev) == this :: f.androidDev in {null, this}
      ensures old(HooksValid()) ==> HooksValid()
      ensures View() == D.Step(old(View()), D.StoreFunctions(KindsOf(configs)))
    {
      hide T.Parse, KindsOf, Stores, Valid, UsableNames, Usable, Rules;
      if enabled {
        return -EBUSY;
      }
      ghost var r := Rules(rndisTransports);
      RulesAre(rndisTransports);
      StoreText(buff, rndisTransports);
      forall lists | T.Storable(r, lists) && T.IsTextOf(buff, lists) ensures Stores(lists) {
        T.StoresAll(r, lists, buff);
      }
      return |buff|;
    }

    // ---- The pull-up counter

    lemma {:induction false} KindsHeld(cs: seq<AndroidConfiguration>)
      requires HooksValid()
      requires forall conf | conf in cs :: forall f | f in conf.enabledFunctions :: f in functions
      ensures D.Ffs in KindsOf(cs) <==> exists i :: 0 <= i < |cs| && ffsFunction in cs[i].enabledFunctions
      decreases |cs|
    {
      if cs != [] {
        var init, last := cs[..|cs| - 1], cs[|cs| - 1];
        KindsHeld(init);
        assert last in cs;
        var ks := KindsIn(last.enabledFunctions);
        if D.Ffs in ks {
          var j :| 0 <= j < |ks| && ks[j] == D.Ffs;
          assert last.enabledFunctions[j] == ffsFunction;
        }
        if ffsFunction in last.enabledFunctions {
          var j :| 0 <= j < |ks| && last.enabledFunctions[j] == ffsFunction;
          assert ks[j] == D.Ffs;
        }
        assert forall i | 0 <= i < |init| :: init[i] == cs[i];
      }
    }

    /** FunctionFS is among the holders exactly when this device owns it. */
    lemma FfsHeld()
      requires Valid() && HooksValid()
      ensures D.Ffs in KindsOf(configs) <==> ffsFunction.androidDev == this
    {
      KindsHeld(configs);
      assert Holds(ffsFunction) <==> ffsFunction.androidDev == this;
    }

    /** The machine sees a kind of driver exactly when some configuration holds one of that name. */
    static lemma {:induction false} KindsNamed(cs: seq<AndroidConfiguration>)
      ensures D.Video in KindsOf(cs) <==>
              exists i, j :: 0 <= i < |cs| && 0 <= j < |cs[i].enabledFunctions|
                             && cs[i].enabledFunctions[j].name == "video"
      ensures D.Ffs in KindsOf(cs) <==>
              exists i, j :: 0 <= i < |cs| && 0 <= j < |cs[i].enabledFunctions|
                             && cs[i].enabledFunctions[j].name == "ffs"
      decreases |cs|
    {
      if cs != [] {
        var n := |cs| - 1;
        KindsNamed(cs[..n]);
        var fs, ks := cs[n].enabledFunctions, KindsIn(cs[n].enabledFunctions);
        assert D.Video in ks <==> exists j :: 0 <= j < |fs| && fs[j].name == "video";
        assert D.Ffs in ks <==> exists j :: 0 <= j < |fs| && fs[j].name == "ffs";
      }
    }

    /** Registering `count` configurations succeeds; `addConfig(i)` is what registering
        configuration `i` returns. */
    static ghost predicate AddsAll(addConfig: nat -> int, count: nat) {
      forall i | 0 <= i < count :: addConfig(i) >= 0
    }

    /** The registration loop of `android_enable`, left at the first failure. */
    method RegisterConfigs(addConfig: nat -> int) returns (err: int)
      ensures err < 0 <==> !AddsAll(addConfig, |configs|)
    {
      err := 0;
      var i := 0;
      while i < |configs|
        invariant 0 <= i <= |configs| && err >= 0
        invariant forall j | 0 <= j < i :: addConfig(j) >= 0
      {
        err := addConfig(i);
        if err < 0 {
          return;
        }
        i := i + 1;
      }
    }

    /** `android_enable`. */
    method AndroidEnable(addConfig: nat -> int) returns (err: int)
      modifies this`disableDepth, this`added, this`warned, gadget
      ensures PullView() == D.Up(old(PullView()), AddsAll(addConfig, |configs|), video.enabled)
      ensures err < 0 <==> old(disableDepth) == 1 && !AddsAll(addConfig, |configs|)
    {
      err := 0;
      if disableDepth == 0 {
        warned := true;
        return;
      }
      disableDepth := disableDepth - 1;
      if disableDepth == 0 {
        err := RegisterConfigs(addConfig);
        added := err >= 0;
        if err >= 0 && !video.enabled {
          gadget.Connect();
        }
      }
    }

    /** `android_disable`. */
    method AndroidDisable()
      modifies this`disableDepth, this`added, gadget
      ensures PullView() == D.Down(old(PullView()))
    {
      if disableDepth == 0 {
        added := false;
        gadget.Disconnect();
      }
      disableDepth := disableDepth + 1;
    }

    /** The optional `enable` hook of a holder: FunctionFS and video have one. */
    method EnableHook(f: AndroidFunction, ghost g: D.Gadget, ghost held: bool)
      requires InStep(g, held) && (KindOf(f) == D.Ffs ==> held)
      modifies this`disableDepth, this`added, gadget, ffs`enabled, video
      ensures InStep(D.EnableHolder(g, KindOf(f)), held)
      ensures !held ==> ffs.enabled == old(ffs.enabled)
    {
      if f.name == T.FFS {
        ffs.enabled := true;
        if !ffs.isOpen {
          AndroidDisable();
        }
      } else if f.name == VIDEO {
        video.enabled := true;
      }
    }

    /** The optional `disable` hook of a holder. */
    method DisableHook(f: AndroidFunction, addConfig: nat -> int, ghost g: D.Gadget, ghost held: bool, ghost ok: bool)
      requires InStep(g, held) && (KindOf(f) == D.Ffs ==> held)
      requires ok == AddsAll(addConfig, |configs|)
      modifies this`disableDepth, this`added, this`warned, gadget, ffs`enabled, video
      ensures InStep(D.DisableHolder(g, KindOf(f), ok), held)
      ensures !held ==> ffs.enabled == old(ffs.enabled)
    {
      if f.name == T.FFS {
        ffs.enabled := false;
        if !ffs.isOpen {
          var _ := AndroidEnable(addConfig);
        }
      } else if f.name == VIDEO {
        video.enabled := false;
      }
    }

    /** The inner enable loop of `enable_store`. */
    method EnableHolders(fs: seq<AndroidFunction>, ghost g: D.Gadget, ghost before: seq<D.Kind>, ghost held: bool)
      requires InStep(D.EnableHolders(g, before), held)
      requires forall f | f in fs :: KindOf(f) == D.Ffs ==> held
      modifies this`disableDepth, this`added, gadget, ffs`enabled, video
      ensures InStep(D.EnableHolders(g, before + KindsIn(fs)), held)
      ensures !held ==> ffs.enabled == old(ffs.enabled)
    {
      hide D.EnableHolders, D.DisableHolders, D.EnableHolder, D.DisableHolder;
      var i := 0;
      assert before + KindsIn(fs[..0]) == before;
      while i < |fs|
        invariant 0 <= i <= |fs|
        invariant InStep(D.EnableHolders(g, before + KindsIn(fs[..i])), held)
        invariant !held ==> ffs.enabled == old(ffs.enabled)
      {
        ghost var ks := before + KindsIn(fs[..i]);
        EnableHook(fs[i], D.EnableHolders(g, ks), held);
        D.EnableHoldersSnoc(g, ks, KindOf(fs[i]));
        i := i + 1;
        assert before + KindsIn(fs[..i]) == ks + [KindOf(fs[i - 1])];
      }
      assert fs[..i] == fs;
    }

    /** The inner disable loop of `enable_store`. */
    method DisableHolders(fs: seq<AndroidFunction>, addConfig: nat -> int, ghost g: D.Gadget,
                          ghost before: seq<D.Kind>, ghost held: bool, ghost ok: bool)
      requires InStep(D.DisableHolders(g, before, ok), held)
      requires forall f | f in fs :: KindOf(f) == D.Ffs ==> held
      requires ok == AddsAll(addConfig, |configs|)
      modifies this`disableDepth, this`added, this`warned, gadget, ffs`enabled, video
      ensures InStep(D.DisableHolders(g, before + KindsIn(fs), ok), held)
      ensures !held ==> ffs.enabled == old(ffs.enabled)
    {
      hide D.EnableHolders, D.DisableHolders, D.EnableHolder, D.DisableHolder;
      var i := 0;
      assert before + KindsIn(fs[..0]) == before;
      while i < |fs|
        invariant 0 <= i <= |fs|
        invariant InStep(D.DisableHolders(g, before + KindsIn(fs[..i]), ok), held)
        invariant !held ==> ffs.enabled == old(ffs.enabled)
      {
        ghost var ks := before + KindsIn(fs[..i]);
        DisableHook(fs[i], addConfig, D.DisableHolders(g, ks, ok), held, ok);
        D.DisableHoldersSnoc(g, ks, KindOf(fs[i]), ok);
        i := i + 1;
        assert before + KindsIn(fs[..i]) == ks + [KindOf(fs[i - 1])];
      }
      assert fs[..i] == fs;
    }

    /** Hooks of FunctionFS run only on the device that owns it. */
    ghost predicate FfsHooksHeld(held: bool)
      reads `configs, configs
    {
      forall i | 0 <= i < |configs| :: forall f | f in configs[i].enabledFunctions :: KindOf(f) == D.Ffs ==> held
    }

    static lemma NoKinds(cs: seq<AndroidConfiguration>)
      ensures KindsOf(cs[..0]) == []
    {
    }

    static lemma KindsSnoc(cs: seq<AndroidConfiguration>, i: nat)
      requires i < |cs|
      ensures KindsOf(cs[..i + 1]) == KindsOf(cs[..i]) + KindsIn(cs[i].enabledFunctions)
    {
      assert cs[..i + 1][..i] == cs[..i];
    }

    /** One turn of the outer enable loop of `enable_store`. */
    method EnableConfig(i: nat, ghost g: D.Gadget, ghost held: bool)
      requires i < |configs| && FfsHooksHeld(held)
      requires InStep(D.EnableHolders(g, KindsOf(configs[..i])), held)
      modifies this`disableDepth, this`added, gadget, ffs`enabled, video
      ensures InStep(D.EnableHolders(g, KindsOf(configs[..i + 1])), held)
      ensures !held ==> ffs.enabled == old(ffs.enabled)
    {
      hide D.EnableHolders, KindsOf, InStep;
      KindsSnoc(configs, i);
      EnableHolders(configs[i].enabledFunctions, g, KindsOf(configs[..i]), held);
    }

    /** The outer enable loop of `enable_store`. */
    method EnableAll(ghost g: D.Gadget, ghost held: bool, ghost ks: seq<D.Kind>)
      requires InStep(g, held) && FfsHooksHeld(held) && ks == KindsOf(configs)
      modifies this`disableDepth, this`added, gadget, ffs`enabled, video
      ensures InStep(D.EnableHolders(g, ks), held)
      ensures !held ==> ffs.enabled == old(ffs.enabled)
    {
      hide D.EnableHolders, KindsOf, InStep, FfsHooksHeld;
      NoKinds(configs);
      var i := 0;
      D.NoHolders(g, true);
      while i < |configs|
        invariant 0 <= i <= |configs|
        invariant InStep(D.EnableHolders(g, KindsOf(configs[..i])), held)
        invariant !held ==> ffs.enabled == old(ffs.enabled)
      {
        EnableConfig(i, g, held);
        i := i + 1;
      }
      assert configs[..i] == configs;
    }

    /** One turn of the outer disable loop of `enable_store`. */
    method DisableConfig(i: nat, addConfig: nat -> int, ghost g: D.Gadget, ghost held: bool, ghost ok: bool)
      requires i < |configs| && FfsHooksHeld(held) && ok == AddsAll(addConfig, |configs|)
      requires InStep(D.DisableHolders(g, KindsOf(configs[..i]), ok), held)
      modifies this`disableDepth, this`added, this`warned, gadget, ffs`enabled, video
      ensures InStep(D.DisableHolders(g, KindsOf(configs[..i + 1]), ok), held)
      ensures !held ==> ffs.enabled == old(ffs.enabled)
    {
      hide D.DisableHolders, KindsOf, InStep, AddsAll;
      KindsSnoc(configs, i);
      DisableHolders(configs[i].enabledFunctions, addConfig, g, KindsOf(configs[..i]), held, ok);
    }

    /** The outer disable loop of `enable_store`. */
    method DisableAll(addConfig: nat -> int, ghost g: D.Gadget, ghost held: bool,
                      ghost ks: seq<D.Kind>, ghost ok: bool)
      requires InStep(g, held) && FfsHooksHeld(held)
      requires ks == KindsOf(configs) && ok == AddsAll(addConfig, |configs|)
      modifies this`disableDepth, this`added, this`warned, gadget, ffs`enabled, video
      ensures InStep(D.DisableHolders(g, ks, ok), held)
      ensures !held ==> ffs.enabled == old(ffs.enabled)
    {
      hide D.DisableHolders, KindsOf, InStep, FfsHooksHeld, AddsAll;
      NoKinds(configs);
      var i := 0;
      D.NoHolders(g, ok);
      while i < |configs|
        invariant 0 <= i <= |configs|
        invariant InStep(D.DisableHolders(g, KindsOf(configs[..i]), ok), held)
        invariant !held ==> ffs.enabled == old(ffs.enabled)
      {
        DisableConfig(i, addConfig, g, held, ok);
        i := i + 1;
      }
      assert configs[..i] == configs;
    }

    /** `held` tells whether this device owns FunctionFS, and nothing of it runs otherwise. */
    ghost predicate Prepared(held: bool)
      reads this, configs, ffs, video, gadget, ffsFunction
    {
      && held == (D.Ffs in KindsOf(configs)) && (held <==> ffsFunction.androidDev == this)
      && FfsHooksHeld(held) && InStep(View(), held)
    }

    lemma HooksHeld()
      requires Valid() && HooksValid()
      ensures Prepared(ffsFunction.androidDev == this)
    {
      FfsHeld();
      assert forall i | 0 <= i < |configs| :: forall f | f in configs[i].enabledFunctions :: Holds(f);
    }

    /** The enabling branch of `enable_store`. */
    method EnableWrite(addConfig: nat -> int, ghost held: bool)
      requires HooksValid() && Prepared(held) && !enabled
      modifies this`disableDepth, this`added, this`warned, this`enabled, gadget, ffs`enabled, video
      ensures enabled && HooksValid() && (!held ==> ffs.enabled == old(ffs.enabled))
      ensures View() == D.Step(old(View()), D.EnableWrite(AddsAll(addConfig, |configs|)))
    {
      hide D.EnableHolders, D.Up;
      ghost var g, ks, ok := View(), KindsOf(configs), AddsAll(addConfig, |configs|);
      D.EnableWriteFrame(g, ok);
      EnableAll(g, held, ks);
      var err := AndroidEnable(addConfig);
      enabled := true;
    }

    /** The disabling branch of `enable_store`. */
    method DisableWrite(addConfig: nat -> int, ghost held: bool)
      requires HooksValid() && Prepared(held) && enabled
      modifies this`disableDepth, this`added, this`warned, this`enabled, gadget, ffs`enabled, video
      ensures !enabled && HooksValid() && (!held ==> ffs.enabled == old(ffs.enabled))
      ensures View() == D.Step(old(View()), D.DisableWrite(AddsAll(addConfig, |configs|)))
    {
      hide D.DisableHolders, D.Up, D.Down;
      ghost var g, ks, ok := View(), KindsOf(configs), AddsAll(addConfig, |configs|);
      D.DisableWriteFrame(g, ok);
      AndroidDisable();
      DisableAll(addConfig, D.Disable(g), held, ks, ok);
      enabled := false;
    }

    /** `enable_store` on the parsed number, refining the two writes of the pull-up machine. */
    method EnableStore(value: int, size: nat, addConfig: nat -> int) returns (result: int)
      requires Valid() && HooksValid()
      modifies this`disableDepth, this`added, this`warned, this`enabled, gadget, ffs`enabled, video
      ensures Valid() && HooksValid() && (ffsFunction.androidDev != this ==> ffs.enabled == old(ffs.enabled))
      ensures result == if bound then size else -ENODEV
      ensures !bound ==> unchanged(this) && unchanged(gadget) && unchanged(ffs) && unchanged(video)
      ensures bound ==>
                var ok := AddsAll(addConfig, |configs|);
                View() == D.Step(old(View()), if value != 0 then D.EnableWrite(ok) else D.DisableWrite(ok))
    {
      hide D.EnableHolders, D.DisableHolders, D.Up, D.Down, KindsOf;
      if !bound {
        return -ENODEV;
      }
      ghost var held := ffsFunction.androidDev == this;
      HooksHeld();
      if value != 0 && !enabled {
        EnableWrite(addConfig, held);
      } else if value == 0 && enabled {
        DisableWrite(addConfig, held);
      }
      return size;
    }

    static lemma {:induction false} FfsCountIs(ks: seq<D.Kind>)
      ensures D.FfsCount(ks) == multiset(ks)[D.Ffs]
      decreases |ks|
    {
      if ks != [] {
        FfsCountIs(ks[..|ks| - 1]);
        assert ks == ks[..|ks| - 1] + [ks[|ks| - 1]];
      }
    }

    static lemma FfsCountSum(ks: seq<D.Kind>, more: seq<D.Kind>)
      ensures D.FfsCount(ks + more) == D.FfsCount(ks) + multiset(more)[D.Ffs]
    {
      FfsCountIs(ks);
      FfsCountIs(ks + more);
    }

    static lemma {:induction false} NamesCount(fs: seq<AndroidFunction>)
      ensures multiset(KindsIn(fs))[D.Ffs] == multiset(NamesOf(fs))[T.FFS]
      decreases |fs|
    {
      if fs != [] {
        var init, last := fs[..|fs| - 1], fs[|fs| - 1];
        NamesCount(init);
        assert KindsIn(fs) == KindsIn(init) + [KindOf(last)];
        assert NamesOf(fs) == NamesOf(init) + [last.name];
      }
    }

    static lemma {:induction false} CountFfsSnoc(lists: seq<seq<string>>, l: seq<string>)
      ensures T.CountFfs(lists + [l]) == T.CountFfs(lists) + multiset(l)[T.FFS]
      decreases |lists|
    {
      if lists == [] {
        assert (lists + [l])[1..] == [];
      } else {
        CountFfsSnoc(lists[1..], l);
        assert (lists + [l])[1..] == lists[1..] + [l];
      }
    }

    /** The pull-up machine sees FunctionFS as often as the stored lists name it. */
    static lemma {:induction false} StoredCount(cs: seq<AndroidConfiguration>, lists: seq<seq<string>>)
      requires StoresIn(cs, lists)
      ensures D.FfsCount(KindsOf(cs)) == T.CountFfs(lists)
      decreases |cs|
    {
      if cs != [] {
        hide D.FfsCount, T.CountFfs;
        var n := |cs| - 1;
        StoredCount(cs[..n], lists[..n]);
        FfsCountSum(KindsOf(cs[..n]), KindsIn(cs[n].enabledFunctions));
        NamesCount(cs[n].enabledFunctions);
        CountFfsSnoc(lists[..n], lists[n]);
        assert lists == lists[..n] + [lists[n]];
      }
    }

    /** A write is a step that the run theorem of the pull-up machine permits exactly when its text
        denotes FunctionFS at most once, as all do under an alias list that names FunctionFS itself. */
    lemma StoreIsPermitted(r: T.Rules, text: string)
      requires Stores(T.Parse(r, text))
      ensures D.Permitted(View(), D.StoreFunctions(KindsOf(configs)), 1) <==> T.CountFfs(T.Parse(r, text)) <= 1
      ensures T.IsAlias(r, T.FFS) ==> D.Permitted(View(), D.StoreFunctions(KindsOf(configs)), 1)
    {
      hide T.Parse, T.CountFfs, D.FfsCount;
      StoredCount(configs, T.Parse(r, text));
      T.FfsOnce(r, text);
    }

    /** After a write of any text there is a configuration for each of its parts, and each holds a driver as
        often as its part names it: one that is to be had, is no alias and no part of the `rndis` mapping. */
    lemma StoredExactly(r: T.Rules, text: string, i: nat, n: string)
      requires Stores(T.Parse(r, text)) && i < |configs|
      requires n in r.usable && !T.IsAlias(r, n) && n !in {T.FFS, T.RNDIS, T.RNDIS_QC}
      ensures |configs| == |T.Parts(text)|
      ensures multiset(NamesOf(configs[i].enabledFunctions))[n] == multiset(Split(T.Parts(text)[i], ','))[n]
    {
      hide T.IsAlias, T.Parts, Split;
      T.HeldExactly(r, text, i, n);
    }

    // ---- The text shown, the alias list, and the FunctionFS callbacks

    /** Appending the names of one configuration, each with a comma after it. */
    method ShowNames(start: string, fs: seq<AndroidFunction>) returns (buff: string)
      ensures buff == if fs == [] then start else start + Join(NamesOf(fs), ',') + ","
    {
      hide Join;
      buff := start;
      var j := 0;
      while j < |fs|
        invariant 0 <= j <= |fs|
        invariant buff == if j == 0 then start else start + Join(NamesOf(fs[..j]), ',') + ","
      {
        ghost var names := NamesOf(fs[..j]);
        JoinClosed(start, names, fs[j].name, ',');
        assert NamesOf(fs[..j + 1]) == names + [fs[j].name];
        buff := buff + fs[j].name + ",";
        j := j + 1;
      }
      assert fs[..j] == fs;
    }

    /** `functions_show`: a colon overwrites the comma that closes the previous text, the
        newline the last one. */
    method FunctionsShow(ghost lists: seq<seq<string>>) returns (buff: string)
      requires Stores(lists)
      ensures buff == T.Shown(lists)
      ensures if forall l | l in lists :: l == [] then buff == ""
              else buff == Join(T.Texts(T.NonEmpty(lists)), ':') + "\n"
    {
      hide T.Body, T.NonEmpty, T.Texts, Join;
      buff := "";
      T.NothingShown();
      var i := 0;
      while i < |configs|
        invariant 0 <= i <= |configs|
        invariant if T.NonEmpty(lists[..i]) == [] then buff == ""
                  else buff != "" && buff[..|buff| - 1] == T.Body(lists[..i])
      {
        T.BodySnoc(lists[..i], lists[i]);
        T.NonEmptySnoc(lists[..i], lists[i]);
        assert lists[..i] + [lists[i]] == lists[..i + 1];
        if buff != "" {
          buff := buff[|buff| - 1 := ':'];
        }
        buff := ShowNames(buff, configs[i].enabledFunctions);
        i := i + 1;
      }
      assert lists[..i] == lists;
      if buff != "" {
        buff := buff[|buff| - 1 := '\n'];
      }
      T.ShownIs(lists);
    }

    /** `ffs_aliases_store`. */
    method FfsAliasesStore(buf: string) returns (result: int)
      requires Valid()
      modifies this`ffsAliases
      ensures Valid()
      ensures result == if enabled then -EBUSY else |buf|
      ensures ffsAliases == if enabled then old(ffsAliases) else Strim(Strlcpy(buf, T.BUFFER_SIZE))
    {
      if enabled {
        return -EBUSY;
      }
      StrimShorter(Strlcpy(buf, T.BUFFER_SIZE));
      ffsAliases := Strlcpy(Strim(Strlcpy(buf, T.BUFFER_SIZE)), T.BUFFER_SIZE);
      return |buf|;
    }

    /** `functionfs_ready_callback` on the device that owns FunctionFS. */
    method Ready(addConfig: nat -> int)
      requires HooksValid() && ffsFunction.androidDev == this && D.Ffs in KindsOf(configs)
      modifies this`disableDepth, this`added, this`warned, gadget, ffs`isOpen
      ensures ffs.isOpen
      ensures View() == D.Step(old(View()), D.Ready(AddsAll(addConfig, |configs|)))
    {
      ffs.isOpen := true;
      if ffs.enabled {
        var _ := AndroidEnable(addConfig);
      }
    }

    /** `functionfs_closed_callback` on the device that owns FunctionFS. */
    method Closed()
      requires HooksValid() && ffsFunction.androidDev == this && D.Ffs in KindsOf(configs)
      modifies this`disableDepth, this`added, gadget, ffs`isOpen
      ensures !ffs.isOpen
      ensures View() == D.Step(old(View()), D.Closed)
    {
      if ffs.enabled {
        AndroidDisable();
      }
      ffs.isOpen := false;
    }
  }

  /** The device that owns FunctionFS, if any. */
  ghost function Owner(ffsFunction: AndroidFunction): set<AndroidDev>
    reads ffsFunction
  {
    if ffsFunction.androidDev == null then {} else {ffsFunction.androidDev}
  }

  ghost function OwnerGadget(ffsFunction: AndroidFunction): set<UsbGadget>
    reads ffsFunction
  {
    if ffsFunction.androidDev == null then {} else {ffsFunction.androidDev.gadget}
  }

  /** `functionfs_ready_callback`, refining the pull-up machine of the owning device. */
  method FunctionfsReady(ffsFunction: AndroidFunction, ffs: FunctionFs, addConfig: nat -> int) returns (result: int)
    requires var dev := ffsFunction.androidDev;
             dev != null ==> dev.Valid() && dev.HooksValid() && dev.ffs == ffs && dev.ffsFunction == ffsFunction
    modifies ffs`isOpen, Owner(ffsFunction)`disableDepth, Owner(ffsFunction)`added, Owner(ffsFunction)`warned
    modifies OwnerGadget(ffsFunction)
    ensures ffsFunction.androidDev == old(ffsFunction.androidDev)
    ensures var dev := ffsFunction.androidDev;
            if dev == null then result == -ENODEV && unchanged(ffs)
            else result == 0 && ffs.isOpen && dev.Valid() && dev.HooksValid()
                 && dev.View() == D.Step(old(dev.View()), D.Ready(dev.AddsAll(addConfig, |dev.configs|)))
  {
    hide D.Step;
    var dev := ffsFunction.androidDev;
    if dev == null {
      return -ENODEV;
    }
    dev.FfsHeld();
    dev.Ready(addConfig);
    return 0;
  }

  /** `functionfs_closed_callback`, likewise; without an owner it still marks FunctionFS closed. */
  method FunctionfsClosed(ffsFunction: AndroidFunction, ffs: FunctionFs)
    requires var dev := ffsFunction.androidDev;
             dev != null ==> dev.Valid() && dev.HooksValid() && dev.ffs == ffs && dev.ffsFunction == ffsFunction
    modifies ffs`isOpen, Owner(ffsFunction)`disableDepth, Owner(ffsFunction)`added
    modifies OwnerGadget(ffsFunction)
    ensures ffsFunction.androidDev == old(ffsFunction.androidDev)
    ensures var dev := ffsFunction.androidDev;
            && !ffs.isOpen
            && if dev == null then ffs.enabled == old(ffs.enabled)
               else dev.Valid() && dev.HooksValid() && dev.View() == D.Step(old(dev.View()), D.Closed)
  {
    hide D.Step;
    var dev := ffsFunction.androidDev;
    if dev == null {
      ffs.isOpen := false;
    } else {
      dev.FfsHeld();
      dev.Closed();
    }
  }

  // ---- Several devices

  /** Devices with what they share, and the configurations they can hold. */
  datatype World = World(devs: set<AndroidDev>, table: seq<AndroidFunction>, confs: set<AndroidConfiguration>,
                         ffs: FunctionFs, ffsFunction: AndroidFunction)
  {
    /** One function table, one FunctionFS, a controller for each, and configurations that no two
        devices share. */
    ghost predicate Valid()
      reads devs, table, confs, ffs
    {
      && (forall d | d in devs :: d.functions == table && (forall c | c in d.configs :: c in confs) && d.Valid())
      && ffsFunction in table && (forall f | f in table :: f.name == T.FFS <==> f == ffsFunction)
      && (ffs.enabled ==> ffsFunction.androidDev != null)
      && (forall d | d in devs :: d.ffs == ffs && d.ffsFunction == ffsFunction && d.HooksValid())
      && (forall d, e | d in devs && e in devs && d != e ::
            d.gadget != e.gadget && forall c | c in d.configs :: c !in e.configs)
    }
  }

  /** No function is held by two devices. */
  lemma HeldOnce(w: World, d: AndroidDev, e: AndroidDev, f: AndroidFunction)
    requires w.Valid() && d in w.devs && e in w.devs && d.Holds(f) && e.Holds(f)
    ensures d == e
  {
    assert f in d.functions && f.androidDev == d;
    assert f in e.functions && f.androidDev == e;
  }

  /** What a write to another device leaves alone keeps this one valid. */
  twostate lemma StaysValid(d: AndroidDev)
    requires old(d.Valid())
    requires d.configs == old(d.configs) && d.configsNum == old(d.configsNum) && d.ffsAliases == old(d.ffsAliases)
    requires forall c | c in d.configs :: c.enabledFunctions == old(c.enabledFunctions)
    requires forall f | f in d.functions :: f.androidDev == d <==> old(f.androidDev) == d
    ensures d.Valid()
  {
    forall f | f in d.functions ensures f.androidDev == d <==> d.Holds(f) {
      assert old(f.androidDev) == d <==> old(d.Holds(f));
      forall i | 0 <= i < |d.configs| ensures d.configs[i].enabledFunctions == old(d.configs[i].enabledFunctions) {
        assert d.configs[i] in d.configs;
      }
    }
    forall i | 0 <= i < |d.configs|
      ensures d.configs[i].enabledFunctions == old(d.configs[i].enabledFunctions)
    {
      assert d.configs[i] in d.configs;
    }
  }

  /** While FunctionFS is enabled its owner is, so that device's lists do not change. */
  lemma OwnerEnabled(d: AndroidDev)
    requires d.HooksValid()
    ensures var owner := d.ffsFunction.androidDev; d.ffs.enabled ==> owner != null && (owner == d ==> d.enabled)
  {
  }

  /** What an operation on another device has to leave alone for the hooks of this one. */
  twostate lemma HooksStay(d: AndroidDev)
    requires old(d.HooksValid()) && d.enabled == old(d.enabled)
    requires var owner := d.ffsFunction.androidDev;
             d.ffs.enabled ==> owner != null && (owner == d ==> old(d.ffs.enabled && d.ffsFunction.androidDev == d))
    ensures d.HooksValid()
  {
  }

  /** A world starts without devices, over a table that holds FunctionFS and no enabled one. */
  lemma NoDevices(w: World)
    requires w.devs == {} && w.ffsFunction in w.table && !w.ffs.enabled
    requires forall f | f in w.table :: f.name == T.FFS <==> f == w.ffsFunction
    ensures w.Valid()
  {
  }

  /** And grows by one device with each probe, which leaves the views of the others as they were. */
  method ProbeAmong(ghost w: World, functions: seq<AndroidFunction>, ffsFunction: AndroidFunction, ffs: FunctionFs,
                    video: VideoSwitch, gadget: UsbGadget)
      returns (dev: AndroidDev, ghost now: World)
    requires w.Valid() && w.table == functions && w.ffsFunction == ffsFunction && w.ffs == ffs
    requires forall d | d in w.devs :: d.gadget != gadget
    modifies gadget
    ensures fresh(dev) && dev.gadget == gadget && dev.configs == [] && now == w.(devs := w.devs + {dev}) && now.Valid()
    ensures dev.View() == D.START.(isOpen := ffs.isOpen, videoEnabled := video.enabled,
                                   pull := D.START.pull.(pulls := old(gadget.pulls) + [false]))
    ensures forall d | d in w.devs :: d.View() == old(d.View())
  {
    hide AndroidDev.View, AndroidDev.HooksValid;
    dev := new AndroidDev(functions, ffsFunction, ffs, video, gadget);
    now := w.(devs := w.devs + {dev});
  }

  /** A write to one device keeps ownership exact for all: what the others hold, and what
      they own, is untouched. */
  method StoreAmong(ghost w: World, dev: AndroidDev, buff: string, rndisTransports: string)
      returns (result: int, ghost now: World)
    requires w.Valid() && dev in w.devs
    modifies dev`configs, dev`configsNum, dev.configs`enabledFunctions, dev.functions`androidDev
    ensures now.Valid() && now == w.(confs := now.confs)
    ensures forall d | d in w.devs && d != dev ::
              d.configs == old(d.configs)
              && forall c | c in d.configs :: c.enabledFunctions == old(c.enabledFunctions)
    ensures forall d, f | d in w.devs && d != dev && f in w.table :: f.androidDev == d <==> old(f.androidDev) == d
  {
    hide D.Step, T.Parse, AndroidDev.View, AndroidDev.Stores, AndroidDev.HooksValid, AndroidDev.Holds, AndroidDev.Valid;
    OwnerEnabled(dev);
    result := dev.FunctionsStore(buff, rndisTransports);
    now := w.(confs := w.confs + set c | c in dev.configs);
    forall d | d in w.devs && d != dev ensures d.Valid() {
      StaysValid(d);
    }
    forall d | d in w.devs && d != dev ensures d.HooksValid() {
      HooksStay(d);
    }
  }

  /** How an operation on another device leaves this one: its counter, lists and pull-up as they were. */
  twostate predicate Beside(d: AndroidDev)
    reads d, d.configs, d.gadget
  {
    && unchanged(d) && unchanged(d.configs) && unchanged(d.gadget)
  }

  /** This device then looks the same, but for the switches that devices share. */
  twostate lemma ViewBeside(d: AndroidDev)
    requires Beside(d) && (D.Ffs in AndroidDev.KindsOf(d.configs) ==> d.ffs.enabled == old(d.ffs.enabled))
    ensures AndroidDev.KindsOf(d.configs) == old(AndroidDev.KindsOf(d.configs))
    ensures d.View() == old(d.View()).(isOpen := d.ffs.isOpen, videoEnabled := d.video.enabled)
    ensures d.ffs.isOpen == old(d.ffs.isOpen) ==> d.View() == old(d.View()).(videoEnabled := d.video.enabled)
    ensures d.video.enabled == old(d.video.enabled) ==> d.View() == old(d.View()).(isOpen := d.ffs.isOpen)
  {
  }

  /** A callback that FunctionFS delivers to another device. */
  twostate lemma ElsewhereBeside(d: AndroidDev)
    requires Beside(d) && D.Ffs !in AndroidDev.KindsOf(d.configs) && d.video.enabled == old(d.video.enabled)
    requires d.ffs.enabled == old(d.ffs.enabled)
    ensures d.View() == D.Step(old(d.View()), D.Elsewhere(d.ffs.isOpen))
  {
    hide AndroidDev.KindsOf;
    ViewBeside(d);
  }

  /** What operations on one device need of the others. */
  lemma WorldApart(w: World)
    requires w.Valid()
    ensures forall d | d in w.devs :: d.ffs == w.ffs && d.ffsFunction == w.ffsFunction && d.Valid() && d.HooksValid()
    ensures forall d | d in w.devs :: D.Ffs in AndroidDev.KindsOf(d.configs) <==> w.ffsFunction.androidDev == d
    ensures forall d, e | d in w.devs && e in w.devs && d != e :: d.gadget != e.gadget
  {
    forall d | d in w.devs ensures D.Ffs in AndroidDev.KindsOf(d.configs) <==> w.ffsFunction.androidDev == d {
      d.FfsHeld();
    }
  }

  /** What a write to `enable` of a device leaves of the others. */
  twostate predicate Still(others: World)
    reads others.devs, others.table, others.confs, others.ffsFunction, others.ffs
    reads set d | d in others.devs :: d.gadget
  {
    && unchanged(others.confs) && unchanged(others.table) && unchanged(others.ffsFunction)
    && unchanged(others.devs) && unchanged(set d | d in others.devs :: d.gadget)
    && unchanged(others.ffs`isOpen)
  }

  twostate lemma OthersStay(others: World)
    requires Still(others) && old(others.Valid())
    requires var owner := others.ffsFunction.androidDev;
             && (others.ffs.enabled ==> owner != null)
             && (owner in others.devs ==> others.ffs.enabled == old(others.ffs.enabled))
    ensures others.Valid()
    ensures forall d | d in others.devs :: d.View() == old(d.View()).(videoEnabled := d.video.enabled)
  {
    WorldApart(others);
    hide AndroidDev.Valid, AndroidDev.HooksValid, AndroidDev.View, AndroidDev.KindsOf;
    forall d | d in others.devs ensures d.Valid() {
      StaysValid(d);
    }
    forall d | d in others.devs ensures d.HooksValid() {
      HooksStay(d);
    }
    forall d | d in others.devs ensures d.View() == old(d.View()).(videoEnabled := d.video.enabled) {
      ViewBeside(d);
    }
  }

  /** The world without one of its devices. */
  function Others(w: World, dev: AndroidDev): World { w.(devs := w.devs - {dev}) }

  /** One device beside the others: it shares their table and FunctionFS, and no controller and no
      configuration. */
  ghost predicate Linked(w: World, dev: AndroidDev)
    reads dev`configs, w.devs`configs
  {
    && dev.functions == w.table && dev.ffs == w.ffs && dev.ffsFunction == w.ffsFunction && w.ffsFunction in w.table
    && (forall c | c in dev.configs :: c in w.confs)
    && (forall d | d in w.devs && d != dev :: dev.gadget != d.gadget && forall c | c in dev.configs :: c !in d.configs)
  }

  lemma WorldJoins(w: World, dev: AndroidDev)
    requires dev in w.devs
    ensures w.Valid() <==> Others(w, dev).Valid() && Linked(w, dev) && dev.Valid() && dev.HooksValid()
  {
    hide AndroidDev.Valid, AndroidDev.HooksValid;
    if Others(w, dev).Valid() && Linked(w, dev) {
      assert forall d | d in w.devs :: d == dev || d in Others(w, dev).devs;
    }
  }

  /** `EnableStore` moves its device and leaves the others alone. */
  method EnableOne(ghost w: World, dev: AndroidDev, value: int, size: nat, addConfig: nat -> int)
      returns (result: int)
    requires dev in w.devs && Linked(w, dev) && dev.Valid() && dev.HooksValid()
    modifies dev`disableDepth, dev`added, dev`warned, dev`enabled, dev.gadget, dev.ffs`enabled, dev.video
    ensures dev.Valid() && dev.HooksValid() && Still(Others(w, dev))
    ensures var owner := w.ffsFunction.androidDev;
            (w.ffs.enabled ==> owner != null) && (owner != dev ==> w.ffs.enabled == old(w.ffs.enabled))
    ensures dev.bound ==>
              var ok := dev.AddsAll(addConfig, |dev.configs|);
              dev.View() == D.Step(old(dev.View()), if value != 0 then D.EnableWrite(ok) else D.DisableWrite(ok))
  {
    assert dev !in Others(w, dev).devs && dev.gadget !in (set d | d in Others(w, dev).devs :: d.gadget);
    assert Others(w, dev).ffs == w.ffs;
    hide D.Step, AndroidDev.View, AndroidDev.HooksValid, AndroidDev.Valid, AndroidDev.AddsAll, Others;
    result := dev.EnableStore(value, size, addConfig);
    OwnerEnabled(dev);
  }

  /** A write to `enable` of one device: the others' views differ at most in the video switch. */
  method EnableAmong(ghost w: World, dev: AndroidDev, value: int, size: nat, addConfig: nat -> int)
      returns (result: int)
    requires w.Valid() && dev in w.devs
    modifies dev`disableDepth, dev`added, dev`warned, dev`enabled, dev.gadget, dev.ffs`enabled, dev.video
    ensures w.Valid()
    ensures dev.bound ==>
              var ok := dev.AddsAll(addConfig, |dev.configs|);
              dev.View() == D.Step(old(dev.View()), if value != 0 then D.EnableWrite(ok) else D.DisableWrite(ok))
    ensures forall d | d in w.devs && d != dev ::
              d.View() == old(d.View()).(videoEnabled := d.video.enabled)
  {
    WorldJoins(w, dev);
    assert dev.ffs == w.ffs;
    hide D.Step, AndroidDev.View, World.Valid, Linked, Still;
    result := EnableOne(w, dev, value, size, addConfig);
    OthersStay(Others(w, dev));
    WorldJoins(w, dev);
  }

  /** What a callback of FunctionFS leaves alone. */
  twostate lemma WorldKept(w: World)
    requires old(w.Valid()) && w.ffs.enabled == old(w.ffs.enabled)
    requires forall f | f in w.table :: unchanged(f)
    requires forall c | c in w.confs :: unchanged(c)
    requires unchanged(w.devs`configs) && unchanged(w.devs - Owner(w.ffsFunction)) && unchanged(w.ffsFunction)
    requires forall d | d in Owner(w.ffsFunction) :: d.Valid() && d.HooksValid()
    ensures w.Valid()
  {
    hide AndroidDev.HooksValid, AndroidDev.Valid;
    forall d | d in w.devs - Owner(w.ffsFunction) ensures d.Valid() {
      StaysValid(d);
    }
    forall d | d in w.devs - Owner(w.ffsFunction) ensures d.HooksValid() {
      HooksKept(d);
    }
  }

  twostate lemma HooksKept(d: AndroidDev)
    requires old(d.HooksValid()) && d.enabled == old(d.enabled) && d.ffs.enabled == old(d.ffs.enabled)
    requires d.ffsFunction.androidDev == old(d.ffsFunction.androidDev)
    ensures d.HooksValid()
  {
  }

  /** What a callback leaves of the devices that do not own FunctionFS, and of what all hold. */
  twostate predicate Apart(w: World)
    reads w.devs, w.table, w.confs, w.ffs, w.ffsFunction
    reads set d | d in w.devs :: d.gadget
    reads set d | d in w.devs :: d.video
    reads set d, c | d in w.devs && c in d.configs :: c
  {
    && unchanged(w.confs) && unchanged(w.table) && unchanged(w.ffsFunction) && unchanged(w.ffs`enabled)
    && unchanged(w.devs`configs) && unchanged(w.devs - Owner(w.ffsFunction))
    && unchanged(set d | d in w.devs - Owner(w.ffsFunction) :: d.gadget)
    && unchanged(set d | d in w.devs :: d.video)
  }

  twostate lemma OthersElsewhere(w: World)
    requires Apart(w) && old(w.Valid()) && forall d | d in Owner(w.ffsFunction) :: d.Valid() && d.HooksValid()
    ensures w.Valid() && w.ffsFunction.androidDev == old(w.ffsFunction.androidDev)
    ensures forall d | d in w.devs && d != w.ffsFunction.androidDev ::
              d.View() == D.Step(old(d.View()), D.Elsewhere(w.ffs.isOpen))
  {
    WorldKept(w);
    WorldApart(w);
    hide D.Step, AndroidDev.View, AndroidDev.KindsOf, Beside, World.Valid;
    forall d | d in w.devs && d != w.ffsFunction.androidDev
      ensures d.View() == D.Step(old(d.View()), D.Elsewhere(w.ffs.isOpen))
    {
      ElsewhereBeside(d);
    }
  }

  /** The devices as a callback of FunctionFS finds them. */
  ghost predicate Called(w: World, ffsFunction: AndroidFunction, ffs: FunctionFs)
    reads w.devs, w.table, w.confs, w.ffs, ffsFunction
  {
    w.Valid() && w.ffs == ffs && w.ffsFunction == ffsFunction && Owner(ffsFunction) <= w.devs
  }

  /** What a callback needs of the owner. */
  lemma OwnerApart(w: World)
    requires w.Valid() && Owner(w.ffsFunction) <= w.devs
    ensures var dev := w.ffsFunction.androidDev;
            dev != null ==> dev.ffs == w.ffs && dev.ffsFunction == w.ffsFunction && dev.Valid() && dev.HooksValid()
    ensures (set d | d in w.devs - Owner(w.ffsFunction) :: d.gadget) !! OwnerGadget(w.ffsFunction)
  {
  }

  /** `FunctionfsReady` moves its owner and leaves the rest alone. */
  method ReadyOwner(ghost w: World, ffsFunction: AndroidFunction, ffs: FunctionFs, addConfig: nat -> int)
      returns (result: int)
    requires Called(w, ffsFunction, ffs)
    modifies ffs`isOpen, Owner(ffsFunction)`disableDepth, Owner(ffsFunction)`added, Owner(ffsFunction)`warned
    modifies OwnerGadget(ffsFunction)
    ensures Apart(w)
    ensures var dev := ffsFunction.androidDev;
            dev != null ==>
              dev.Valid() && dev.HooksValid()
              && dev.View() == D.Step(old(dev.View()), D.Ready(dev.AddsAll(addConfig, |dev.configs|)))
  {
    OwnerApart(w);
    hide D.Step, AndroidDev.View, AndroidDev.KindsOf, AndroidDev.Valid, AndroidDev.HooksValid, World.Valid;
    result := FunctionfsReady(ffsFunction, ffs, addConfig);
  }

  method ClosedOwner(ghost w: World, ffsFunction: AndroidFunction, ffs: FunctionFs)
    requires Called(w, ffsFunction, ffs)
    modifies ffs`isOpen, Owner(ffsFunction)`disableDepth, Owner(ffsFunction)`added
    modifies OwnerGadget(ffsFunction)
    ensures Apart(w) && !ffs.isOpen
    ensures var dev := ffsFunction.androidDev;
            dev != null ==>
              dev.Valid() && dev.HooksValid() && dev.View() == D.Step(old(dev.View()), D.Closed)
  {
    OwnerApart(w);
    hide D.Step, AndroidDev.View, AndroidDev.KindsOf, AndroidDev.Valid, AndroidDev.HooksValid, World.Valid;
    FunctionfsClosed(ffsFunction, ffs);
  }

  /** FunctionFS becomes ready: a step of the owner, and of the others one that was delivered elsewhere. */
  method ReadyAmong(ghost w: World, ffsFunction: AndroidFunction, ffs: FunctionFs, addConfig: nat -> int)
      returns (result: int)
    requires Called(w, ffsFunction, ffs)
    modifies ffs`isOpen, Owner(ffsFunction)`disableDepth, Owner(ffsFunction)`added, Owner(ffsFunction)`warned
    modifies OwnerGadget(ffsFunction)
    ensures w.Valid() && ffsFunction.androidDev == old(ffsFunction.androidDev)
    ensures forall d | d in w.devs && d == ffsFunction.androidDev ::
              d.View() == D.Step(old(d.View()), D.Ready(d.AddsAll(addConfig, |d.configs|)))
    ensures forall d | d in w.devs && d != ffsFunction.androidDev ::
              d.View() == D.Step(old(d.View()), D.Elsewhere(ffs.isOpen))
  {
    WorldApart(w);
    hide D.Step, AndroidDev.View, World.Valid, Apart;
    result := ReadyOwner(w, ffsFunction, ffs, addConfig);
    OthersElsewhere(w);
  }

  method ClosedAmong(ghost w: World, ffsFunction: AndroidFunction, ffs: FunctionFs)
    requires Called(w, ffsFunction, ffs)
    modifies ffs`isOpen, Owner(ffsFunction)`disableDepth, Owner(ffsFunction)`added
    modifies OwnerGadget(ffsFunction)
    ensures w.Valid() && ffsFunction.androidDev == old(ffsFunction.androidDev)
    ensures forall d | d in w.devs && d == ffsFunction.androidDev :: d.View() == D.Step(old(d.View()), D.Closed)
    ensures forall d | d in w.devs && d != ffsFunction.androidDev ::
              d.View() == D.Step(old(d.View()), D.Elsewhere(false))
  {
    WorldApart(w);
    hide D.Step, AndroidDev.View, World.Valid, Apart;
    ClosedOwner(w, ffsFunction, ffs);
    OthersElsewhere(w);
  }
}
