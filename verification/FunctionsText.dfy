/** The text form of a gadget's configuration lists: what a write to the `functions`
    attribute means, what a read of it shows, and when the two undo each other. */
module FunctionsText {
  import opened Basics
  import opened CStrings

  const FFS := "ffs"
  const RNDIS := "rndis"
  const RNDIS_QC := "rndis_qc"
  const BUFFER_SIZE := 256

  /** What a write depends on beside its text: the FunctionFS alias list, whether the
      RNDIS transport selects the QC driver, and the names of the functions in the table
      that are free or already belong to this device. */
  datatype Rules = Rules(aliases: string, rndisQc: bool, usable: set<string>)

  predicate IsAlias(r: Rules, name: string) {
    name in Split(r.aliases, ',')
  }

  /** Names kept, and whether FunctionFS has been added through an alias so far. */
  datatype Taken = Taken(holders: seq<string>, ffs: bool)

  function TakeName(r: Rules, name: string, ffs: bool): Taken {
    if IsAlias(r, name) then
      if ffs || FFS !in r.usable then Taken([], ffs) else Taken([FFS], true)
    else
      var driver := if name == RNDIS && r.rndisQc then RNDIS_QC else name;
      Taken(if driver in r.usable then [driver] else [], ffs)
  }

  function TakeNames(r: Rules, names: seq<string>, ffs: bool): Taken {
    if names == [] then Taken([], ffs) else
      var first := TakeName(r, names[0], ffs);
      var rest := TakeNames(r, names[1..], first.ffs);
      Taken(first.holders + rest.holders, rest.ffs)
  }

  function TakeConfigs(r: Rules, parts: seq<string>, ffs: bool): (lists: seq<seq<string>>)
    ensures |lists| == |parts|
  {
    if parts == [] then [] else
      var first := TakeNames(r, Split(parts[0], ','), ffs);
      [first.holders] + TakeConfigs(r, parts[1..], first.ffs)
  }

  /** The texts of a write, one for each configuration. */
  function Parts(text: string): seq<string> { Split(Strim(Strlcpy(text, BUFFER_SIZE)), ':') }

  /** The configuration lists that a write of `text` denotes. */
  function Parse(r: Rules, text: string): (lists: seq<seq<string>>)
    ensures |lists| >= 1
  {
    TakeConfigs(r, Parts(text), false)
  }

  function NonEmpty(lists: seq<seq<string>>): (r: seq<seq<string>>)
    ensures |r| <= |lists|
    ensures forall l | l in r :: l != [] && l in lists
    ensures |r| == |lists| <==> forall l | l in lists :: l != []
    ensures |r| == |lists| ==> r == lists
  {
    if lists == [] then []
    else
      var rest := NonEmpty(lists[1..]);
      assert lists == [lists[0]] + lists[1..];
      assert forall l :: l in lists <==> l == lists[0] || l in lists[1..];
      assert lists[0] in lists;
      if lists[0] == [] then rest else [lists[0]] + rest
  }

  function Texts(lists: seq<seq<string>>): (r: seq<string>)
    ensures |r| == |lists|
    ensures forall i | 0 <= i < |lists| :: r[i] == Join(lists[i], ',')
  {
    seq(|lists|, i requires 0 <= i < |lists| => Join(lists[i], ','))
  }

  function Body(lists: seq<seq<string>>): string {
    Join(Texts(NonEmpty(lists)), ':')
  }

  /** What a read of the attribute shows. */
  function Shown(lists: seq<seq<string>>): string {
    if NonEmpty(lists) == [] then "" else Body(lists) + "\n"
  }

  lemma {:induction false} ShownIs(lists: seq<seq<string>>)
    ensures NonEmpty(lists) == [] <==> forall l | l in lists :: l == []
    ensures Shown(lists) == if NonEmpty(lists) == [] then "" else Join(Texts(NonEmpty(lists)), ':') + "\n"
    decreases |lists|
  {
    hide Join;
    if lists != [] {
      assert lists == [lists[0]] + lists[1..];
      ShownIs(lists[1..]);
      assert lists[0] in lists && forall l | l in lists[1..] :: l in lists;
    }
  }

  lemma NothingShown()
    ensures NonEmpty([]) == []
  {
  }

  lemma {:induction false} NonEmptySnoc(lists: seq<seq<string>>, names: seq<string>)
    ensures NonEmpty(lists + [names]) == NonEmpty(lists) + if names == [] then [] else [names]
    decreases |lists|
  {
    if lists == [] {
      assert (lists + [names])[1..] == [];
    } else {
      NonEmptySnoc(lists[1..], names);
      assert (lists + [names])[1..] == lists[1..] + [names];
    }
  }

  /** One more configuration adds its names after a colon, and nothing when it is empty. */
  lemma BodySnoc(lists: seq<seq<string>>, names: seq<string>)
    ensures Body(lists + [names]) ==
            if names == [] then Body(lists)
            else if NonEmpty(lists) == [] then Join(names, ',')
            else Body(lists) + ":" + Join(names, ',')
  {
    NonEmptySnoc(lists, names);
    var kept := NonEmpty(lists);
    if names == [] {
      assert kept + [] == kept;
    } else {
      assert Texts(kept + [names]) == Texts(kept) + [Join(names, ',')];
      JoinSnoc(Texts(kept), Join(names, ','), ':');
    }
  }

  /** A driver name that the text form can carry. */
  predicate Plain(name: string) {
    Trimmed(name) && Free(name, ',') && Free(name, ':')
  }

  predicate PlainTable(r: Rules) {
    forall n | n in r.usable :: Plain(n)
  }

  /** No driver other than FunctionFS goes by a FunctionFS alias. */
  predicate Unshadowed(r: Rules, names: seq<string>) {
    forall n | n in names :: IsAlias(r, n) ==> n == FFS
  }

  /** The lists a read and a write bring back. */
  predicate Restorable(r: Rules, lists: seq<seq<string>>) {
    if lists == [[]] then !(IsAlias(r, "") && FFS in r.usable)
    else forall l | l in lists :: l != [] && Unshadowed(r, l)
  }

  // ---- One strsep step of the two loops

  lemma TakeNamesStep(r: Rules, s: string, ffs: bool, before: seq<string>)
    ensures var (name, rest) := Strsep(s, ',');
            var first := TakeName(r, name, ffs);
            var later := TakeNames(r, SplitRest(rest, ','), first.ffs);
            var all := TakeNames(r, Split(s, ','), ffs);
            before + all.holders == before + first.holders + later.holders && all.ffs == later.ffs
  {
    var (name, rest) := Strsep(s, ',');
    assert Split(s, ',')[1..] == SplitRest(rest, ',');
    var first := TakeName(r, name, ffs);
    var later := TakeNames(r, SplitRest(rest, ','), first.ffs);
    assert before + (first.holders + later.holders) == before + first.holders + later.holders;
  }

  lemma TakeConfigsStep(r: Rules, s: string, ffs: bool, before: seq<seq<string>>)
    ensures var (part, rest) := Strsep(s, ':');
            var first := TakeNames(r, Split(part, ','), ffs);
            before + TakeConfigs(r, Split(s, ':'), ffs)
            == before + [first.holders] + TakeConfigs(r, SplitRest(rest, ':'), first.ffs)
  {
    var (part, rest) := Strsep(s, ':');
    TakeConfigsCons(r, part, SplitRest(rest, ':'), ffs, before);
  }

  lemma NoConfigs(r: Rules, ffs: bool)
    ensures TakeConfigs(r, [], ffs) == []
  {
  }

  lemma TakeConfigsCons(r: Rules, part: string, parts: seq<string>, ffs: bool, before: seq<seq<string>>)
    ensures var first := TakeNames(r, Split(part, ','), ffs);
            before + TakeConfigs(r, [part] + parts, ffs)
            == before + [first.holders] + TakeConfigs(r, parts, first.ffs)
  {
    assert ([part] + parts)[1..] == parts;
  }

  // ---- What taking names guarantees

  lemma {:induction false} TakenUsable(r: Rules, names: seq<string>, ffs: bool)
    ensures forall n | n in TakeNames(r, names, ffs).holders :: n in r.usable
    ensures !(r.rndisQc && RNDIS in TakeNames(r, names, ffs).holders)
    ensures forall n | n in TakeNames(r, names, ffs).holders ::
              IsAlias(r, n) && n != FFS ==> n == RNDIS_QC && r.rndisQc
    decreases |names|
  {
    if names != [] {
      TakenUsable(r, names[1..], TakeName(r, names[0], ffs).ffs);
    }
  }

  /** A second reading of kept names keeps them all, whatever flag it starts from, as long
      as the flags agree where FunctionFS is its own alias. */
  lemma {:induction false} TakeAgain(r: Rules, names: seq<string>, ffs: bool, again: bool)
    requires IsAlias(r, FFS) ==> again == ffs
    requires Unshadowed(r, TakeNames(r, names, ffs).holders)
    ensures var t := TakeNames(r, names, ffs);
            var u := TakeNames(r, t.holders, again);
            u.holders == t.holders && (IsAlias(r, FFS) ==> u.ffs == t.ffs)
    decreases |names|
  {
    hide IsAlias;
    if names != [] {
      var first := TakeName(r, names[0], ffs);
      var rest := TakeNames(r, names[1..], first.ffs);
      assert TakeNames(r, names, ffs).holders == first.holders + rest.holders;
      assert Unshadowed(r, rest.holders);
      if first.holders == [] {
        TakeAgain(r, names[1..], first.ffs, again);
        assert first.holders + rest.holders == rest.holders;
      } else {
        var n := first.holders[0];
        assert n in first.holders + rest.holders;
        var next := TakeName(r, n, again);
        assert next.holders == [n];
        TakeAgain(r, names[1..], first.ffs, next.ffs);
        assert (first.holders + rest.holders)[1..] == rest.holders;
      }
    }
  }

  lemma TextsCons(lists: seq<seq<string>>)
    requires lists != []
    ensures Texts(lists) == [Join(lists[0], ',')] + Texts(lists[1..])
  {
    hide Join;
  }

  lemma TakeConfigsHead(r: Rules, part: string, parts: seq<string>, ffs: bool)
    ensures var first := TakeNames(r, Split(part, ','), ffs);
            TakeConfigs(r, [part] + parts, ffs) == [first.holders] + TakeConfigs(r, parts, first.ffs)
  {
    hide TakeNames, Split;
    assert ([part] + parts)[1..] == parts;
  }

  lemma PlainFree(r: Rules, names: seq<string>)
    requires PlainTable(r) && forall n | n in names :: n in r.usable
    ensures forall n | n in names :: Free(n, ',')
  {
    forall n | n in names ensures Free(n, ',') { assert Plain(n); }
  }

  lemma {:induction false} TakeConfigsAgain(r: Rules, parts: seq<string>, ffs: bool, again: bool)
    requires PlainTable(r)
    requires IsAlias(r, FFS) ==> again == ffs
    requires forall l | l in TakeConfigs(r, parts, ffs) :: l != [] && Unshadowed(r, l)
    ensures var lists := TakeConfigs(r, parts, ffs);
            TakeConfigs(r, Texts(lists), again) == lists
    decreases |parts|
  {
    hide TakeNames, Split, Join, IsAlias, Unshadowed, PlainTable;
    if parts != [] {
      var names := Split(parts[0], ',');
      var first := TakeNames(r, names, ffs);
      var rest := TakeConfigs(r, parts[1..], first.ffs);
      var lists := [first.holders] + rest;
      assert lists == TakeConfigs(r, parts, ffs);
      hide TakeConfigs;
      TakenUsable(r, names, ffs);
      assert first.holders in lists;
      PlainFree(r, first.holders);
      SplitJoin(first.holders, ',');
      TakeAgain(r, names, ffs, again);
      assert forall l | l in rest :: l in lists;
      TakeConfigsAgain(r, parts[1..], first.ffs, TakeNames(r, first.holders, again).ffs);
      TextsCons(lists);
      TakeConfigsHead(r, Join(first.holders, ','), Texts(rest), again);
    }
  }

  lemma {:induction false} TakenConfigsUsable(r: Rules, parts: seq<string>, ffs: bool)
    ensures forall l | l in TakeConfigs(r, parts, ffs) ::
              forall n | n in l ::
                n in r.usable && (r.rndisQc ==> n != RNDIS)
                && (IsAlias(r, n) && n != FFS ==> n == RNDIS_QC && r.rndisQc)
    decreases |parts|
  {
    if parts != [] {
      var first := TakeNames(r, Split(parts[0], ','), ffs);
      TakenUsable(r, Split(parts[0], ','), ffs);
      TakenConfigsUsable(r, parts[1..], first.ffs);
    }
  }

  /** How often the lists hold FunctionFS. */
  function CountFfs(lists: seq<seq<string>>): nat {
    if lists == [] then 0 else multiset(lists[0])[FFS] + CountFfs(lists[1..])
  }

  /** How often tokens are the FunctionFS name itself. */
  function OwnNames(parts: seq<string>): nat {
    if parts == [] then 0 else multiset(Split(parts[0], ','))[FFS] + OwnNames(parts[1..])
  }

  ghost predicate NamesAlias(r: Rules, names: seq<string>) {
    exists n | n in names :: IsAlias(r, n)
  }

  /** Some token is a FunctionFS alias. */
  ghost predicate HitsAlias(r: Rules, parts: seq<string>) {
    exists p | p in parts :: NamesAlias(r, Split(p, ','))
  }

  lemma TakenOneFfs(r: Rules, name: string, ffs: bool)
    ensures var t := TakeName(r, name, ffs);
            && t.ffs == (ffs || (FFS in r.usable && IsAlias(r, name)))
            && multiset(t.holders)[FFS] == Bit(t.ffs && !ffs) + Bit(FFS in r.usable && !IsAlias(r, FFS) && name == FFS)
  {
    assert |RNDIS_QC| != |FFS| && |RNDIS| != |FFS|;
    hide IsAlias;
  }

  lemma {:induction false} TakenFfs(r: Rules, names: seq<string>, ffs: bool)
    ensures var t := TakeNames(r, names, ffs);
            && t.ffs == (ffs || (FFS in r.usable && NamesAlias(r, names)))
            && multiset(t.holders)[FFS]
               == Bit(t.ffs && !ffs) + if FFS in r.usable && !IsAlias(r, FFS) then multiset(names)[FFS] else 0
    decreases |names|
  {
    hide IsAlias, TakeName;
    if names != [] {
      var first := TakeName(r, names[0], ffs);
      TakenOneFfs(r, names[0], ffs);
      TakenFfs(r, names[1..], first.ffs);
      assert names == [names[0]] + names[1..];
      assert NamesAlias(r, names) <==> IsAlias(r, names[0]) || NamesAlias(r, names[1..]);
    }
  }

  lemma HitsCons(r: Rules, parts: seq<string>)
    requires parts != []
    ensures HitsAlias(r, parts) <==> NamesAlias(r, Split(parts[0], ',')) || HitsAlias(r, parts[1..])
  {
    hide NamesAlias, Split;
    assert parts == [parts[0]] + parts[1..];
  }

  lemma {:induction false} TakenConfigsFfs(r: Rules, parts: seq<string>, ffs: bool)
    ensures CountFfs(TakeConfigs(r, parts, ffs))
         == Bit(!ffs && FFS in r.usable && HitsAlias(r, parts))
            + if FFS in r.usable && !IsAlias(r, FFS) then OwnNames(parts) else 0
    decreases |parts|
  {
    hide IsAlias, TakeNames, NamesAlias, HitsAlias, Split;
    if parts != [] {
      var first := TakeNames(r, Split(parts[0], ','), ffs);
      TakenFfs(r, Split(parts[0], ','), ffs);
      TakenConfigsFfs(r, parts[1..], first.ffs);
      assert TakeConfigs(r, parts, ffs)[1..] == TakeConfigs(r, parts[1..], first.ffs);
      HitsCons(r, parts);
    } else {
      assert !HitsAlias(r, parts) by { NoParts(r); }
    }
  }

  lemma NoParts(r: Rules)
    ensures !HitsAlias(r, [])
  {
  }

  /** How often one write stores FunctionFS, over all its configurations: once if any token is an
      alias, and once more for each token that is its name, unless that is itself an alias. */
  lemma FfsExact(r: Rules, text: string)
    ensures CountFfs(Parse(r, text)) ==
            if FFS !in r.usable then 0
            else Bit(HitsAlias(r, Parts(text))) + if IsAlias(r, FFS) then 0 else OwnNames(Parts(text))
  {
    TakenConfigsFfs(r, Parts(text), false);
  }

  /** Under every alias list the aliases alone add it at most once. */
  lemma FfsOnce(r: Rules, text: string)
    ensures CountFfs(Parse(r, text)) <= 1 + OwnNames(Parts(text))
    ensures IsAlias(r, FFS) ==> CountFfs(Parse(r, text)) <= 1
  {
    FfsExact(r, text);
  }

  /** A text of plain names and no colon stands for one list. */
  lemma OneList(r: Rules, names: seq<string>)
    requires names != [] && forall n | n in names :: Plain(n)
    requires |Join(names, ',')| < BUFFER_SIZE
    ensures Parse(r, Join(names, ',')) == [TakeNames(r, names, false).holders]
  {
    var text := Join(names, ',');
    SplitJoin(names, ',');
    JoinFree(names, ',', ':');
    JoinTrimmed(names, ',');
    StrimLine(text);
    SplitFree(text, ':');
    TakeConfigsCons(r, text, [], false, []);
  }

  lemma JoinTwo(name: string)
    ensures Join([name, name], ',') == name + "," + name
  {
    assert [name, name][1..] == [name];
  }

  lemma CountOne(holders: seq<string>)
    ensures CountFfs([holders]) == multiset(holders)[FFS]
  {
    assert [holders][1..] == [];
  }

  lemma FfsPlain(name: string)
    requires name == FFS
    ensures Plain(name) && |name| == 3 && name + "," + name == "ffs,ffs"
  {
  }

  /** Where its own name is no alias, as under the empty alias list a device starts with, a text
      that names it twice stores it twice. */
  lemma FfsTwice(r: Rules)
    requires FFS in r.usable && !IsAlias(r, FFS)
    ensures CountFfs(Parse(r, "ffs,ffs")) == 2
  {
    hide Parse, TakeNames, Join, Plain, IsAlias, CountFfs;
    var name := FFS;
    var names := [name, name];
    FfsPlain(name);
    JoinTwo(name);
    OneList(r, names);
    TakenFfs(r, names, false);
    CountOne(TakeNames(r, names, false).holders);
    assert multiset(names)[FFS] == 2;
    assert !NamesAlias(r, names);
  }

  /** Every write stores FunctionFS at most once exactly when its own name is an alias, or it is not
      to be had. */
  lemma FfsOnceExactly(r: Rules)
    ensures (forall text :: CountFfs(Parse(r, text)) <= 1) <==> IsAlias(r, FFS) || FFS !in r.usable
  {
    hide Parse, IsAlias, CountFfs;
    forall text | IsAlias(r, FFS) || FFS !in r.usable ensures CountFfs(Parse(r, text)) <= 1 {
      FfsExact(r, text);
    }
    if !IsAlias(r, FFS) && FFS in r.usable { FfsTwice(r); }
  }

  // ---- Every driver named is stored

  /** Drivers that a text names as they are: to be had, no alias, and not turned into another. */
  ghost predicate Storable(r: Rules, lists: seq<seq<string>>) {
    lists != [] && forall l | l in lists ::
      l != [] && forall n | n in l :: Plain(n) && n in r.usable && !IsAlias(r, n) && (n == RNDIS ==> !r.rndisQc)
  }

  lemma {:induction false} TakesAll(r: Rules, names: seq<string>, ffs: bool)
    requires forall n | n in names :: n in r.usable && !IsAlias(r, n) && (n == RNDIS ==> !r.rndisQc)
    ensures TakeNames(r, names, ffs) == Taken(names, ffs)
    decreases |names|
  {
    hide IsAlias;
    if names != [] {
      assert names[0] in names;
      TakesAll(r, names[1..], ffs);
      assert names == [names[0]] + names[1..];
    }
  }

  lemma {:induction false} TakesAllConfigs(r: Rules, lists: seq<seq<string>>, ffs: bool)
    requires lists == [] || Storable(r, lists)
    requires forall l | l in lists :: Split(Join(l, ','), ',') == l
    ensures TakeConfigs(r, Texts(lists), ffs) == lists
    decreases |lists|
  {
    hide IsAlias, TakeNames, Split, Join, Plain;
    if lists != [] {
      var first, rest := lists[0], lists[1..];
      assert first in lists && lists == [first] + rest;
      TakesAll(r, first, ffs);
      assert forall l | l in rest :: l in lists;
      TakesAllConfigs(r, rest, ffs);
      hide TakeConfigs;
      TextsCons(lists);
      TakeConfigsHead(r, Join(first, ','), Texts(rest), ffs);
    } else {
      NoConfigs(r, ffs);
    }
  }

  /** Lists of such drivers are what their text denotes: a write stores all of them, in their order and in
      their configurations. */
  lemma StoresAll(r: Rules, lists: seq<seq<string>>, text: string)
    requires Storable(r, lists) && IsTextOf(text, lists)
    ensures Parse(r, text) == lists
  {
    hide IsAlias, Plain, Parts, TakeConfigs;
    TextSplits(lists, text);
    TakesAllConfigs(r, lists, false);
  }

  lemma TakenOne(r: Rules, name: string, ffs: bool, n: string)
    requires n in r.usable && n != FFS
    ensures multiset(TakeName(r, name, ffs).holders)[n] ==
            Bit(name == n && !IsAlias(r, n) && !(n == RNDIS && r.rndisQc))
            + Bit(name == RNDIS && n == RNDIS_QC && r.rndisQc && !IsAlias(r, RNDIS))
  {
    assert |RNDIS_QC| != |RNDIS|;
    hide IsAlias;
  }

  /** How often a driver other than FunctionFS is kept: once for each token that names it, unless its name
      is an alias or `rndis` while the transport selects the QC driver; that one is kept for each `rndis` too. */
  lemma {:induction false} TakenExact(r: Rules, names: seq<string>, ffs: bool, n: string)
    requires n in r.usable && n != FFS
    ensures multiset(TakeNames(r, names, ffs).holders)[n] ==
            (if IsAlias(r, n) || (n == RNDIS && r.rndisQc) then 0 else multiset(names)[n])
            + (if n == RNDIS_QC && r.rndisQc && !IsAlias(r, RNDIS) then multiset(names)[RNDIS] else 0)
    decreases |names|
  {
    hide IsAlias, TakeName;
    if names != [] {
      TakenOne(r, names[0], ffs, n);
      TakenExact(r, names[1..], TakeName(r, names[0], ffs).ffs, n);
      assert names == [names[0]] + names[1..];
      assert |RNDIS_QC| != |RNDIS|;
    }
  }

  /** Whether the parser keeps token `k` of a configuration, `ffs` telling of an alias before it that did
      store FunctionFS. */
  ghost predicate Keeps(r: Rules, names: seq<string>, ffs: bool, k: nat)
    requires k < |names|
  {
    if IsAlias(r, names[k]) then FFS in r.usable && !ffs && forall j | 0 <= j < k :: !IsAlias(r, names[j])
    else Driver(r, names[k]) in r.usable
  }

  /** The driver that a token stands for. */
  function Driver(r: Rules, name: string): string {
    if IsAlias(r, name) then FFS else if name == RNDIS && r.rndisQc then RNDIS_QC else name
  }

  ghost predicate Rising(at: seq<nat>, n: nat) {
    (forall i | 0 <= i < |at| :: at[i] < n) && forall i, j | 0 <= i < j < |at| :: at[i] < at[j]
  }

  /** The holders are the drivers of the tokens at `at`, in order. */
  ghost predicate DriversAt(r: Rules, names: seq<string>, holders: seq<string>, at: seq<nat>) {
    && |at| == |holders| && Rising(at, |names|)
    && (forall i | 0 <= i < |at| :: holders[i] == Driver(r, names[at[i]]))
  }

  /** The positions are those of all the tokens kept. */
  ghost predicate KeptAt(r: Rules, names: seq<string>, ffs: bool, at: seq<nat>) {
    forall k | 0 <= k < |names| :: k in at <==> Keeps(r, names, ffs, k)
  }

  lemma KeepsFirst(r: Rules, names: seq<string>, ffs: bool)
    requires names != []
    ensures TakeName(r, names[0], ffs).holders == if Keeps(r, names, ffs, 0) then [Driver(r, names[0])] else []
    ensures forall k | 0 < k < |names| ::
              Keeps(r, names, ffs, k) <==> Keeps(r, names[1..], TakeName(r, names[0], ffs).ffs, k - 1)
  {
    hide IsAlias;
    var next := TakeName(r, names[0], ffs).ffs;
    forall k | 0 < k < |names| ensures Keeps(r, names, ffs, k) <==> Keeps(r, names[1..], next, k - 1) {
      assert names[k] == names[1..][k - 1];
      if forall j | 0 <= j < k - 1 :: !IsAlias(r, names[1..][j]) {
        forall j | 0 < j < k ensures !IsAlias(r, names[j]) { assert names[j] == names[1..][j - 1]; }
      } else {
        var j :| 0 <= j < k - 1 && IsAlias(r, names[1..][j]);
        assert IsAlias(r, names[j + 1]);
      }
    }
  }

  function Shifted(rest: seq<nat>, first: bool): (at: seq<nat>)
    ensures |at| == Bit(first) + |rest| && (first ==> at[0] == 0)
    ensures forall i | Bit(first) <= i < |at| :: at[i] == rest[i - Bit(first)] + 1
  {
    (if first then [0] else []) + seq(|rest|, i requires 0 <= i < |rest| => rest[i] + 1)
  }

  lemma ShiftedIn(rest: seq<nat>, first: bool)
    ensures 0 in Shifted(rest, first) <==> first
    ensures forall k | 0 < k :: k in Shifted(rest, first) <==> k - 1 in rest
  {
    hide Shifted;
    var at, d := Shifted(rest, first), Bit(first);
    forall k | 0 < k ensures k in at <==> k - 1 in rest {
      if k in at {
        var i :| 0 <= i < |at| && at[i] == k;
        assert rest[i - d] == k - 1;
      }
      if k - 1 in rest {
        var i :| 0 <= i < |rest| && rest[i] == k - 1;
        assert at[i + d] == k;
      }
    }
  }

  lemma ShiftedRising(rest: seq<nat>, first: bool, n: nat)
    requires Rising(rest, n)
    ensures Rising(Shifted(rest, first), n + 1)
  {
    hide Shifted;
  }

  lemma KeptCons(r: Rules, names: seq<string>, ffs: bool, rest: seq<nat>)
    requires names != [] && KeptAt(r, names[1..], TakeName(r, names[0], ffs).ffs, rest)
    ensures KeptAt(r, names, ffs, Shifted(rest, Keeps(r, names, ffs, 0)))
  {
    hide IsAlias, TakeName, Keeps, Shifted;
    KeepsFirst(r, names, ffs);
    ShiftedIn(rest, Keeps(r, names, ffs, 0));
    forall k | 0 < k < |names| ensures k - 1 in rest <==> Keeps(r, names, ffs, k) {
      assert k - 1 in rest <==> Keeps(r, names[1..], TakeName(r, names[0], ffs).ffs, k - 1);
    }
  }

  lemma DriversCons(r: Rules, names: seq<string>, ffs: bool, later: seq<string>, rest: seq<nat>)
    requires names != [] && DriversAt(r, names[1..], later, rest)
    ensures DriversAt(r, names, TakeName(r, names[0], ffs).holders + later, Shifted(rest, Keeps(r, names, ffs, 0)))
  {
    hide IsAlias, TakeName, Driver, Keeps, Shifted;
    KeepsFirst(r, names, ffs);
    var at, d := Shifted(rest, Keeps(r, names, ffs, 0)), Bit(Keeps(r, names, ffs, 0));
    ShiftedRising(rest, Keeps(r, names, ffs, 0), |names| - 1);
    forall i | d <= i < |at| ensures later[i - d] == Driver(r, names[at[i]]) {
      assert at[i] == rest[i - d] + 1;
      assert names[at[i]] == names[1..][rest[i - d]];
    }
  }

  lemma {:induction false} TakenAt(r: Rules, names: seq<string>, ffs: bool) returns (at: seq<nat>)
    ensures DriversAt(r, names, TakeNames(r, names, ffs).holders, at) && KeptAt(r, names, ffs, at)
    decreases |names|
  {
    at := [];
    if names != [] {
      hide DriversAt, KeptAt, TakeName, Keeps;
      var next := TakeName(r, names[0], ffs).ffs;
      var rest := TakenAt(r, names[1..], next);
      KeptCons(r, names, ffs, rest);
      DriversCons(r, names, ffs, TakeNames(r, names[1..], next).holders, rest);
      at := Shifted(rest, Keeps(r, names, ffs, 0));
    }
  }

  /** Some token of an earlier configuration is an alias. */
  ghost predicate AliasBefore(r: Rules, parts: seq<string>, i: nat)
    requires i <= |parts|
  {
    exists h :: 0 <= h < i && NamesAlias(r, Split(parts[h], ','))
  }

  lemma {:induction false} ConfigAt(r: Rules, parts: seq<string>, ffs: bool, i: nat)
    requires i < |parts|
    ensures TakeConfigs(r, parts, ffs)[i] ==
            TakeNames(r, Split(parts[i], ','), ffs || (FFS in r.usable && AliasBefore(r, parts, i))).holders
    decreases i
  {
    hide IsAlias, TakeNames, NamesAlias, Split;
    if i > 0 {
      var names := Split(parts[0], ',');
      var next := TakeNames(r, names, ffs).ffs;
      TakenFfs(r, names, ffs);
      ConfigAt(r, parts[1..], next, i - 1);
      if AliasBefore(r, parts[1..], i - 1) {
        var h :| 0 <= h < i - 1 && NamesAlias(r, Split(parts[1..][h], ','));
        assert NamesAlias(r, Split(parts[h + 1], ','));
      }
      if AliasBefore(r, parts, i) && !NamesAlias(r, names) {
        var h :| 0 <= h < i && NamesAlias(r, Split(parts[h], ','));
        assert parts[h] == parts[1..][h - 1];
      }
    }
  }

  /** What a write of any text stores, token by token: configuration `i` holds the drivers of the tokens of
      its part that are kept, in their order. A token that is an alias is kept as FunctionFS exactly if that
      is to be had and no token before it, in this part or an earlier one, is an alias; any other exactly if
      its driver is to be had. */
  lemma ParseExactly(r: Rules, text: string, i: nat) returns (at: seq<nat>)
    requires i < |Parts(text)|
    ensures |Parse(r, text)| == |Parts(text)|
    ensures var tokens, list := Split(Parts(text)[i], ','), Parse(r, text)[i];
            && |at| == |list|
            && (forall n | 0 <= n < |at| :: at[n] < |tokens|)
            && (forall m, n | 0 <= m < n < |at| :: at[m] < at[n])
            && (forall n | 0 <= n < |at| ::
                  var t := tokens[at[n]];
                  list[n] == if IsAlias(r, t) then FFS else if t == RNDIS && r.rndisQc then RNDIS_QC else t)
            && (forall k | 0 <= k < |tokens| ::
                  k in at <==>
                  var t := tokens[k];
                  if IsAlias(r, t) then
                    FFS in r.usable && (forall j | 0 <= j < k :: !IsAlias(r, tokens[j]))
                    && forall h | 0 <= h < i :: !NamesAlias(r, Split(Parts(text)[h], ','))
                  else (if t == RNDIS && r.rndisQc then RNDIS_QC else t) in r.usable)
  {
    hide IsAlias, TakeNames, TakeConfigs, NamesAlias, Split, Parts;
    ConfigAt(r, Parts(text), false, i);
    at := TakenAt(r, Split(Parts(text)[i], ','), FFS in r.usable && AliasBefore(r, Parts(text), i));
  }

  /** How often configuration `i` holds a driver other than FunctionFS after a write of any text. */
  lemma HeldExactly(r: Rules, text: string, i: nat, n: string)
    requires i < |Parts(text)| && n in r.usable && n != FFS
    ensures var tokens, held := multiset(Split(Parts(text)[i], ',')), multiset(Parse(r, text)[i]);
            && (n != RNDIS && n != RNDIS_QC && !IsAlias(r, n) ==> held[n] == tokens[n])
            && (n == RNDIS && !IsAlias(r, n) ==> held[n] == if r.rndisQc then 0 else tokens[n])
            && (n == RNDIS_QC && !IsAlias(r, n) && !IsAlias(r, RNDIS) ==>
                  held[n] == tokens[n] + if r.rndisQc then tokens[RNDIS] else 0)
            && (IsAlias(r, n) ==>
                  held[n] == if n == RNDIS_QC && r.rndisQc && !IsAlias(r, RNDIS) then tokens[RNDIS] else 0)
  {
    hide IsAlias, TakeNames, TakeConfigs, NamesAlias, Split, Parts;
    ConfigAt(r, Parts(text), false, i);
    TakenExact(r, Split(Parts(text)[i], ','), FFS in r.usable && AliasBefore(r, Parts(text), i), n);
    assert |RNDIS_QC| != |RNDIS|;
  }

  // ---- The shown text splits back into the lists

  /** The text of the lists, within the buffer, with or without the newline that closes it. */
  predicate IsTextOf(text: string, lists: seq<seq<string>>) {
    var body := Join(Texts(lists), ':'); |body| < BUFFER_SIZE && text in {body, body + "\n"}
  }

  /** A text of plain names splits back into its lists, with or without the newline that closes it. */
  lemma TextSplits(lists: seq<seq<string>>, text: string)
    requires lists != [] && forall l | l in lists :: l != [] && forall n | n in l :: Plain(n)
    requires IsTextOf(text, lists)
    ensures Parts(text) == Texts(lists)
    ensures forall l | l in lists :: Split(Join(l, ','), ',') == l
  {
    var texts := Texts(lists);
    forall l | l in lists
      ensures Trimmed(Join(l, ',')) && Free(Join(l, ','), ':') && Split(Join(l, ','), ',') == l
    {
      assert forall n | n in l :: Plain(n);
      JoinTrimmed(l, ',');
      JoinFree(l, ',', ':');
      SplitJoin(l, ',');
    }
    forall t | t in texts ensures Trimmed(t) && Free(t, ':') {
      var i :| 0 <= i < |texts| && texts[i] == t;
      assert lists[i] in lists;
    }
    var body := Join(texts, ':');
    JoinTrimmed(texts, ':');
    StrimLine(body);
    assert Strlcpy(text, BUFFER_SIZE) in {body, body + "\n"} by {
      if |text| == BUFFER_SIZE {
        assert (body + "\n")[..BUFFER_SIZE - 1] == body;
      }
    }
    SplitJoin(texts, ':');
  }

  lemma ShownSplits(r: Rules, lists: seq<seq<string>>)
    requires PlainTable(r)
    requires forall l | l in lists :: forall n | n in l :: n in r.usable
    requires NonEmpty(lists) != [] && |Shown(lists)| <= BUFFER_SIZE
    ensures Parts(Shown(lists)) == Texts(NonEmpty(lists))
    ensures forall l | l in NonEmpty(lists) :: Split(Join(l, ','), ',') == l
  {
    hide Plain, Parts;
    TextSplits(NonEmpty(lists), Shown(lists));
  }

  lemma NeverQc(r: Rules, name: string, ffs: bool)
    requires IsAlias(r, RNDIS_QC) && name != RNDIS
    ensures RNDIS_QC !in TakeName(r, name, ffs).holders
  {
    var t := TakeName(r, name, ffs);
    if t.holders != [] {
      assert |t.holders| == 1;
      assert t.holders[0] != RNDIS_QC by {
        if IsAlias(r, name) {
          assert t.holders[0] == FFS && |FFS| != |RNDIS_QC|;
        } else {
          assert t.holders[0] == name;
        }
      }
    }
  }

  lemma {:induction false} QcNeedsRndis(r: Rules, names: seq<string>, ffs: bool)
    requires IsAlias(r, RNDIS_QC) && RNDIS !in names
    ensures RNDIS_QC !in TakeNames(r, names, ffs).holders
    decreases |names|
  {
    if names != [] {
      assert names[0] in names;
      NeverQc(r, names[0], ffs);
      QcNeedsRndis(r, names[1..], TakeName(r, names[0], ffs).ffs);
    }
  }

  lemma {:induction false} QcConfigsNeedRndis(r: Rules, parts: seq<string>, ffs: bool)
    requires IsAlias(r, RNDIS_QC)
    requires forall p | p in parts :: RNDIS !in Split(p, ',')
    ensures forall l | l in TakeConfigs(r, parts, ffs) :: RNDIS_QC !in l
    decreases |parts|
  {
    if parts != [] {
      assert parts[0] in parts;
      QcNeedsRndis(r, Split(parts[0], ','), ffs);
      QcConfigsNeedRndis(r, parts[1..], TakeNames(r, Split(parts[0], ','), ffs).ffs);
    }
  }

  lemma EmptyTextParse(r: Rules)
    ensures Parse(r, "") == [if IsAlias(r, "") && FFS in r.usable then [FFS] else TakeName(r, "", false).holders]
  {
    assert Split("", ':') == [""] && Split("", ',') == [""];
    var names := [""];
    assert names[1..] == [];
    assert TakeNames(r, names, false).holders == TakeName(r, "", false).holders;
  }

  lemma RoundTripEmpty(r: Rules, text: string)
    requires PlainTable(r)
    requires NonEmpty(Parse(r, text)) == []
    ensures var lists := Parse(r, text);
            Parse(r, Shown(lists)) == lists <==> Restorable(r, lists)
  {
    var lists := Parse(r, text);
    EmptyTextParse(r);
    assert "" !in r.usable by { assert !Trimmed(""); assert !Plain(""); }
    assert lists[0] in lists && lists[0] == [];
    if |lists| == 1 {
      assert lists == [[]];
    }
  }

  /** An alias that hides the QC driver turns it into FunctionFS, or drops it, on the way back. */
  lemma ShadowedIsLost(r: Rules, text: string)
    requires PlainTable(r)
    requires |Shown(Parse(r, text))| <= BUFFER_SIZE
    requires forall l | l in Parse(r, text) :: l != []
    requires exists l | l in Parse(r, text) :: !Unshadowed(r, l)
    ensures Parse(r, Shown(Parse(r, text))) != Parse(r, text)
  {
    var lists := Parse(r, text);
    TakenConfigsUsable(r, Parts(text), false);
    ShownSplits(r, lists);
    var l :| l in lists && !Unshadowed(r, l);
    assert RNDIS_QC in l && IsAlias(r, RNDIS_QC) && r.rndisQc;
    forall t | t in Texts(lists) ensures RNDIS !in Split(t, ',') {
      var i :| 0 <= i < |lists| && Texts(lists)[i] == t;
      assert lists[i] in lists;
    }
    QcConfigsNeedRndis(r, Texts(lists), false);
  }

  /** Writing back what a read showed restores the lists that an earlier write made
      exactly when they are restorable, whenever the text fits the buffer. */
  lemma RoundTrip(r: Rules, text: string)
    requires PlainTable(r)
    requires |Shown(Parse(r, text))| <= BUFFER_SIZE
    ensures var lists := Parse(r, text);
            Parse(r, Shown(lists)) == lists <==> Restorable(r, lists)
  {
    var lists := Parse(r, text);
    var parts := Parts(text);
    if NonEmpty(lists) == [] {
      RoundTripEmpty(r, text);
    } else if |NonEmpty(lists)| < |lists| {
      TakenConfigsUsable(r, parts, false);
      ShownSplits(r, lists);
      assert |Parse(r, Shown(lists))| == |NonEmpty(lists)|;
    } else if exists l | l in lists :: !Unshadowed(r, l) {
      assert lists[0] in lists;
      ShadowedIsLost(r, text);
    } else {
      assert lists[0] in lists;
      TakenConfigsUsable(r, parts, false);
      ShownSplits(r, lists);
      TakeConfigsAgain(r, parts, false, false);
    }
  }

  /** A text of one plain name stands for one list of at most one driver. */
  lemma OneName(r: Rules, name: string)
    requires Plain(name) && |name| < BUFFER_SIZE
    ensures Parse(r, name) == [TakeName(r, name, false).holders]
    ensures |name| + 1 < BUFFER_SIZE ==> Parse(r, name + "\n") == Parse(r, name)
  {
    StrimLine(name);
    var names := [name];
    assert names[1..] == [];
    OneList(r, names);
    assert TakeNames(r, names, false).holders == TakeName(r, name, false).holders;
  }

  lemma OneShown(name: string)
    ensures Shown([[name]]) == name + "\n"
  {
    var lists := [[name]];
    assert NonEmpty(lists) == lists by { assert lists[1..] == []; }
    assert Texts(lists) == [name];
  }

  lemma DriverNamesPlain(qc: string, rndis: string)
    requires qc == RNDIS_QC && rndis == RNDIS
    ensures Plain(qc) && |qc| == 8 && Plain(rndis) && |rndis| == 5 && qc != rndis
  {
  }

  /** The smallest such loss: whenever an alias names the QC driver, a write of `rndis`
      is stored as `rndis_qc` and comes back as FunctionFS. */
  lemma AliasShadowsQc(r: Rules, qc: string, rndis: string)
    requires qc == RNDIS_QC && rndis == RNDIS
    requires r.rndisQc && IsAlias(r, qc) && !IsAlias(r, rndis)
    requires FFS in r.usable && qc in r.usable
    ensures Parse(r, rndis) == [[qc]] && Parse(r, Shown([[qc]])) == [[FFS]]
  {
    DriverNamesPlain(qc, rndis);
    OneName(r, rndis);
    OneName(r, qc);
    OneShown(qc);
  }
}
