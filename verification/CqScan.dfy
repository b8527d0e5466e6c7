/** The two scans of the pass-2 module table that each pipe makes: `_config` passes command-queue
    modules to the handlers of the selected entries, `_write2CQ` adds modules to the queue. */
module CqScan {

  datatype Module = Dummy | Cq(id: nat)

  datatype Pipe = Raw | Rgb | Yuv | NoPipe

  /** A row of `gIspModuleMappingTableP2En`. */
  datatype Entry = Entry(ctrl: bv32, func1: bv32, func2: bv32, pipe: Pipe, handler: bool,
                         cq1: Module, cq2: Module, cqDma: Module)

  /** A call of an entry's handler with the modules it is told to update. */
  datatype Call = Call(entry: Entry, cq1: Module, cq2: Module, cqDma: Module)

  predicate Meets(bits: bv32, mask: bv32) { bits & mask != 0 }

  predicate Selected(e: Entry, pipe: Pipe, enable: bv32, update: bv32) {
    (Meets(enable, e.ctrl) || Meets(update, e.func1) || Meets(update, e.func2)) && e.pipe == pipe
  }

  /** The modules that a handler is told of: those of the functions that the tuning updates, and the
      entry's DMA module if there is any of them. */
  function CallOf(e: Entry, update: bv32): Call {
    var cq1 := if Meets(update, e.func1) then e.cq1 else Dummy;
    var cq2 := if Meets(update, e.func2) then e.cq2 else Dummy;
    Call(e, cq1, cq2, if cq1 != Dummy || cq2 != Dummy then e.cqDma else Dummy)
  }

  function Calls(table: seq<Entry>, pipe: Pipe, enable: bv32, update: bv32): seq<Call> {
    if table == [] then [] else
      var e := table[|table| - 1];
      Calls(table[..|table| - 1], pipe, enable, update)
      + if Selected(e, pipe, enable, update) && e.handler then [CallOf(e, update)] else []
  }

  function Real(m: Module): seq<Module> { if m == Dummy then [] else [m] }

  function Added(table: seq<Entry>, pipe: Pipe, enable: bv32, update: bv32): seq<Module> {
    if table == [] then [] else
      var e := table[|table| - 1];
      Added(table[..|table| - 1], pipe, enable, update)
      + if Selected(e, pipe, enable, update) then Real(e.cq1) + Real(e.cq2) + Real(e.cqDma) else []
  }

  /** The scan of `_config` once the tuning data is at hand. */
  method Config(table: seq<Entry>, pipe: Pipe, enable: bv32, update: bv32) returns (calls: seq<Call>)
    ensures calls == Calls(table, pipe, enable, update)
  {
    hide Meets;
    calls := [];
    var i := 0;
    while i < |table|
      invariant 0 <= i <= |table|
      invariant calls == Calls(table[..i], pipe, enable, update)
    {
      var e := table[i];
      assert table[..i + 1][..i] == table[..i];
      if (Meets(enable, e.ctrl) || Meets(update, e.func1) || Meets(update, e.func2)) && e.pipe == pipe && e.handler {
        var cq1, cq2, cqDma := Dummy, Dummy, Dummy;
        if Meets(update, e.func1) {
          cq1 := e.cq1;
        }
        if Meets(update, e.func2) {
          cq2 := e.cq2;
        }
        if (cq1 != Dummy || cq2 != Dummy) && e.cqDma != Dummy {
          cqDma := e.cqDma;
        }
        calls := calls + [Call(e, cq1, cq2, cqDma)];
      }
      i := i + 1;
    }
    assert table[..i] == table;
  }

  /** The modules of one entry, without the dummies. */
  method ModulesOf(e: Entry) returns (added: seq<Module>)
    ensures added == Real(e.cq1) + Real(e.cq2) + Real(e.cqDma)
  {
    added := [];
    if e.cq1 != Dummy {
      added := added + [e.cq1];
    }
    if e.cq2 != Dummy {
      added := added + [e.cq2];
    }
    if e.cqDma != Dummy {
      added := added + [e.cqDma];
    }
  }

  /** The scan of `_write2CQ`. */
  method Write2CQ(table: seq<Entry>, pipe: Pipe, enable: bv32, update: bv32) returns (added: seq<Module>)
    ensures added == Added(table, pipe, enable, update)
  {
    hide Meets;
    added := [];
    var i := 0;
    while i < |table|
      invariant 0 <= i <= |table|
      invariant added == Added(table[..i], pipe, enable, update)
    {
      var e := table[i];
      assert table[..i + 1][..i] == table[..i];
      if (Meets(enable, e.ctrl) || Meets(update, e.func1) || Meets(update, e.func2)) && e.pipe == pipe {
        var more := ModulesOf(e);
        added := added + more;
      }
      i := i + 1;
    }
    assert table[..i] == table;
  }

  // ---- The scans agree

  predicate Tells(c: Call, m: Module) { m != Dummy && (m == c.cq1 || m == c.cq2 || m == c.cqDma) }

  lemma RealIs(m: Module, x: Module)
    ensures x in Real(m) <==> x == m && x != Dummy
  {
  }

  lemma {:induction false} AddedIs(table: seq<Entry>, pipe: Pipe, enable: bv32, update: bv32, m: Module)
    ensures m in Added(table, pipe, enable, update) <==>
            m != Dummy && exists e :: e in table && m in [e.cq1, e.cq2, e.cqDma] && e.pipe == pipe &&
                                      (Meets(enable, e.ctrl) || Meets(update, e.func1) || Meets(update, e.func2))
  {
    hide Meets, Real;
    if table == [] {
    } else {
      var n := |table| - 1;
      var e := table[n];
      RealIs(e.cq1, m);
      RealIs(e.cq2, m);
      RealIs(e.cqDma, m);
      AddedIs(table[..n], pipe, enable, update, m);
      assert table == table[..n] + [table[n]];
    }
  }

  /** The scans go through the table in order: what they yield for one table after another is what they
      yield for the first and then for the second. */
  lemma {:induction false} CallsSplit(a: seq<Entry>, b: seq<Entry>, pipe: Pipe, enable: bv32, update: bv32)
    ensures Calls(a + b, pipe, enable, update)
         == Calls(a, pipe, enable, update) + Calls(b, pipe, enable, update)
    decreases |b|
  {
    hide Selected;
    if b == [] {
      assert a + b == a;
    } else {
      var n := |b| - 1;
      assert (a + b)[..|a + b| - 1] == a + b[..n];
      CallsSplit(a, b[..n], pipe, enable, update);
    }
  }

  lemma {:induction false} AddedSplit(a: seq<Entry>, b: seq<Entry>, pipe: Pipe, enable: bv32, update: bv32)
    ensures Added(a + b, pipe, enable, update)
         == Added(a, pipe, enable, update) + Added(b, pipe, enable, update)
    decreases |b|
  {
    hide Selected, Real;
    if b == [] {
      assert a + b == a;
    } else {
      var n := |b| - 1;
      assert (a + b)[..|a + b| - 1] == a + b[..n];
      AddedSplit(a, b[..n], pipe, enable, update);
    }
  }

  lemma NothingScanned(pipe: Pipe, enable: bv32, update: bv32)
    ensures Calls([], pipe, enable, update) == [] && Added([], pipe, enable, update) == []
  {
  }

  /** What one entry yields: a call exactly if it is of the pipe, has a handler, and a bit selects it; the
      call has the first module exactly if the first function is updated, the second exactly if the second
      is, and the DMA module exactly if one of those two is there. */
  lemma OneCall(e: Entry, pipe: Pipe, enable: bv32, update: bv32)
    ensures var calls := Calls([e], pipe, enable, update);
            && (calls != [] <==>
                e.pipe == pipe && e.handler
                && (Meets(enable, e.ctrl) || Meets(update, e.func1) || Meets(update, e.func2)))
            && (calls != [] ==>
                  var c := calls[0];
                  && calls == [c] && c.entry == e
                  && c.cq1 == (if Meets(update, e.func1) then e.cq1 else Dummy)
                  && c.cq2 == (if Meets(update, e.func2) then e.cq2 else Dummy)
                  && c.cqDma == if c.cq1 != Dummy || c.cq2 != Dummy then e.cqDma else Dummy)
  {
    hide Meets;
    assert [e][..0] == [];
  }

  /** An entry that a bit selects adds its three modules, the dummies excepted, with or without a handler. */
  lemma OneAdded(e: Entry, pipe: Pipe, enable: bv32, update: bv32)
    ensures Added([e], pipe, enable, update) ==
            if e.pipe == pipe && (Meets(enable, e.ctrl) || Meets(update, e.func1) || Meets(update, e.func2))
            then (if e.cq1 != Dummy then [e.cq1] else []) + (if e.cq2 != Dummy then [e.cq2] else [])
                 + (if e.cqDma != Dummy then [e.cqDma] else [])
            else []
  {
    hide Meets;
    assert [e][..0] == [];
  }

  /** Every entry of the table is scanned: its call, if it has one, is among the calls. */
  lemma EachScanned(table: seq<Entry>, k: nat, pipe: Pipe, enable: bv32, update: bv32)
    requires k < |table|
    ensures forall c | c in Calls([table[k]], pipe, enable, update) :: c in Calls(table, pipe, enable, update)
    ensures forall m | m in Added([table[k]], pipe, enable, update) :: m in Added(table, pipe, enable, update)
  {
    hide Calls, Added;
    var a, b := table[..k], table[k + 1..];
    assert table == a + ([table[k]] + b);
    CallsSplit(a, [table[k]] + b, pipe, enable, update);
    CallsSplit([table[k]], b, pipe, enable, update);
    AddedSplit(a, [table[k]] + b, pipe, enable, update);
    AddedSplit([table[k]], b, pipe, enable, update);
  }

  /** For every table the handlers called are those of the entries of the pipe that a bit selects, each told
      of the modules of the functions updated. */
  lemma {:induction false} CallsAre(table: seq<Entry>, pipe: Pipe, enable: bv32, update: bv32, c: Call)
    ensures c in Calls(table, pipe, enable, update) <==>
            var e := c.entry;
            && e in table && e.pipe == pipe && e.handler
            && (Meets(enable, e.ctrl) || Meets(update, e.func1) || Meets(update, e.func2))
            && c.cq1 == (if Meets(update, e.func1) then e.cq1 else Dummy)
            && c.cq2 == (if Meets(update, e.func2) then e.cq2 else Dummy)
            && c.cqDma == if c.cq1 != Dummy || c.cq2 != Dummy then e.cqDma else Dummy
  {
    hide Meets;
    if table == [] {
    } else {
      var n := |table| - 1;
      var e := table[n];
      assert table == table[..n] + [e];
      CallsAre(table[..n], pipe, enable, update, c);
      CallsSplit(table[..n], [e], pipe, enable, update);
      OneCall(e, pipe, enable, update);
    }
  }

  predicate Within(update: bv32, written: bv32) { update & !written == 0 }

  lemma Masked(update: bv32, written: bv32, func: bv32)
    requires Within(update, written) && Meets(update, func)
    ensures Meets(written, func)
  {
  }

  /** Whatever the enable bits, a queue written with at least the update bits of the configuration
      holds every module that a handler was passed. */
  lemma PassedIsAdded(table: seq<Entry>, pipe: Pipe, enable: bv32, enable': bv32, update: bv32, written: bv32,
                      c: Call, m: Module)
    requires Within(update, written) && c in Calls(table, pipe, enable, update) && Tells(c, m)
    ensures m in Added(table, pipe, enable', written)
  {
    hide Within, Meets;
    CallsAre(table, pipe, enable, update, c);
    AddedIs(table, pipe, enable', written, m);
    assert m != Dummy;
    var e := c.entry;
    if Meets(update, e.func1) { Masked(update, written, e.func1); } else { Masked(update, written, e.func2); }
  }

  /** A bit updated but not written shows in some table: an entry with that bit and no enable. */
  lemma MissedBit(update: bv32, written: bv32) returns (e: Entry)
    requires !Within(update, written)
    ensures var c := Call(e, e.cq1, Dummy, e.cqDma);
            c in Calls([e], Raw, 0, update) && Tells(c, e.cq1) && e.cq1 !in Added([e], Raw, 0, written)
  {
    e := Entry(0, update & !written, 0, Raw, true, Cq(1), Dummy, Dummy);
    Only(update, written);
    assert [e][..0] == [];
  }

  lemma Only(update: bv32, written: bv32)
    requires !Within(update, written)
    ensures Meets(update, update & !written) && !Meets(written, update & !written)
    ensures forall bits: bv32 :: !Meets(bits, 0)
    ensures forall mask: bv32 :: !Meets(0, mask)
  {
  }

  /** So the scans agree on all tables exactly when the update bits written include those configured. */
  lemma ScansAgree(update: bv32, written: bv32)
    ensures Within(update, written) <==>
            forall table, pipe, enable, enable', c, m |
              c in Calls(table, pipe, enable, update) && Tells(c, m) :: m in Added(table, pipe, enable', written)
  {
    hide Within, Calls, Added, Tells;
    if Within(update, written) {
      forall table, pipe, enable, enable', c, m | c in Calls(table, pipe, enable, update) && Tells(c, m)
        ensures m in Added(table, pipe, enable', written)
      {
        PassedIsAdded(table, pipe, enable, enable', update, written, c, m);
      }
    } else {
      var e := MissedBit(update, written);
    }
  }
}
