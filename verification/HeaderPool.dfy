/** The pool of headers that pass-1 dequeues hand out with their buffers: a header is taken when
    a dequeue starts, filled when it succeeds, and freed by address when the buffer comes back. */
module HeaderPool {
  import opened Basics

  /** A buffer by its virtual and physical base address. */
  datatype Buffer = Buffer(vAddr: nat, pAddr: nat)

  datatype Node = Node(occupied: bool, info: Buffer)

  const CLEARED := Node(false, Buffer(0, 0))

  /** How a pass-1 dequeue goes after taking a header: the DMA channel is not a pass-1 output, the
      driver's control call fails, or the driver hands over a list of filled buffers. */
  datatype Outcome = NotListed | CtrlFailed | Got(data: seq<Buffer>)

  /** A buffer delivered with the index of its header, or none when the pool was exhausted. */
  datatype Delivery = Delivery(buffer: Buffer, header: Option<nat>)

  // ---- The pool as a sequence of nodes

  /** Index of the first node that satisfies `f`, or the length. */
  ghost function First(nodes: seq<Node>, f: Node -> bool): (i: nat)
    ensures i <= |nodes| && (i < |nodes| ==> f(nodes[i]))
    ensures forall k | 0 <= k < i :: !f(nodes[k])
  {
    if nodes == [] || f(nodes[0]) then 0 else 1 + First(nodes[1..], f)
  }

  lemma FirstIs(nodes: seq<Node>, f: Node -> bool, i: nat)
    requires i <= |nodes| && (i < |nodes| ==> f(nodes[i]))
    requires forall k | 0 <= k < i :: !f(nodes[k])
    ensures First(nodes, f) == i
  {
  }

  ghost function Vacant(): Node -> bool { (n: Node) => !n.occupied }

  ghost function AtP(p: nat): Node -> bool { (n: Node) => n.info.pAddr == p }

  ghost function AtV(v: nat): Node -> bool { (n: Node) => n.info.vAddr == v }

  /** Whether a dequeue delivers: only a list that fits the driver's table does. */
  predicate Delivers(o: Outcome, max: nat) { o.Got? && |o.data| <= max }

  /** The pool after a dequeue has taken the first free header, and which that is. */
  ghost function Took(nodes: seq<Node>): (after: seq<Node>)
    ensures |after| == |nodes|
  {
    var i := First(nodes, Vacant());
    if i == |nodes| then nodes else nodes[i := nodes[i].(occupied := true)]
  }

  ghost function HeaderOf(nodes: seq<Node>): (header: Option<nat>)
    ensures header.Some? ==> header.value < |nodes|
  {
    var i := First(nodes, Vacant());
    if i == |nodes| then None else Some(i)
  }

  /** A delivery leaves its last buffer in the header it took. */
  ghost function Filled(nodes: seq<Node>, header: Option<nat>, o: Outcome, max: nat): (after: seq<Node>)
    requires header.Some? ==> header.value < |nodes|
    ensures |after| == |nodes|
  {
    if header.Some? && Delivers(o, max) && o.data != [] then nodes[header.value := Node(true, o.data[|o.data| - 1])]
    else nodes
  }

  ghost function Released(nodes: seq<Node>, p: nat): (after: seq<Node>)
    ensures |after| == |nodes|
  {
    var i := First(nodes, AtP(p));
    if i == |nodes| then nodes else nodes[i := Node(false, nodes[i].info.(pAddr := 0))]
  }

  /** The pool after a buffer is enqueued again, possibly in exchange for `next`. */
  ghost function Returned(nodes: seq<Node>, buf: Buffer, next: Option<Buffer>): (after: seq<Node>)
    ensures |after| == |nodes|
  {
    match next
    case None => Released(nodes, buf.pAddr)
    case Some(b) => if First(nodes, AtV(b.vAddr)) == |nodes| then nodes else Released(nodes, b.pAddr)
  }

  // ---- The header list

  class BufHeaderList {
    const nodes: array<Node>
    var idx: nat

    /** `ISP_BUF_CTRL::init` clears the whole list. */
    constructor (count: nat)
      ensures fresh(nodes) && nodes.Length == count && nodes[..] == seq(count, _ => CLEARED)
    {
      nodes := new Node[count](_ => CLEARED);
      idx := 0;
    }

    method SaveDeqBufInfo() returns (header: Option<nat>)
      modifies this, nodes
      ensures nodes[..] == Took(old(nodes[..])) && header == HeaderOf(old(nodes[..]))
      ensures header.Some? ==> header.value < nodes.Length && idx == header.value
      ensures header.None? ==> nodes[..] == old(nodes[..]) && forall k | 0 <= k < nodes.Length :: nodes[k].occupied
      ensures header.Some? ==>
                var h := header.value;
                && (forall k | 0 <= k < h :: old(nodes[k].occupied)) && !old(nodes[h].occupied)
                && nodes[..] == old(nodes[..])[h := old(nodes[h]).(occupied := true)]
    {
      ghost var was := nodes[..];
      var i := 0;
      while i < nodes.Length
        invariant 0 <= i <= nodes.Length && nodes[..] == was
        invariant forall k | 0 <= k < i :: nodes[k].occupied
      {
        if !nodes[i].occupied {
          FirstIs(was, Vacant(), i);
          nodes[i] := nodes[i].(occupied := true);
          idx := i;
          return Some(i);
        }
        i := i + 1;
      }
      FirstIs(was, Vacant(), i);
      header := None;
    }

    method FindP(p: nat) returns (i: nat)
      ensures i == First(nodes[..], AtP(p))
    {
      i := 0;
      while i < nodes.Length && nodes[i].info.pAddr != p
        invariant 0 <= i <= nodes.Length
        invariant forall k | 0 <= k < i :: nodes[k].info.pAddr != p
      {
        i := i + 1;
      }
      FirstIs(nodes[..], AtP(p), i);
    }

    method FindV(v: nat) returns (i: nat)
      ensures i == First(nodes[..], AtV(v))
    {
      i := 0;
      while i < nodes.Length && nodes[i].info.vAddr != v
        invariant 0 <= i <= nodes.Length
        invariant forall k | 0 <= k < i :: nodes[k].info.vAddr != v
      {
        i := i + 1;
      }
      FirstIs(nodes[..], AtV(v), i);
    }

    method ReturnDeqBufInfo(buf: Buffer, next: Option<Buffer>)
      modifies nodes
      ensures nodes[..] == Returned(old(nodes[..]), buf, next)
      // The buffer that counts is the one given in exchange, if any, whose virtual address is then to be known.
      ensures var p := if next.Some? then next.value.pAddr else buf.pAddr;
              if (next.None? || exists k :: 0 <= k < nodes.Length && old(nodes[k].info.vAddr) == next.value.vAddr)
                 && exists k :: 0 <= k < nodes.Length && old(nodes[k].info.pAddr) == p then
                exists h :: 0 <= h < nodes.Length && old(nodes[h].info.pAddr) == p
                            && (forall k | 0 <= k < h :: old(nodes[k].info.pAddr) != p)
                            && nodes[..] == old(nodes[..])[h := Node(false, old(nodes[h].info).(pAddr := 0))]
              else nodes[..] == old(nodes[..])
    {
      var p := buf.pAddr;
      if next.Some? {
        var v := FindV(next.value.vAddr);
        if v == nodes.Length {
          return;
        }
        p := next.value.pAddr;
      }
      var i := FindP(p);
      if i < nodes.Length {
        nodes[i] := Node(false, nodes[i].info.(pAddr := 0));
      }
    }

    /** The pass-1 branch of `dequeueHwBuf` once it has its header, if any: the blocking call to the
        driver and the list it hands over. */
    method FillHeader(header: Option<nat>, o: Outcome, max: nat) returns (ok: bool, list: seq<Delivery>)
      requires header.Some? ==> header.value < nodes.Length
      modifies nodes
      ensures nodes[..] == Filled(old(nodes[..]), header, o, max)
      ensures ok <==> o.NotListed? || (o.Got? && |o.data| <= max)
      ensures |list| == if o.Got? && |o.data| <= max then |o.data| else 0
      ensures forall k | 0 <= k < |list| :: list[k] == Delivery(o.data[k], header)
      ensures nodes[..] == if header == None || list == [] then old(nodes[..])
                           else old(nodes[..])[header.value := Node(true, o.data[|o.data| - 1])]
    {
      ghost var was := nodes[..];
      list := [];
      match o
      case NotListed => ok := true;
      case CtrlFailed => ok := false;
      case Got(data) =>
        if max < |data| {
          return false, [];
        }
        var i := 0;
        while i < |data|
          invariant 0 <= i <= |data| && |list| == i
          invariant forall k | 0 <= k < i :: list[k] == Delivery(data[k], header)
          invariant nodes[..] == if i == 0 || header == None then was
                                 else was[header.value := Node(true, data[i - 1])]
        {
          if header.Some? {
            nodes[header.value] := Node(true, data[i]);
          }
          list := list + [Delivery(data[i], header)];
          i := i + 1;
        }
        ok := true;
    }

    /** The pass-1 branch as a whole, when nothing comes in between. */
    method DequeueHwBuf(o: Outcome, max: nat) returns (ok: bool, list: seq<Delivery>)
      modifies this, nodes
      ensures nodes[..] == Filled(Took(old(nodes[..])), HeaderOf(old(nodes[..])), o, max)
      ensures ok <==> o.NotListed? || (o.Got? && |o.data| <= max)
      ensures |list| == if o.Got? && |o.data| <= max then |o.data| else 0
      ensures forall k | 0 <= k < |list| :: list[k] == Delivery(o.data[k], HeaderOf(old(nodes[..])))
    {
      var header := SaveDeqBufInfo();
      ok, list := FillHeader(header, o, max);
    }
  }

  // ---- Runs

  /** The list's lock covers the taking of a header and a return, but not the filling, so that any
      number of dequeues can be between the two. */
  datatype Op =
    | Take
    | Fill(header: Option<nat>, o: Outcome)
    | Return(buf: Buffer, next: Option<Buffer>)

  /** The pool with both sides of the story: the headers of the dequeues under way, the buffer each
      handed-out header came with, the delivered buffers that have no header of their own, and the
      headers of the dequeues that delivered nothing. */
  datatype Pool = Pool(nodes: seq<Node>, taken: set<nat>, held: map<nat, Buffer>, loose: set<Buffer>, leaked: set<nat>)

  ghost function Cleared(count: nat): Pool {
    Pool(seq(count, _ => CLEARED), {}, map[], {}, {})
  }

  function Freed(op: Op): Buffer
    requires op.Return?
  {
    if op.next.Some? then op.next.value else op.buf
  }

  /** The consumer's side of a return of the buffer at address `a`. */
  ghost function Without(p: Pool, a: nat, nodes: seq<Node>): Pool {
    p.(nodes := nodes,
       held := map h | h in p.held && p.held[h].pAddr != a :: p.held[h],
       loose := set b | b in p.loose && b.pAddr != a)
  }

  predicate DeliversSome(o: Outcome, max: nat) { Delivers(o, max) && o.data != [] }

  ghost function Step(p: Pool, op: Op, max: nat): Pool {
    match op
    case Take =>
      var header := HeaderOf(p.nodes);
      p.(nodes := Took(p.nodes), taken := p.taken + if header.Some? then {header.value} else {})
    case Fill(None, o) =>
      if DeliversSome(o, max) then p.(loose := p.loose + (set b | b in o.data)) else p
    case Fill(Some(h), o) =>
      if h !in p.taken || h >= |p.nodes| then p
      else
        var q := p.(nodes := Filled(p.nodes, Some(h), o, max), taken := p.taken - {h});
        if DeliversSome(o, max) then
          var n := |o.data| - 1;
          q.(held := p.held[h := o.data[n]], loose := p.loose + (set b | b in o.data[..n]))
        else q.(leaked := p.leaked + {h})
    case Return(buf, next) => Without(p, Freed(op).pAddr, Returned(p.nodes, buf, next))
  }

  ghost function Run(count: nat, ops: seq<Op>, max: nat): Pool {
    if ops == [] then Cleared(count) else Step(Run(count, ops[..|ops| - 1], max), ops[|ops| - 1], max)
  }

  /** Delivered and not yet returned, told from the operations alone. */
  ghost function Owed(ops: seq<Op>, max: nat): set<Buffer> {
    if ops == [] then {} else
      var owed := Owed(ops[..|ops| - 1], max);
      match ops[|ops| - 1]
      case Take => owed
      case Fill(_, o) => if Delivers(o, max) then owed + (set b | b in o.data) else owed
      case Return(buf, next) => set b | b in owed && b.pAddr != Freed(ops[|ops| - 1]).pAddr
  }

  /** The hardware hands over buffers at distinct non-zero addresses that nobody owes. */
  ghost predicate FairData(owed: set<Buffer>, data: seq<Buffer>) {
    && (forall k | 0 <= k < |data| :: data[k].pAddr != 0 && forall b | b in owed :: b.pAddr != data[k].pAddr)
    && (forall k, l | 0 <= k < l < |data| :: data[k].pAddr != data[l].pAddr)
  }

  /** A dequeue fills the header it has taken, and a buffer comes back as it was delivered. */
  ghost predicate FairOp(taken: set<nat>, owed: set<Buffer>, op: Op, max: nat) {
    match op
    case Take => true
    case Fill(header, o) => (header.Some? ==> header.value in taken) && (Delivers(o, max) ==> FairData(owed, o.data))
    case Return(_, _) =>
      Freed(op).pAddr != 0 && forall b | b in owed && b.pAddr == Freed(op).pAddr :: b == Freed(op)
  }

  ghost predicate Fair(count: nat, ops: seq<Op>, max: nat) {
    ops != [] ==>
      var init := ops[..|ops| - 1];
      Fair(count, init, max) && FairOp(Run(count, init, max).taken, Owed(init, max), ops[|ops| - 1], max)
  }

  /** A node is occupied exactly when its header is with a dequeue under way, handed out or leaked, and
      holds an address exactly when it is handed out: that of its own buffer, which no other delivery
      shares. */
  ghost predicate Exact(p: Pool) {
    && (forall h | h in p.held :: h < |p.nodes| && p.nodes[h] == Node(true, p.held[h]))
    && (forall i | 0 <= i < |p.nodes| :: p.nodes[i].info.pAddr != 0 <==> i in p.held)
    && (forall i | 0 <= i < |p.nodes| :: p.nodes[i].occupied <==> i in p.held || i in p.leaked || i in p.taken)
    && (forall i | i in p.leaked :: i < |p.nodes| && i !in p.held && i !in p.taken)
    && (forall i | i in p.taken :: i < |p.nodes| && i !in p.held)
    && (forall g, h | g in p.held && h in p.held && g != h :: p.held[g].pAddr != p.held[h].pAddr)
    && (forall h, b | h in p.held && b in p.loose :: p.held[h].pAddr != b.pAddr)
  }

  ghost function Outstanding(p: Pool): set<Buffer> {
    (set h | h in p.held :: p.held[h]) + p.loose
  }

  lemma HeldOutstanding(p: Pool, h: nat)
    requires h in p.held
    ensures p.held[h] in Outstanding(p)
  {
  }

  lemma LooseOutstanding(p: Pool, b: Buffer)
    requires b in p.loose
    ensures b in Outstanding(p)
  {
  }

  /** The first free header is with nobody, and without one every header is. */
  lemma FirstVacant(p: Pool)
    requires Exact(p)
    ensures var i := First(p.nodes, Vacant());
            if i < |p.nodes| then i !in p.held && i !in p.leaked && i !in p.taken && p.nodes[i].info.pAddr == 0
            else forall k: nat | k < |p.nodes| :: k in p.held || k in p.leaked || k in p.taken
  {
    var i := First(p.nodes, Vacant());
    if i < |p.nodes| {
      assert !p.nodes[i].occupied;
    } else {
      forall k: nat | k < |p.nodes| ensures k in p.held || k in p.leaked || k in p.taken {
        assert !Vacant()(p.nodes[k]);
      }
    }
  }

  /** Taking never reissues a header that is out, under way or leaked. */
  lemma TakeExact(p: Pool, max: nat)
    requires Exact(p)
    ensures var after := Step(p, Take, max);
            && Exact(after) && Outstanding(after) == Outstanding(p)
            && (forall h | h in p.held || h in p.taken || h in p.leaked ::
                  h < |p.nodes| && Some(h) != HeaderOf(p.nodes) && after.nodes[h] == p.nodes[h])
  {
    FirstVacant(p);
  }

  /** Handing out a taken header with a buffer at an address of its own. */
  lemma HandOut(p: Pool, i: nat, b: Buffer, loose: set<Buffer>)
    requires Exact(p) && i in p.taken
    requires b.pAddr != 0 && (forall h | h in p.held :: p.held[h].pAddr != b.pAddr)
    requires forall c | c in loose :: c.pAddr != b.pAddr && forall h | h in p.held :: p.held[h].pAddr != c.pAddr
    ensures Exact(Pool(p.nodes[i := Node(true, b)], p.taken - {i}, p.held[i := b], loose, p.leaked))
  {
  }

  lemma Leak(p: Pool, i: nat)
    requires Exact(p) && i in p.taken
    ensures Exact(p.(taken := p.taken - {i}, leaked := p.leaked + {i}))
  {
  }

  lemma LastIsApart(owed: set<Buffer>, data: seq<Buffer>)
    requires FairData(owed, data) && data != []
    ensures var last := data[|data| - 1];
            last.pAddr != 0 && (forall b | b in owed :: b.pAddr != last.pAddr)
            && forall b | b in data[..|data| - 1] :: b.pAddr != last.pAddr
  {
  }

  lemma DataApart(owed: set<Buffer>, data: seq<Buffer>, b: Buffer)
    requires FairData(owed, data) && b in data
    ensures b !in owed && forall c | c in owed :: c.pAddr != b.pAddr
  {
  }

  /** Filling keeps the pool exact, whatever happened since the header was taken. */
  lemma FillExact(p: Pool, header: Option<nat>, o: Outcome, max: nat)
    requires Exact(p) && FairOp(p.taken, Outstanding(p), Fill(header, o), max)
    ensures Exact(Step(p, Fill(header, o), max))
  {
    hide Outstanding, FairData;
    forall h | h in p.held ensures p.held[h] in Outstanding(p) { HeldOutstanding(p, h); }
    forall b | b in p.loose ensures b in Outstanding(p) { LooseOutstanding(p, b); }
    if DeliversSome(o, max) {
      forall b | b in o.data ensures forall c | c in Outstanding(p) :: c.pAddr != b.pAddr {
        DataApart(Outstanding(p), o.data, b);
      }
    }
    if header.Some? {
      var h := header.value;
      if DeliversSome(o, max) {
        var n := |o.data| - 1;
        LastIsApart(Outstanding(p), o.data);
        HandOut(p, h, o.data[n], p.loose + set b | b in o.data[..n]);
      } else {
        Leak(p, h);
      }
    }
  }

  /** Every delivered buffer becomes outstanding, and nothing else changes hands. */
  lemma FillOutstanding(p: Pool, header: Option<nat>, o: Outcome, max: nat)
    requires Exact(p) && (header.Some? ==> header.value in p.taken)
    ensures Outstanding(Step(p, Fill(header, o), max))
         == Outstanding(p) + (if Delivers(o, max) then set b | b in o.data else {})
  {
    hide Filled;
    if DeliversSome(o, max) && header.Some? {
      var after, n := Step(p, Fill(header, o), max), |o.data| - 1;
      assert o.data == o.data[..n] + [o.data[n]];
      assert after.held[header.value] == o.data[n];
      forall h | h in p.held ensures after.held[h] == p.held[h] {}
    }
  }

  /** A returned buffer frees its own header and no other; one without a header frees nothing. */
  lemma ReturnFreesOwn(p: Pool, buf: Buffer, next: Option<Buffer>, max: nat)
    requires Exact(p) && FairOp(p.taken, Outstanding(p), Return(buf, next), max)
    ensures var b := Freed(Return(buf, next)); var after := Returned(p.nodes, buf, next);
            && (forall h | h in p.held && p.held[h].pAddr == b.pAddr ::
                  p.held[h] == b && after == p.nodes[h := Node(false, b.(pAddr := 0))])
            && ((forall h | h in p.held :: p.held[h].pAddr != b.pAddr) ==> after == p.nodes)
  {
    var b := Freed(Return(buf, next));
    var i := First(p.nodes, AtP(b.pAddr));
    forall h | h in p.held && p.held[h].pAddr == b.pAddr
      ensures p.held[h] == b && i == h && AtV(b.vAddr)(p.nodes[h])
    {
      HeldOutstanding(p, h);
      assert AtP(b.pAddr)(p.nodes[h]);
    }
    if i < |p.nodes| { assert p.held[i].pAddr == b.pAddr; }
  }

  lemma TakeBack(p: Pool, a: nat, h: nat)
    requires Exact(p) && h in p.held && p.held[h].pAddr == a
    ensures Exact(Without(p, a, p.nodes[h := Node(false, p.held[h].(pAddr := 0))]))
  {
    var after := Without(p, a, p.nodes[h := Node(false, p.held[h].(pAddr := 0))]);
    assert forall g | g in p.held && g != h :: p.held[g].pAddr != a;
    assert forall g :: g in after.held <==> g in p.held && g != h;
  }

  lemma TakeLoose(p: Pool, a: nat)
    requires Exact(p) && forall h | h in p.held :: p.held[h].pAddr != a
    ensures Exact(Without(p, a, p.nodes))
  {
    assert Without(p, a, p.nodes).held == p.held;
  }

  lemma WithoutOutstanding(p: Pool, a: nat, nodes: seq<Node>)
    ensures Outstanding(Without(p, a, nodes)) == set b | b in Outstanding(p) && b.pAddr != a
  {
    var after := Without(p, a, nodes);
    forall b | b in Outstanding(p) && b.pAddr != a ensures b in Outstanding(after) {
      if b !in p.loose {
        var h :| h in p.held && p.held[h] == b;
        assert h in after.held && after.held[h] == b;
      }
    }
  }

  lemma ReturnExact(p: Pool, buf: Buffer, next: Option<Buffer>, max: nat)
    requires Exact(p) && FairOp(p.taken, Outstanding(p), Return(buf, next), max)
    ensures var op := Return(buf, next); var after := Step(p, op, max);
            && Exact(after)
            && Outstanding(after) == (set b | b in Outstanding(p) && b.pAddr != Freed(op).pAddr)
  {
    ReturnFreesOwn(p, buf, next, max);
    hide FairOp, Returned, Exact, Outstanding;
    var a := Freed(Return(buf, next)).pAddr;
    WithoutOutstanding(p, a, Returned(p.nodes, buf, next));
    if h :| h in p.held && p.held[h].pAddr == a {
      TakeBack(p, a, h);
    } else {
      TakeLoose(p, a);
    }
  }

  lemma StepExact(p: Pool, op: Op, max: nat)
    requires Exact(p) && FairOp(p.taken, Outstanding(p), op, max)
    ensures Exact(Step(p, op, max)) && |Step(p, op, max).nodes| == |p.nodes|
  {
    hide Exact, FairOp;
    match op
    case Take => TakeExact(p, max);
    case Fill(header, o) => FillExact(p, header, o, max);
    case Return(buf, next) => ReturnExact(p, buf, next, max);
  }

  lemma StepOutstanding(p: Pool, op: Op, max: nat)
    requires Exact(p) && FairOp(p.taken, Outstanding(p), op, max)
    ensures var out, after := Outstanding(p), Outstanding(Step(p, op, max));
            match op
            case Take => after == out
            case Fill(_, o) => after == if Delivers(o, max) then out + (set b | b in o.data) else out
            case Return(_, _) => after == set b | b in out && b.pAddr != Freed(op).pAddr
  {
    hide Exact, Step, Outstanding;
    match op
    case Take => TakeExact(p, max);
    case Fill(header, o) => FillOutstanding(p, header, o, max);
    case Return(buf, next) => ReturnExact(p, buf, next, max);
  }

  /** In every fair run, dequeues and returns interleaved at will, the buffers owed are the ones held
      with their headers plus the ones delivered without, and the pool is exact about the former. */
  lemma {:induction false} RunExact(count: nat, ops: seq<Op>, max: nat)
    requires Fair(count, ops, max)
    ensures Exact(Run(count, ops, max)) && |Run(count, ops, max).nodes| == count
    ensures Outstanding(Run(count, ops, max)) == Owed(ops, max)
  {
    hide Exact, Step, Outstanding, FairOp;
    if ops == [] {
      ClearedExact(count);
    } else {
      var n := |ops| - 1;
      RunExact(count, ops[..n], max);
      var p := Run(count, ops[..n], max);
      StepExact(p, ops[n], max);
      StepOutstanding(p, ops[n], max);
    }
  }

  lemma ClearedExact(count: nat)
    ensures Exact(Cleared(count)) && Outstanding(Cleared(count)) == {}
  {
  }

  ghost function Indices(n: nat): (s: set<nat>)
    ensures |s| == n && forall i: nat :: i in s <==> i < n
  {
    if n == 0 then {} else Indices(n - 1) + {n - 1}
  }

  /** No header is lost or made: each is free, with a dequeue under way, out with a buffer, or leaked. A
      dequeue finds one exactly while fewer than all are one of the latter. */
  lemma Conserved(p: Pool)
    requires Exact(p)
    ensures |p.held| + |p.leaked| + |p.taken| <= |p.nodes|
    ensures HeaderOf(p.nodes).Some? <==> |p.held| + |p.leaked| + |p.taken| < |p.nodes|
  {
    FirstVacant(p);
    Bounded(p);
    hide Exact, First, Vacant;
    var held := p.held.Keys;
    assert |held| == |p.held|;
    AllTaken(held, p.leaked, p.taken, |p.nodes|);
  }

  lemma AllTaken(held: set<nat>, leaked: set<nat>, taken: set<nat>, n: nat)
    requires held !! leaked && held !! taken && leaked !! taken && forall h | h in held + leaked + taken :: h < n
    ensures |held| + |leaked| + |taken| <= n
    ensures |held| + |leaked| + |taken| < n <==> exists k: nat :: k < n && k !in held && k !in leaked && k !in taken
  {
    var out := held + leaked + taken;
    assert |out| == |held| + |leaked| + |taken|;
    Subset(out, Indices(n));
    if k: nat :| k < n && k !in held && k !in leaked && k !in taken {
      Subset(out, Indices(n) - {k});
    } else {
      assert out == Indices(n);
    }
  }

  lemma Bounded(p: Pool)
    requires Exact(p)
    ensures forall h | h in p.held :: h < |p.nodes| && h !in p.leaked && h !in p.taken
    ensures forall h | h in p.leaked :: h < |p.nodes| && h !in p.taken
    ensures forall h | h in p.taken :: h < |p.nodes|
  {
  }

  lemma {:induction false} Subset(a: set<nat>, b: set<nat>)
    requires a <= b
    ensures |a| <= |b|
  {
    if a == {} {
    } else {
      var x :| x in a;
      Subset(a - {x}, b - {x});
    }
  }

  /** A dequeue that has a header and delivers nothing. */
  predicate IsBarren(op: Op, max: nat) { op.Fill? && op.header.Some? && !DeliversSome(op.o, max) }

  /** How many such dequeues a run has. */
  function Barren(ops: seq<Op>, max: nat): nat {
    if ops == [] then 0 else Barren(ops[..|ops| - 1], max) + Bit(IsBarren(ops[|ops| - 1], max))
  }

  lemma LeakStep(p: Pool, op: Op, max: nat)
    requires Exact(p) && (op.Fill? && op.header.Some? ==> op.header.value in p.taken)
    ensures p.leaked <= Step(p, op, max).leaked && |Step(p, op, max).leaked| == |p.leaked| + Bit(IsBarren(op, max))
  {
  }

  /** No fair run gives a leaked header back: as many are leaked as dequeues had a header and delivered
      nothing. */
  lemma {:induction false} LeaksStay(count: nat, ops: seq<Op>, max: nat)
    requires Fair(count, ops, max)
    ensures |Run(count, ops, max).leaked| == Barren(ops, max)
  {
    hide Step, IsBarren, Exact;
    if ops == [] {
    } else {
      var n := |ops| - 1;
      LeaksStay(count, ops[..n], max);
      RunExact(count, ops[..n], max);
      LeakStep(Run(count, ops[..n], max), ops[n], max);
    }
  }

  /** What the code makes of the address zero, in any exact pool: it frees the first header that holds
      no address, which is no buffer's own, and which a dequeue has under way or leaked exactly when it
      comes before the first free one. */
  lemma ZeroAddressFrees(p: Pool, buf: Buffer)
    requires Exact(p) && buf.pAddr == 0
    ensures var i := First(p.nodes, AtP(0)); var after := Returned(p.nodes, buf, None);
            && i <= First(p.nodes, Vacant())
            && (i == |p.nodes| ==> after == p.nodes)
            && (i < |p.nodes| ==>
                  && i !in p.held && after == p.nodes[i := p.nodes[i].(occupied := false)]
                  && (i in p.leaked + p.taken <==> i < First(p.nodes, Vacant())))
  {
    FirstVacant(p);
    var i, v := First(p.nodes, AtP(0)), First(p.nodes, Vacant());
    assert v < |p.nodes| ==> AtP(0)(p.nodes[v]);
    if i < v && i < |p.nodes| { assert !Vacant()(p.nodes[i]); }
  }
}
