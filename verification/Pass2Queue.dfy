/** The pass-2 buffer lists, one per command queue, duplicate and DMA channel: buffers are pushed
    at the back, and a dequeue asks the MDP first and pops the front unless told it is not ready. */
module Pass2Queue {
  import opened Basics

  datatype Dma = Imgi | Wrot | Wdma | Jpeg | VencStream | Img2o | Img3o | Imgo | Other(channel: nat)

  /** `imgxoEnP2` of the queue's MDP configuration. */
  datatype Imgxo = EnImg2o | EnImg3o | EnNeither

  datatype Status = Empty | Filled

  datatype Buffer = Buffer(memID: int, size: nat, vAddr: nat, pAddr: nat, status: Status, jpgSize: nat)

  /** A buffer whatever its status and, for JPEG, its final size. */
  function Same(b: Buffer): Buffer { b.(status := Empty, jpgSize := 0) }

  datatype MdpRet = NoError | VssNotReady | Error

  datatype Ret = Success | NotReady | Failed

  datatype Key = Key(p2Cq: nat, dup: nat, dma: Dma)

  /** Whether a dequeue of the channel goes through the MDP, `ip` being the drvScenario. */
  predicate AsksMdp(dma: Dma, ip: bool, imgxo: Imgxo) {
    match dma
    case Imgi => !ip
    case Wrot | Wdma | Jpeg | VencStream | Imgo => true
    case Img2o => imgxo == EnImg2o
    case Img3o => imgxo == EnImg3o
    case Other(_) => false
  }

  /** What the dequeue of a non-empty list returns; a channel the MDP has no part in succeeds. */
  function Answer(asks: bool, mdp: MdpRet): Ret {
    if !asks || mdp == NoError then Success else if mdp == VssNotReady then NotReady else Failed
  }

  // ---- One list: what went in and what came out since it was last cleared

  datatype Delivery = Delivery(buffer: Buffer, ret: Ret)

  datatype Event = Enqueue(buffer: Buffer) | Dequeue(answer: Ret, jpgSize: Option<nat>) | Clear

  datatype List = List(queue: seq<Buffer>, enqueued: seq<Buffer>, delivered: seq<Delivery>)

  function Marked(b: Buffer, jpgSize: Option<nat>): Buffer {
    if jpgSize.Some? then b.(status := Filled, jpgSize := jpgSize.value) else b.(status := Filled)
  }

  function Step(l: List, e: Event): List {
    match e
    case Enqueue(b) => List(l.queue + [b], l.enqueued + [b], l.delivered)
    case Clear => List([], [], [])
    case Dequeue(answer, jpgSize) =>
      if l.queue == [] || answer == Failed then l
      else
        var front := Marked(l.queue[0], jpgSize);
        l.(queue := if answer == NotReady then [front] + l.queue[1..] else l.queue[1..],
           delivered := l.delivered + [Delivery(front, answer)])
  }

  function Run(events: seq<Event>): List {
    if events == [] then List([], [], []) else Step(Run(events[..|events| - 1]), events[|events| - 1])
  }

  /** How many of the deliveries took their buffer off the list. */
  function Taken(d: seq<Delivery>): (n: nat)
    ensures n <= |d|
  {
    if d == [] then 0 else Taken(d[..|d| - 1]) + if d[|d| - 1].ret == Success then 1 else 0
  }

  /** The list holds what was enqueued and not yet taken, in order. */
  ghost predicate Rest(queue: seq<Buffer>, enqueued: seq<Buffer>, taken: nat) {
    && taken + |queue| == |enqueued|
    && forall k | 0 <= k < |queue| :: Same(queue[k]) == Same(enqueued[taken + k])
  }

  /** The n-th delivery is of the first buffer that the ones before it have not taken. */
  ghost predicate Sent(d: seq<Delivery>, enqueued: seq<Buffer>, n: nat)
    requires n < |d|
  {
    var t := Taken(d[..n]);
    t < |enqueued| && Same(d[n].buffer) == Same(enqueued[t]) && d[n].buffer.status == Filled && d[n].ret != Failed
  }

  ghost predicate InOrder(l: List) {
    && Rest(l.queue, l.enqueued, Taken(l.delivered))
    && forall n | 0 <= n < |l.delivered| :: Sent(l.delivered, l.enqueued, n)
  }

  lemma SentStays(d: seq<Delivery>, d': seq<Delivery>, enqueued: seq<Buffer>, enqueued': seq<Buffer>, n: nat)
    requires n < |d| && d <= d' && enqueued <= enqueued' && Sent(d, enqueued, n)
    ensures Sent(d', enqueued', n)
  {
    assert d'[..n] == d[..n];
  }

  lemma TakenSnoc(d: seq<Delivery>, last: Delivery)
    ensures Taken(d + [last]) == Taken(d) + if last.ret == Success then 1 else 0
  {
    assert (d + [last])[..|d|] == d;
  }

  lemma StepInOrder(l: List, e: Event)
    requires InOrder(l)
    ensures InOrder(Step(l, e))
  {
    hide Sent, Taken;
    var after := Step(l, e);
    if !e.Clear? {
      forall n | 0 <= n < |l.delivered| ensures Sent(after.delivered, after.enqueued, n) {
        SentStays(l.delivered, after.delivered, l.enqueued, after.enqueued, n);
      }
      if e.Dequeue? && l.queue != [] && e.answer != Failed {
        FrontSent(l, e.answer, e.jpgSize);
        TakenSnoc(l.delivered, Delivery(Marked(l.queue[0], e.jpgSize), e.answer));
      }
    } else {
      NothingTaken();
    }
  }

  lemma NothingTaken()
    ensures Taken([]) == 0
  {
  }

  lemma FrontSent(l: List, answer: Ret, jpgSize: Option<nat>)
    requires l.queue != [] && answer != Failed && Rest(l.queue, l.enqueued, Taken(l.delivered))
    ensures Sent(Step(l, Dequeue(answer, jpgSize)).delivered, l.enqueued, |l.delivered|)
  {
    assert Step(l, Dequeue(answer, jpgSize)).delivered[..|l.delivered|] == l.delivered;
    assert Same(l.queue[0]) == Same(l.enqueued[Taken(l.delivered) + 0]);
  }

  /** Buffers leave in the order they were enqueued, none skipped, none twice: whatever the MDP
      answers, the n-th delivery since the last clear is of the enqueued buffer whose position is the
      number of successful deliveries before it, and the rest is still on the list. */
  lemma {:induction false} RunInOrder(events: seq<Event>)
    ensures InOrder(Run(events))
  {
    if events == [] {
    } else {
      RunInOrder(events[..|events| - 1]);
      StepInOrder(Run(events[..|events| - 1]), events[|events| - 1]);
    }
  }

  lemma {:induction false} TakenMono(d: seq<Delivery>, m: nat, n: nat)
    requires m <= n <= |d|
    ensures Taken(d[..m]) <= Taken(d[..n])
    ensures Taken(d[..m]) == Taken(d[..n]) <==> forall k | m <= k < n :: d[k].ret != Success
  {
    if m < n {
      TakenMono(d, m, n - 1);
      assert d[..n][..n - 1] == d[..n - 1];
    }
  }

  /** With buffers told apart by identity, two deliveries are of one buffer exactly when every answer
      from the first up to the second was not-ready. */
  lemma RedeliveredExactly(events: seq<Event>, m: nat, n: nat)
    requires var l := Run(events); m < n < |l.delivered|
    requires var l := Run(events); forall i, j | 0 <= i < j < |l.enqueued| :: Same(l.enqueued[i]) != Same(l.enqueued[j])
    ensures var d := Run(events).delivered;
            Same(d[m].buffer) == Same(d[n].buffer) <==> forall k | m <= k < n :: d[k].ret == NotReady
  {
    RunInOrder(events);
    var d, e := Run(events).delivered, Run(events).enqueued;
    TakenMono(d, m, n);
    assert Sent(d, e, m) && Sent(d, e, n);
    forall k | m <= k < n ensures d[k].ret == NotReady <==> d[k].ret != Success {
      assert Sent(d, e, k);
    }
  }

  // ---- All lists

  class Pass2Buffers {
    var lists: map<Key, seq<Buffer>>
    /** What each list took in and gave out since it was last cleared. */
    ghost var enqueued: map<Key, seq<Buffer>>
    ghost var delivered: map<Key, seq<Delivery>>

    ghost function ListOf(k: Key): List
      reads this
    {
      List(if k in lists then lists[k] else [],
           if k in enqueued then enqueued[k] else [],
           if k in delivered then delivered[k] else [])
    }

    constructor ()
      ensures forall k :: ListOf(k) == Run([])
    {
      lists, enqueued, delivered := map[], map[], map[];
    }

    method EnqueueHwBuf(k: Key, memID: int, size: nat, vAddr: nat, pAddr: nat)
      modifies this
      ensures ListOf(k) == Step(old(ListOf(k)), Enqueue(Buffer(memID, size, vAddr, pAddr, Empty, 0)))
      ensures ListOf(k).queue == old(ListOf(k)).queue + [Buffer(memID, size, vAddr, pAddr, Empty, 0)]
      ensures forall j | j != k :: ListOf(j) == old(ListOf(j))
    {
      var b := Buffer(memID, size, vAddr, pAddr, Empty, 0);
      lists := lists[k := (if k in lists then lists[k] else []) + [b]];
      enqueued := enqueued[k := (if k in enqueued then enqueued[k] else []) + [b]];
    }

    /** `stop` and `init` clear lists, `stop` those of all the DMA channels of a duplicate. */
    method ClearLists(cleared: set<Key>)
      modifies this
      ensures forall k :: ListOf(k) == if k in cleared then Step(old(ListOf(k)), Clear) else old(ListOf(k))
      ensures forall k | k in cleared :: ListOf(k).queue == []
    {
      lists := lists - cleared;
      enqueued := enqueued - cleared;
      delivered := delivered - cleared;
    }

    /** The front goes out marked as filled; unless it is kept it leaves the list. */
    method Deliver(k: Key, keep: bool, jpg: Option<nat>) returns (front: Buffer)
      requires k in lists && lists[k] != []
      modifies this
      ensures var ret := if keep then NotReady else Success;
              && ListOf(k) == Step(old(ListOf(k)), Dequeue(ret, jpg))
              && ListOf(k).delivered == old(ListOf(k)).delivered + [Delivery(front, ret)]
      ensures var queue := old(ListOf(k)).queue;
              && front == queue[0].(status := Filled, jpgSize := if jpg.Some? then jpg.value else queue[0].jpgSize)
              && ListOf(k).queue == if keep then [front] + queue[1..] else queue[1..]
      ensures forall j | j != k :: ListOf(j) == old(ListOf(j))
    {
      var queue := lists[k];
      front := queue[0].(status := Filled);
      if jpg.Some? {
        front := front.(jpgSize := jpg.value);
      }
      delivered := delivered[k := (if k in delivered then delivered[k] else [])
                                  + [Delivery(front, if keep then NotReady else Success)]];
      lists := lists[k := if keep then [front] + queue[1..] else queue[1..]];
    }

    /** The pass-2 branch of `dequeueHwBuf`, `mdp` and `jpg` being what the MDP would answer. */
    method DequeueHwBuf(k: Key, ip: bool, imgxo: Imgxo, mdp: MdpRet, jpg: nat) returns (ret: Ret, list: seq<Buffer>)
      modifies this
      ensures ret == if |old(ListOf(k)).queue| == 0 then Failed else Answer(AsksMdp(k.dma, ip, imgxo), mdp)
      ensures ListOf(k) == Step(old(ListOf(k)), Dequeue(ret, if k.dma == Jpeg then Some(jpg) else None))
      ensures forall j | j != k :: ListOf(j) == old(ListOf(j))
      ensures ret == Failed ==> list == []
      ensures ret != Failed ==>
                |list| == 1 && ListOf(k).delivered == old(ListOf(k)).delivered + [Delivery(list[0], ret)]
      // Nothing is delivered from an empty list.
      ensures old(ListOf(k)).queue == [] ==> ret == Failed && list == [] && ListOf(k) == old(ListOf(k))
      // On a channel that goes through the MDP an error delivers nothing, and a buffer that is not ready is
      // delivered and stays at the front.
      ensures var queue, after := old(ListOf(k)).queue, ListOf(k).queue;
              && queue != []
              && (k.dma in {Wrot, Wdma, Jpeg, VencStream, Imgo} || (k.dma == Imgi && !ip)
                  || (k.dma == Img2o && imgxo == EnImg2o) || (k.dma == Img3o && imgxo == EnImg3o)) ==>
                var front := queue[0].(status := Filled, jpgSize := if k.dma == Jpeg then jpg else queue[0].jpgSize);
                match mdp
                case NoError => ret == Success && list == [front] && after == queue[1..]
                case VssNotReady => ret == NotReady && list == [front] && after == [front] + queue[1..]
                case Error => ret == Failed && list == [] && after == queue
      // On the others the front is delivered whatever the MDP says.
      ensures var queue := old(ListOf(k)).queue;
              && queue != []
              && (k.dma.Other? || (k.dma == Imgi && ip)
                  || (k.dma == Img2o && imgxo != EnImg2o) || (k.dma == Img3o && imgxo != EnImg3o)) ==>
                ret == Success && list == [queue[0].(status := Filled)] && ListOf(k).queue == queue[1..]
    {
      var queue := if k in lists then lists[k] else [];
      if |queue| == 0 {
        return Failed, [];
      }
      var asks := false;
      match k.dma {
        case Imgi => asks := !ip;
        case Wrot | Wdma | Jpeg | VencStream | Imgo => asks := true;
        case Img2o => asks := imgxo == EnImg2o;
        case Img3o => asks := imgxo == EnImg3o;
        case Other(_) => asks := false;
      }
      ret := Success;
      if asks {
        if mdp == VssNotReady {
          ret := NotReady;
        } else if mdp != NoError {
          return Failed, [];
        }
      }
      var front := Deliver(k, asks && ret == NotReady, if k.dma == Jpeg then Some(jpg) else None);
      list := [front];
    }
  }
}
