/** The three-level MDP configuration table carved out of one flat allocation: a layer of
    pointers per burst, a layer of pointers per command queue, and the structures themselves. */
module MdpLayout {

  /** The sizes the build fixes: bursts, command queues, duplicates, and the bytes of a pointer
      and of one configuration structure. */
  datatype Shape = Shape(bursts: nat, cqs: nat, dups: nat, pointer: nat, struct: nat)
  {
    function Queues(): nat { bursts * cqs }

    function Slots(): nat { bursts + Queues() }

    function Structs(): nat { Queues() * dups }

    /** Bytes asked for, with room for the alignment. */
    function Size(): nat {
      bursts * pointer + Queues() * pointer + Structs() * struct + 8 + 0x100
    }
  }

  /** `(virtAddr + 7 + 0x100) & ~7`. */
  function Aligned(virtAddr: nat): (gp: nat)
    ensures gp % 8 == 0 && virtAddr + 0x100 <= gp <= virtAddr + 0x107
  {
    var x := virtAddr + 7 + 0x100;
    x - x % 8
  }

  /** Address of the n-th pointer of the two pointer layers, laid out without a gap. */
  function SlotAddr(s: Shape, gp: nat, n: nat): nat { gp + n * s.pointer }

  /** Address of the n-th structure. */
  function StructAddr(s: Shape, gp: nat, n: nat): nat {
    gp + s.Slots() * s.pointer + n * s.struct
  }

  /** Number of queue (k, i), and of structure (k, i, j). */
  function Queue(s: Shape, k: nat, i: nat): nat { k * s.cqs + i }

  function Index(s: Shape, k: nat, i: nat, j: nat): nat { Queue(s, k, i) * s.dups + j }

  // ---- Arithmetic

  lemma MulMono(a: nat, b: nat, c: nat)
    requires a <= b
    ensures a * c <= b * c
  {
  }

  lemma MulStep(a: nat, b: nat, c: nat)
    requires a < b
    ensures a * c + c <= b * c
  {
    MulMono(a + 1, b, c);
    assert (a + 1) * c == a * c + c;
  }

  lemma QueueBound(s: Shape, k: nat, i: nat)
    requires k < s.bursts && i < s.cqs
    ensures Queue(s, k, i) < s.Queues()
  {
    MulStep(k, s.bursts, s.cqs);
  }

  lemma IndexBound(s: Shape, k: nat, i: nat, j: nat)
    requires k < s.bursts && i < s.cqs && j < s.dups
    ensures Index(s, k, i, j) < s.Structs()
  {
    QueueBound(s, k, i);
    MulStep(Queue(s, k, i), s.Queues(), s.dups);
  }

  /** A mixed-radix pair names one number only. */
  lemma PairUnique(a: nat, b: nat, c: nat, d: nat, radix: nat)
    requires b < radix && d < radix && a * radix + b == c * radix + d
    ensures a == c && b == d
  {
    if a < c { MulStep(a, c, radix); }
    else if c < a { MulStep(c, a, radix); }
  }

  lemma IndexUnique(s: Shape, k: nat, i: nat, j: nat, k': nat, i': nat, j': nat)
    requires i < s.cqs && i' < s.cqs && j < s.dups && j' < s.dups
    requires Index(s, k, i, j) == Index(s, k', i', j')
    ensures k == k' && i == i' && j == j'
  {
    PairUnique(Queue(s, k, i), j, Queue(s, k', i'), j', s.dups);
    PairUnique(k, i, k', i', s.cqs);
  }

  lemma SlotUnique(s: Shape, gp: nat, m: nat, n: nat)
    requires s.pointer > 0
    ensures SlotAddr(s, gp, m) == SlotAddr(s, gp, n) <==> m == n
  {
    if m < n { MulStep(m, n, s.pointer); }
    else if n < m { MulStep(n, m, s.pointer); }
  }

  lemma Times(a: nat, b: nat, c: nat)
    ensures (a + b) * c == a * c + b * c
  {
  }

  lemma QueueSteps(s: Shape, i: nat, j: nat)
    ensures Queue(s, 0, 0) == 0 && Queue(s, i, j + 1) == Queue(s, i, j) + 1
    ensures Queue(s, i, s.cqs) == Queue(s, i + 1, 0) && Queue(s, i, j) == Queue(s, i, 0) + j
    ensures Queue(s, s.bursts, 0) == s.Queues()
  {
    Times(i, 1, s.cqs);
  }

  lemma SlotSteps(s: Shape, gp: nat, n: nat, m: nat)
    ensures SlotAddr(s, gp, n) + m * s.pointer == SlotAddr(s, gp, n + m)
  {
    Times(n, m, s.pointer);
  }

  lemma StructSteps(s: Shape, gp: nat, q: nat)
    ensures StructAddr(s, gp, q * s.dups) + s.dups * s.struct == StructAddr(s, gp, (q + 1) * s.dups)
  {
    Times(q, 1, s.dups);
    Times(q * s.dups, s.dups, s.struct);
  }

  // ---- Filling

  /** What the n-th pointer of the two layers is set to: a row of the second layer, or the first
      duplicate of its queue's structures. */
  function Target(s: Shape, gp: nat, n: nat): nat {
    if n < s.bursts then SlotAddr(s, gp, s.bursts + Queue(s, n, 0))
    else StructAddr(s, gp, (n - s.bursts) * s.dups)
  }

  /** The pointers already set: `rows` of the first layer and `q` of the second. */
  predicate Done(s: Shape, rows: nat, q: nat, n: nat) {
    n < rows || s.bursts <= n < s.bursts + q
  }

  ghost predicate Set(s: Shape, gp: nat, words: map<nat, nat>, n: nat) {
    SlotAddr(s, gp, n) in words && words[SlotAddr(s, gp, n)] == Target(s, gp, n)
  }

  /** Every pointer done has its target, and nothing outside the two layers differs from `before`. */
  ghost predicate Filled(s: Shape, gp: nat, words: map<nat, nat>, rows: nat, q: nat, before: map<nat, nat>) {
    && (forall n: nat | Done(s, rows, q, n) :: Set(s, gp, words, n))
    && (forall a | a in before && (forall n: nat | n < s.Slots() :: a != SlotAddr(s, gp, n)) ::
          a in words && words[a] == before[a])
  }

  /** No write clobbers an earlier pointer: setting the next one of either layer keeps the rest. */
  lemma FillSlot(s: Shape, gp: nat, words: map<nat, nat>, before: map<nat, nat>,
                 rows: nat, q: nat, rows': nat, q': nat, n: nat)
    requires s.pointer > 0 && n < s.Slots() && Filled(s, gp, words, rows, q, before)
    requires forall m: nat :: Done(s, rows', q', m) ==> m == n || Done(s, rows, q, m)
    ensures Filled(s, gp, words[SlotAddr(s, gp, n) := Target(s, gp, n)], rows', q', before)
  {
    hide SlotAddr, Target, Done, Shape.Slots;
    forall m: nat ensures SlotAddr(s, gp, m) == SlotAddr(s, gp, n) <==> m == n {
      SlotUnique(s, gp, m, n);
    }
    var after := words[SlotAddr(s, gp, n) := Target(s, gp, n)];
    forall m: nat | Done(s, rows', q', m) ensures Set(s, gp, after, m) {
      if m != n { assert Set(s, gp, words, m); }
    }
  }

  lemma NothingFilled(s: Shape, gp: nat, words: map<nat, nat>)
    ensures Filled(s, gp, words, 0, 0, words)
  {
  }

  /** A pointer already set reads as its target. */
  lemma ReadSlot(s: Shape, gp: nat, words: map<nat, nat>, before: map<nat, nat>, rows: nat, q: nat, n: nat)
    requires Filled(s, gp, words, rows, q, before) && Done(s, rows, q, n)
    ensures SlotAddr(s, gp, n) in words && words[SlotAddr(s, gp, n)] == Target(s, gp, n)
  {
    hide SlotAddr, Target, Done, Shape.Slots;
    assert Set(s, gp, words, n);
  }

  /** Memory by address, one word at a time. */
  class Memory {
    var words: map<nat, nat>

    /** The pointer-filling loops of `controlBurstQueBuffer`. */
    method FillPointers(s: Shape, gp: nat)
      requires s.pointer > 0
      modifies this
      ensures Filled(s, gp, words, s.bursts, s.Queues(), old(words))
    {
      hide Queue, SlotAddr, StructAddr, Filled, Shape.Queues;
      ghost var before := words;
      var layer1 := SlotAddr(s, gp, s.bursts);
      var layer2 := StructAddr(s, gp, 0);
      QueueSteps(s, 0, 0);
      NothingFilled(s, gp, words);
      var i := 0;
      while i < s.bursts
        invariant 0 <= i <= s.bursts
        invariant Filled(s, gp, words, i, Queue(s, i, 0), before)
        invariant layer1 == SlotAddr(s, gp, s.bursts + Queue(s, i, 0))
        invariant layer2 == StructAddr(s, gp, Queue(s, i, 0) * s.dups)
      {
        FillSlot(s, gp, words, before, i, Queue(s, i, 0), i + 1, Queue(s, i, 0), i);
        words := words[SlotAddr(s, gp, i) := layer1];
        var j := 0;
        while j < s.cqs
          invariant 0 <= j <= s.cqs
          invariant Filled(s, gp, words, i + 1, Queue(s, i, j), before)
          invariant layer2 == StructAddr(s, gp, Queue(s, i, j) * s.dups)
        {
          ReadSlot(s, gp, words, before, i + 1, Queue(s, i, j), i);
          var row := words[SlotAddr(s, gp, i)];
          QueueBound(s, i, j);
          QueueSteps(s, i, j);
          SlotSteps(s, gp, s.bursts + Queue(s, i, 0), j);
          FillSlot(s, gp, words, before, i + 1, Queue(s, i, j), i + 1, Queue(s, i, j) + 1, s.bursts + Queue(s, i, j));
          words := words[row + j * s.pointer := layer2];
          StructSteps(s, gp, Queue(s, i, j));
          layer2 := layer2 + s.dups * s.struct;
          j := j + 1;
        }
        QueueSteps(s, i, s.cqs);
        SlotSteps(s, gp, s.bursts + Queue(s, i, 0), s.cqs);
        layer1 := layer1 + s.cqs * s.pointer;
        i := i + 1;
      }
      QueueSteps(s, 0, 0);
    }
  }

  // ---- What the filled table looks like

  /** `gpMdpMgrCfgData[k][i]` read through the two pointer layers, plus `j` structures. */
  function Entry(s: Shape, gp: nat, words: map<nat, nat>, k: nat, i: nat, j: nat): nat
    requires SlotAddr(s, gp, k) in words && words[SlotAddr(s, gp, k)] + i * s.pointer in words
  {
    words[words[SlotAddr(s, gp, k)] + i * s.pointer] + j * s.struct
  }

  lemma EntryIs(s: Shape, gp: nat, words: map<nat, nat>, before: map<nat, nat>, k: nat, i: nat, j: nat)
    requires Filled(s, gp, words, s.bursts, s.Queues(), before)
    requires k < s.bursts && i < s.cqs
    ensures SlotAddr(s, gp, k) in words && words[SlotAddr(s, gp, k)] + i * s.pointer in words
    ensures Entry(s, gp, words, k, i, j) == StructAddr(s, gp, Index(s, k, i, j))
  {
    hide Queue, SlotAddr, Filled, Shape.Queues;
    QueueBound(s, k, i);
    QueueSteps(s, k, i);
    ReadSlot(s, gp, words, before, s.bursts, s.Queues(), k);
    SlotSteps(s, gp, s.bursts + Queue(s, k, 0), i);
    ReadSlot(s, gp, words, before, s.bursts, s.Queues(), s.bursts + Queue(s, k, i));
    Times(Queue(s, k, i) * s.dups, j, s.struct);
  }

  /** Where entry (k, i, j) is: behind all pointers, at its place in row-major order. */
  lemma EntryPlace(s: Shape, gp: nat, words: map<nat, nat>, before: map<nat, nat>, k: nat, i: nat, j: nat)
    requires Filled(s, gp, words, s.bursts, s.Queues(), before)
    requires k < s.bursts && i < s.cqs
    ensures SlotAddr(s, gp, k) in words && words[SlotAddr(s, gp, k)] + i * s.pointer in words
    ensures SlotAddr(s, gp, k) == gp + k * s.pointer
    ensures Entry(s, gp, words, k, i, j)
         == gp + (s.bursts + s.bursts * s.cqs) * s.pointer + ((k * s.cqs + i) * s.dups + j) * s.struct
  {
    EntryIs(s, gp, words, before, k, i, j);
    hide Filled, Entry;
  }

  /** The allocation is no larger than it has to be: from 1 to 8 bytes lie behind the last structure. */
  lemma AllocationTight(s: Shape, virtAddr: nat)
    ensures var gp := Aligned(virtAddr);
            && gp % 8 == 0
            && 1 <= virtAddr + s.Size() - StructAddr(s, gp, s.Structs()) <= 8
  {
    Times(s.bursts, s.Queues(), s.pointer);
  }

  /** Two structures do not overlap. */
  lemma StructsApart(s: Shape, gp: nat, m: nat, n: nat)
    requires m != n
    ensures StructAddr(s, gp, m) + s.struct <= StructAddr(s, gp, n)
            || StructAddr(s, gp, n) + s.struct <= StructAddr(s, gp, m)
  {
    if m < n { MulStep(m, n, s.struct); } else { MulStep(n, m, s.struct); }
  }

  /** A structure lies behind the pointer layers and ends within the allocation. */
  lemma StructInside(s: Shape, virtAddr: nat, n: nat)
    requires n < s.Structs()
    ensures var gp := Aligned(virtAddr);
            && virtAddr <= gp <= SlotAddr(s, gp, s.Slots()) <= StructAddr(s, gp, n)
            && StructAddr(s, gp, n) + s.struct <= virtAddr + s.Size()
  {
    MulStep(n, s.Structs(), s.struct);
    Times(s.bursts, s.Queues(), s.pointer);
  }

  /** Through the filled pointers, distinct indices reach disjoint structures; each lies behind
      both pointer layers and ends within the allocation, and so do the layers. */
  lemma TableSound(s: Shape, virtAddr: nat, words: map<nat, nat>, before: map<nat, nat>,
                   k: nat, i: nat, j: nat, k': nat, i': nat, j': nat)
    requires var gp := Aligned(virtAddr); Filled(s, gp, words, s.bursts, s.Queues(), before)
    requires k < s.bursts && i < s.cqs && j < s.dups
    requires k' < s.bursts && i' < s.cqs && j' < s.dups
    ensures var gp := Aligned(virtAddr);
            && SlotAddr(s, gp, k) in words && words[SlotAddr(s, gp, k)] + i * s.pointer in words
            && SlotAddr(s, gp, k') in words && words[SlotAddr(s, gp, k')] + i' * s.pointer in words
    ensures var gp := Aligned(virtAddr);
            var e, e' := Entry(s, gp, words, k, i, j), Entry(s, gp, words, k', i', j');
            && virtAddr <= gp <= SlotAddr(s, gp, s.Slots()) <= e
            && e + s.struct <= virtAddr + s.Size()
            && ((k, i, j) != (k', i', j') ==> e + s.struct <= e' || e' + s.struct <= e)
  {
    hide Filled, Queue, Shape.Structs, Shape.Size, StructAddr, Entry, SlotAddr;
    var gp := Aligned(virtAddr);
    EntryIs(s, gp, words, before, k, i, j);
    EntryIs(s, gp, words, before, k', i', j');
    var n, n' := Index(s, k, i, j), Index(s, k', i', j');
    IndexBound(s, k, i, j);
    StructInside(s, virtAddr, n);
    if n == n' { IndexUnique(s, k, i, j, k', i', j'); } else { StructsApart(s, gp, n, n'); }
  }
}
