/** The pool of fixed-size blocks, cut from batches and handed out from a vector of pointers. */
module FixMemoryPool {
  import opened Basics
  import opened Bytes

  /** A pointer: null, or a position in one of the batches. */
  datatype Ptr = Null | Block(batch: nat, offset: nat)

  // ----- slicing a batch

  /** The size of a batch and the offsets of its blocks are 32-bit products. */
  function BatchSize(unit: nat, count: nat): nat { unit * count % UINT32_COUNT }

  function SliceOffset(unit: nat, i: nat): nat { unit * i % UINT32_COUNT }

  ghost predicate SlicesFit(unit: nat, count: nat) {
    forall i: nat | i < count :: SliceOffset(unit, i) + unit <= BatchSize(unit, count)
  }

  lemma SliceInside(unit: nat, count: nat, i: nat)
    requires Sensible(unit, count) && i < count
    ensures SliceOffset(unit, i) + unit <= BatchSize(unit, count)
  {
    Grows(unit, i, count);
  }

  /** Every block lies inside its batch exactly when the product does not wrap. */
  lemma SlicesFitIff(unit: nat, count: nat)
    requires 0 < unit < UINT32_COUNT && 0 < count < UINT32_COUNT
    ensures SlicesFit(unit, count) <==> unit * count < UINT32_COUNT
  {
    if unit * count < UINT32_COUNT {
      forall i: nat | i < count ensures SliceOffset(unit, i) + unit <= BatchSize(unit, count) {
        SliceInside(unit, count, i);
      }
    } else {
      Straddles(unit, count);
    }
  }

  /** The block across the 32-bit boundary ends past anything a batch can hold. */
  lemma Straddles(unit: nat, count: nat)
    requires 0 < unit < UINT32_COUNT && unit * count >= UINT32_COUNT
    ensures !SlicesFit(unit, count)
  {
    var i: nat := (UINT32_COUNT - 1) / unit;
    assert unit * i <= UINT32_COUNT - 1 < unit * i + unit;
    assert i < count by {
      if i >= count {
        if i > count {
          Grows(unit, count, i);
        }
        assert false;
      }
    }
    assert SliceOffset(unit, i) + unit > BatchSize(unit, count);
  }

  lemma SlicesApart(unit: nat, count: nat, i: nat, j: nat)
    requires 0 < unit && unit * count < UINT32_COUNT && i < j < count
    ensures SliceOffset(unit, i) + unit <= SliceOffset(unit, j)
  {
    Grows(unit, i, j);
    Grows(unit, j, count);
  }

  // ----- the pool

  /** `memory` and `next` are the pool's own; `live` is what has been handed out and not given back. */
  datatype Pool = Pool(unit: nat, count: nat, batches: nat, memory: seq<Ptr>, next: nat, live: set<Ptr>)

  function Slices(unit: nat, count: nat, batch: nat): (s: seq<Ptr>)
    ensures |s| == count
  {
    seq(count, i requires 0 <= i < count => Block(batch, SliceOffset(unit, i)))
  }

  /** All blocks of all batches. */
  function AllBlocks(unit: nat, count: nat, batches: nat): set<Ptr> {
    set b, i | 0 <= b < batches && 0 <= i < count :: Block(b, SliceOffset(unit, i))
  }

  function Free(p: Pool): seq<Ptr>
    requires p.next <= |p.memory|
  {
    p.memory[p.next..]
  }

  ghost predicate Distinct(s: seq<Ptr>) { forall i, j | 0 <= i < j < |s| :: s[i] != s[j] }

  /** What the caller must ask for: at least one block of at least one byte, within 32 bits in all. */
  predicate Sensible(unit: nat, count: nat) { 0 < unit && 0 < count && unit * count < UINT32_COUNT }

  /** The free blocks and the live ones are all the blocks, each once, and `next` counts the live ones. The
      pointers before `next` are leftovers. */
  ghost predicate Inv(p: Pool) {
    && Sensible(p.unit, p.count)
    && p.next <= |p.memory|
    && Distinct(Free(p))
    && (forall b | b in Free(p) :: b !in p.live)
    && (forall b :: b in AllBlocks(p.unit, p.count, p.batches) <==> b in Free(p) || b in p.live)
    && |p.live| == p.next
  }

  function Empty(unit: nat, count: nat): Pool { Pool(unit, count, 0, [], 0, {}) }

  /** A new batch, if nothing is free. */
  function Grown(p: Pool): (q: Pool)
    requires p.next <= |p.memory| && p.count > 0
    ensures q.next < |q.memory|
  {
    if p.next >= |p.memory| then
      p.(batches := p.batches + 1, memory := p.memory + Slices(p.unit, p.count, p.batches))
    else p
  }

  function Taken(p: Pool): (Pool, Ptr)
    requires p.next <= |p.memory| && p.count > 0
  {
    var q := Grown(p);
    (Popped(q), q.memory[q.next])
  }

  function Given(p: Pool, b: Ptr): Pool
    requires p.next <= |p.memory|
  {
    if b != Null && p.next > 0 then
      p.(next := p.next - 1, memory := p.memory[p.next - 1 := b], live := p.live - {b})
    else p
  }

  lemma EmptyInv(unit: nat, count: nat)
    requires Sensible(unit, count)
    ensures Inv(Empty(unit, count))
  {
  }

  lemma SlicesDistinct(unit: nat, count: nat, batch: nat)
    requires Sensible(unit, count)
    ensures Distinct(Slices(unit, count, batch))
  {
    forall i, j | 0 <= i < j < count ensures Slices(unit, count, batch)[i] != Slices(unit, count, batch)[j] {
      SlicesApart(unit, count, i, j);
    }
  }

  lemma OneMoreBatch(unit: nat, count: nat, batches: nat, b: Ptr)
    ensures b in AllBlocks(unit, count, batches + 1) <==> b in AllBlocks(unit, count, batches) || b in Slices(unit, count, batches)
  {
    if b in Slices(unit, count, batches) {
      var i: nat :| i < count && b == Slices(unit, count, batches)[i];
      assert b == Block(batches, SliceOffset(unit, i));
    }
    if b in AllBlocks(unit, count, batches + 1) && b !in AllBlocks(unit, count, batches) {
      var k: nat, i: nat :| k < batches + 1 && i < count && b == Block(k, SliceOffset(unit, i));
      assert b == Slices(unit, count, batches)[i];
    }
  }

  lemma GrownInv(p: Pool)
    requires Inv(p)
    ensures Inv(Grown(p)) && Grown(p).live == p.live
  {
    if p.next >= |p.memory| {
      var q := Grown(p);
      assert Free(p) == [] && Free(q) == Slices(p.unit, p.count, p.batches);
      SlicesDistinct(p.unit, p.count, p.batches);
      forall b ensures b in AllBlocks(q.unit, q.count, q.batches) <==> b in Free(q) || b in q.live {
        OneMoreBatch(p.unit, p.count, p.batches, b);
      }
    }
  }

  /** The next free block becomes live. */
  function Popped(p: Pool): Pool
    requires p.next < |p.memory|
  {
    p.(next := p.next + 1, live := p.live + {p.memory[p.next]})
  }

  /** Allocating hands out a block that was not live, and it becomes live. */
  lemma TakenInv(p: Pool)
    requires Inv(p)
    ensures var (q, b) := Taken(p);
            && Inv(q) && b != Null && b !in p.live && q.live == p.live + {b}
            && b in AllBlocks(q.unit, q.count, q.batches)
  {
    GrownInv(p);
  }

  /** Giving back a live block frees just that one. */
  lemma GivenInv(p: Pool, b: Ptr)
    requires Inv(p) && b in p.live
    ensures Inv(Given(p, b)) && Given(p, b).live == p.live - {b}
  {
    var q := Given(p, b);
    assert b in AllBlocks(p.unit, p.count, p.batches);
    assert p.live != {} && p.next > 0;
    assert Free(q) == [b] + Free(p);
  }

  // ----- runs

  datatype Event = Take | Give(b: Ptr)

  /** Only live blocks are given back. */
  predicate Proper(p: Pool, e: Event) { e.Give? ==> e.b in p.live }

  function Step(p: Pool, e: Event): Pool
    requires p.next <= |p.memory| && p.count > 0
  {
    match e
    case Take => Taken(p).0
    case Give(b) => Given(p, b)
  }

  lemma StepInv(p: Pool, e: Event)
    requires Inv(p) && Proper(p, e)
    ensures Inv(Step(p, e))
  {
    match e
    case Take => TakenInv(p);
    case Give(b) => GivenInv(p, b);
  }

  ghost predicate Run(states: seq<Pool>, events: seq<Event>) {
    && |states| == |events| + 1
    && (exists unit, count :: Sensible(unit, count) && states[0] == Empty(unit, count))
    && forall i | 0 <= i < |events| ::
         && states[i].next <= |states[i].memory| && states[i].count > 0
         && Proper(states[i], events[i]) && states[i + 1] == Step(states[i], events[i])
  }

  /** After any run of allocations and frees of live blocks. */
  lemma {:induction false} RunKeepsInv(states: seq<Pool>, events: seq<Event>, k: nat)
    requires Run(states, events) && k <= |events|
    ensures Inv(states[k])
  {
    if k == 0 {
      var unit, count :| Sensible(unit, count) && states[0] == Empty(unit, count);
      EmptyInv(unit, count);
    } else {
      RunKeepsInv(states, events, k - 1);
      StepInv(states[k - 1], events[k - 1]);
    }
  }

  /** The most blocks that were live at once so far. */
  ghost function Peak(states: seq<Pool>, k: nat): nat
    requires k < |states|
  {
    if k == 0 then 0
    else if |states[k].live| > Peak(states, k - 1) then |states[k].live|
    else Peak(states, k - 1)
  }

  /** The batches hold `peak` blocks, and one batch less would not. */
  predicate MeetsPeak(p: Pool, peak: nat) {
    && |p.memory| == p.batches * p.count
    && peak <= p.batches * p.count
    && (p.batches > 0 ==> (p.batches - 1) * p.count < peak)
  }

  lemma StepMeetsPeak(p: Pool, e: Event, peak: nat)
    requires p.next <= |p.memory| && p.count > 0 && MeetsPeak(p, peak)
    ensures MeetsPeak(Step(p, e), if Step(p, e).next > peak then Step(p, e).next else peak)
  {
    var q := Step(p, e);
    assert q.count == p.count && q.next <= |q.memory|;
    if e.Take? && p.next == |p.memory| {
      assert q.batches == p.batches + 1 && q.next == |p.memory| + 1 && |q.memory| == |p.memory| + p.count;
      assert (p.batches + 1) * p.count == p.batches * p.count + p.count;
    } else {
      assert q.batches == p.batches && |q.memory| == |p.memory|;
    }
  }

  /** A pool never owns more batches than its busiest moment needed: as many as hold that many blocks, and no more. */
  lemma {:induction false} BatchesMeetPeak(states: seq<Pool>, events: seq<Event>, k: nat)
    requires Run(states, events) && k <= |events|
    ensures MeetsPeak(states[k], Peak(states, k))
  {
    RunKeepsInv(states, events, k);
    if k > 0 {
      BatchesMeetPeak(states, events, k - 1);
      RunKeepsInv(states, events, k - 1);
      StepMeetsPeak(states[k - 1], events[k - 1], Peak(states, k - 1));
    }
  }

  lemma PlaceOf(p: Pool, b: Ptr) returns (i: nat)
    requires Inv(p) && b in p.live
    ensures i < p.count && b.Block? && b.offset == SliceOffset(p.unit, i)
  {
    assert b in AllBlocks(p.unit, p.count, p.batches);
    var k: nat, j: nat :| k < p.batches && j < p.count && b == Block(k, SliceOffset(p.unit, j));
    i := j;
  }

  /** Two live blocks of one batch never overlap, and both lie inside it. */
  lemma LiveBlocksApart(p: Pool, b: Ptr, c: Ptr)
    requires Inv(p) && b in p.live && c in p.live && b != c && b.Block? && c.Block? && b.batch == c.batch
    ensures b.offset + p.unit <= c.offset || c.offset + p.unit <= b.offset
    ensures b.offset + p.unit <= BatchSize(p.unit, p.count)
  {
    var i := PlaceOf(p, b);
    var j := PlaceOf(p, c);
    SliceInside(p.unit, p.count, i);
    if i < j {
      SlicesApart(p.unit, p.count, i, j);
    } else {
      SlicesApart(p.unit, p.count, j, i);
    }
  }

  class CFixMemoryPool {
    const unitSize: nat
    const batchCount: nat
    var memory: seq<Ptr>
    var next: nat
    var batches: nat
    ghost var live: set<Ptr>

    ghost function Value(): Pool
      reads this
    {
      Pool(unitSize, batchCount, batches, memory, next, live)
    }

    ghost predicate Valid()
      reads this
    {
      Inv(Value())
    }

    constructor (unit: nat, count: nat)
      requires Sensible(unit, count)
      ensures Valid() && Value() == Empty(unit, count)
    {
      unitSize, batchCount, memory, next, batches, live := unit, count, [], 0, 0, {};
      new;
      EmptyInv(unit, count);
    }

    method Allocate() returns (b: Ptr)
      requires Valid()
      modifies this
      ensures Valid() && (Value(), b) == Taken(old(Value()))
      ensures b != Null && b !in old(live) && live == old(live) + {b}
    {
      TakenInv(Value());
      if next >= |memory| {
        AddBatch();
      }
      b := memory[next];
      next := next + 1;
      live := live + {b};
    }

    method AddBatch()
      requires next == |memory| && batchCount > 0
      modifies this`memory, this`batches
      ensures Value() == Grown(old(Value()))
    {
      ghost var before := memory;
      var batch := batches;
      batches := batches + 1;
      memory := memory + seq(batchCount, _ => Null);
      var index := next;
      for i := 0 to batchCount
        invariant index == next + i && |memory| == |before| + batchCount
        invariant memory[..next] == before && batches == batch + 1
        invariant forall j: nat | j < i :: memory[next + j] == Block(batch, SliceOffset(unitSize, j))
      {
        memory := memory[index := Block(batch, SliceOffset(unitSize, i))];
        index := index + 1;
      }
      assert memory[next..] == Slices(unitSize, batchCount, batch);
      assert memory == before + Slices(unitSize, batchCount, batch);
    }

    /** Null is ignored. */
    method Deallocate(b: Ptr)
      requires Valid() && (b == Null || b in live)
      modifies this
      ensures Valid() && Value() == Given(old(Value()), b)
      ensures live == old(live) - {b}
    {
      if b in live {
        GivenInv(Value(), b);
      }
      if b != Null && next > 0 {
        next := next - 1;
        memory := memory[next := b];
        live := live - {b};
      }
    }
  }
}
