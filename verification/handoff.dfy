/** A bounded ring of buffers, as two indices over fixed slots. */
module RingQueue {

  type Buf = nat

  datatype Ring = Ring(slots: seq<Buf>, head: nat, count: nat) {

    predicate Valid() {
      count <= |slots| && (head < |slots| || head == 0)
    }

    // The slot `i` places behind the head.
    function Slot(i: nat): (k: nat)
      requires Valid() && i < |slots|
      ensures k < |slots|
    {
      if head + i < |slots| then head + i else head + i - |slots|
    }

    // The first n buffers from the head on.
    function Take(n: nat): (q: seq<Buf>)
      requires Valid() && n <= |slots|
      ensures |q| == n
    {
      seq(n, i requires 0 <= i < n => slots[Slot(i)])
    }

    function Contents(): seq<Buf>
      requires Valid()
    {
      Take(count)
    }

    function NextHead(): nat {
      if head + 1 < |slots| then head + 1 else 0
    }
  }

  // queue_try_put on a ring with room.
  function Put(q: Ring, b: Buf): Ring
    requires q.Valid() && q.count < |q.slots|
  {
    q.(slots := q.slots[q.Slot(q.count) := b], count := q.count + 1)
  }

  lemma PutContents(q: Ring, b: Buf)
    requires q.Valid() && q.count < |q.slots|
    ensures Put(q, b).Valid() && Put(q, b).Contents() == q.Contents() + [b]
  {
    var r := Put(q, b);
    forall i | 0 <= i <= q.count
      ensures r.Contents()[i] == (q.Contents() + [b])[i]
    {
    }
  }

  // Moving the head on drops the first buffer.
  lemma AdvanceTake(q: Ring, n: nat)
    requires q.Valid() && 0 < n <= |q.slots|
    ensures var r := q.(head := q.NextHead()); r.Valid() && r.Take(n - 1) == q.Take(n)[1..]
  {
    var r := q.(head := q.NextHead());
    assert forall i :: 0 <= i < n - 1 ==> r.Slot(i) == q.Slot(i + 1);
  }

  // The counter says how much of the ring counts, not where it is.
  lemma TakeIgnoresCount(q: Ring, c: nat, n: nat)
    requires q.Valid() && c <= |q.slots| && n <= |q.slots|
    ensures q.(count := c).Take(n) == q.Take(n)
  {
    assert forall i :: 0 <= i < n ==> q.(count := c).Slot(i) == q.Slot(i);
  }
}

/**
 The interrupt / main-loop hand-off of received frames (lwip-2.2.0/doc/NO_SYS_SampleCode.c).

 An interrupt allocates a buffer, copies the frame and queues it; the endless main loop dequeues with
 interrupts masked and feeds lwIP.  The dequeue is split into the memory accesses it consists of, so an
 interrupt can fall between any two of them unless it is masked.
 */
module HandOff {
  import opened RingQueue

  type Frame = seq<bv8>

  // Where the main loop is.
  datatype MainPc =
    | Idle                          // before lock_interrupts()
    | Entered                       // interrupts masked
    | Read(p: Buf)                  // slot at the head read
    | Advanced(p: Buf)              // head index moved on
    | Loaded(p: Buf, c: nat)        // counter loaded
    | Dequeued(p: Buf)              // counter stored
    | FoundEmpty                    // queue_try_get returned NULL
    | Holding(p: Buf)               // interrupts unmasked, p != NULL
    | Rejected(p: Buf)              // netif.input(p) != ERR_OK

  // A frame that came in, with what the interrupt found.
  datatype Arrival = Arrival(frame: Frame, poolEmpty: bool, queueFull: bool)

  datatype State = State(
    pool: seq<Buf>,                 // free list of the pbuf pool
    mem: map<Buf, Frame>,           // contents of the buffers
    ring: Ring,
    masked: bool,
    pc: MainPc,
    stack: set<Buf>,                // buffers lwIP owns
    arrivals: seq<Arrival>,
    enqueued: seq<Frame>,
    delivered: seq<Frame>)          // frames passed to netif.input

  datatype Event =
    | Irq(frame: Frame)             // a frame arrives
    | Main(accepted: bool)          // the main loop takes its next step; what netif.input would answer
    | StackWrite(b: Buf, data: Frame)
    | StackFree(b: Buf)

  // eth_mac_irq
  function MacIrq(s: State, frame: Frame): State
    requires s.ring.Valid()
  {
    var a := Arrival(frame, s.pool == [], s.ring.count == |s.ring.slots|);
    var t := s.(arrivals := s.arrivals + [a]);
    if s.pool == [] then t
    else
      var b := s.pool[0];
      var u := t.(mem := s.mem[b := frame]);
      if s.ring.count < |s.ring.slots| then
        u.(pool := s.pool[1..], ring := Put(s.ring, b), enqueued := s.enqueued + [frame])
      else u
  }

  // One step of the main loop; `lock` says whether lock_interrupts() masks anything.
  function MainStep(s: State, accepted: bool, lock: bool): State {
    match s.pc
    case Idle => s.(pc := Entered, masked := lock)
    case Entered => if s.ring.count == 0 || s.ring.head >= |s.ring.slots| then s.(pc := FoundEmpty)
                    else s.(pc := Read(s.ring.slots[s.ring.head]))
    case FoundEmpty => s.(pc := Idle, masked := false)
    case Read(p) => s.(pc := Advanced(p), ring := s.ring.(head := s.ring.NextHead()))
    case Advanced(p) => s.(pc := Loaded(p, s.ring.count))
    case Loaded(p, c) => s.(pc := Dequeued(p), ring := s.ring.(count := if c == 0 then 0 else c - 1))
    case Dequeued(p) => s.(pc := Holding(p), masked := false)
    case Holding(p) =>
      var t := if p in s.mem then s.(delivered := s.delivered + [s.mem[p]]) else s;
      if accepted then t.(pc := Idle, stack := s.stack + {p}) else t.(pc := Rejected(p))
    case Rejected(p) => s.(pc := Idle, pool := [p] + s.pool)
  }

  // A masked interrupt stays pending: the event has no effect yet.  lwIP touches only buffers it owns.
  function Step(s: State, e: Event, lock: bool): State {
    match e
    case Irq(frame) => if s.masked || !s.ring.Valid() then s else MacIrq(s, frame)
    case Main(accepted) => MainStep(s, accepted, lock)
    case StackWrite(b, data) => if b in s.stack then s.(mem := s.mem[b := data]) else s
    case StackFree(b) => if b in s.stack then s.(stack := s.stack - {b}, pool := [b] + s.pool) else s
  }

  function Run(s: State, events: seq<Event>, lock: bool): State
    decreases |events|
  {
    if events == [] then s else Run(Step(s, events[0], lock), events[1..], lock)
  }

  // ---- The invariant --------------------------------------------------------------------------------

  // The buffer the main loop holds, and the frame of it that has not been passed on yet.
  function Local(s: State): seq<Buf> {
    match s.pc
    case Advanced(p) => [p]
    case Loaded(p, _) => [p]
    case Dequeued(p) => [p]
    case Holding(p) => [p]
    case Rejected(p) => [p]
    case _ => []
  }

  function InFlight(s: State): seq<Buf> {
    if s.pc.Rejected? then [] else Local(s)
  }

  // The queue as a sequence; once the head has moved, the counter lags by one.
  function QueueLength(s: State): int {
    if s.pc.Advanced? || s.pc.Loaded? then s.ring.count - 1 else s.ring.count
  }

  ghost predicate PcValid(s: State)
    requires s.ring.Valid()
  {
    match s.pc
    case Read(p) => 0 < s.ring.count && p == s.ring.slots[s.ring.head]
    case Advanced(p) => 0 < s.ring.count
    case Loaded(p, c) => 0 < s.ring.count && c == s.ring.count
    case _ => true
  }

  // Between lock_interrupts() and unlock_interrupts().
  predicate InSection(pc: MainPc) {
    !pc.Idle? && !pc.Holding? && !pc.Rejected?
  }

  function Queue(s: State): seq<Buf>
    requires s.ring.Valid() && 0 <= QueueLength(s)
  {
    s.ring.Take(QueueLength(s))
  }

  function Frames(mem: map<Buf, Frame>, bs: seq<Buf>): (fs: seq<Frame>)
    requires forall b :: b in bs ==> b in mem
    ensures |fs| == |bs| && forall k :: 0 <= k < |bs| ==> fs[k] == mem[bs[k]]
  {
    seq(|bs|, k requires 0 <= k < |bs| => mem[bs[k]])
  }

  // The frames of the arrivals that found a buffer and room in the queue, in order.
  function Kept(arrivals: seq<Arrival>): seq<Frame> {
    if arrivals == [] then []
    else
      var a := arrivals[|arrivals| - 1];
      Kept(arrivals[..|arrivals| - 1]) + if a.poolEmpty || a.queueFull then [] else [a.frame]
  }

  // Each buffer is in exactly one place: free pool, queue, main loop, stack.
  ghost predicate Partition(s: State, all: set<Buf>)
    requires s.ring.Valid() && 0 <= QueueLength(s)
  {
    multiset(s.pool) + multiset(Queue(s)) + multiset(Local(s)) + multiset(s.stack) == multiset(all)
  }

  ghost predicate Shape(s: State, all: set<Buf>) {
    s.ring.Valid() && PcValid(s) && 0 <= QueueLength(s) && s.mem.Keys == all
  }

  // Frames leave the queue in the order, and with the bytes, in which they entered it.
  ghost predicate InOrder(s: State)
    requires s.ring.Valid() && 0 <= QueueLength(s)
  {
    Ordered(s.mem, InFlight(s) + Queue(s), s.enqueued, s.delivered)
  }

  ghost predicate Ordered(mem: map<Buf, Frame>, bs: seq<Buf>, enqueued: seq<Frame>, delivered: seq<Frame>) {
    (forall b :: b in bs ==> b in mem) && enqueued == delivered + Frames(mem, bs)
  }

  // No buffer is lost or in two places, and no kept frame lost, changed or out of order.
  ghost predicate Sound(s: State, all: set<Buf>) {
    && Shape(s, all)
    && Partition(s, all)
    && InOrder(s)
    && s.enqueued == Kept(s.arrivals)
  }

  // The lock masks interrupts in the section; without it soundness needs a queue or a pool of at most one.
  ghost predicate Inv(s: State, all: set<Buf>, lock: bool) {
    && Sound(s, all)
    && (s.masked <==> lock && InSection(s.pc))
    && (lock || |s.ring.slots| <= 1 || |all| <= 1)
  }

  // While the counter lags behind the head, an interrupt must find nothing to do.
  predicate Calm(s: State) {
    s.pc.Advanced? || s.pc.Loaded? ==> s.pool == [] || s.ring.count == |s.ring.slots|
  }

  lemma CalmWhenUnmasked(s: State, all: set<Buf>, lock: bool)
    requires Inv(s, all, lock) && !s.masked
    ensures Calm(s)
  {
    if !lock && |s.ring.slots| > 1 && (s.pc.Advanced? || s.pc.Loaded?) {
      assert |multiset(s.pool)| + |multiset(Queue(s))| + |multiset(Local(s))| + |multiset(s.stack)| == |multiset(all)|;
      assert |Local(s)| == 1;
    }
  }

  // ---- Every step keeps it --------------------------------------------------------------------------

  lemma OnePlaceOnly(s: State, all: set<Buf>, b: Buf)
    requires s.ring.Valid() && 0 <= QueueLength(s) && Partition(s, all)
    ensures multiset(s.pool)[b] + multiset(Queue(s))[b] + multiset(Local(s))[b] + multiset(s.stack)[b] <= 1
    ensures b in s.pool || b in Queue(s) || b in Local(s) || b in s.stack <==> b in all
  {
    var sum := multiset(s.pool) + multiset(Queue(s)) + multiset(Local(s)) + multiset(s.stack);
    assert sum[b] == multiset(all)[b];
    assert b in multiset(s.pool) <==> b in s.pool;
    assert b in multiset(Queue(s)) <==> b in Queue(s);
    assert b in multiset(Local(s)) <==> b in Local(s);
  }

  // Writing to a buffer outside a list leaves the frames of the list alone.
  lemma FramesUnchanged(mem: map<Buf, Frame>, bs: seq<Buf>, b: Buf, data: Frame)
    requires b !in bs && forall x :: x in bs ==> x in mem
    ensures Frames(mem[b := data], bs) == Frames(mem, bs)
  {
  }

  lemma KeptAppend(arrivals: seq<Arrival>, a: Arrival)
    ensures Kept(arrivals + [a]) == Kept(arrivals) + if a.poolEmpty || a.queueFull then [] else [a.frame]
  {
    assert (arrivals + [a])[..|arrivals|] == arrivals;
  }

  // An interrupt that finds a buffer and room queues the buffer behind the others.
  lemma IrqQueues(s: State, frame: Frame, all: set<Buf>)
    requires Shape(s, all) && Calm(s) && Partition(s, all) && s.pool != [] && s.ring.count < |s.ring.slots|
    ensures var t := MacIrq(s, frame);
            && Shape(t, all) && Queue(t) == Queue(s) + [s.pool[0]]
            && Local(t) == Local(s) && InFlight(t) == InFlight(s)
  {
    var t := MacIrq(s, frame);
    var b := s.pool[0];
    PutContents(s.ring, b);
    OnePlaceOnly(s, all, b);
    hide Partition;
    assert t.mem.Keys == all;
    if s.pc.Read? {
      assert s.ring.Slot(s.ring.count) != s.ring.head;
    }
  }

  // One that does not leaves the queue alone.
  lemma IrqLeavesQueue(s: State, frame: Frame, all: set<Buf>)
    requires Shape(s, all) && Partition(s, all) && (s.pool == [] || s.ring.count == |s.ring.slots|)
    ensures var t := MacIrq(s, frame);
            && Shape(t, all) && Queue(t) == Queue(s) && Local(t) == Local(s) && InFlight(t) == InFlight(s)
  {
    var t := MacIrq(s, frame);
    assert t.ring == s.ring && t.pc == s.pc;
    if s.pool != [] {
      OnePlaceOnly(s, all, s.pool[0]);
      assert t.mem.Keys == all;
    }
  }

  lemma IrqKeepsPartition(s: State, frame: Frame, all: set<Buf>)
    requires Shape(s, all) && Calm(s) && Partition(s, all)
    ensures Shape(MacIrq(s, frame), all) && Partition(MacIrq(s, frame), all)
  {
    var t := MacIrq(s, frame);
    if s.pool != [] && s.ring.count < |s.ring.slots| {
      var b := s.pool[0];
      IrqQueues(s, frame, all);
      hide Queue, Local, Shape;
      assert s.pool == [b] + t.pool;
      assert multiset(s.pool) == multiset{b} + multiset(t.pool);
      assert multiset(Queue(t)) == multiset(Queue(s)) + multiset{b};
    } else {
      IrqLeavesQueue(s, frame, all);
    }
  }

  lemma IrqKeepsOrder(s: State, frame: Frame, all: set<Buf>)
    requires Shape(s, all) && Calm(s) && Partition(s, all) && InOrder(s)
    requires Shape(MacIrq(s, frame), all)
    ensures InOrder(MacIrq(s, frame))
  {
    var t := MacIrq(s, frame);
    var bs := InFlight(s) + Queue(s);
    if s.pool == [] {
      IrqLeavesQueue(s, frame, all);
    } else {
      var b := s.pool[0];
      OnePlaceOnly(s, all, b);
      assert b in multiset(s.pool);
      assert b !in bs;
      FramesUnchanged(s.mem, bs, b, frame);
      if s.ring.count < |s.ring.slots| {
        IrqQueues(s, frame, all);
        hide Queue, InFlight, Shape, Partition;
        assert InFlight(t) + Queue(t) == bs + [b];
        assert Frames(t.mem, bs + [b]) == Frames(s.mem, bs) + [frame];
      } else {
        IrqLeavesQueue(s, frame, all);
      }
    }
  }

  lemma IrqKeepsSound(s: State, frame: Frame, all: set<Buf>)
    requires Sound(s, all) && Calm(s)
    ensures Sound(MacIrq(s, frame), all)
  {
    IrqKeepsPartition(s, frame, all);
    IrqKeepsOrder(s, frame, all);
    KeptAppend(s.arrivals, Arrival(frame, s.pool == [], s.ring.count == |s.ring.slots|));
  }

  // Reading the slot and moving the head hands the first buffer from the queue to the main loop.
  lemma AdvanceHead(s: State, lock: bool, all: set<Buf>)
    requires Shape(s, all) && s.pc.Read?
    ensures var t := MainStep(s, true, lock);
            && Shape(t, all) && Local(t) == InFlight(t) == [s.pc.p]
            && Local(s) == InFlight(s) == []
            && Queue(s) == [s.pc.p] + Queue(t)
  {
    AdvanceTake(s.ring, s.ring.count);
  }

  lemma ReadKeepsSound(s: State, accepted: bool, lock: bool, all: set<Buf>)
    requires Sound(s, all) && s.pc.Read?
    ensures Sound(MainStep(s, accepted, lock), all)
  {
    var t := MainStep(s, accepted, lock);
    AdvanceHead(s, lock, all);
    assert InFlight(t) + Queue(t) == InFlight(s) + Queue(s);
    assert multiset(Queue(s)) == multiset(Local(t)) + multiset(Queue(t));
    assert multiset(Local(s)) == multiset{};
  }

  lemma LoadedKeepsSound(s: State, accepted: bool, lock: bool, all: set<Buf>)
    requires Sound(s, all) && s.pc.Loaded?
    ensures Sound(MainStep(s, accepted, lock), all)
  {
    var t := MainStep(s, accepted, lock);
    TakeIgnoresCount(s.ring, s.pc.c - 1, s.pc.c - 1);
    assert Queue(t) == Queue(s) && Local(t) == Local(s) && InFlight(t) == InFlight(s);
  }

  // The parts of a state that soundness is about, besides the shape.
  ghost predicate SameParts(s: State, t: State)
    requires s.ring.Valid() && t.ring.Valid() && 0 <= QueueLength(s) && 0 <= QueueLength(t)
  {
    && Queue(t) == Queue(s) && Local(t) == Local(s) && InFlight(t) == InFlight(s)
    && t.enqueued == s.enqueued && t.delivered == s.delivered && t.arrivals == s.arrivals
  }

  lemma SameKeepsSound(s: State, t: State, all: set<Buf>)
    requires Sound(s, all) && Shape(t, all) && SameParts(s, t)
    requires t.pool == s.pool && t.stack == s.stack && t.mem == s.mem
    ensures Sound(t, all)
  {
    hide Queue, Local, InFlight, Kept, Ordered;
  }

  // Steps that only move the program counter or the mask.
  lemma PcStepKeepsSound(s: State, accepted: bool, lock: bool, all: set<Buf>)
    requires Sound(s, all)
    requires s.pc.Idle? || s.pc.Entered? || s.pc.FoundEmpty? || s.pc.Advanced? || s.pc.Dequeued?
    ensures Sound(MainStep(s, accepted, lock), all)
  {
    var t := MainStep(s, accepted, lock);
    PcStepShape(s, accepted, lock, all);
    hide Shape, Partition, InOrder, MainStep, Kept;
    SameKeepsSound(s, t, all);
  }

  lemma PcStepShape(s: State, accepted: bool, lock: bool, all: set<Buf>)
    requires Shape(s, all)
    requires s.pc.Idle? || s.pc.Entered? || s.pc.FoundEmpty? || s.pc.Advanced? || s.pc.Dequeued?
    ensures var t := MainStep(s, accepted, lock);
            && Shape(t, all) && SameParts(s, t)
            && t.pool == s.pool && t.stack == s.stack && t.mem == s.mem
  {
    var t := MainStep(s, accepted, lock);
    assert t.ring == s.ring && QueueLength(t) == QueueLength(s);
  }

  lemma HoldingKeepsPartition(s: State, accepted: bool, lock: bool, all: set<Buf>)
    requires Shape(s, all) && Partition(s, all) && (s.pc.Holding? || s.pc.Rejected?)
    ensures Shape(MainStep(s, accepted, lock), all) && Partition(MainStep(s, accepted, lock), all)
  {
    var t := MainStep(s, accepted, lock);
    var p := s.pc.p;
    OnePlaceOnly(s, all, p);
    assert Queue(t) == Queue(s);
    assert multiset(Local(s)) == multiset{p};
    if s.pc.Rejected? {
      assert multiset(t.pool) == multiset{p} + multiset(s.pool);
    } else if accepted {
      assert multiset(t.stack) == multiset(s.stack) + multiset{p};
    }
  }

  lemma HandOver(mem: map<Buf, Frame>, p: Buf, bs: seq<Buf>, enqueued: seq<Frame>, delivered: seq<Frame>)
    requires Ordered(mem, [p] + bs, enqueued, delivered)
    ensures p in mem && Ordered(mem, bs, enqueued, delivered + [mem[p]])
  {
    var all := [p] + bs;
    assert p in all && forall b :: b in bs ==> b in all;
    assert Frames(mem, all) == [mem[p]] + Frames(mem, bs);
  }

  lemma HoldingKeepsOrder(s: State, accepted: bool, lock: bool, all: set<Buf>)
    requires Shape(s, all) && InOrder(s) && (s.pc.Holding? || s.pc.Rejected?)
    ensures InOrder(MainStep(s, accepted, lock))
  {
    var t := MainStep(s, accepted, lock);
    assert t.ring == s.ring && QueueLength(t) == QueueLength(s);
    assert InFlight(t) + Queue(t) == Queue(s);
    if s.pc.Holding? {
      HandOver(s.mem, s.pc.p, Queue(s), s.enqueued, s.delivered);
    } else {
      assert InFlight(s) + Queue(s) == Queue(s);
    }
  }

  // What lwIP owns is neither queued nor in flight.
  lemma OnlyOnStack(s: State, all: set<Buf>, b: Buf)
    requires s.ring.Valid() && 0 <= QueueLength(s) && Partition(s, all) && b in s.stack
    ensures b in all && b !in InFlight(s) + Queue(s)
  {
    OnePlaceOnly(s, all, b);
    assert b in multiset(s.stack);
    assert forall x :: x in InFlight(s) ==> x in Local(s);
    assert (b in Queue(s)) == (b in multiset(Queue(s)));
    assert (b in Local(s)) == (b in multiset(Local(s)));
    hide Queue, Local, InFlight;
  }

  lemma SameRing(s: State, t: State, all: set<Buf>)
    requires Shape(s, all) && t.ring == s.ring && t.pc == s.pc && t.mem.Keys == all
    requires t.enqueued == s.enqueued && t.delivered == s.delivered && t.arrivals == s.arrivals
    ensures Shape(t, all) && SameParts(s, t)
  {
  }

  lemma StackWriteKeepsSound(s: State, b: Buf, data: Frame, all: set<Buf>)
    requires Sound(s, all) && b in s.stack
    ensures Sound(s.(mem := s.mem[b := data]), all)
  {
    var t := s.(mem := s.mem[b := data]);
    OnlyOnStack(s, all, b);
    assert t.mem.Keys == all;
    SameRing(s, t, all);
    hide Queue, InFlight, Local, Ordered, Kept, PcValid;
    WriteKeepsOrder(s.mem, InFlight(s) + Queue(s), s.enqueued, s.delivered, b, data);
  }

  lemma WriteKeepsOrder(mem: map<Buf, Frame>, bs: seq<Buf>, enqueued: seq<Frame>, delivered: seq<Frame>, b: Buf, data: Frame)
    requires Ordered(mem, bs, enqueued, delivered) && b !in bs
    ensures Ordered(mem[b := data], bs, enqueued, delivered)
  {
    FramesUnchanged(mem, bs, b, data);
    hide Frames;
  }

  lemma StackFreeKeepsSound(s: State, b: Buf, all: set<Buf>)
    requires Sound(s, all) && b in s.stack
    ensures Sound(s.(stack := s.stack - {b}, pool := [b] + s.pool), all)
  {
    var t := s.(stack := s.stack - {b}, pool := [b] + s.pool);
    SameRing(s, t, all);
    hide Queue, InFlight, Local, Ordered, Kept, PcValid;
    assert multiset(t.pool) == multiset{b} + multiset(s.pool);
    assert multiset(s.stack) == multiset{b} + multiset(t.stack);
    MoveOne(multiset(s.pool), multiset(t.pool), multiset(s.stack), multiset(t.stack), b);
    FreedPartition(s, t, all);
  }

  lemma FreedPartition(s: State, t: State, all: set<Buf>)
    requires Shape(s, all) && Shape(t, all) && SameParts(s, t) && Partition(s, all)
    requires forall m: multiset<Buf> :: multiset(t.pool) + m + multiset(t.stack) == multiset(s.pool) + m + multiset(s.stack)
    ensures Partition(t, all)
  {
    hide Queue, InFlight, Local;
    var m := multiset(Queue(s)) + multiset(Local(s));
    assert multiset(t.pool) + m + multiset(t.stack) == multiset(s.pool) + m + multiset(s.stack);
    Regroup(multiset(t.pool), multiset(Queue(t)), multiset(Local(t)), multiset(t.stack));
    Regroup(multiset(s.pool), multiset(Queue(s)), multiset(Local(s)), multiset(s.stack));
  }

  lemma Regroup(a: multiset<Buf>, b: multiset<Buf>, c: multiset<Buf>, d: multiset<Buf>)
    ensures a + b + c + d == a + (b + c) + d
  {
  }

  lemma MoveOne(pool: multiset<Buf>, pool': multiset<Buf>, stack: multiset<Buf>, stack': multiset<Buf>, b: Buf)
    requires pool' == multiset{b} + pool && stack == multiset{b} + stack'
    ensures forall m: multiset<Buf> :: pool' + m + stack' == pool + m + stack
  {
  }

  lemma MainKeepsSound(s: State, accepted: bool, lock: bool, all: set<Buf>)
    requires Sound(s, all)
    ensures Sound(MainStep(s, accepted, lock), all)
  {
    if s.pc.Read? {
      ReadKeepsSound(s, accepted, lock, all);
    } else if s.pc.Loaded? {
      LoadedKeepsSound(s, accepted, lock, all);
    } else if s.pc.Holding? || s.pc.Rejected? {
      HoldingKeepsPartition(s, accepted, lock, all);
      HoldingKeepsOrder(s, accepted, lock, all);
    } else {
      PcStepKeepsSound(s, accepted, lock, all);
    }
  }

  lemma StepKeepsSound(s: State, e: Event, all: set<Buf>, lock: bool)
    requires Inv(s, all, lock)
    ensures Sound(Step(s, e, lock), all)
  {
    match e
    case Irq(frame) =>
      if !s.masked {
        CalmWhenUnmasked(s, all, lock);
        IrqKeepsSound(s, frame, all);
      }
    case Main(accepted) =>
      MainKeepsSound(s, accepted, lock, all);
    case StackWrite(b, data) =>
      if b in s.stack {
        StackWriteKeepsSound(s, b, data, all);
      }
    case StackFree(b) =>
      if b in s.stack {
        StackFreeKeepsSound(s, b, all);
      }
  }

  lemma StepKeepsInv(s: State, e: Event, all: set<Buf>, lock: bool)
    requires Inv(s, all, lock)
    ensures Inv(Step(s, e, lock), all, lock)
  {
    StepKeepsSound(s, e, all, lock);
    StepMasks(s, e, lock);
    hide Sound, Step;
  }

  lemma StepMasks(s: State, e: Event, lock: bool)
    requires s.masked <==> lock && InSection(s.pc)
    ensures var t := Step(s, e, lock);
            (t.masked <==> lock && InSection(t.pc)) && |t.ring.slots| == |s.ring.slots|
  {
  }

  // Power-up: all buffers free, an empty ring of the given capacity.
  function Initial(pool: seq<Buf>, mem: map<Buf, Frame>, capacity: nat): State {
    State(pool, mem, Ring(seq(capacity, _ => 0), 0, 0), false, Idle, {}, [], [], [])
  }

  lemma InitialInv(pool: seq<Buf>, mem: map<Buf, Frame>, capacity: nat, lock: bool)
    requires multiset(pool) == multiset(mem.Keys) && (lock || capacity <= 1 || |pool| <= 1)
    ensures Inv(Initial(pool, mem, capacity), mem.Keys, lock)
  {
    assert |multiset(pool)| == |multiset(mem.Keys)|;
  }

  lemma {:induction false} RunKeepsInv(s: State, events: seq<Event>, all: set<Buf>, lock: bool)
    requires Inv(s, all, lock)
    ensures Inv(Run(s, events, lock), all, lock)
    decreases |events|
  {
    if events != [] {
      StepKeepsInv(s, events[0], all, lock);
      RunKeepsInv(Step(s, events[0], lock), events[1..], all, lock);
    }
  }

  lemma StepKeepsCapacity(s: State, e: Event, lock: bool)
    ensures |Step(s, e, lock).ring.slots| == |s.ring.slots|
  {
  }

  lemma {:induction false} CapacityFixed(s: State, events: seq<Event>, lock: bool)
    ensures |Run(s, events, lock).ring.slots| == |s.ring.slots|
    decreases |events|
  {
    hide Step;
    if events != [] {
      StepKeepsCapacity(s, events[0], lock);
      CapacityFixed(Step(s, events[0], lock), events[1..], lock);
    }
  }

  /** From power-up, in every interleaving of interrupts, main-loop steps and lwIP activity: each buffer is
      in exactly one place, the queue stays within its capacity, and the frames that found a buffer and room
      at their arrival are, in order and byte for byte, those delivered, then the one in flight, then those
      queued. */
  lemma EveryRun(pool: seq<Buf>, mem: map<Buf, Frame>, capacity: nat, events: seq<Event>)
    requires multiset(pool) == multiset(mem.Keys)
    ensures var s := Run(Initial(pool, mem, capacity), events, true);
            && Shape(s, mem.Keys)
            && Partition(s, mem.Keys)
            && |Queue(s)| <= capacity
            && (forall b :: b in InFlight(s) + Queue(s) ==> b in s.mem)
            && Kept(s.arrivals) == s.delivered + Frames(s.mem, InFlight(s) + Queue(s))
  {
    InitialInv(pool, mem, capacity, true);
    RunKeepsInv(Initial(pool, mem, capacity), events, mem.Keys, true);
    CapacityFixed(Initial(pool, mem, capacity), events, true);
  }

  // ---- Every kept frame is delivered ----------------------------------------------------------------

  // The main-loop steps in a run.
  function Mains(events: seq<Event>): nat {
    if events == [] then 0 else (if events[0].Main? then 1 else 0) + Mains(events[1..])
  }

  // Main-loop steps up to and including the next delivery, while a frame is undelivered.
  function Rank(pc: MainPc): (r: nat)
    ensures 1 <= r <= 8
  {
    match pc
    case Holding(_) => 1
    case Dequeued(_) => 2
    case Loaded(_, _) => 3
    case Advanced(_) => 4
    case Read(_) => 5
    case Entered => 6
    case Idle => 7
    case FoundEmpty => 8
    case Rejected(_) => 8
  }

  // Main-loop steps that suffice until n frames have been delivered.
  function Distance(s: State, n: nat): nat {
    if |s.delivered| >= n then 0 else 8 * (n - |s.delivered| - 1) + Rank(s.pc)
  }

  // The number of frames delivered, in flight and queued is the number enqueued.
  lemma Undelivered(s: State, all: set<Buf>)
    requires Inv(s, all, true)
    ensures |s.enqueued| == |s.delivered| + |InFlight(s)| + |Queue(s)|
    ensures s.delivered <= s.enqueued
  {
    assert |Frames(s.mem, InFlight(s) + Queue(s))| == |InFlight(s)| + |Queue(s)|;
  }

  lemma MainStepProgress(s: State, accepted: bool, n: nat, all: set<Buf>)
    requires Inv(s, all, true) && |s.delivered| < n <= |s.enqueued|
    ensures Distance(MainStep(s, accepted, true), n) < Distance(s, n)
  {
    Undelivered(s, all);
    HeldBuffer(s, all);
    hide Inv;
    if s.pc.Entered? {
      assert |Queue(s)| == s.ring.count;
    }
  }

  // No event takes back a delivery or an enqueued frame, and only main-loop steps move the main loop.
  lemma StepMonotone(s: State, e: Event)
    ensures var t := Step(s, e, true);
            s.delivered <= t.delivered && s.enqueued <= t.enqueued && (e.Main? || t.pc == s.pc)
  {
  }

  lemma StepProgress(s: State, e: Event, n: nat, all: set<Buf>)
    requires Inv(s, all, true) && n <= |s.enqueued|
    ensures Distance(Step(s, e, true), n) <= Distance(s, n)
    ensures e.Main? && Distance(s, n) > 0 ==> Distance(Step(s, e, true), n) < Distance(s, n)
  {
    StepMonotone(s, e);
    if e.Main? && |s.delivered| < n {
      MainStepProgress(s, e.accepted, n, all);
    }
    hide Inv;
  }

  lemma {:induction false} RunProgress(s: State, events: seq<Event>, n: nat, all: set<Buf>)
    requires Inv(s, all, true) && n <= |s.enqueued| && Distance(s, n) <= Mains(events)
    ensures var t := Run(s, events, true); n <= |t.delivered| && s.enqueued <= t.enqueued
    decreases |events|
  {
    if events != [] {
      var t := Step(s, events[0], true);
      StepKeepsInv(s, events[0], all, true);
      StepMonotone(s, events[0]);
      StepProgress(s, events[0], n, all);
      hide Inv, Step;
      RunProgress(t, events[1..], n, all);
    }
  }

  /** From power-up: whatever happens in between, once the main loop has taken eight steps for each frame that
      was undelivered, all frames kept so far have been delivered, in order. */
  lemma EveryFrameDelivered(pool: seq<Buf>, mem: map<Buf, Frame>, capacity: nat, before: seq<Event>, after: seq<Event>)
    requires multiset(pool) == multiset(mem.Keys)
    requires var s := Run(Initial(pool, mem, capacity), before, true);
             Mains(after) >= 8 * (|Kept(s.arrivals)| - |s.delivered|)
    ensures var s := Run(Initial(pool, mem, capacity), before, true);
            Kept(s.arrivals) <= Run(s, after, true).delivered
  {
    var s := Run(Initial(pool, mem, capacity), before, true);
    var t := Run(s, after, true);
    InitialInv(pool, mem, capacity, true);
    RunKeepsInv(Initial(pool, mem, capacity), before, mem.Keys, true);
    RunKeepsInv(s, after, mem.Keys, true);
    Undelivered(s, mem.Keys);
    Undelivered(t, mem.Keys);
    RunProgress(s, after, |s.enqueued|, mem.Keys);
    assert s.enqueued == Kept(s.arrivals);
    hide Inv, Run, Kept;
    LongerPrefix(s.enqueued, t.delivered, t.enqueued);
  }

  lemma LongerPrefix(a: seq<Frame>, b: seq<Frame>, c: seq<Frame>)
    requires a <= c && b <= c && |a| <= |b|
    ensures a <= b
  {
    assert a == c[..|a|] && b == c[..|b|];
  }

  // ---- What netif.input's answer decides ------------------------------------------------------------

  lemma {:induction false} StackKeeps(s: State, events: seq<Event>, lock: bool, p: Buf)
    requires p in s.stack && forall i :: 0 <= i < |events| ==> events[i] != StackFree(p)
    ensures p in Run(s, events, lock).stack
    decreases |events|
  {
    if events != [] {
      StackKeepsStep(s, events[0], lock, p);
      StackKeeps(Step(s, events[0], lock), events[1..], lock, p);
    }
  }

  lemma StackKeepsStep(s: State, e: Event, lock: bool, p: Buf)
    requires p in s.stack && e != StackFree(p)
    ensures p in Step(s, e, lock).stack
  {
  }

  lemma RunOne(s: State, e: Event, rest: seq<Event>, lock: bool)
    ensures Run(s, [e] + rest, lock) == Run(Step(s, e, lock), rest, lock)
  {
    assert ([e] + rest)[1..] == rest;
  }

  /** A buffer that netif.input accepted belongs to lwIP from then on, through every event, until lwIP frees it;
      the main loop goes on to the next frame. */
  lemma AcceptedBelongsToStack(s: State, events: seq<Event>, lock: bool)
    requires s.pc.Holding? && forall i :: 0 <= i < |events| ==> events[i] != StackFree(s.pc.p)
    ensures s.pc.p in Run(s, [Main(true)] + events, lock).stack
    ensures Step(s, Main(true), lock).pc == Idle && Step(s, Main(true), lock).pool == s.pool
  {
    RunOne(s, Main(true), events, lock);
    StackKeeps(Step(s, Main(true), lock), events, lock, s.pc.p);
  }

  lemma {:induction false} HeldMeanwhile(s: State, events: seq<Event>, all: set<Buf>, lock: bool, p: Buf)
    requires Inv(s, all, lock) && s.pc == Rejected(p) && forall i :: 0 <= i < |events| ==> !events[i].Main?
    ensures var t := Run(s, events, lock);
            t.pc == Rejected(p) && Inv(t, all, lock)
    decreases |events|
  {
    if events != [] {
      StepKeepsInv(s, events[0], all, lock);
      StepMonotone(s, events[0]);
      SamePc(s, events[0], lock);
      hide Inv, Step;
      HeldMeanwhile(Step(s, events[0], lock), events[1..], all, lock, p);
    }
  }

  lemma SamePc(s: State, e: Event, lock: bool)
    requires !e.Main?
    ensures Step(s, e, lock).pc == s.pc
  {
  }

  // The buffer the main loop has in hand is not lwIP's and not free.
  lemma InHandOnly(s: State, all: set<Buf>, p: Buf)
    requires Sound(s, all) && s.pc == Rejected(p)
    ensures p !in s.stack && p !in s.pool
  {
    OnePlaceOnly(s, all, p);
    assert p in multiset(Local(s));
    assert p in s.pool ==> p in multiset(s.pool);
    assert p in s.stack ==> p in multiset(s.stack);
  }

  lemma RejectStep(s: State, lock: bool)
    requires s.pc.Holding?
    ensures Step(s, Main(false), lock).pc == Rejected(s.pc.p)
  {
  }

  lemma FreeRejected(s: State, lock: bool, accepted: bool)
    requires s.pc.Rejected?
    ensures var t := Step(s, Main(accepted), lock);
            t.pc == Idle && t.pool == [s.pc.p] + s.pool && t.stack == s.stack
  {
  }

  /** A buffer that netif.input rejected stays with the main loop, neither lwIP's nor free, whatever happens before
      the next main-loop step; that step frees it. */
  lemma RejectedIsFreed(s: State, events: seq<Event>, all: set<Buf>, lock: bool, accepted: bool)
    requires Inv(s, all, lock) && s.pc.Holding? && forall i :: 0 <= i < |events| ==> !events[i].Main?
    ensures var p, t := s.pc.p, Run(s, [Main(false)] + events, lock);
            && p !in t.stack && p !in t.pool
            && p in Step(t, Main(accepted), lock).pool && p !in Step(t, Main(accepted), lock).stack
            && Step(t, Main(accepted), lock).pc == Idle
  {
    var p := s.pc.p;
    RunOne(s, Main(false), events, lock);
    StepKeepsInv(s, Main(false), all, lock);
    RejectStep(s, lock);
    hide Run, Step, Sound;
    HeldMeanwhile(Step(s, Main(false), lock), events, all, lock, p);
    InHandOnly(Run(s, [Main(false)] + events, lock), all, p);
    FreeRejected(Run(s, [Main(false)] + events, lock), lock, accepted);
  }

  // ---- Without the lock -----------------------------------------------------------------------------

  // A frame is queued and the main loop dequeues it; a second frame comes in between the load and the store
  // of the counter.
  function UpToLoad(first: Frame): seq<Event> {
    [Irq(first), Main(true)] + ([Main(true), Main(true)] + [Main(true)])
  }

  function FromLoad(second: Frame): seq<Event> {
    [Irq(second), Main(true)] + []
  }

  // The main loop has loaded the counter of a queue with one frame, in `bufs[0]`; the others are free.
  ghost predicate AtLoad(s: State, bufs: seq<Buf>, capacity: nat, first: Frame) {
    && |bufs| >= 2 && s.pool == bufs[1..] && s.pc == Loaded(bufs[0], 1) && !s.masked && s.stack == {}
    && |s.ring.slots| == capacity && s.ring.head == 1 && s.ring.count == 1
    && s.enqueued == [first] && s.delivered == []
  }

  lemma RunTwo(s: State, d: Event, e: Event, rest: seq<Event>, lock: bool)
    ensures Run(s, [d, e] + rest, lock) == Run(Step(Step(s, d, lock), e, lock), rest, lock)
  {
    assert ([d, e] + rest)[1..] == [e] + rest;
    assert ([e] + rest)[1..] == rest;
  }

  lemma {:induction false} RunAppend(s: State, a: seq<Event>, b: seq<Event>, lock: bool)
    ensures Run(s, a + b, lock) == Run(Run(s, a, lock), b, lock)
    decreases |a|
  {
    if a == [] {
      assert a + b == b;
    } else {
      assert (a + b)[1..] == a[1..] + b;
      RunAppend(Step(s, a[0], lock), a[1..], b, lock);
    }
  }

  // The first frame is queued and its slot read.
  lemma QueueFirst(pool: seq<Buf>, mem: map<Buf, Frame>, capacity: nat, first: Frame)
    requires |pool| >= 2 && capacity >= 2
    ensures var s := Step(Step(Initial(pool, mem, capacity), Irq(first), false), Main(true), false);
            && s.pool == pool[1..] && s.pc == Entered && !s.masked && s.stack == {}
            && |s.ring.slots| == capacity && s.ring.head == 0 && s.ring.count == 1 && s.ring.slots[0] == pool[0]
            && s.enqueued == [first] && s.delivered == []
  {
    var s := Initial(pool, mem, capacity);
    assert s.ring.Slot(0) == 0;
  }

  lemma ReachLoad(pool: seq<Buf>, mem: map<Buf, Frame>, capacity: nat, first: Frame)
    requires |pool| >= 2 && capacity >= 2
    ensures AtLoad(Run(Initial(pool, mem, capacity), UpToLoad(first), false), pool, capacity, first)
  {
    var s := Initial(pool, mem, capacity);
    QueueFirst(pool, mem, capacity, first);
    var t := Step(Step(s, Irq(first), false), Main(true), false);
    RunTwo(s, Irq(first), Main(true), [Main(true), Main(true)] + [Main(true)], false);
    RunTwo(t, Main(true), Main(true), [Main(true)], false);
    var u := Step(Step(t, Main(true), false), Main(true), false);
    assert [Main(true)][1..] == [];
    assert Run(u, [Main(true)], false) == Step(u, Main(true), false);
  }

  lemma StoreLosesFrame(s: State, bufs: seq<Buf>, capacity: nat, first: Frame, second: Frame)
    requires AtLoad(s, bufs, capacity, first) && capacity >= 2
    ensures var t := Run(s, FromLoad(second), false);
            && t.pool == bufs[2..] && t.pc == Dequeued(bufs[0]) && t.stack == {} && t.ring.count == 0
            && t.enqueued == [first, second] && t.delivered == []
  {
    RunTwo(s, Irq(second), Main(true), [], false);
    var u := Step(s, Irq(second), false);
    assert u.pool == bufs[2..] && u.ring.count == 2 && u.enqueued == [first, second] && u.pc == s.pc;
  }

  /** Without the lock, whenever the queue and the pool both have room for two: an interrupt between the load
      and the store of the counter loses a queued frame, and its buffer is then in no place at all. */
  lemma RaceWithoutLock(pool: seq<Buf>, mem: map<Buf, Frame>, capacity: nat, first: Frame, second: Frame)
    requires multiset(pool) == multiset(mem.Keys) && |pool| >= 2 && capacity >= 2
    ensures var s := Run(Initial(pool, mem, capacity), UpToLoad(first) + FromLoad(second), false);
            && s.enqueued == [first, second] && s.delivered == [] && InFlight(s) == Local(s) == [pool[0]]
            && s.ring.count == 0 && QueueLength(s) == 0
            && pool[1] in mem && pool[1] !in s.pool && pool[1] !in Local(s) && pool[1] !in s.stack
  {
    ReachLoad(pool, mem, capacity, first);
    var s := Run(Initial(pool, mem, capacity), UpToLoad(first), false);
    StoreLosesFrame(s, pool, capacity, first, second);
    RunAppend(Initial(pool, mem, capacity), UpToLoad(first), FromLoad(second), false);
    hide Run;
    OnceInPool(pool, mem.Keys);
  }

  lemma OnceInPool(pool: seq<Buf>, all: set<Buf>)
    requires multiset(pool) == multiset(all) && |pool| >= 2
    ensures pool[1] in all && pool[1] != pool[0] && pool[1] !in pool[2..]
  {
    assert pool == [pool[0], pool[1]] + pool[2..];
    assert multiset(pool) == multiset{pool[0], pool[1]} + multiset(pool[2..]);
    assert multiset(all)[pool[1]] <= 1;
    assert pool[1] in multiset(pool);
  }

  lemma LostBuffer(s: State, all: set<Buf>, b: Buf)
    requires b in all && b !in s.pool && b !in Local(s) && b !in s.stack && s.ring.count == 0 == QueueLength(s)
    ensures !Sound(s, all)
  {
    if Sound(s, all) {
      assert Queue(s) == [];
      OnePlaceOnly(s, all, b);
    }
  }

  /** The lock is needed exactly when the queue can hold two buffers and the pool has two: otherwise every
      unlocked run keeps each buffer in one place and every kept frame in order. */
  lemma LockNeededIff(pool: seq<Buf>, mem: map<Buf, Frame>, capacity: nat)
    requires multiset(pool) == multiset(mem.Keys)
    ensures (forall events :: Sound(Run(Initial(pool, mem, capacity), events, false), mem.Keys))
            <==> capacity <= 1 || |pool| <= 1
  {
    if capacity <= 1 || |pool| <= 1 {
      forall events
        ensures Sound(Run(Initial(pool, mem, capacity), events, false), mem.Keys)
      {
        InitialInv(pool, mem, capacity, false);
        RunKeepsInv(Initial(pool, mem, capacity), events, mem.Keys, false);
      }
    } else {
      RaceWithoutLock(pool, mem, capacity, [], []);
      var events := UpToLoad([]) + FromLoad([]);
      LostBuffer(Run(Initial(pool, mem, capacity), events, false), mem.Keys, pool[1]);
    }
  }

  // What the main loop relies on between its steps.
  lemma HeldBuffer(s: State, all: set<Buf>)
    requires Sound(s, all)
    ensures s.ring.Valid() && PcValid(s)
    ensures s.pc.Holding? ==> s.pc.p in s.mem
  {
    if s.pc.Holding? {
      assert s.pc.p == (InFlight(s) + Queue(s))[0];
    }
  }

  // ---- The code -------------------------------------------------------------------------------------

  /** The driver's shared variables, updated in place. */
  class Driver {
    var pool: seq<Buf>
    var mem: map<Buf, Frame>
    var ring: Ring
    var masked: bool
    var pc: MainPc
    var stack: set<Buf>
    ghost var arrivals: seq<Arrival>
    ghost var enqueued: seq<Frame>
    ghost var delivered: seq<Frame>

    ghost function Now(): State
      reads this
    {
      State(pool, mem, ring, masked, pc, stack, arrivals, enqueued, delivered)
    }

    constructor (free: seq<Buf>, contents: map<Buf, Frame>, capacity: nat)
      requires multiset(free) == multiset(contents.Keys)
      ensures Now() == Initial(free, contents, capacity) && Inv(Now(), contents.Keys, true)
    {
      pool, mem, ring := free, contents, Ring(seq(capacity, _ => 0), 0, 0);
      masked, pc, stack := false, Idle, {};
      arrivals, enqueued, delivered := [], [], [];
      new;
      InitialInv(free, contents, capacity, true);
    }

    // pbuf_alloc from the pool
    method PbufAlloc() returns (ok: bool, p: Buf)
      modifies `pool
      ensures ok <==> old(pool) != []
      ensures if ok then [p] + pool == old(pool) else pool == old(pool)
    {
      ok, p := pool != [], 0;
      if ok {
        p, pool := pool[0], pool[1..];
      }
    }

    // queue_try_put
    method QueueTryPut(p: Buf) returns (ok: bool)
      requires ring.Valid()
      modifies `ring
      ensures ok <==> old(ring.count) < |old(ring.slots)|
      ensures ring == if ok then Put(old(ring), p) else old(ring)
    {
      ok := ring.count < |ring.slots|;
      if ok {
        ring := ring.(slots := ring.slots[ring.Slot(ring.count) := p], count := ring.count + 1);
      }
    }

    /** eth_mac_irq */
    method EthMacIrq(frame: Frame, ghost all: set<Buf>)
      requires Inv(Now(), all, true) && !masked
      modifies `pool, `mem, `ring, `arrivals, `enqueued
      ensures Now() == MacIrq(old(Now()), frame) && Inv(Now(), all, true)
    {
      ghost var before := Now();
      StepKeepsInv(before, Irq(frame), all, true);
      assert Inv(MacIrq(before, frame), all, true);
      hide Inv, MacIrq;
      TakeFrame(frame);
    }

    // The body of eth_mac_irq
    method TakeFrame(frame: Frame)
      requires ring.Valid()
      modifies `pool, `mem, `ring, `arrivals, `enqueued
      ensures Now() == MacIrq(old(Now()), frame)
    {
      arrivals := arrivals + [Arrival(frame, pool == [], ring.count == |ring.slots|)];
      var ok, p := PbufAlloc();
      if ok {
        mem := mem[p := frame];
        Enqueue(p, frame);
      }
    }

    // queue_try_put, and pbuf_free(p) when the queue is full
    method Enqueue(p: Buf, frame: Frame)
      requires ring.Valid()
      modifies `ring, `pool, `enqueued
      ensures if old(ring.count) < |old(ring.slots)|
              then ring == Put(old(ring), p) && pool == old(pool) && enqueued == old(enqueued) + [frame]
              else ring == old(ring) && pool == [p] + old(pool) && enqueued == old(enqueued)
    {
      var queued := QueueTryPut(p);
      if queued {
        enqueued := enqueued + [frame];
      } else {
        pool := [p] + pool;
      }
    }

    // lock_interrupts(), the accesses of queue_try_get, unlock_interrupts()
    method DequeueStep()
      requires ring.Valid() && PcValid(Now()) && !pc.Holding? && !pc.Rejected?
      modifies `masked, `pc, `ring
      ensures Now() == MainStep(old(Now()), true, true)
    {
      match pc {
        case Idle =>
          masked, pc := true, Entered;
        case Entered =>
          pc := if ring.count == 0 then FoundEmpty else Read(ring.slots[ring.head]);
        case FoundEmpty =>
          masked, pc := false, Idle;
        case Read(p) =>
          ring, pc := ring.(head := ring.NextHead()), Advanced(p);
        case Advanced(p) =>
          pc := Loaded(p, ring.count);
        case Loaded(p, c) =>
          ring, pc := ring.(count := c - 1), Dequeued(p);
        case Dequeued(p) =>
          masked, pc := false, Holding(p);
      }
    }

    // netif.input(p, &netif), and pbuf_free(p) when it did not take the buffer
    method DeliverStep(accepted: bool)
      requires pc.Holding? || pc.Rejected?
      requires pc.Holding? ==> pc.p in mem
      modifies `pc, `pool, `stack, `delivered
      ensures Now() == MainStep(old(Now()), accepted, true)
    {
      match pc {
        case Holding(p) =>
          delivered := delivered + [mem[p]];
          if accepted {
            stack, pc := stack + {p}, Idle;
          } else {
            pc := Rejected(p);
          }
        case Rejected(p) =>
          pool, pc := [p] + pool, Idle;
      }
    }

    /** The next step of the receive part of the main loop. */
    method MainLoopStep(accepted: bool, ghost all: set<Buf>)
      requires Inv(Now(), all, true)
      modifies `masked, `pc, `ring, `pool, `stack, `delivered
      ensures Now() == MainStep(old(Now()), accepted, true) && Inv(Now(), all, true)
    {
      ghost var before := Now();
      StepKeepsInv(before, Main(accepted), all, true);
      HeldBuffer(before, all);
      hide Inv;
      if pc.Holding? || pc.Rejected? {
        DeliverStep(accepted);
      } else {
        DequeueStep();
      }
      assert Now() == Step(before, Main(accepted), true);
    }
  }
}
