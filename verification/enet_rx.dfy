/**
 Received frames as the DMA leaves them in a descriptor, and what `enet_rxframe_size_get`
 (gd32f4xx_enet.c) makes of them.
 */
module RxFrames {
  import opened Words
  import opened Fields

  const U32: nat := 0x1_0000_0000

  // The 14 bits of the frame length field.
  type FrameLength = n: nat | n < 0x4000

  // The bits of RDES0 that the driver looks at, and the data.
  datatype RxFrame =
    RxFrame(errs: bool, ldes: bool, fdes: bool, frmt: bool, pcerr: bool, frml: FrameLength, data: seq<bv8>)

  // Dropped: error summary, spread over several descriptors, or a payload checksum error.
  predicate Bad(f: RxFrame) {
    f.errs || !f.ldes || !f.fdes || (f.frmt && f.pcerr)
  }

  // The frame of a descriptor, from its status word RDES0.
  function OfStatus(status: Word, data: seq<bv8>): RxFrame {
    RxFrame(status[15], status[8], status[9], status[5], status[0], LengthField(status), data)
  }

  // GET_RDES0_FRML
  function LengthField(status: Word): (n: FrameLength)
    ensures n == Value(status[16..30])
  {
    var field := GetBits(status, Field(16, 29));
    ValueLow(field, 14);
    assert field[..14] == status[16..30];
    ValueBound(status[16..30]);
    Pow14();
    Value(field)
  }

  lemma Pow14()
    ensures Pow2(14) == 0x4000
  {
    assert Pow2(4) == 16 && Pow2(8) == 256 && Pow2(12) == 4096;
  }

  /** A frame is dropped exactly when its status has the error summary bit 15, lacks bit 8 or bit 9 (last and
      first descriptor), or has both bit 5 and bit 0 (type frame, payload checksum error). */
  lemma DroppedIff(status: Word, data: seq<bv8>)
    ensures Bad(OfStatus(status, data)) <==> status[15] || !status[8] || !status[9] || (status[5] && status[0])
  {
  }

  /** The length is the length field less 4; the whole field for a type frame whose CRC the MAC drops; and it
      wraps for fields below 4. */
  lemma SizeValue(f: RxFrame, tfcd: bool)
    ensures Size(f, tfcd) == if tfcd && f.frmt then f.frml else if f.frml >= 4 then f.frml - 4 else 0xFFFF_FFFC + f.frml
  {
  }

  // The length without the CRC, in unsigned 32-bit arithmetic; `tfcd` is the MAC's type-frame CRC setting.
  function Size(f: RxFrame, tfcd: bool): nat {
    var size := (f.frml - 4) % U32;
    if tfcd && f.frmt then (size + 4) % U32 else size
  }

  // A good frame that enet_rxframe_size_get cannot tell from an empty ring, or from a dropped frame.
  predicate Blank(f: RxFrame, tfcd: bool) {
    !Bad(f) && Size(f, tfcd) == 0
  }

  predicate Stuck(f: RxFrame, tfcd: bool) {
    !Bad(f) && Size(f, tfcd) == 1
  }

  // Results 0 and 1 of enet_rxframe_size_get mean "nothing there" and "dropped", so a good frame must not
  // have one of these as its length.
  predicate WellSized(f: RxFrame, tfcd: bool) {
    Bad(f) || Size(f, tfcd) > 1
  }

  // What the receive FIFO can pass on: a good frame of less than 64 bytes only with undersized forwarding (FUF).
  predicate Stored(f: RxFrame, fuf: bool) {
    fuf || Bad(f) || f.frml >= 64
  }

  // One turn of the drain loop over the pending frames: what is left, and the value tested by `while`.
  function Turn(pending: seq<RxFrame>, tfcd: bool): (seq<RxFrame>, nat) {
    if pending == [] then ([], 0)
    else if Bad(pending[0]) then (pending[1..], 1)
    else
      var size := Size(pending[0], tfcd);
      (if size > 1 then pending[1..] else pending, size)
  }

  datatype Progress = Running(left: seq<RxFrame>) | Stopped(left: seq<RxFrame>)

  // The loop after at most n turns, no frames arriving meanwhile.
  function Turns(pending: seq<RxFrame>, tfcd: bool, n: nat): Progress
    decreases n
  {
    if n == 0 then Running(pending)
    else
      var (left, reval) := Turn(pending, tfcd);
      if reval == 0 then Stopped(left) else Turns(left, tfcd, n - 1)
  }

  lemma {:induction false} DrainsAll(pending: seq<RxFrame>, tfcd: bool)
    requires forall f :: f in pending ==> WellSized(f, tfcd)
    ensures Turns(pending, tfcd, |pending| + 1) == Stopped([])
    decreases |pending|
  {
    if pending != [] {
      DrainsAll(pending[1..], tfcd);
      assert pending[0] in pending && Turn(pending, tfcd).0 == pending[1..];
      assert Turns(pending, tfcd, |pending| + 1) == Turns(pending[1..], tfcd, |pending|);
    }
  }

  lemma {:induction false} NeverDrains(pending: seq<RxFrame>, tfcd: bool, k: nat, n: nat)
    requires k < |pending| && !WellSized(pending[k], tfcd)
    ensures Turns(pending, tfcd, n) != Stopped([])
    decreases n
  {
    if n > 0 {
      var (left, reval) := Turn(pending, tfcd);
      if reval != 0 {
        if left == pending {
          NeverDrains(pending, tfcd, k, n - 1);
        } else {
          NeverDrains(left, tfcd, k - 1, n - 1);
        }
      }
    }
  }

  /** With no arrivals meanwhile the drain loop empties the ring if and only if no good frame has computed
      length 0 (the loop stops before it) or 1 (the loop never gets past it). */
  lemma DrainsIff(pending: seq<RxFrame>, tfcd: bool)
    ensures (exists n: nat :: Turns(pending, tfcd, n) == Stopped([])) <==> forall f :: f in pending ==> WellSized(f, tfcd)
  {
    if forall f :: f in pending ==> WellSized(f, tfcd) {
      DrainsAll(pending, tfcd);
    } else {
      var k :| 0 <= k < |pending| && !WellSized(pending[k], tfcd);
      forall n: nat
        ensures Turns(pending, tfcd, n) != Stopped([])
      {
        NeverDrains(pending, tfcd, k, n);
      }
    }
  }

  /** The lengths in question, for an untouched CRC setting: a good frame of 4 bytes counts as nothing, one of
      5 bytes as dropped; every other length passes. */
  lemma ShortFrames(f: RxFrame)
    requires !Bad(f)
    ensures Blank(f, false) <==> f.frml == 4
    ensures Stuck(f, false) <==> f.frml == 5
  {
  }

  /** With undersized forwarding off, 64 bytes is the least a good frame has. */
  lemma MinimumLength(f: RxFrame)
    requires !Bad(f)
    ensures Stored(f, false) <==> 64 <= f.frml
  {
  }

  lemma LongFrames(f: RxFrame, tfcd: bool)
    requires Stored(f, false)
    ensures WellSized(f, tfcd)
  {
  }

  // A good frame of the given length.
  function GoodFrame(length: FrameLength): (f: RxFrame)
    ensures !Bad(f) && f.frml == length
    ensures forall tfcd :: Size(f, tfcd) == (length - 4) % U32
  {
    RxFrame(false, true, true, false, false, length, [])
  }

  /** The frames that can be stored all have a usable length if and only if undersized forwarding is off. */
  lemma UndersizedIff(fuf: bool, tfcd: bool)
    ensures (forall f | Stored(f, fuf) :: WellSized(f, tfcd)) <==> !fuf
  {
    if fuf {
      var f := GoodFrame(4);
      assert Stored(f, fuf) && Size(f, tfcd) == 0;
    } else {
      forall f | Stored(f, fuf)
        ensures WellSized(f, tfcd)
      {
        LongFrames(f, tfcd);
      }
    }
  }
}

/** The receive descriptor table: a ring filled by the DMA and emptied by the CPU. */
module RxRing {
  import opened RxFrames

  // `dav` set: the descriptor is the DMA's.
  datatype Desc = Desc(dav: bool, frame: RxFrame)

  // The table index i places after cur.
  function At(cur: nat, i: nat, n: nat): (k: nat)
    requires cur < n && i <= n
    ensures k < n
  {
    if cur + i < n then cur + i else cur + i - n
  }

  // From cur on, the CPU owns exactly the descriptors with the pending frames, in order.
  ghost predicate Holds(descs: seq<Desc>, cur: nat, pending: seq<RxFrame>) {
    && cur < |descs|
    && |pending| <= |descs|
    && forall i :: 0 <= i < |descs| ==>
         var d := descs[At(cur, i, |descs|)];
         if i < |pending| then !d.dav && d.frame == pending[i] else d.dav
  }

  // The next descriptor is the DMA's unless the ring is full.
  lemma NextIsFree(descs: seq<Desc>, cur: nat, pending: seq<RxFrame>)
    requires Holds(descs, cur, pending)
    ensures descs[At(cur, |pending|, |descs|)].dav <==> |pending| < |descs|
    ensures |pending| < |descs| ==> At(At(cur, |pending|, |descs|), 1, |descs|) == At(cur, |pending| + 1, |descs|)
  {
    if |pending| == |descs| {
      assert At(cur, 0, |descs|) == cur == At(cur, |pending|, |descs|);
    }
  }

  // The descriptor under the CPU's pointer is the CPU's exactly when a frame is pending.
  lemma HeadOfRing(descs: seq<Desc>, cur: nat, pending: seq<RxFrame>)
    requires Holds(descs, cur, pending)
    ensures descs[cur].dav <==> pending == []
    ensures pending != [] ==> descs[cur].frame == pending[0]
  {
    assert At(cur, 0, |descs|) == cur;
  }

  lemma FillHolds(descs: seq<Desc>, cur: nat, pending: seq<RxFrame>, f: RxFrame)
    requires Holds(descs, cur, pending) && |pending| < |descs|
    ensures Holds(descs[At(cur, |pending|, |descs|) := Desc(false, f)], cur, pending + [f])
  {
  }

  lemma ReleaseHolds(descs: seq<Desc>, cur: nat, pending: seq<RxFrame>)
    requires Holds(descs, cur, pending) && pending != []
    ensures Holds(descs[cur := descs[cur].(dav := true)], At(cur, 1, |descs|), pending[1..])
    ensures At(cur, |pending|, |descs|) == At(At(cur, 1, |descs|), |pending| - 1, |descs|)
  {
    var n := |descs|;
    var next := At(cur, 1, n);
    var released := descs[cur := descs[cur].(dav := true)];
    forall i | 0 <= i < n
      ensures var d := released[At(next, i, n)];
              if i < |pending| - 1 then !d.dav && d.frame == pending[i + 1] else d.dav
    {
      if i < n - 1 {
        assert At(next, i, n) == At(cur, i + 1, n) != cur;
      } else {
        assert At(next, i, n) == cur;
      }
    }
  }
}

/** `ENET_IRQHandler` (src/gd32f4xx_it.c) over the descriptor ring, with frames arriving at any step. */
module EnetIrq {
  import opened RxFrames
  import opened RxRing
  import WakeUp

  // The good frames of a sequence, in order.
  function Good(fs: seq<RxFrame>): seq<RxFrame> {
    if fs == [] then [] else Good(fs[..|fs| - 1]) + IfGood(fs[|fs| - 1])
  }

  function IfGood(f: RxFrame): seq<RxFrame> {
    if Bad(f) then [] else [f]
  }

  lemma GoodAppend(fs: seq<RxFrame>, f: RxFrame)
    ensures Good(fs + [f]) == Good(fs) + IfGood(f)
  {
    assert (fs + [f])[..|fs|] == fs;
  }

  // What lwip_frame_recv passes on: a frame, or the empty contents of a descriptor the DMA owns.
  datatype Handed = Frame(f: RxFrame) | Nothing

  function AsHanded(fs: seq<RxFrame>): (hs: seq<Handed>)
    ensures |hs| == |fs| && forall i :: 0 <= i < |fs| ==> hs[i] == Frame(fs[i])
  {
    seq(|fs|, i requires 0 <= i < |fs| => Frame(fs[i]))
  }

  // lwIP was handed exactly the good ones of the frames removed, in order.
  ghost predicate Exact(received: seq<Handed>, removed: seq<RxFrame>) {
    received == AsHanded(Good(removed))
  }

  lemma ExactAppend(received: seq<Handed>, removed: seq<RxFrame>, f: RxFrame)
    requires Exact(received, removed)
    ensures Exact(received + if Bad(f) then [] else [Frame(f)], removed + [f])
  {
    HandedAppend(removed, f);
    assert AsHanded(IfGood(f)) == if Bad(f) then [] else [Frame(f)];
    hide Good, AsHanded;
  }

  lemma HandedAppend(fs: seq<RxFrame>, f: RxFrame)
    ensures AsHanded(Good(fs + [f])) == AsHanded(Good(fs)) + AsHanded(IfGood(f))
  {
    GoodAppend(fs, f);
    hide Good, IfGood, AsHanded;
    HandedConcat(Good(fs), IfGood(f));
  }

  lemma HandedConcat(a: seq<RxFrame>, b: seq<RxFrame>)
    ensures AsHanded(a + b) == AsHanded(a) + AsHanded(b)
  {
    hide AsHanded;
  }

  // How many frames the batches from k on hold.
  function Total(batches: seq<seq<RxFrame>>, k: nat): nat
    requires k <= |batches|
    decreases |batches| - k
  {
    if k == |batches| then 0 else |batches[k]| + Total(batches, k + 1)
  }

  // The receive settings that matter: undersized forwarding and the type-frame CRC setting.
  datatype Config = Config(fuf: bool, tfcd: bool)

  // With undersized forwarding on, the drain loop gets past these frames; with it off there is nothing to ask.
  ghost predicate Passable(fs: seq<RxFrame>, c: Config) {
    c.fuf ==> forall f :: f in fs ==> !Stuck(f, c.tfcd)
  }

  // What the value of enet_rxframe_size_get says about the head of a ring the handler gets past.
  lemma TurnOfHead(pending: seq<RxFrame>, c: Config)
    requires Passable(pending, c) && forall f :: f in pending ==> Stored(f, c.fuf)
    ensures var reval := Turn(pending, c.tfcd).1;
            && (reval == 1 <==> pending != [] && Bad(pending[0]))
            && (reval == 0 <==> pending == [] || (c.fuf && Blank(pending[0], c.tfcd)))
  {
    if pending != [] {
      assert pending[0] in pending;
      if !c.fuf {
        LongFrames(pending[0], c.tfcd);
      }
    }
  }

  // Dropping a bad head changes neither what arrived nor what is to be handed over.
  lemma BadDropped(received: seq<Handed>, removed: seq<RxFrame>, pending: seq<RxFrame>, c: Config)
    requires pending != [] && Bad(pending[0]) && Exact(received, removed)
    ensures removed + [pending[0]] + pending[1..] == removed + pending
    ensures Exact(received, removed + [pending[0]])
    ensures Passable(pending, c) ==> Passable(pending[1..], c)
  {
    ExactAppend(received, removed, pending[0]);
    assert received + [] == received;
    hide Exact;
  }

  // Where the value of enet_rxframe_size_get takes the handler.
  ghost function PcAfter(reval: nat): WakeUp.Pc {
    if reval == 0 then WakeUp.Idle else if reval == 1 then WakeUp.Check else WakeUp.Recv
  }

  // The machine's check is the abstract turn.
  lemma CheckTurn(before: seq<RxFrame>, after: seq<RxFrame>, rs: bool, ni: bool, c: WakeUp.Config)
    requires c.clearFirst
    requires after == if Turn(before, c.tfcd).1 == 1 then Turn(before, c.tfcd).0 else before
    ensures WakeUp.Step(WakeUp.State(before, rs, ni, WakeUp.Check), WakeUp.Cpu, c)
            == WakeUp.State(after, rs, ni, PcAfter(Turn(before, c.tfcd).1))
  {
  }

  lemma TurnDrops(pending: seq<RxFrame>, tfcd: bool)
    requires pending != [] && Bad(pending[0])
    ensures Turn(pending, tfcd) == (pending[1..], 1)
  {
  }

  class Receiver {
    const descs: array<Desc>
    const config: Config
    var cur: nat                        // dma_current_rxdesc
    var hw: nat                         // the descriptor the DMA fills next
    var rs: bool                        // receive status flag
    var ni: bool                        // normal interrupt summary flag

    ghost var removed: seq<RxFrame>     // frames taken off the ring
    ghost var received: seq<Handed>     // what was handed to lwIP
    ghost var pending: seq<RxFrame>     // frames on the ring

    // The handler as a run of the small-step machine, since the handler was last entered.
    ghost var pc: WakeUp.Pc
    ghost var entered: WakeUp.State
    ghost var events: seq<WakeUp.Event>

    ghost predicate RingValid()
      reads this, descs
    {
      && Holds(descs[..], cur, pending)
      && hw == At(cur, |pending|, descs.Length)
      && forall f :: f in pending ==> Stored(f, config.fuf)
    }

    ghost predicate Valid()
      reads this, descs
    {
      RingValid() && Exact(received, removed)
    }

    // All frames the DMA ever stored, in order of arrival.
    ghost function Arrived(): seq<RxFrame>
      reads this
    {
      removed + pending
    }

    // Outside the handler: a pending frame has its interrupt flags up.
    ghost predicate Quiet()
      reads this
    {
      pending != [] ==> rs && ni
    }

    ghost function Setting(): WakeUp.Config {
      WakeUp.Config(descs.Length, config.fuf, config.tfcd, true)
    }

    // Ring, flags and place in the handler are what the machine's steps make of them.
    ghost predicate InStep()
      reads `entered, `events, `pending, `rs, `ni, `pc
    {
      WakeUp.Run(entered, events, Setting()) == WakeUp.State(pending, rs, ni, pc)
    }

    // Nothing is left to say about the ring but for a blank frame at its head.
    ghost predicate QuietOrBlank()
      reads this
    {
      Quiet() || (config.fuf && pending != [] && Blank(pending[0], config.tfcd))
    }

    // enet_descriptors_chain_init
    constructor (n: nat, config: Config)
      requires 0 < n
      ensures Valid() && Quiet() && InStep() && Arrived() == [] && descs.Length == n && fresh(descs)
    {
      descs := new Desc[n](_ => Desc(true, RxFrame(false, false, false, false, false, 0, [])));
      this.config := config;
      cur, hw, rs, ni := 0, 0, false, false;
      removed, received, pending := [], [], [];
      pc, entered, events := WakeUp.Idle, WakeUp.START, [];
    }

    // The FIFO drops an undersized frame unless it is to forward it; the DMA stores a frame if it owns the
    // next descriptor, otherwise the frame is missed.
    method Arrive(f: RxFrame)
      requires RingValid()
      modifies `hw, `rs, `ni, `pending, `events, descs
      ensures RingValid()
      ensures if Stored(f, config.fuf) && |old(pending)| < descs.Length then pending == old(pending) + [f] && rs && ni
              else pending == old(pending) && rs == old(rs) && ni == old(ni)
      ensures old(InStep()) ==> InStep()
    {
      NextIsFree(descs[..], cur, pending);
      WakeUp.RunSnoc(entered, events, WakeUp.Arrive(f), Setting());
      if Stored(f, config.fuf) && descs[hw].dav {
        FillHolds(descs[..], cur, pending, f);
        descs[hw] := Desc(false, f);
        hw := At(hw, 1, descs.Length);
        rs, ni := true, true;
        pending := pending + [f];
      }
      events := events + [WakeUp.Arrive(f)];
    }

    method ArriveAll(fs: seq<RxFrame>)
      requires RingValid()
      modifies `hw, `rs, `ni, `pending, `events, descs
      ensures RingValid()
      ensures old(pending) <= pending && |pending| <= |old(pending)| + |fs|
      ensures Passable(old(pending), config) && Passable(fs, config) ==> Passable(pending, config)
      ensures if pending == old(pending) then rs == old(rs) && ni == old(ni) else rs && ni
      ensures old(InStep()) ==> InStep()
    {
      for k := 0 to |fs|
        invariant RingValid()
        invariant old(pending) <= pending && |pending| <= |old(pending)| + k
        invariant Passable(old(pending), config) && Passable(fs, config) ==> Passable(pending, config)
        invariant if pending == old(pending) then rs == old(rs) && ni == old(ni) else rs && ni
        invariant old(InStep()) ==> InStep()
      {
        hide InStep, Holds;
        assert fs[k] in fs;
        Arrive(fs[k]);
      }
    }

    // Give the current descriptor back to the DMA and move on to the next.
    method Release()
      requires RingValid() && pending != []
      modifies `cur, `removed, `pending, descs
      ensures RingValid()
      ensures removed == old(removed) + [old(pending)[0]] && pending == old(pending)[1..]
    {
      ReleaseHolds(descs[..], cur, pending);
      descs[cur] := descs[cur].(dav := true);
      cur := At(cur, 1, descs.Length);
      removed, pending := removed + [pending[0]], pending[1..];
    }

    /** enet_rxframe_size_get: the value is that of the abstract turn; only a bad head frame is taken off. */
    method RxFrameSizeGet() returns (size: nat)
      requires RingValid()
      modifies `cur, `removed, `pending, descs
      ensures RingValid()
      ensures size == Turn(old(pending), config.tfcd).1
      ensures if old(pending) != [] && Bad(old(pending)[0])
              then removed == old(removed) + [old(pending)[0]] && pending == old(pending)[1..]
              else removed == old(removed) && pending == old(pending)
    {
      HeadOfRing(descs[..], cur, pending);
      if descs[cur].dav {
        return 0;
      }
      var f := descs[cur].frame;
      hide Holds, Size;
      if f.errs || !f.ldes || !f.fdes {
        Release();
        return 1;
      }
      if f.frmt && f.pcerr {
        Release();
        return 1;
      }
      size := FrameSize(f);
    }

    // The length of a frame in the buffer, with or without its CRC.
    method FrameSize(f: RxFrame) returns (size: nat)
      ensures size == Size(f, config.tfcd)
    {
      size := (f.frml - 4) % U32;
      if config.tfcd && f.frmt {
        size := (size + 4) % U32;
      }
    }

    /** lwip_frame_recv, first half: low_level_input reads the length of the current descriptor and copies the
        frame, good or bad, for lwIP.  A descriptor the DMA owns has length 0. */
    method LowLevelRead()
      requires RingValid()
      modifies `received
      ensures RingValid()
      ensures received == old(received) + [if pending == [] then Nothing else Frame(pending[0])]
    {
      HeadOfRing(descs[..], cur, pending);
      hide Holds;
      received := received + [if descs[cur].dav then Nothing else Frame(descs[cur].frame)];
    }

    /** lwip_frame_recv, second half: enet_frame_receive(NULL, 0) looks at the descriptor again and releases it if
        the CPU owns it by now. */
    method FrameReceive()
      requires RingValid()
      modifies `cur, `removed, `pending, descs
      ensures RingValid()
      ensures if old(pending) == [] then removed == old(removed) && pending == []
              else removed == old(removed) + [old(pending)[0]] && pending == old(pending)[1..]
    {
      HeadOfRing(descs[..], cur, pending);
      hide Holds;
      if !descs[cur].dav {
        Release();
      }
    }

    // The next batch of the schedule arrives.
    method Interleave(batches: seq<seq<RxFrame>>, k: nat) returns (k': nat)
      requires RingValid() && k <= |batches| && Passable(pending, config) && InStep()
      requires forall k :: 0 <= k < |batches| ==> Passable(batches[k], config)
      modifies `hw, `rs, `ni, `pending, `events, descs
      ensures RingValid() && k <= k' <= |batches| && Passable(pending, config) && InStep()
      ensures Since(batches, k, k')
      ensures old(pending) != [] ==> pending != [] && pending[0] == old(pending)[0]
      ensures old(pending) == [] && pending != [] ==> rs && ni
    {
      hide InStep, Holds;
      k' := k;
      if k < |batches| {
        ArriveAll(batches[k]);
        k' := k + 1;
      }
    }

    // What holds before every turn of the drain loop.
    ghost predicate Draining()
      reads this, descs
    {
      Valid() && Passable(pending, config) && InStep() && pc == WakeUp.Check
    }

    // What arrived since, out of batches k to k'; nothing did only if the flags are as they were.
    twostate predicate Since(batches: seq<seq<RxFrame>>, k: nat, k': nat)
      requires k <= |batches| && k' <= |batches|
      reads this
    {
      && old(Arrived()) <= Arrived()
      && |Arrived()| + Total(batches, k') <= |old(Arrived())| + Total(batches, k)
      && (|Arrived()| == |old(Arrived())| ==> rs == old(rs) && ni == old(ni))
    }

    // One turn of the drain loop, frames arriving before each of its three steps.
    method DrainTurn(batches: seq<seq<RxFrame>>, k: nat) returns (reval: nat, k': nat)
      requires Draining() && k <= |batches|
      requires forall k :: 0 <= k < |batches| ==> Passable(batches[k], config)
      modifies this, descs
      ensures k <= k' <= |batches| && Since(batches, k, k') && entered == old(entered)
      ensures reval != 0 ==> Draining() && |removed| == |old(removed)| + 1
      ensures reval == 0 ==> && Valid() && Passable(pending, config) && InStep() && pc == WakeUp.Idle
                             && removed == old(removed) && QuietOrBlank()
    {
      hide Exact, Holds, Total, Size, InStep, Passable, Blank, Bad;
      k' := Interleave(batches, k);
      reval := CheckHead();
      k' := Interleave(batches, k');
      if reval > 1 {
        k' := RecvGood(batches, k');
      }
    }

    // enet_rxframe_size_get in the handler, as a step of the machine
    method CheckHead() returns (reval: nat)
      requires Draining()
      modifies `cur, `removed, `pending, `pc, `events, descs
      ensures Valid() && Passable(pending, config) && Arrived() == old(Arrived()) && InStep()
      ensures if reval == 1 then |removed| == |old(removed)| + 1 else removed == old(removed) && HeadAgrees(reval)
      ensures pc == PcAfter(reval) && entered == old(entered)
    {
      WakeUp.RunSnoc(entered, events, WakeUp.Cpu, Setting());
      hide Exact, Holds, Turn, Blank, Bad, Passable, PcAfter, HeadAgrees, WakeUp.Run, WakeUp.Step;
      ghost var before := pending;
      reval := CheckRing();
      CheckTurn(before, pending, rs, ni, Setting());
      events, pc := events + [WakeUp.Cpu], PcAfter(reval);
    }

    // enet_rxframe_size_get in the handler: a value of 1 means that a frame was dropped.
    method CheckRing() returns (reval: nat)
      requires Valid() && Passable(pending, config)
      modifies `cur, `removed, `pending, descs
      ensures Valid() && Passable(pending, config) && Arrived() == old(Arrived())
      ensures if reval == 1 then |removed| == |old(removed)| + 1 else removed == old(removed) && HeadAgrees(reval)
      ensures reval == Turn(old(pending), config.tfcd).1
      ensures pending == if reval == 1 then Turn(old(pending), config.tfcd).0 else old(pending)
    {
      TurnOfHead(pending, config);
      if pending != [] && Bad(pending[0]) {
        BadDropped(received, removed, pending, config);
        TurnDrops(pending, config.tfcd);
      }
      hide Exact, Holds, Turn, Blank, Bad, Passable;
      reval := RxFrameSizeGet();
    }

    // What a value other than 1 says about the head of the ring.
    ghost predicate HeadAgrees(reval: nat)
      reads `pending
    {
      if reval == 0 then pending == [] || (config.fuf && Blank(pending[0], config.tfcd))
      else pending != [] && !Bad(pending[0])
    }

    // lwip_frame_recv in the handler: the head is the CPU's, so it stays the head whatever arrives.
    method RecvGood(batches: seq<seq<RxFrame>>, k: nat) returns (k': nat)
      requires Valid() && k <= |batches| && Passable(pending, config) && InStep() && pc == WakeUp.Recv
      requires forall k :: 0 <= k < |batches| ==> Passable(batches[k], config)
      requires pending != [] && !Bad(pending[0])
      modifies this, descs
      ensures Draining() && k <= k' <= |batches| && Since(batches, k, k') && entered == old(entered)
      ensures |removed| == |old(removed)| + 1
    {
      hide Exact, Holds, Total, Passable, InStep, Bad;
      ReadGood();
      k' := Interleave(batches, k);
      ReleaseRead();
    }

    // The read: what is handed over is ahead of what is removed by the head.
    method ReadGood()
      requires Valid() && pending != [] && !Bad(pending[0])
      modifies `received
      ensures RingValid() && Exact(received, removed + [pending[0]])
    {
      ExactAppend(received, removed, pending[0]);
      hide Exact, Holds;
      LowLevelRead();
    }

    // enet_frame_receive after the read, as a step of the machine
    method ReleaseRead()
      requires RingValid() && pending != [] && Exact(received, removed + [pending[0]])
      requires Passable(pending, config) && InStep() && pc == WakeUp.Recv
      modifies `cur, `removed, `pending, `pc, `events, descs
      ensures Draining() && Arrived() == old(Arrived()) && |removed| == |old(removed)| + 1
    {
      WakeUp.RunSnoc(entered, events, WakeUp.Cpu, Setting());
      hide Exact, Holds, WakeUp.Run;
      FrameReceive();
      events, pc := events + [WakeUp.Cpu], WakeUp.Check;
    }

    // The two flags cleared, frames arriving in between.
    method ClearFlags(batches: seq<seq<RxFrame>>) returns (k: nat)
      requires Valid() && Passable(pending, config)
      requires forall k :: 0 <= k < |batches| ==> Passable(batches[k], config)
      modifies `rs, `ni, `hw, `pending, `pc, `entered, `events, descs
      ensures Draining() && k <= |batches| && old(Arrived()) <= Arrived()
      ensures |Arrived()| + Total(batches, k) <= |old(Arrived())| + Total(batches, 0)
      ensures |Arrived()| == |old(Arrived())| ==> !rs && !ni
      ensures entered == WakeUp.State(old(pending), false, old(ni), WakeUp.ClearNi)
    {
      hide Exact, Holds, Total, Passable, WakeUp.Run;
      rs := false;
      pc, entered, events := WakeUp.ClearNi, WakeUp.State(pending, rs, ni, WakeUp.ClearNi), [];
      WakeUp.RunNone(entered, Setting());
      k := Interleave(batches, 0);
      WakeUp.RunSnoc(entered, events, WakeUp.Cpu, Setting());
      ni := false;
      pc, events := WakeUp.Check, events + [WakeUp.Cpu];
    }

    /** ENET_IRQHandler, with a batch of frames (possibly none) arriving before each of its steps for as long
        as the schedule lasts.  The frames handed over are the good ones among those removed (Valid), and the
        removed ones are the first to have arrived (Arrived).  Undersized forwarding off, this holds for all
        frames and no pending frame is left unannounced; with it on, the handler may stop at a blank one.  If
        nothing arrived the flags are down.  Ring and flags went through the steps of WakeUp, from the handler's
        first (the receive flag cleared) to its end (InStep). */
    method IrqHandler(batches: seq<seq<RxFrame>>) returns (turns: nat)
      requires Valid() && Passable(pending, config)
      requires forall k :: 0 <= k < |batches| ==> Passable(batches[k], config)
      modifies this, descs
      ensures Valid() && QuietOrBlank() && Passable(pending, config)
      ensures old(Arrived()) <= Arrived()
      ensures |Arrived()| == |old(Arrived())| ==> !rs && !ni
      ensures turns == |removed| - |old(removed)| + 1
      ensures turns <= |old(pending)| + Total(batches, 0) + 1
      ensures entered == WakeUp.State(old(pending), false, old(ni), WakeUp.ClearNi) && InStep() && pc == WakeUp.Idle
    {
      hide Exact, Holds, Total, Passable, Blank, InStep;
      var k: nat := ClearFlags(batches);
      turns := 0;
      var reval := 1;
      while reval != 0
        invariant k <= |batches| && old(Arrived()) <= Arrived()
        invariant reval != 0 ==> Draining()
        invariant reval == 0 ==> Valid() && Passable(pending, config) && InStep() && pc == WakeUp.Idle && QuietOrBlank()
        invariant |Arrived()| + Total(batches, k) <= |old(Arrived())| + Total(batches, 0)
        invariant |Arrived()| == |old(Arrived())| ==> !rs && !ni
        invariant turns == |removed| - |old(removed)| + if reval == 0 then 1 else 0
        invariant entered == WakeUp.State(old(pending), false, old(ni), WakeUp.ClearNi)
        decreases reval != 0, |pending| + Total(batches, k)
      {
        reval, k := DrainTurn(batches, k);
        turns := turns + 1;
      }
    }
  }
}
