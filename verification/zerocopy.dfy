/**
 Zero-copy reception (lwip-2.2.0/doc/ZeroCopyRx.c): a DMA descriptor leaves the hardware with a received
 frame, is wrapped in a custom pbuf from a fixed pool, and goes back when the last reference is freed.

 The pool allocation is not checked, so the code relies on there being a pool entry for every descriptor
 the hardware can still fill.  The free callback is split into its steps: an interrupt, or another thread,
 can come between any two of them unless the section is protected.
 */
module ZeroCopy {

  type Entry = nat
  type Desc = nat

  // What a pool entry in use is: a pbuf with its references, or one whose free callback has got so far.
  datatype Use =
    | Live(desc: Desc, refs: nat)
    | Freeing(desc: Desc)             // my_pbuf_free_custom called
    | Locked(desc: Desc)              // SYS_ARCH_PROTECT done
    | Returned                        // free_rx_dma_descriptor done

  datatype State = State(
    free: seq<Entry>,                 // free list of RX_POOL
    dma: set<Desc>,                   // descriptors the hardware may fill
    used: map<Entry, Use>,
    received: multiset<Desc>,         // descriptors taken from the hardware, over the whole run
    returned: multiset<Desc>,         // descriptors given back
    fault: bool)                      // a failed allocation was dereferenced

  // Whether the callback's section is protected, and how many threads call pbuf_free.
  datatype Config = Config(lock: bool, threads: nat)

  datatype Event =
    | Rx(d: Desc, accepted: bool)     // eth_rx_irq for a filled descriptor; what netif->input answers
    | Ref(e: Entry)                   // pbuf_ref
    | Free(e: Entry)                  // pbuf_free
    | Continue(e: Entry)              // the next step of my_pbuf_free_custom for this entry

  // The callback of this entry is between SYS_ARCH_PROTECT and SYS_ARCH_UNPROTECT.
  predicate InSection(u: Use) {
    u.Locked? || u.Returned?
  }

  predicate Masked(s: State, lock: bool) {
    lock && exists e | e in s.used :: InSection(s.used[e])
  }

  // Entries whose callback is running, one thread for each.
  function Busy(used: map<Entry, Use>): set<Entry> {
    set e | e in used && !used[e].Live?
  }

  // eth_rx_irq.  A rejected frame is freed on the spot, with nothing in between.
  function RxIrq(s: State, d: Desc, accepted: bool): State {
    if s.free == [] then s.(dma := s.dma - {d}, received := s.received + multiset{d}, fault := true)
    else if accepted then
      s.(free := s.free[1..], dma := s.dma - {d}, used := s.used[s.free[0] := Live(d, 1)],
         received := s.received + multiset{d})
    else s.(received := s.received + multiset{d}, returned := s.returned + multiset{d})
  }

  function PbufRef(s: State, e: Entry): State
    requires e in s.used && s.used[e].Live?
  {
    s.(used := s.used[e := Live(s.used[e].desc, s.used[e].refs + 1)])
  }

  // pbuf_free up to the call of the custom free function
  function PbufFree(s: State, e: Entry): State
    requires e in s.used && s.used[e].Live?
  {
    var u := s.used[e];
    s.(used := s.used[e := if u.refs > 1 then Live(u.desc, u.refs - 1) else Freeing(u.desc)])
  }

  // The last step returns the pool entry and unprotects: nothing can come between these two.
  function FreeStep(s: State, e: Entry): State
    requires e in s.used
  {
    match s.used[e]
    case Live(_, _) => s
    case Freeing(d) => s.(used := s.used[e := Locked(d)])
    case Locked(d) => s.(used := s.used[e := Returned], dma := s.dma + {d}, returned := s.returned + multiset{d})
    case Returned => s.(used := s.used - {e}, free := [e] + s.free)
  }

  // Only a descriptor the hardware owns can be received into; only live pbufs are referenced and freed.  A free
  // takes a thread that is not in a callback, and the callback waits for the section if that is protected.
  function Step(s: State, event: Event, c: Config): State {
    if s.fault then s
    else
      match event
      case Rx(d, accepted) => if Masked(s, c.lock) || d !in s.dma then s else RxIrq(s, d, accepted)
      case Ref(e) => if e in s.used && s.used[e].Live? then PbufRef(s, e) else s
      case Free(e) => if e in s.used && s.used[e].Live? && |Busy(s.used)| < c.threads then PbufFree(s, e) else s
      case Continue(e) =>
        if e !in s.used || (s.used[e].Freeing? && Masked(s, c.lock)) then s else FreeStep(s, e)
  }

  function Run(s: State, events: seq<Event>, c: Config): State
    decreases |events|
  {
    if events == [] then s else Run(Step(s, events[0], c), events[1..], c)
  }

  function Numbers(n: nat): (s: set<nat>)
    ensures |s| == n && forall k :: k in s <==> 0 <= k < n
  {
    if n == 0 then {} else Numbers(n - 1) + {n - 1}
  }

  // All `entries` free, all `descs` with the hardware.
  function Initial(entries: nat, descs: nat): State {
    State(seq(entries, k => k), Numbers(descs), map[], multiset{}, multiset{}, false)
  }

  // ---- The invariant --------------------------------------------------------------------------------

  // Entries that hold a descriptor, and entries whose descriptor has gone back already.
  function Owners(used: map<Entry, Use>): set<Entry> {
    set e | e in used && !used[e].Returned?
  }

  function Late(used: map<Entry, Use>): set<Entry> {
    set e | e in used && used[e].Returned?
  }

  // Each pool entry is free or in use, and in one of these only.
  ghost predicate EntriesInv(s: State, entries: nat) {
    multiset(s.free) + multiset(s.used.Keys) == multiset(Numbers(entries))
  }

  // No two entries hold the same descriptor, and none holds one of the hardware's.
  ghost predicate Exclusive(used: map<Entry, Use>, dma: set<Desc>) {
    && (forall e :: e in Owners(used) ==> used[e].desc !in dma)
    && (forall e, f :: e in Owners(used) && f in Owners(used) && used[e].desc == used[f].desc ==> e == f)
  }

  // The entries hold descriptors that exist, and a live pbuf has a reference.
  ghost predicate WellFormed(used: map<Entry, Use>, descs: nat) {
    && (forall e :: e in Owners(used) ==> used[e].desc in Numbers(descs))
    && (forall e :: e in used && used[e].Live? ==> used[e].refs > 0)
  }

  // Each descriptor is the hardware's or is held by exactly one entry.
  ghost predicate Owned(used: map<Entry, Use>, dma: set<Desc>, descs: nat) {
    && Exclusive(used, dma)
    && dma <= Numbers(descs)
    && |dma| + |Owners(used)| == descs
    && WellFormed(used, descs)
  }

  // Received once more than returned exactly while away from the hardware.
  ghost predicate ReturnsInv(s: State, descs: nat) {
    s.received == s.returned + multiset(Numbers(descs) - s.dma)
  }

  ghost predicate Inv(s: State, entries: nat, descs: nat, threads: nat) {
    && !s.fault
    && EntriesInv(s, entries)
    && Owned(s.used, s.dma, descs)
    && ReturnsInv(s, descs)
    && |Busy(s.used)| <= threads
  }

  // ---- The pigeonhole -------------------------------------------------------------------------------

  // The entries between their two returns are all that can be missing.
  lemma FreeForEveryDescriptor(s: State, entries: nat, descs: nat)
    requires EntriesInv(s, entries) && Owned(s.used, s.dma, descs)
    ensures |s.free| + |Late(s.used)| == |s.dma| + entries - descs
  {
    assert |multiset(s.free)| + |multiset(s.used.Keys)| == |multiset(Numbers(entries))|;
    assert s.used.Keys == Owners(s.used) + Late(s.used);
    assert Owners(s.used) !! Late(s.used);
  }

  lemma LateIsBusy(used: map<Entry, Use>)
    ensures |Late(used)| <= |Busy(used)|
  {
    Subset(Late(used), Busy(used));
  }

  lemma Subset(a: set<Entry>, b: set<Entry>)
    requires a <= b
    ensures |a| <= |b|
  {
    assert b == a + (b - a);
  }

  // The condition under which a receive finds an entry.
  predicate Fits(c: Config, entries: nat, descs: nat) {
    descs == 0 || if c.lock then descs <= entries else descs + c.threads <= entries
  }

  lemma AllocationSucceeds(s: State, d: Desc, c: Config, entries: nat, descs: nat)
    requires Inv(s, entries, descs, c.threads) && d in s.dma && !Masked(s, c.lock) && Fits(c, entries, descs)
    ensures s.free != []
  {
    FreeForEveryDescriptor(s, entries, descs);
    LateIsBusy(s.used);
    assert |s.dma| > 0;
    assert d in Numbers(descs);
    if c.lock {
      assert Late(s.used) == {};
    }
  }

  // ---- Every step keeps the invariant ---------------------------------------------------------------

  // What is on the free list is not in use.
  lemma FreeIsNotUsed(s: State, e: Entry, entries: nat)
    requires EntriesInv(s, entries) && e in multiset(s.free)
    ensures e !in s.used
  {
    assert (multiset(s.free) + multiset(s.used.Keys))[e] == multiset(Numbers(entries))[e];
  }

  lemma AllocKeepsEntries(s: State, d: Desc, entries: nat)
    requires EntriesInv(s, entries) && s.free != []
    ensures s.free[0] !in s.used
    ensures EntriesInv(RxIrq(s, d, true), entries)
  {
    var t := RxIrq(s, d, true);
    var e := s.free[0];
    assert s.free == [e] + t.free;
    assert multiset(s.free) == multiset{e} + multiset(t.free);
    FreeIsNotUsed(s, e, entries);
    assert t.used.Keys == s.used.Keys + {e};
    assert multiset(t.used.Keys) == multiset(s.used.Keys) + multiset{e};
  }

  lemma TakeExclusive(used: map<Entry, Use>, dma: set<Desc>, e: Entry, d: Desc)
    requires Exclusive(used, dma) && e !in used && d in dma
    ensures Owners(used[e := Live(d, 1)]) == Owners(used) + {e}
    ensures Exclusive(used[e := Live(d, 1)], dma - {d})
  {
  }

  lemma TakeWellFormed(used: map<Entry, Use>, descs: nat, e: Entry, d: Desc)
    requires WellFormed(used, descs) && e !in used && d in Numbers(descs)
    ensures WellFormed(used[e := Live(d, 1)], descs)
    ensures Busy(used[e := Live(d, 1)]) == Busy(used)
    ensures e !in Owners(used)
  {
  }

  lemma Take(used: map<Entry, Use>, dma: set<Desc>, descs: nat, e: Entry, d: Desc)
    requires Owned(used, dma, descs) && e !in used && d in dma
    ensures Owned(used[e := Live(d, 1)], dma - {d}, descs)
    ensures Busy(used[e := Live(d, 1)]) == Busy(used)
  {
    hide Exclusive, WellFormed, Owners, Busy, Numbers;
    TakeExclusive(used, dma, e, d);
    TakeWellFormed(used, descs, e, d);
  }

  // An entry that keeps its descriptor, whatever becomes of its references or callback.
  lemma KeepDesc(used: map<Entry, Use>, dma: set<Desc>, descs: nat, e: Entry, u: Use)
    requires Owned(used, dma, descs) && e in used && !used[e].Returned? && !u.Returned?
    requires u.desc == used[e].desc && (u.Live? ==> u.refs > 0)
    ensures Owned(used[e := u], dma, descs)
  {
    assert Owners(used[e := u]) == Owners(used);
  }

  lemma GiveExclusive(used: map<Entry, Use>, dma: set<Desc>, e: Entry)
    requires Exclusive(used, dma) && e in Owners(used)
    ensures Owners(used[e := Returned]) == Owners(used) - {e}
    ensures used[e].desc !in dma && Exclusive(used[e := Returned], dma + {used[e].desc})
  {
  }

  lemma GiveWellFormed(used: map<Entry, Use>, descs: nat, e: Entry)
    requires WellFormed(used, descs) && e in used && used[e].Locked?
    ensures e in Owners(used) && used[e].desc in Numbers(descs)
    ensures WellFormed(used[e := Returned], descs)
    ensures Busy(used[e := Returned]) == Busy(used)
  {
  }

  lemma Give(used: map<Entry, Use>, dma: set<Desc>, descs: nat, e: Entry)
    requires Owned(used, dma, descs) && e in used && used[e].Locked?
    ensures used[e].desc !in dma && used[e].desc in Numbers(descs)
    ensures Owned(used[e := Returned], dma + {used[e].desc}, descs)
    ensures Busy(used[e := Returned]) == Busy(used)
  {
    hide Exclusive, WellFormed, Owners, Busy, Numbers;
    GiveWellFormed(used, descs, e);
    GiveExclusive(used, dma, e);
  }

  lemma Drop(used: map<Entry, Use>, dma: set<Desc>, descs: nat, e: Entry)
    requires Owned(used, dma, descs) && e in used && used[e].Returned?
    ensures Owned(used - {e}, dma, descs)
    ensures |Busy(used - {e})| <= |Busy(used)|
  {
    assert Owners(used - {e}) == Owners(used);
    Subset(Busy(used - {e}), Busy(used));
  }

  // A descriptor that leaves the hardware is counted as received, one that comes back as returned.
  lemma LeaveKeepsReturns(s: State, d: Desc, descs: nat)
    requires ReturnsInv(s, descs) && d in s.dma && s.dma <= Numbers(descs)
    ensures s.received + multiset{d} == s.returned + multiset(Numbers(descs) - (s.dma - {d}))
  {
    assert Numbers(descs) - (s.dma - {d}) == (Numbers(descs) - s.dma) + {d};
  }

  lemma ReturnKeepsReturns(s: State, d: Desc, descs: nat)
    requires ReturnsInv(s, descs) && d !in s.dma && d in Numbers(descs)
    ensures s.received == s.returned + multiset{d} + multiset(Numbers(descs) - (s.dma + {d}))
  {
    assert Numbers(descs) - s.dma == (Numbers(descs) - (s.dma + {d})) + {d};
  }

  lemma RxKeepsInv(s: State, d: Desc, accepted: bool, entries: nat, descs: nat, threads: nat)
    requires Inv(s, entries, descs, threads) && d in s.dma && s.free != []
    ensures Inv(RxIrq(s, d, accepted), entries, descs, threads)
  {
    if accepted {
      AllocKeepsEntries(s, d, entries);
      Take(s.used, s.dma, descs, s.free[0], d);
      LeaveKeepsReturns(s, d, descs);
    }
    hide EntriesInv, Owned, Busy;
  }

  // The use of an entry changes, but not what it holds.
  lemma UseKeepsInv(s: State, e: Entry, u: Use, entries: nat, descs: nat, threads: nat)
    requires Inv(s, entries, descs, threads) && e in s.used && !s.used[e].Returned? && !u.Returned?
    requires u.desc == s.used[e].desc && (u.Live? ==> u.refs > 0)
    requires u.Live? || !s.used[e].Live? || |Busy(s.used)| < threads
    ensures Inv(s.(used := s.used[e := u]), entries, descs, threads)
  {
    var used := s.used[e := u];
    KeepDesc(s.used, s.dma, descs, e, u);
    assert used.Keys == s.used.Keys;
    MoreBusy(s.used, e, u);
    hide Owned, Busy;
  }

  lemma MoreBusy(used: map<Entry, Use>, e: Entry, u: Use)
    requires e in used
    ensures |Busy(used[e := u])| <= |Busy(used)| + 1
    ensures u.Live? || !used[e].Live? ==> |Busy(used[e := u])| <= |Busy(used)|
  {
    Subset(Busy(used[e := u]), Busy(used) + {e});
    if u.Live? || !used[e].Live? {
      Subset(Busy(used[e := u]), Busy(used));
    }
  }

  lemma DescStepKeepsInv(s: State, e: Entry, entries: nat, descs: nat, threads: nat)
    requires Inv(s, entries, descs, threads) && e in s.used && s.used[e].Locked?
    ensures Inv(FreeStep(s, e), entries, descs, threads)
  {
    Give(s.used, s.dma, descs, e);
    ReturnKeepsReturns(s, s.used[e].desc, descs);
    assert s.used[e := Returned].Keys == s.used.Keys;
    hide Owned, Busy;
  }

  lemma EntryStepKeepsInv(s: State, e: Entry, entries: nat, descs: nat, threads: nat)
    requires Inv(s, entries, descs, threads) && e in s.used && s.used[e].Returned?
    ensures Inv(FreeStep(s, e), entries, descs, threads)
  {
    var t := FreeStep(s, e);
    Drop(s.used, s.dma, descs, e);
    assert s.used.Keys == t.used.Keys + {e};
    assert multiset(s.used.Keys) == multiset(t.used.Keys) + multiset{e};
    assert multiset(t.free) == multiset{e} + multiset(s.free);
    hide Owned, Busy;
  }

  lemma FreeStepKeepsInv(s: State, e: Entry, entries: nat, descs: nat, threads: nat)
    requires Inv(s, entries, descs, threads) && e in s.used
    ensures Inv(FreeStep(s, e), entries, descs, threads)
  {
    hide Inv;
    match s.used[e]
    case Live(_, _) =>
    case Freeing(d) => UseKeepsInv(s, e, Locked(d), entries, descs, threads);
    case Locked(_) => DescStepKeepsInv(s, e, entries, descs, threads);
    case Returned => EntryStepKeepsInv(s, e, entries, descs, threads);
  }

  lemma RefKeepsInv(s: State, e: Entry, entries: nat, descs: nat, threads: nat)
    requires Inv(s, entries, descs, threads) && e in s.used && s.used[e].Live?
    ensures Inv(PbufRef(s, e), entries, descs, threads)
  {
    UseKeepsInv(s, e, Live(s.used[e].desc, s.used[e].refs + 1), entries, descs, threads);
  }

  lemma FreeKeepsInv(s: State, e: Entry, entries: nat, descs: nat, threads: nat)
    requires Inv(s, entries, descs, threads) && e in s.used && s.used[e].Live? && |Busy(s.used)| < threads
    ensures Inv(PbufFree(s, e), entries, descs, threads)
  {
    var u := s.used[e];
    UseKeepsInv(s, e, if u.refs > 1 then Live(u.desc, u.refs - 1) else Freeing(u.desc), entries, descs, threads);
    hide Inv, Busy;
  }

  lemma StepKeepsInv(s: State, event: Event, c: Config, entries: nat, descs: nat)
    requires Inv(s, entries, descs, c.threads) && Fits(c, entries, descs)
    ensures Inv(Step(s, event, c), entries, descs, c.threads)
  {
    match event
    case Rx(d, accepted) =>
      if !Masked(s, c.lock) && d in s.dma {
        AllocationSucceeds(s, d, c, entries, descs);
        RxKeepsInv(s, d, accepted, entries, descs, c.threads);
      }
    case Ref(e) =>
      if e in s.used && s.used[e].Live? {
        RefKeepsInv(s, e, entries, descs, c.threads);
      }
    case Free(e) =>
      if e in s.used && s.used[e].Live? && |Busy(s.used)| < c.threads {
        FreeKeepsInv(s, e, entries, descs, c.threads);
      }
    case Continue(e) =>
      if e in s.used {
        FreeStepKeepsInv(s, e, entries, descs, c.threads);
      }
  }

  lemma {:induction false} FreeListIsAll(n: nat)
    ensures multiset(seq(n, k => k)) == multiset(Numbers(n))
  {
    if n > 0 {
      FreeListIsAll(n - 1);
      assert seq(n, k => k) == seq(n - 1, k => k) + [n - 1];
    }
  }

  lemma InitialInv(entries: nat, descs: nat, threads: nat)
    ensures Inv(Initial(entries, descs), entries, descs, threads)
  {
    FreeListIsAll(entries);
    assert Numbers(descs) - Numbers(descs) == {};
    assert Owners(map[]) == {} && Busy(map[]) == {};
  }

  lemma {:induction false} RunKeepsInv(s: State, events: seq<Event>, c: Config, entries: nat, descs: nat)
    requires Inv(s, entries, descs, c.threads) && Fits(c, entries, descs)
    ensures Inv(Run(s, events, c), entries, descs, c.threads)
    decreases |events|
  {
    if events != [] {
      StepKeepsInv(s, events[0], c, entries, descs);
      RunKeepsInv(Step(s, events[0], c), events[1..], c, entries, descs);
    }
  }

  // ---- When the pool runs out -----------------------------------------------------------------------

  lemma {:induction false} RunAppend(s: State, a: seq<Event>, b: seq<Event>, c: Config)
    ensures Run(s, a + b, c) == Run(Run(s, a, c), b, c)
    decreases |a|
  {
    if a == [] {
      assert a + b == b;
    } else {
      assert (a + b)[1..] == a[1..] + b;
      RunAppend(Step(s, a[0], c), a[1..], b, c);
    }
  }

  lemma RunOne(s: State, e: Event, rest: seq<Event>, c: Config)
    ensures Run(s, [e] + rest, c) == Run(Step(s, e, c), rest, c)
  {
    assert ([e] + rest)[1..] == rest;
  }

  // One thread takes descriptor 0 through entry e and stops between the two returns.
  function Stall(e: Entry): seq<Event> {
    [Rx(0, true)] + ([Free(e)] + ([Continue(e)] + ([Continue(e)] + [])))
  }

  function Stalls(n: nat): seq<Event> {
    if n == 0 then [] else Stalls(n - 1) + Stall(n - 1)
  }

  // The first `late` entries are between their returns, the next `n` live with descriptors 0 to n - 1, and the
  // rest is free.
  ghost predicate After(s: State, late: nat, n: nat, entries: nat, descs: nat) {
    && !s.fault
    && |s.free| == entries - late - n && (forall k :: 0 <= k < |s.free| ==> s.free[k] == late + n + k)
    && s.dma == Numbers(descs) - Numbers(n)
    && (n == 0 ==> Busy(s.used) == Numbers(late))
  }

  lemma AfterNone(entries: nat, descs: nat)
    ensures After(Initial(entries, descs), 0, 0, entries, descs)
  {
    assert Numbers(descs) - Numbers(0) == Numbers(descs);
  }

  // What the four steps of a stall do.
  function Stalled(s: State, e: Entry): State
    requires s.free != []
  {
    s.(free := s.free[1..], used := s.used[e := Returned],
       received := s.received + multiset{0}, returned := s.returned + multiset{0})
  }

  lemma StallSteps(s: State, e: Entry, c: Config)
    requires !c.lock && !s.fault && 0 in s.dma && s.free != [] && s.free[0] == e
    requires |Busy(s.used[e := Live(0, 1)])| < c.threads
    ensures Step(Step(Step(Step(s, Rx(0, true), c), Free(e), c), Continue(e), c), Continue(e), c) == Stalled(s, e)
  {
    var a := Step(s, Rx(0, true), c);
    assert a == s.(free := s.free[1..], dma := s.dma - {0}, used := s.used[e := Live(0, 1)],
                   received := s.received + multiset{0});
    hide Busy, Masked;
    var b := Step(a, Free(e), c);
    assert b == a.(used := a.used[e := Freeing(0)]);
    var d := Step(b, Continue(e), c);
    assert d == b.(used := b.used[e := Locked(0)]);
    assert d.used[e := Returned] == s.used[e := Returned];
    assert d.dma + {0} == s.dma;
  }

  lemma StallRun(s: State, e: Entry, c: Config)
    ensures Run(s, Stall(e), c)
            == Step(Step(Step(Step(s, Rx(0, true), c), Free(e), c), Continue(e), c), Continue(e), c)
  {
    hide Step;
    var a := Step(s, Rx(0, true), c);
    RunOne(s, Rx(0, true), [Free(e)] + ([Continue(e)] + ([Continue(e)] + [])), c);
    RunOne(a, Free(e), [Continue(e)] + ([Continue(e)] + []), c);
    var b := Step(a, Free(e), c);
    RunOne(b, Continue(e), [Continue(e)] + [], c);
    RunOne(Step(b, Continue(e), c), Continue(e), [], c);
  }

  lemma BusyWith(used: map<Entry, Use>, e: Entry)
    ensures Busy(used[e := Live(0, 1)]) == Busy(used) - {e}
    ensures Busy(used[e := Returned]) == Busy(used) + {e}
  {
  }

  lemma StallReady(s: State, late: nat, entries: nat, descs: nat)
    requires After(s, late, 0, entries, descs) && late < entries && 0 < descs
    ensures !s.fault && 0 in s.dma && s.free != [] && s.free[0] == late
    ensures |Busy(s.used[late := Live(0, 1)])| == late
  {
    assert s.free[0] == late && 0 in s.dma;
    BusyWith(s.used, late);
    hide Busy;
    assert Numbers(late) - {late} == Numbers(late);
  }

  lemma StalledAfter(s: State, late: nat, entries: nat, descs: nat)
    requires After(s, late, 0, entries, descs) && late < entries
    ensures After(Stalled(s, late), late + 1, 0, entries, descs)
  {
    BusyWith(s.used, late);
    hide Busy;
    assert Numbers(late) + {late} == Numbers(late + 1);
    hide Numbers;
  }

  lemma StallNext(s: State, late: nat, c: Config, entries: nat, descs: nat)
    requires After(s, late, 0, entries, descs) && !c.lock && late < c.threads && late < entries && 0 < descs
    ensures After(Run(s, Stall(late), c), late + 1, 0, entries, descs)
  {
    hide *;
    StallReady(s, late, entries, descs);
    StallRun(s, late, c);
    StallSteps(s, late, c);
    StalledAfter(s, late, entries, descs);
  }

  lemma StallsNone(c: Config, entries: nat, descs: nat)
    ensures After(Run(Initial(entries, descs), Stalls(0), c), 0, 0, entries, descs)
  {
    AfterNone(entries, descs);
  }

  lemma StallsSnoc(n: nat)
    requires n > 0
    ensures Stalls(n) == Stalls(n - 1) + Stall(n - 1)
  {
  }

  lemma {:induction false} StallMany(late: nat, c: Config, entries: nat, descs: nat)
    requires late == 0 || (!c.lock && late <= c.threads && 0 < descs)
    requires late <= entries
    ensures After(Run(Initial(entries, descs), Stalls(late), c), late, 0, entries, descs)
  {
    hide *;
    if late == 0 {
      StallsNone(c, entries, descs);
    } else {
      StallMany(late - 1, c, entries, descs);
      StallNext(Run(Initial(entries, descs), Stalls(late - 1), c), late - 1, c, entries, descs);
      RunAppend(Initial(entries, descs), Stalls(late - 1), Stall(late - 1), c);
      StallsSnoc(late);
    }
  }

  // Descriptors 0 to n - 1 received.
  function Received(n: nat): seq<Event> {
    if n == 0 then [] else Received(n - 1) + [Rx(n - 1, true)]
  }

  lemma OneFewer(n: nat, descs: nat)
    requires n < descs
    ensures Numbers(descs) - Numbers(n) - {n} == Numbers(descs) - Numbers(n + 1)
  {
  }

  lemma RunSnoc(s: State, a: seq<Event>, e: Event, c: Config)
    ensures Run(s, a + [e], c) == Step(Run(s, a, c), e, c)
  {
    hide Step;
    RunAppend(s, a, [e], c);
    assert [e][1..] == [];
  }

  // What one accepted receive does.
  lemma StepReceives(s: State, e: Entry, d: Desc, c: Config)
    requires !s.fault && d in s.dma && s.free != [] && s.free[0] == e && !Masked(s, c.lock)
    ensures Step(s, Rx(d, true), c)
            == s.(free := s.free[1..], dma := s.dma - {d}, used := s.used[e := Live(d, 1)],
                  received := s.received + multiset{d})
    ensures !Masked(Step(s, Rx(d, true), c), c.lock)
  {
  }

  lemma ReceiveNext(s: State, late: nat, n: nat, c: Config, entries: nat, descs: nat)
    requires After(s, late, n, entries, descs) && late + n < entries && n < descs && !Masked(s, c.lock)
    ensures var t := Step(s, Rx(n, true), c);
            After(t, late, n + 1, entries, descs) && !Masked(t, c.lock)
  {
    assert n in s.dma && s.free[0] == late + n;
    hide Step, Masked, Busy;
    StepReceives(s, late + n, n, c);
    OneFewer(n, descs);
    hide Numbers;
  }

  lemma ReceivedNone(s: State, c: Config)
    ensures Run(s, Received(0), c) == s
  {
  }

  lemma ReceivedSnoc(n: nat)
    requires n > 0
    ensures Received(n) == Received(n - 1) + [Rx(n - 1, true)]
  {
  }

  lemma {:induction false} ReceiveMany(s: State, late: nat, n: nat, c: Config, entries: nat, descs: nat)
    requires After(s, late, 0, entries, descs) && late + n <= entries && n <= descs && !Masked(s, c.lock)
    ensures var t := Run(s, Received(n), c);
            After(t, late, n, entries, descs) && !Masked(t, c.lock)
  {
    hide *;
    if n == 0 {
      ReceivedNone(s, c);
    } else {
      ReceiveMany(s, late, n - 1, c, entries, descs);
      ReceiveNext(Run(s, Received(n - 1), c), late, n - 1, c, entries, descs);
      RunSnoc(s, Received(n - 1), Rx(n - 1, true), c);
      ReceivedSnoc(n);
    }
  }

  lemma EmptyPoolFaults(s: State, late: nat, n: nat, c: Config, entries: nat, descs: nat)
    requires After(s, late, n, entries, descs) && late + n == entries && n < descs && !Masked(s, c.lock)
    ensures Step(s, Rx(n, true), c).fault
  {
    assert n in s.dma && s.free == [];
  }

  // The pool is used up by `late` stalled callbacks and `n` live pbufs while the hardware has a descriptor left.
  lemma PoolUsedUp(late: nat, n: nat, c: Config, entries: nat, descs: nat)
    requires late == 0 || (!c.lock && late <= c.threads)
    requires late + n == entries && n < descs
    ensures Run(Initial(entries, descs), Stalls(late) + Received(n) + [Rx(n, true)], c).fault
  {
    var s := Initial(entries, descs);
    StallMany(late, c, entries, descs);
    var t := Run(s, Stalls(late), c);
    UnmaskedAtFirst(late, c, entries, descs);
    ReceiveMany(t, late, n, c, entries, descs);
    RunAppend(s, Stalls(late), Received(n), c);
    RunSnoc(s, Stalls(late) + Received(n), Rx(n, true), c);
    EmptyPoolFaults(Run(t, Received(n), c), late, n, c, entries, descs);
    hide *;
  }

  lemma UnmaskedAtFirst(late: nat, c: Config, entries: nat, descs: nat)
    requires late == 0 || !c.lock
    ensures !Masked(Run(Initial(entries, descs), Stalls(late), c), c.lock)
  {
  }

  /** The unchecked allocation is safe in every run of receives, references and frees if and only if there
      are at most as many descriptors as pool entries; when the free callback is not protected, there must be
      one entry more for each thread that frees. */
  lemma AllocationSafeIff(c: Config, entries: nat, descs: nat)
    ensures (forall events :: !Run(Initial(entries, descs), events, c).fault)
            <==> descs == 0 || if c.lock then descs <= entries else descs + c.threads <= entries
  {
    if Fits(c, entries, descs) {
      forall events
        ensures !Run(Initial(entries, descs), events, c).fault
      {
        InitialInv(entries, descs, c.threads);
        RunKeepsInv(Initial(entries, descs), events, c, entries, descs);
      }
    } else {
      var late := if c.lock then 0 else if c.threads < entries then c.threads else entries;
      PoolUsedUp(late, entries - late, c, entries, descs);
    }
  }

  /** With at most as many descriptors as pool entries, after every run and for any number of threads: a
      descriptor away from the hardware was received once more than it was returned, one with the hardware equally
      often; no two entries hold the same descriptor or one the hardware may fill; and each entry is either free
      or in use. */
  lemma EveryRun(threads: nat, entries: nat, descs: nat, events: seq<Event>, d: Desc)
    requires descs <= entries && d < descs
    ensures var s := Run(Initial(entries, descs), events, Config(true, threads));
            && s.received[d] == s.returned[d] + (if d in s.dma then 0 else 1)
            && (forall e, f :: e in Owners(s.used) && f in Owners(s.used) && s.used[e].desc == d == s.used[f].desc
                               ==> e == f && d !in s.dma)
            && multiset(s.free) + multiset(s.used.Keys) == multiset(Numbers(entries))
  {
    InitialInv(entries, descs, threads);
    RunKeepsInv(Initial(entries, descs), events, Config(true, threads), entries, descs);
    assert d in Numbers(descs);
  }

  // ---- References -----------------------------------------------------------------------------------

  // What the events of a run say of one entry, counted from its last receive: the descriptor received and the
  // references outstanding.
  datatype Ledger = Nobody | Somebody(desc: Desc, count: nat)

  // A receive starts with one reference, each reference taken while one is outstanding adds one, each free that a
  // thread can carry out takes one away, and with the last the pbuf is nobody's.
  function Book(l: Ledger, s: State, event: Event, c: Config, e: Entry): Ledger {
    if s.fault then l
    else
      match event
      case Rx(d, accepted) =>
        if !Masked(s, c.lock) && d in s.dma && accepted && s.free != [] && s.free[0] == e then Somebody(d, 1) else l
      case Ref(x) => if x == e && l.Somebody? then Somebody(l.desc, l.count + 1) else l
      case Free(x) =>
        if x != e || l.Nobody? || |Busy(s.used)| >= c.threads then l
        else if l.count > 1 then Somebody(l.desc, l.count - 1)
        else Nobody
      case Continue(_) => l
  }

  function Books(s: State, events: seq<Event>, c: Config, e: Entry): Ledger
    decreases |events|
  {
    if events == [] then Nobody
    else
      var n := |events| - 1;
      Book(Books(s, events[..n], c, e), Run(s, events[..n], c), events[n], c, e)
  }

  // The entry is a live pbuf exactly as the books say.
  predicate Agrees(s: State, e: Entry, l: Ledger) {
    match l
    case Nobody => e in s.used ==> !s.used[e].Live?
    case Somebody(d, n) => e in s.used && s.used[e] == Live(d, n)
  }

  lemma RxAgrees(s: State, d: Desc, accepted: bool, e: Entry, l: Ledger, c: Config, entries: nat)
    requires EntriesInv(s, entries) && Agrees(s, e, l) && !s.fault
    ensures Agrees(Step(s, Rx(d, accepted), c), e, Book(l, s, Rx(d, accepted), c, e))
  {
    if s.free != [] {
      AllocKeepsEntries(s, d, entries);
    }
    hide Masked, EntriesInv;
  }

  lemma StepAgrees(s: State, event: Event, c: Config, e: Entry, l: Ledger, entries: nat)
    requires EntriesInv(s, entries) && Agrees(s, e, l)
    requires l.Somebody? ==> l.count > 0
    ensures Agrees(Step(s, event, c), e, Book(l, s, event, c, e))
  {
    hide EntriesInv, Masked, Busy;
    if event.Rx? && !s.fault {
      RxAgrees(s, event.d, event.accepted, e, l, c, entries);
    }
  }

  lemma BooksSnoc(s: State, events: seq<Event>, event: Event, c: Config, e: Entry)
    ensures Books(s, events + [event], c, e) == Book(Books(s, events, c, e), Run(s, events, c), event, c, e)
  {
    assert (events + [event])[..|events|] == events;
  }

  lemma NothingBooked(entries: nat, descs: nat, c: Config, e: Entry)
    ensures Books(Initial(entries, descs), [], c, e) == Nobody
    ensures Agrees(Run(Initial(entries, descs), [], c), e, Nobody)
  {
  }

  ghost predicate InTheBooks(entries: nat, descs: nat, events: seq<Event>, c: Config, e: Entry) {
    var l := Books(Initial(entries, descs), events, c, e);
    Agrees(Run(Initial(entries, descs), events, c), e, l) && (l.Somebody? ==> l.count > 0)
  }

  lemma NextInTheBooks(entries: nat, descs: nat, events: seq<Event>, event: Event, c: Config, e: Entry)
    requires InTheBooks(entries, descs, events, c, e) && EntriesInv(Run(Initial(entries, descs), events, c), entries)
    ensures InTheBooks(entries, descs, events + [event], c, e)
  {
    var s, l := Run(Initial(entries, descs), events, c), Books(Initial(entries, descs), events, c, e);
    BooksSnoc(Initial(entries, descs), events, event, c, e);
    RunSnoc(Initial(entries, descs), events, event, c);
    StepAgrees(s, event, c, e, l, entries);
    hide Run, Step, Books, Agrees, Masked, Busy, EntriesInv;
  }

  lemma {:induction false} RunAgrees(events: seq<Event>, c: Config, entries: nat, descs: nat, e: Entry)
    requires Fits(c, entries, descs)
    ensures InTheBooks(entries, descs, events, c, e)
    decreases |events|
  {
    if events == [] {
      NothingBooked(entries, descs, c, e);
    } else {
      var n := |events| - 1;
      RunAgrees(events[..n], c, entries, descs, e);
      InitialInv(entries, descs, c.threads);
      RunKeepsInv(Initial(entries, descs), events[..n], c, entries, descs);
      hide InTheBooks, Run, EntriesInv;
      NextInTheBooks(entries, descs, events[..n], events[n], c, e);
      assert events == events[..n] + [events[n]];
    }
  }

  /** In every run: a pool entry is a live pbuf, with the descriptor last received into it, exactly while the frees
      since that receive are fewer than one plus the references since then; and all that while the descriptor is not
      with the hardware and was received once more than returned. */
  lemma HeldWhileReferenced(events: seq<Event>, c: Config, entries: nat, descs: nat, e: Entry)
    requires Fits(c, entries, descs)
    ensures var s, l := Run(Initial(entries, descs), events, c), Books(Initial(entries, descs), events, c, e);
            && (l.Somebody? <==> e in s.used && s.used[e].Live?)
            && (l.Somebody? ==> && s.used[e] == Live(l.desc, l.count) && l.count > 0
                                && l.desc !in s.dma && s.received[l.desc] == s.returned[l.desc] + 1)
  {
    RunAgrees(events, c, entries, descs, e);
    InitialInv(entries, descs, c.threads);
    RunKeepsInv(Initial(entries, descs), events, c, entries, descs);
    var s := Run(Initial(entries, descs), events, c);
    hide Run, Books;
    if e in s.used && s.used[e].Live? {
      assert e in Owners(s.used);
      assert s.used[e].desc in Numbers(descs) - s.dma;
    }
  }

  /** A rejected receive leaves the pool, the hardware's descriptors and the pbufs as they were, and counts one
      receive and one return. */
  lemma RejectedLeavesAll(s: State, d: Desc, c: Config)
    requires !s.fault && d in s.dma && s.free != [] && !Masked(s, c.lock)
    ensures var t := Step(s, Rx(d, false), c);
            && t.free == s.free && t.dma == s.dma && t.used == s.used && !t.fault
            && t.received == s.received + multiset{d} && t.returned == s.returned + multiset{d}
  {
  }

  // ---- One callback at a time -----------------------------------------------------------------------

  ghost predicate OneInSection(s: State) {
    forall e, f :: e in s.used && f in s.used && InSection(s.used[e]) && InSection(s.used[f]) ==> e == f
  }

  lemma StepKeepsSection(s: State, event: Event, c: Config)
    requires OneInSection(s) && c.lock
    ensures OneInSection(Step(s, event, c))
  {
    hide Busy;
    if event.Continue? && event.e in s.used && s.used[event.e].Freeing? && !Masked(s, c.lock) {
      assert forall f :: f in s.used ==> !InSection(s.used[f]);
    }
  }

  /** With the protection at most one callback is between SYS_ARCH_PROTECT and SYS_ARCH_UNPROTECT in every run. */
  lemma {:induction false} SectionExclusive(s: State, events: seq<Event>, c: Config)
    requires OneInSection(s) && c.lock
    ensures OneInSection(Run(s, events, c))
    decreases |events|
  {
    if events != [] {
      StepKeepsSection(s, events[0], c);
      SectionExclusive(Step(s, events[0], c), events[1..], c);
    }
  }

  // ---- The code -------------------------------------------------------------------------------------

  /** RX_POOL, the descriptors and the custom pbufs, updated in place. */
  class RxPool {
    var free: seq<Entry>
    var dma: set<Desc>
    var used: map<Entry, Use>
    ghost var received: multiset<Desc>
    ghost var returned: multiset<Desc>

    ghost function Now(): State
      reads this
    {
      State(free, dma, used, received, returned, false)
    }

    constructor (entries: nat, descs: nat, ghost threads: nat)
      ensures Now() == Initial(entries, descs) && Inv(Now(), entries, descs, threads)
    {
      free, dma, used := seq(entries, k => k), Numbers(descs), map[];
      received, returned := multiset{}, multiset{};
      new;
      InitialInv(entries, descs, threads);
    }

    // eth_rx_irq on a pool that is not empty
    method Receive(d: Desc, accepted: bool)
      requires free != [] && d in dma
      modifies `free, `dma, `used, `received, `returned
      ensures Now() == RxIrq(old(Now()), d, accepted)
    {
      dma, received := dma - {d}, received + multiset{d};
      var e := free[0];
      free := free[1..];
      if accepted {
        used := used[e := Live(d, 1)];
      } else {
        dma, returned := dma + {d}, returned + multiset{d};
        free := [e] + free;
      }
    }

    /** eth_rx_irq: the allocation is not checked, and does not have to be. */
    method EthRxIrq(d: Desc, accepted: bool, ghost entries: nat, ghost descs: nat, ghost threads: nat)
      requires Inv(Now(), entries, descs, threads) && descs <= entries && d in dma && !Masked(Now(), true)
      modifies `free, `dma, `used, `received, `returned
      ensures Now() == RxIrq(old(Now()), d, accepted) && Inv(Now(), entries, descs, threads)
    {
      AllocationSucceeds(Now(), d, Config(true, threads), entries, descs);
      RxKeepsInv(Now(), d, accepted, entries, descs, threads);
      hide Inv, RxIrq;
      Receive(d, accepted);
    }

    /** pbuf_ref */
    method RefPbuf(e: Entry, ghost c: Config, ghost entries: nat, ghost descs: nat)
      requires Inv(Now(), entries, descs, c.threads) && e in used && used[e].Live?
      modifies `used
      ensures Now() == Step(old(Now()), Ref(e), c) && Inv(Now(), entries, descs, c.threads)
    {
      RefKeepsInv(Now(), e, entries, descs, c.threads);
      hide Inv, Busy;
      used := used[e := Live(used[e].desc, used[e].refs + 1)];
      assert Now() == PbufRef(old(Now()), e);
    }

    /** pbuf_free up to the call of the custom free function */
    method FreePbuf(e: Entry, ghost entries: nat, ghost descs: nat, ghost threads: nat)
      requires Inv(Now(), entries, descs, threads) && e in used && used[e].Live? && |Busy(used)| < threads
      modifies `used
      ensures Now() == PbufFree(old(Now()), e) && Inv(Now(), entries, descs, threads)
    {
      FreeKeepsInv(Now(), e, entries, descs, threads);
      hide Inv, Busy;
      var u := used[e];
      used := used[e := if u.refs > 1 then Live(u.desc, u.refs - 1) else Freeing(u.desc)];
      assert Now() == PbufFree(old(Now()), e);
    }

    // The assignments of my_pbuf_free_custom's next step
    method FreeAssign(e: Entry)
      requires e in used
      modifies `free, `dma, `used, `returned
      ensures Now() == FreeStep(old(Now()), e)
    {
      match used[e] {
        case Live(_, _) =>
        case Freeing(d) => used := used[e := Locked(d)];
        case Locked(d) => dma, returned, used := dma + {d}, returned + multiset{d}, used[e := Returned];
        case Returned => free, used := [e] + free, used - {e};
      }
    }

    /** The next step of my_pbuf_free_custom */
    method FreeCustomStep(e: Entry, ghost entries: nat, ghost descs: nat, ghost threads: nat)
      requires Inv(Now(), entries, descs, threads) && e in used
      modifies `free, `dma, `used, `returned
      ensures Now() == FreeStep(old(Now()), e) && Inv(Now(), entries, descs, threads)
    {
      FreeStepKeepsInv(Now(), e, entries, descs, threads);
      hide Inv, FreeStep;
      FreeAssign(e);
    }
  }
}
