/**
 The polled build (src/main.c without `USE_ENET_INTERRUPT`): the main loop calls `lwip_frame_recv` whenever
 `enet_rxframe_size_get` is not 0, so also after it has dropped a frame.
 */
module Polling {
  import opened RxFrames
  import opened RxRing
  import opened EnetIrq

  // Before enet_rxframe_size_get, before lwip_frame_recv, or inside it before enet_frame_receive.
  datatype Pc = Poll | Recv | Release

  datatype State = State(pending: seq<RxFrame>, removed: seq<RxFrame>, handed: seq<Handed>, pc: Pc)

  datatype Event = Arrive(frame: RxFrame) | Cpu

  datatype Setup = Setup(descriptors: nat, config: Config)

  const START := State([], [], [], Poll)

  // enet_rxframe_size_get and the test of its value.
  function PollStep(s: State, c: Setup): State {
    if Turn(s.pending, c.config.tfcd).1 == 0 then s
    else if Bad(s.pending[0]) then State(s.pending[1..], s.removed + [s.pending[0]], s.handed, Recv)
    else s.(pc := Recv)
  }

  // lwip_frame_recv reads and hands over whatever is at the head of the ring, then releases what is there by then.
  function RecvStep(s: State): State {
    s.(handed := s.handed + [if s.pending == [] then Nothing else Frame(s.pending[0])], pc := Release)
  }

  function ReleaseStep(s: State): State {
    if s.pending == [] then s.(pc := Poll)
    else State(s.pending[1..], s.removed + [s.pending[0]], s.handed, Poll)
  }

  function Step(s: State, e: Event, c: Setup): State {
    match e
    case Arrive(f) =>
      if Stored(f, c.config.fuf) && |s.pending| < c.descriptors then s.(pending := s.pending + [f]) else s
    case Cpu =>
      match s.pc
      case Poll => PollStep(s, c)
      case Recv => RecvStep(s)
      case Release => ReleaseStep(s)
  }

  function Run(s: State, events: seq<Event>, c: Setup): State
    decreases |events|
  {
    if events == [] then s else Run(Step(s, events[0], c), events[1..], c)
  }

  // The events bring frames of this kind only.
  ghost predicate Only(events: seq<Event>, kind: RxFrame -> bool) {
    forall i :: 0 <= i < |events| && events[i].Arrive? ==> kind(events[i].frame)
  }

  // ---- When only good frames are handed over --------------------------------------------------------

  // The frames removed, with the one that has been handed over and is about to be.
  function Leaving(s: State): seq<RxFrame> {
    if s.pc == Release && s.pending != [] then s.removed + [s.pending[0]] else s.removed
  }

  // No bad frame is on the ring, and one to be received is there.
  ghost predicate Clean(s: State) {
    && Exact(s.handed, Leaving(s))
    && (s.pc != Poll ==> s.pending != [])
    && forall i :: 0 <= i < |s.pending| ==> !Bad(s.pending[i])
  }

  lemma RecvKeepsClean(s: State)
    requires Clean(s) && s.pc == Recv
    ensures Clean(RecvStep(s))
  {
    ExactAppend(s.handed, s.removed, s.pending[0]);
    hide Exact;
  }

  lemma ReleaseKeepsClean(s: State)
    requires Clean(s) && s.pc == Release
    ensures Clean(ReleaseStep(s))
  {
    hide Exact;
  }

  lemma PollKeepsClean(s: State, c: Setup)
    requires Clean(s) && s.pc == Poll
    ensures Clean(PollStep(s, c))
  {
    hide Exact, Size;
  }

  lemma ArriveKeepsClean(s: State, f: RxFrame)
    requires Clean(s) && !Bad(f)
    ensures Clean(s.(pending := s.pending + [f]))
  {
    hide Exact, Bad;
  }

  lemma StepKeepsClean(s: State, e: Event, c: Setup)
    requires Clean(s) && (e.Arrive? ==> !Bad(e.frame))
    ensures Clean(Step(s, e, c))
  {
    hide Clean, PollStep, RecvStep, ReleaseStep, Stored, Bad;
    match e
    case Arrive(f) => ArriveKeepsClean(s, f);
    case Cpu =>
      match s.pc
      case Poll => PollKeepsClean(s, c);
      case Recv => RecvKeepsClean(s);
      case Release => ReleaseKeepsClean(s);
  }

  lemma {:induction false} RunKeepsClean(s: State, events: seq<Event>, c: Setup)
    requires Clean(s) && Only(events, f => !Bad(f))
    ensures Clean(Run(s, events, c))
    decreases |events|
  {
    if events != [] {
      StepKeepsClean(s, events[0], c);
      RunKeepsClean(Step(s, events[0], c), events[1..], c);
    }
  }

  lemma RunOne(s: State, e: Event, rest: seq<Event>, c: Setup)
    ensures Run(s, [e] + rest, c) == Run(Step(s, e, c), rest, c)
  {
    assert ([e] + rest)[1..] == rest;
  }

  lemma RunNone(s: State, c: Setup)
    ensures Run(s, [], c) == s
  {
  }

  // A bad frame that comes alone: it is dropped, and an empty descriptor handed over.
  lemma BadAlone(f: RxFrame, c: Setup)
    requires Bad(f) && 0 < c.descriptors
    ensures Run(START, [Arrive(f)] + ([Cpu] + ([Cpu] + ([Cpu] + []))), c) == State([], [f], [Nothing], Poll)
  {
    RunOne(START, Arrive(f), [Cpu] + ([Cpu] + ([Cpu] + [])), c);
    assert Step(START, Arrive(f), c) == State([f], [], [], Poll);
    RunOne(State([f], [], [], Poll), Cpu, [Cpu] + ([Cpu] + []), c);
    RunOne(State([], [f], [], Recv), Cpu, [Cpu] + [], c);
    RunOne(State([], [f], [Nothing], Release), Cpu, [], c);
  }

  /** In every run, frames arriving at any step, polling hands over exactly the good frames it takes off the
      ring, in order, if and only if no frame that can arrive is bad. */
  lemma PollingExactIff(kind: RxFrame -> bool, c: Setup)
    requires 0 < c.descriptors
    ensures (forall events :: Only(events, kind) && Run(START, events, c).pc == Poll ==>
               Exact(Run(START, events, c).handed, Run(START, events, c).removed))
            <==> forall f | kind(f) :: !Bad(f)
  {
    if forall f | kind(f) :: !Bad(f) {
      forall events | Only(events, kind) && Run(START, events, c).pc == Poll
        ensures Exact(Run(START, events, c).handed, Run(START, events, c).removed)
      {
        RunKeepsClean(START, events, c);
      }
    } else {
      var f :| kind(f) && Bad(f);
      BadAlone(f, c);
      NothingIsNotExact(f);
      assert Only([Arrive(f)] + ([Cpu] + ([Cpu] + ([Cpu] + []))), kind);
    }
  }

  lemma NothingIsNotExact(f: RxFrame)
    requires Bad(f)
    ensures !Exact([Nothing], [f])
  {
    GoodAppend([], f);
    assert [] + [f] == [f];
  }

  /** A frame too long for one buffer takes two descriptors, neither of them good: when both are stored before
      the poll, its second half is handed over. */
  lemma OversizedFrame(first: RxFrame, last: RxFrame, c: Setup)
    requires !first.ldes && !last.fdes && 2 <= c.descriptors
    ensures Run(START, [Arrive(first)] + ([Arrive(last)] + ([Cpu] + ([Cpu] + ([Cpu] + [])))), c)
            == State([], [first, last], [Frame(last)], Poll)
    ensures Bad(first) && Bad(last)
  {
    hide Run, Size;
    RunOne(START, Arrive(first), [Arrive(last)] + ([Cpu] + ([Cpu] + ([Cpu] + []))), c);
    assert Step(START, Arrive(first), c) == State([first], [], [], Poll);
    RunOne(State([first], [], [], Poll), Arrive(last), [Cpu] + ([Cpu] + ([Cpu] + [])), c);
    assert Step(State([first], [], [], Poll), Arrive(last), c) == State([first, last], [], [], Poll);
    RunOne(State([first, last], [], [], Poll), Cpu, [Cpu] + ([Cpu] + []), c);
    assert Step(State([first, last], [], [], Poll), Cpu, c) == State([last], [first], [], Recv);
    RunOne(State([last], [first], [], Recv), Cpu, [Cpu] + [], c);
    assert Step(State([last], [first], [], Recv), Cpu, c) == State([last], [first], [Frame(last)], Release);
    RunOne(State([last], [first], [Frame(last)], Release), Cpu, [], c);
    assert [first] + [last] == [first, last];
    assert Step(State([last], [first], [Frame(last)], Release), Cpu, c) == State([], [first, last], [Frame(last)], Poll);
    RunNone(Step(State([last], [first], [Frame(last)], Release), Cpu, c), c);
  }

  // ---- When no good frame is lost -------------------------------------------------------------------

  // The frames among what was handed over.
  function FramesIn(hs: seq<Handed>): seq<RxFrame> {
    if hs == [] then []
    else
      var h := hs[|hs| - 1];
      FramesIn(hs[..|hs| - 1]) + if h.Nothing? then [] else [h.f]
  }

  lemma FramesInAppend(hs: seq<Handed>, h: Handed)
    ensures FramesIn(hs + [h]) == FramesIn(hs) + if h.Nothing? then [] else [h.f]
  {
    assert (hs + [h])[..|hs|] == hs;
  }

  // Every good frame taken off the ring was handed over, once and in order.
  ghost predicate GoodHanded(s: State) {
    Good(FramesIn(s.handed)) == Good(s.removed)
  }

  lemma {:induction false} FramesOfFrames(fs: seq<RxFrame>)
    ensures FramesIn(AsHanded(fs)) == fs
    decreases |fs|
  {
    if fs != [] {
      var init := fs[..|fs| - 1];
      assert AsHanded(fs)[..|fs| - 1] == AsHanded(init);
      FramesOfFrames(init);
      assert fs == init + [fs[|fs| - 1]];
    }
  }

  lemma {:induction false} GoodOfGood(fs: seq<RxFrame>)
    requires forall i :: 0 <= i < |fs| ==> !Bad(fs[i])
    ensures Good(fs) == fs
    decreases |fs|
  {
    if fs != [] {
      var init, f := fs[..|fs| - 1], fs[|fs| - 1];
      assert fs == init + [f];
      GoodOfGood(init);
      GoodAppend(init, f);
      assert IfGood(f) == [f];
      hide Good, IfGood;
    }
  }

  lemma ExactIsGoodHanded(s: State)
    requires Exact(s.handed, s.removed)
    ensures GoodHanded(s)
  {
    FramesOfFrames(Good(s.removed));
    GoodAreGood(s.removed);
    GoodOfGood(Good(s.removed));
  }

  // Only bad frames ever came.
  ghost predicate AllBad(s: State) {
    && (forall i :: 0 <= i < |s.pending| ==> Bad(s.pending[i]))
    && Good(s.removed) == [] && Good(FramesIn(s.handed)) == []
  }

  lemma BadAppend(fs: seq<RxFrame>, f: RxFrame)
    requires Good(fs) == [] && Bad(f)
    ensures Good(fs + [f]) == []
  {
    GoodAppend(fs, f);
  }

  lemma RecvKeepsAllBad(s: State)
    requires AllBad(s)
    ensures AllBad(RecvStep(s))
  {
    if s.pending == [] {
      FramesInAppend(s.handed, Nothing);
      assert FramesIn(s.handed) + [] == FramesIn(s.handed);
    } else {
      FramesInAppend(s.handed, Frame(s.pending[0]));
      BadAppend(FramesIn(s.handed), s.pending[0]);
    }
    hide Good, FramesIn;
  }

  lemma StepKeepsAllBad(s: State, e: Event, c: Setup)
    requires AllBad(s) && (e.Arrive? && Stored(e.frame, c.config.fuf) ==> Bad(e.frame))
    ensures AllBad(Step(s, e, c))
  {
    if e.Cpu? && s.pc == Recv {
      RecvKeepsAllBad(s);
      hide AllBad;
    } else if e.Cpu? && s.pending != [] {
      BadAppend(s.removed, s.pending[0]);
      hide Good, FramesIn, Size, Stored;
    } else {
      hide Good, FramesIn, Size, Stored;
    }
  }

  // The events bring no good frame that can be stored.
  ghost predicate NoGood(events: seq<Event>, c: Setup) {
    forall i :: 0 <= i < |events| && events[i].Arrive? && Stored(events[i].frame, c.config.fuf) ==> Bad(events[i].frame)
  }

  lemma {:induction false} RunKeepsAllBad(s: State, events: seq<Event>, c: Setup)
    requires AllBad(s) && NoGood(events, c)
    ensures AllBad(Run(s, events, c))
    decreases |events|
  {
    if events != [] {
      StepKeepsAllBad(s, events[0], c);
      RunKeepsAllBad(Step(s, events[0], c), events[1..], c);
    }
  }

  // A good frame comes in while lwip_frame_recv is at the empty descriptor behind a dropped one.
  function Overtaken(bad: RxFrame, good: RxFrame): seq<Event> {
    [Arrive(bad)] + ([Cpu] + ([Cpu] + ([Arrive(good)] + ([Cpu] + []))))
  }

  /** Then the good frame is released unread: it is taken off the ring and never handed over. */
  lemma GoodFrameLost(bad: RxFrame, good: RxFrame, c: Setup)
    requires Bad(bad) && Stored(good, c.config.fuf) && 0 < c.descriptors
    ensures Run(START, Overtaken(bad, good), c) == State([], [bad, good], [Nothing], Poll)
  {
    hide Run, Size;
    RunOne(START, Arrive(bad), [Cpu] + ([Cpu] + ([Arrive(good)] + ([Cpu] + []))), c);
    assert Step(START, Arrive(bad), c) == State([bad], [], [], Poll);
    RunOne(State([bad], [], [], Poll), Cpu, [Cpu] + ([Arrive(good)] + ([Cpu] + [])), c);
    assert Step(State([bad], [], [], Poll), Cpu, c) == State([], [bad], [], Recv);
    RunOne(State([], [bad], [], Recv), Cpu, [Arrive(good)] + ([Cpu] + []), c);
    assert Step(State([], [bad], [], Recv), Cpu, c) == State([], [bad], [Nothing], Release);
    RunOne(State([], [bad], [Nothing], Release), Arrive(good), [Cpu] + [], c);
    assert Step(State([], [bad], [Nothing], Release), Arrive(good), c) == State([good], [bad], [Nothing], Release);
    RunOne(State([good], [bad], [Nothing], Release), Cpu, [], c);
    assert [bad] + [good] == [bad, good];
    assert Step(State([good], [bad], [Nothing], Release), Cpu, c) == State([], [bad, good], [Nothing], Poll);
    RunNone(Step(State([good], [bad], [Nothing], Release), Cpu, c), c);
  }

  lemma LostIsNotHanded(bad: RxFrame, good: RxFrame)
    requires Bad(bad) && !Bad(good)
    ensures !GoodHanded(State([], [bad, good], [Nothing], Poll))
  {
    GoodAppend([bad], good);
    assert [bad] + [good] == [bad, good];
    FramesInAppend([], Nothing);
    assert [] + [Nothing] == [Nothing];
  }

  lemma CleanRunHandsGood(events: seq<Event>, c: Setup)
    requires Only(events, f => !Bad(f)) && Run(START, events, c).pc == Poll
    ensures GoodHanded(Run(START, events, c))
  {
    RunKeepsClean(START, events, c);
    ExactIsGoodHanded(Run(START, events, c));
  }

  lemma BadRunHandsGood(events: seq<Event>, c: Setup)
    requires NoGood(events, c)
    ensures GoodHanded(Run(START, events, c))
  {
    RunKeepsAllBad(START, events, c);
  }

  lemma LosingRun(bad: RxFrame, good: RxFrame, c: Setup)
    requires Bad(bad) && Stored(good, c.config.fuf) && !Bad(good) && 0 < c.descriptors
    ensures Run(START, Overtaken(bad, good), c).pc == Poll && !GoodHanded(Run(START, Overtaken(bad, good), c))
  {
    GoodFrameLost(bad, good, c);
    LostIsNotHanded(bad, good);
  }

  /** In every run, frames arriving at any step, every good frame taken off the ring is handed over once and in
      order, if and only if no frame that can arrive is bad or none that can be stored is good. */
  lemma GoodHandedIff(kind: RxFrame -> bool, c: Setup)
    requires 0 < c.descriptors
    ensures (forall events :: Only(events, kind) && Run(START, events, c).pc == Poll ==> GoodHanded(Run(START, events, c)))
            <==> (forall f | kind(f) :: !Bad(f)) || (forall f | kind(f) && Stored(f, c.config.fuf) :: Bad(f))
  {
    hide Run, GoodHanded, Stored, Bad;
    if forall f | kind(f) :: !Bad(f) {
      forall events | Only(events, kind) && Run(START, events, c).pc == Poll
        ensures GoodHanded(Run(START, events, c))
      {
        CleanRunHandsGood(events, c);
      }
    } else if forall f | kind(f) && Stored(f, c.config.fuf) :: Bad(f) {
      forall events | Only(events, kind)
        ensures GoodHanded(Run(START, events, c))
      {
        BadRunHandsGood(events, c);
      }
    } else {
      var bad :| kind(bad) && Bad(bad);
      var good :| kind(good) && Stored(good, c.config.fuf) && !Bad(good);
      LosingRun(bad, good, c);
      assert Only(Overtaken(bad, good), kind);
    }
  }

  // ---- The code -------------------------------------------------------------------------------------

  ghost function Seen(r: Receiver, pc: Pc): State
    reads r
  {
    State(r.pending, r.removed, r.received, pc)
  }

  // The frames arrive one after the other.
  function Fill(s: State, fs: seq<RxFrame>, c: Setup): State {
    if fs == [] then s else Step(Fill(s, fs[..|fs| - 1], c), Arrive(fs[|fs| - 1]), c)
  }

  // One turn of the main loop, frames arriving before the read and before the release.
  function Turned(s: State, beforeRead: seq<RxFrame>, beforeRelease: seq<RxFrame>, c: Setup): State {
    var t := Fill(Step(s, Cpu, c), beforeRead, c);
    if t.pc == Poll then t
    else Step(Fill(Step(t, Cpu, c), beforeRelease, c), Cpu, c)
  }

  /** The code of that turn: poll, and if the result is not 0, read and release. */
  method PollOnce(r: Receiver, beforeRead: seq<RxFrame>, beforeRelease: seq<RxFrame>)
    requires r.RingValid()
    modifies r, r.descs
    ensures r.RingValid()
    ensures Seen(r, Poll) == Turned(old(Seen(r, Poll)), beforeRead, beforeRelease, Setup(r.descs.Length, r.config))
  {
    ghost var c := Setup(r.descs.Length, r.config);
    ghost var s := Step(Seen(r, Poll), Cpu, c);
    hide Holds, Size, Stored;
    var size := r.RxFrameSizeGet();
    assert s == Seen(r, if size == 0 then Poll else Recv);
    hide Turn, Step;
    TakeMeanwhile(r, beforeRead, s);
    if size != 0 {
      Receive(r, beforeRelease, c);
    }
  }

  // lwip_frame_recv
  method Receive(r: Receiver, meanwhile: seq<RxFrame>, ghost c: Setup)
    requires r.RingValid() && c == Setup(r.descs.Length, r.config)
    modifies r, r.descs
    ensures r.RingValid()
    ensures Seen(r, Poll) == Step(Fill(Step(old(Seen(r, Recv)), Cpu, c), meanwhile, c), Cpu, c)
  {
    hide Holds, Stored;
    ghost var s := Step(Seen(r, Recv), Cpu, c);
    r.LowLevelRead();
    assert s == Seen(r, Release);
    TakeMeanwhile(r, meanwhile, s);
    ghost var t := Seen(r, Release);
    r.FrameReceive();
    assert Seen(r, Poll) == Step(t, Cpu, c);
    hide Step;
  }

  method TakeMeanwhile(r: Receiver, meanwhile: seq<RxFrame>, ghost s: State)
    requires r.RingValid() && s == Seen(r, s.pc)
    modifies r`hw, r`rs, r`ni, r`pending, r`events, r.descs
    ensures r.RingValid() && Seen(r, s.pc) == Fill(s, meanwhile, Setup(r.descs.Length, r.config))
  {
    ghost var c := Setup(r.descs.Length, r.config);
    for k := 0 to |meanwhile|
      invariant r.RingValid() && Seen(r, s.pc) == Fill(s, meanwhile[..k], c)
    {
      assert meanwhile[..k + 1][..k] == meanwhile[..k];
      r.Arrive(meanwhile[k]);
    }
    assert meanwhile[..|meanwhile|] == meanwhile;
  }

  // ---- A ring with no arrivals ----------------------------------------------------------------------

  // What is handed over of a ring that nothing is added to, until it is empty or there is no more progress.
  function StillPolled(pending: seq<RxFrame>, tfcd: bool): seq<Handed>
    decreases |pending|
  {
    if pending == [] then []
    else if Bad(pending[0]) then
      if |pending| == 1 then [Nothing] else [Frame(pending[1])] + StillPolled(pending[2..], tfcd)
    else if Size(pending[0], tfcd) == 0 then []
    else [Frame(pending[0])] + StillPolled(pending[1..], tfcd)
  }

  function CpuSteps(n: nat): seq<Event> {
    if n == 0 then [] else [Cpu] + CpuSteps(n - 1)
  }

  lemma ThreeSteps(s: State, n: nat, c: Setup)
    ensures Run(s, CpuSteps(n + 3), c) == Run(Step(Step(Step(s, Cpu, c), Cpu, c), Cpu, c), CpuSteps(n), c)
  {
    hide Step;
    assert CpuSteps(n + 3) == [Cpu] + CpuSteps(n + 2) && CpuSteps(n + 2) == [Cpu] + CpuSteps(n + 1);
    assert CpuSteps(n + 1) == [Cpu] + CpuSteps(n);
    RunOne(s, Cpu, CpuSteps(n + 2), c);
    RunOne(Step(s, Cpu, c), Cpu, CpuSteps(n + 1), c);
    RunOne(Step(Step(s, Cpu, c), Cpu, c), Cpu, CpuSteps(n), c);
  }

  // That is what enough steps of the main loop do, after which it stands still.
  lemma {:induction false} StillRingRun(s: State, c: Setup) returns (n: nat)
    requires s.pc == Poll
    ensures var t := Run(s, CpuSteps(n), c);
            t.handed == s.handed + StillPolled(s.pending, c.config.tfcd) && Step(t, Cpu, c) == t
    decreases |s.pending|
  {
    if s.pending == [] || Blank(s.pending[0], c.config.tfcd) {
      n := 0;
      assert s.handed + [] == s.handed;
    } else {
      var t := Step(Step(Step(s, Cpu, c), Cpu, c), Cpu, c);
      StillTurn(s, c);
      var m := StillRingRun(t, c);
      n := m + 3;
      ThreeSteps(s, m, c);
    }
  }

  // What one poll and one reception hand over, and how many frames they take.
  function TurnHands(pending: seq<RxFrame>): (Handed, nat)
    requires pending != []
  {
    if !Bad(pending[0]) then (Frame(pending[0]), 1)
    else if |pending| == 1 then (Nothing, 1)
    else (Frame(pending[1]), 2)
  }

  lemma TurnTakes(pending: seq<RxFrame>)
    requires pending != []
    ensures 1 <= TurnHands(pending).1 <= |pending|
  {
  }

  lemma StillTurnState(s: State, c: Setup)
    requires s.pc == Poll && s.pending != [] && !Blank(s.pending[0], c.config.tfcd)
    ensures var (t, turn) := (Step(Step(Step(s, Cpu, c), Cpu, c), Cpu, c), TurnHands(s.pending));
            t.pc == Poll && t.pending == s.pending[turn.1..] && t.handed == s.handed + [turn.0]
  {
    hide Size, Bad;
  }

  lemma StillTurnPolled(pending: seq<RxFrame>, tfcd: bool)
    requires pending != [] && !Blank(pending[0], tfcd)
    ensures var turn := TurnHands(pending);
            StillPolled(pending, tfcd) == [turn.0] + StillPolled(pending[turn.1..], tfcd)
  {
    hide Size, Bad;
  }

  // One poll and one reception.
  lemma StillTurn(s: State, c: Setup)
    requires s.pc == Poll && s.pending != [] && !Blank(s.pending[0], c.config.tfcd)
    ensures var t := Step(Step(Step(s, Cpu, c), Cpu, c), Cpu, c);
            && t.pc == Poll && |t.pending| < |s.pending|
            && t.handed + StillPolled(t.pending, c.config.tfcd) == s.handed + StillPolled(s.pending, c.config.tfcd)
  {
    hide Step, StillPolled, Bad, TurnHands;
    StillTurnState(s, c);
    StillTurnPolled(s.pending, c.config.tfcd);
    TurnTakes(s.pending);
  }

  // At index i: a bad frame has a good one right behind it; a good frame of length 0 has a bad one before it.
  predicate FitAt(pending: seq<RxFrame>, tfcd: bool, i: nat)
    requires i < |pending|
  {
    if Bad(pending[i]) then i + 1 < |pending| && !Bad(pending[i + 1])
    else Size(pending[i], tfcd) == 0 ==> 0 < i && Bad(pending[i - 1])
  }

  ghost predicate Fit(pending: seq<RxFrame>, tfcd: bool) {
    forall i :: 0 <= i < |pending| ==> FitAt(pending, tfcd, i)
  }

  lemma {:induction false} GoodPrepend(f: RxFrame, fs: seq<RxFrame>)
    ensures Good([f] + fs) == IfGood(f) + Good(fs)
    decreases |fs|
  {
    hide IfGood;
    if fs == [] {
      assert [f] + fs == [] + [f];
      GoodAppend([], f);
    } else {
      var init, last := fs[..|fs| - 1], fs[|fs| - 1];
      assert fs == init + [last] && [f] + fs == ([f] + init) + [last];
      GoodAppend([f] + init, last);
      GoodAppend(init, last);
      GoodPrepend(f, init);
    }
  }

  lemma {:induction false} GoodAreGood(fs: seq<RxFrame>)
    ensures forall i :: 0 <= i < |Good(fs)| ==> !Bad(Good(fs)[i])
    decreases |fs|
  {
    if fs != [] {
      GoodAreGood(fs[..|fs| - 1]);
    }
  }

  // Splitting off a head that is dealt with leaves the condition on the rest.
  lemma FitBehind(pending: seq<RxFrame>, tfcd: bool, n: nat)
    requires 0 < n <= |pending| && !Bad(pending[n - 1])
    requires forall i :: 0 <= i < n ==> FitAt(pending, tfcd, i)
    ensures Fit(pending, tfcd) <==> Fit(pending[n..], tfcd)
  {
    var rest := pending[n..];
    forall i | 0 <= i < |rest|
      ensures FitAt(rest, tfcd, i) == FitAt(pending, tfcd, n + i)
    {
      assert rest[i] == pending[n + i];
      if 0 < i {
        assert rest[i - 1] == pending[n + i - 1];
      }
    }
    forall i | 0 <= i < |pending|
      ensures FitAt(pending, tfcd, i) == (i < n || FitAt(rest, tfcd, i - n))
    {
      if n <= i {
        assert FitAt(rest, tfcd, i - n) == FitAt(pending, tfcd, n + (i - n));
      }
    }
    if Fit(pending, tfcd) {
      forall i | 0 <= i < |rest|
        ensures FitAt(rest, tfcd, i)
      {
        assert FitAt(pending, tfcd, n + i);
      }
    }
  }

  /** A ring left to itself is handed over as exactly its good frames, in order, if and only if every bad frame
      is directly followed by a good one and no good frame of length 0 comes up as head of the ring. */
  lemma {:induction false} StillRingIff(pending: seq<RxFrame>, tfcd: bool)
    ensures StillPolled(pending, tfcd) == AsHanded(Good(pending)) <==> Fit(pending, tfcd)
    decreases |pending|
  {
    if pending != [] {
      var head := pending[0];
      GoodPrepend(head, pending[1..]);
      assert pending == [head] + pending[1..];
      if Bad(head) && |pending| == 1 {
        assert !FitAt(pending, tfcd, 0);
        assert Good(pending) == Good([]);
      } else if Bad(head) {
        StillAfterDrop(pending, tfcd);
        if !Bad(pending[1]) {
          StillRingIff(pending[2..], tfcd);
        }
      } else if Size(head, tfcd) == 0 {
        assert !FitAt(pending, tfcd, 0);
        assert |Good(pending)| > 0;
      } else {
        StillRingIff(pending[1..], tfcd);
        assert FitAt(pending, tfcd, 0);
        FitBehind(pending, tfcd, 1);
        HeadAndRest(head, StillPolled(pending[1..], tfcd), Good(pending[1..]));
      }
    }
  }

  lemma HeadAndRest(f: RxFrame, hs: seq<Handed>, fs: seq<RxFrame>)
    ensures [Frame(f)] + hs == AsHanded([f] + fs) <==> hs == AsHanded(fs)
  {
    assert AsHanded([f] + fs) == [Frame(f)] + AsHanded(fs);
    assert ([Frame(f)] + hs)[1..] == hs;
    assert ([Frame(f)] + AsHanded(fs))[1..] == AsHanded(fs);
  }

  // What is left to prove for a ring that starts with a bad frame.
  lemma StillAfterDrop(pending: seq<RxFrame>, tfcd: bool)
    requires |pending| >= 2 && Bad(pending[0])
    ensures Bad(pending[1]) ==> StillPolled(pending, tfcd) != AsHanded(Good(pending)) && !Fit(pending, tfcd)
    ensures !Bad(pending[1]) ==> (StillPolled(pending, tfcd) == AsHanded(Good(pending))
                                  <==> StillPolled(pending[2..], tfcd) == AsHanded(Good(pending[2..])))
    ensures !Bad(pending[1]) ==> (Fit(pending, tfcd) <==> Fit(pending[2..], tfcd))
  {
    var next := pending[1];
    if Bad(next) {
      GoodAreGood(pending);
      assert !FitAt(pending, tfcd, 0);
      assert StillPolled(pending, tfcd)[0] == Frame(next);
    } else {
      GoodBehindBad(pending);
      HeadAndRest(next, StillPolled(pending[2..], tfcd), Good(pending[2..]));
      assert FitAt(pending, tfcd, 0) && FitAt(pending, tfcd, 1);
      FitBehind(pending, tfcd, 2);
    }
  }

  lemma GoodBehindBad(pending: seq<RxFrame>)
    requires |pending| >= 2 && Bad(pending[0]) && !Bad(pending[1])
    ensures Good(pending) == [pending[1]] + Good(pending[2..])
  {
    assert pending == [pending[0]] + pending[1..] && pending[1..] == [pending[1]] + pending[2..];
    GoodPrepend(pending[0], pending[1..]);
    GoodPrepend(pending[1], pending[2..]);
    hide Good;
  }
}
