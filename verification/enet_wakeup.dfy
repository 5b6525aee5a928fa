/**
 The interrupt protocol of `ENET_IRQHandler` (src/gd32f4xx_it.c) in small steps: where the flags are cleared
 decides whether a frame can be left on the ring with no interrupt to announce it.
 */
module WakeUp {
  import opened RxFrames

  // Where the handler is; Idle means not running.
  datatype Pc = Idle | ClearNi | Check | Recv | LateRs | LateNi

  datatype State = State(pending: seq<RxFrame>, rs: bool, ni: bool, pc: Pc)

  datatype Event = Arrive(frame: RxFrame) | Cpu

  // The ring size, undersized forwarding, the type-frame CRC setting, and whether the flags are cleared before
  // the drain loop (as in the source) or after it.
  datatype Config = Config(descriptors: nat, fuf: bool, tfcd: bool, clearFirst: bool)

  const START := State([], false, false, Idle)

  function CheckStep(s: State, c: Config): State {
    var (left, reval) := Turn(s.pending, c.tfcd);
    if reval == 0 then s.(pc := if c.clearFirst then Idle else LateRs)
    else if reval == 1 then s.(pending := left)
    else s.(pc := Recv)
  }

  function Step(s: State, e: Event, c: Config): State {
    match e
    case Arrive(f) =>
      if Stored(f, c.fuf) && |s.pending| < c.descriptors
      then s.(pending := s.pending + [f], rs := true, ni := true) else s
    case Cpu =>
      match s.pc
      case Idle => if !(s.rs && s.ni) then s else if c.clearFirst then s.(rs := false, pc := ClearNi) else s.(pc := Check)
      case ClearNi => s.(ni := false, pc := Check)
      case Check => CheckStep(s, c)
      case Recv => s.(pending := if s.pending == [] then [] else s.pending[1..], pc := Check)
      case LateRs => s.(rs := false, pc := LateNi)
      case LateNi => s.(ni := false, pc := Idle)
  }

  function Run(s: State, events: seq<Event>, c: Config): State
    decreases |events|
  {
    if events == [] then s else Run(Step(s, events[0], c), events[1..], c)
  }

  // The handler is not running and frames wait, but no interrupt is up.
  predicate Lost(s: State) {
    s.pc == Idle && s.pending != [] && !(s.rs && s.ni)
  }

  // The events bring frames of this kind only.
  ghost predicate Only(events: seq<Event>, kind: RxFrame -> bool) {
    forall i :: 0 <= i < |events| && events[i].Arrive? ==> kind(events[i].frame)
  }

  // The handler of the source: pending frames are of the given kind, and one is there to be received.
  ghost predicate Shape(s: State, kind: RxFrame -> bool, c: Config) {
    && c.clearFirst && !s.pc.LateRs? && !s.pc.LateNi?
    && (s.pc.Recv? ==> s.pending != [])
    && forall i :: 0 <= i < |s.pending| ==> kind(s.pending[i]) && Stored(s.pending[i], c.fuf)
  }

  lemma StepKeepsShape(s: State, e: Event, c: Config, kind: RxFrame -> bool)
    requires Shape(s, kind, c) && (e.Arrive? ==> kind(e.frame))
    ensures Shape(Step(s, e, c), kind, c)
  {
    hide Size, Stored, Bad;
  }

  lemma StepKeepsWakeUp(s: State, e: Event, c: Config, kind: RxFrame -> bool)
    requires Shape(s, kind, c) && !Lost(s)
    requires forall f | kind(f) && Stored(f, c.fuf) :: !Blank(f, c.tfcd)
    ensures !Lost(Step(s, e, c))
  {
    hide Size, Stored, Bad;
    if s.pending != [] {
      assert !Blank(s.pending[0], c.tfcd);
    }
  }

  lemma {:induction false} RunKeepsShape(s: State, events: seq<Event>, c: Config, kind: RxFrame -> bool)
    requires Shape(s, kind, c) && Only(events, kind)
    ensures Shape(Run(s, events, c), kind, c)
    decreases |events|
  {
    if events != [] {
      StepKeepsShape(s, events[0], c, kind);
      RunKeepsShape(Step(s, events[0], c), events[1..], c, kind);
    }
  }

  lemma {:induction false} RunKeepsWakeUp(s: State, events: seq<Event>, c: Config, kind: RxFrame -> bool)
    requires Shape(s, kind, c) && Only(events, kind) && !Lost(s)
    requires forall f | kind(f) && Stored(f, c.fuf) :: !Blank(f, c.tfcd)
    ensures !Lost(Run(s, events, c))
    decreases |events|
  {
    if events != [] {
      StepKeepsShape(s, events[0], c, kind);
      StepKeepsWakeUp(s, events[0], c, kind);
      RunKeepsWakeUp(Step(s, events[0], c), events[1..], c, kind);
    }
  }

  lemma RunOne(s: State, e: Event, rest: seq<Event>, c: Config)
    ensures Run(s, [e] + rest, c) == Run(Step(s, e, c), rest, c)
  {
    assert ([e] + rest)[1..] == rest;
  }

  // The handler goes idle over a blank frame it has just been called for.
  lemma BlankIsLost(f: RxFrame, c: Config)
    requires c.clearFirst && Stored(f, c.fuf) && Blank(f, c.tfcd) && 0 < c.descriptors
    ensures Run(START, [Arrive(f)] + ([Cpu] + ([Cpu] + ([Cpu] + []))), c) == State([f], false, false, Idle)
  {
    var up := State([f], true, true, Idle);
    RunOne(START, Arrive(f), [Cpu] + ([Cpu] + ([Cpu] + [])), c);
    assert Step(START, Arrive(f), c) == up;
    RunOne(up, Cpu, [Cpu] + ([Cpu] + []), c);
    RunOne(up.(rs := false, pc := ClearNi), Cpu, [Cpu] + [], c);
    RunOne(State([f], false, false, Check), Cpu, [], c);
  }

  // A frame that arrives between the last look at the ring and a late clear: the drain ends, the frame
  // comes in, the flags go down.  `up` is the state in which the handler has found the ring empty.
  lemma LateClearLoses(up: State, f: RxFrame, c: Config)
    requires !c.clearFirst && up.pc == LateRs && |up.pending| < c.descriptors && Stored(f, c.fuf)
    ensures Lost(Run(up, [Arrive(f)] + ([Cpu] + ([Cpu] + [])), c))
  {
    RunOne(up, Arrive(f), [Cpu] + ([Cpu] + []), c);
    var s := Step(up, Arrive(f), c);
    RunOne(s, Cpu, [Cpu] + [], c);
    RunOne(Step(s, Cpu, c), Cpu, [], c);
  }

  lemma {:induction false} RunAppend(s: State, a: seq<Event>, b: seq<Event>, c: Config)
    ensures Run(s, a + b, c) == Run(Run(s, a, c), b, c)
    decreases |a|
  {
    if a == [] {
      assert a + b == b;
    } else {
      assert (a + b)[1..] == a[1..] + b;
      RunAppend(Step(s, a[0], c), a[1..], b, c);
    }
  }

  lemma RunNone(s: State, c: Config)
    ensures Run(s, [], c) == s
  {
  }

  lemma RunSnoc(s: State, events: seq<Event>, e: Event, c: Config)
    ensures Run(s, events + [e], c) == Step(Run(s, events, c), e, c)
  {
    hide Step;
    RunAppend(s, events, [e], c);
    assert [e][1..] == [];
  }

  // With late clearing a bad or long enough frame brings the handler to the end of its drain loop.
  lemma ReachLateClear(f: RxFrame, c: Config) returns (events: seq<Event>)
    requires !c.clearFirst && Stored(f, c.fuf) && WellSized(f, c.tfcd) && 0 < c.descriptors
    ensures Run(START, events, c) == State([], true, true, LateRs)
    ensures Only(events, g => g == f)
  {
    var up := State([f], true, true, Idle);
    assert Step(START, Arrive(f), c) == up;
    var empty := State([], true, true, Check);
    RunOne(empty, Cpu, [], c);
    if Bad(f) {
      events := [Arrive(f)] + ([Cpu] + ([Cpu] + ([Cpu] + [])));
      RunOne(up.(pc := Check), Cpu, [Cpu] + [], c);
      RunOne(up, Cpu, [Cpu] + ([Cpu] + []), c);
      RunOne(START, Arrive(f), [Cpu] + ([Cpu] + ([Cpu] + [])), c);
    } else {
      events := [Arrive(f)] + ([Cpu] + ([Cpu] + ([Cpu] + ([Cpu] + []))));
      RunOne(up.(pc := Recv), Cpu, [Cpu] + [], c);
      RunOne(up.(pc := Check), Cpu, [Cpu] + ([Cpu] + []), c);
      RunOne(up, Cpu, [Cpu] + ([Cpu] + ([Cpu] + [])), c);
      RunOne(START, Arrive(f), [Cpu] + ([Cpu] + ([Cpu] + ([Cpu] + []))), c);
    }
  }

  /** Clearing first, no run loses a wake-up if and only if no frame that can be stored is blank. */
  lemma NoLostWakeUp(kind: RxFrame -> bool, c: Config)
    requires c.clearFirst && 0 < c.descriptors
    ensures (forall events :: Only(events, kind) ==> !Lost(Run(START, events, c)))
            <==> forall f | kind(f) && Stored(f, c.fuf) :: !Blank(f, c.tfcd)
  {
    if forall f | kind(f) && Stored(f, c.fuf) :: !Blank(f, c.tfcd) {
      forall events | Only(events, kind)
        ensures !Lost(Run(START, events, c))
      {
        RunKeepsWakeUp(START, events, c, kind);
      }
    } else {
      var f :| kind(f) && Stored(f, c.fuf) && Blank(f, c.tfcd);
      BlankIsLost(f, c);
      assert Only([Arrive(f)] + ([Cpu] + ([Cpu] + ([Cpu] + []))), kind);
    }
  }

  /** As the MAC is configured: whatever arrives, no run loses a wake-up if and only if undersized forwarding
      is off. */
  lemma NoLostWakeUpAsConfigured(c: Config)
    requires c.clearFirst && 0 < c.descriptors
    ensures (forall events :: !Lost(Run(START, events, c))) <==> !c.fuf
  {
    var any := (f: RxFrame) => true;
    NoLostWakeUp(any, c);
    if c.fuf {
      var f := GoodFrame(4);
      assert any(f) && Stored(f, c.fuf) && Blank(f, c.tfcd);
    } else {
      forall f: RxFrame | Stored(f, c.fuf)
        ensures !Blank(f, c.tfcd)
      {
        LongFrames(f, c.tfcd);
      }
      forall events
        ensures !Lost(Run(START, events, c))
      {
        assert Only(events, any);
      }
    }
  }

  /** Clearing after the drain, any frame the drain can get past is enough for a run that loses the next one. */
  lemma LateClearLosesWakeUp(f: RxFrame, c: Config)
    requires !c.clearFirst && Stored(f, c.fuf) && WellSized(f, c.tfcd) && 0 < c.descriptors
    ensures exists events :: Only(events, g => g == f) && Lost(Run(START, events, c))
  {
    var first := ReachLateClear(f, c);
    var second := [Arrive(f)] + ([Cpu] + ([Cpu] + []));
    RunAppend(START, first, second, c);
    LateClearLoses(State([], true, true, LateRs), f, c);
    assert Only(first + second, g => g == f);
  }

  // ---- The handler ends -----------------------------------------------------------------------------

  function Cpus(events: seq<Event>): nat {
    if events == [] then 0 else (if events[0].Cpu? then 1 else 0) + Cpus(events[1..])
  }

  function Arrivals(events: seq<Event>): nat {
    if events == [] then 0 else (if events[0].Arrive? then 1 else 0) + Arrivals(events[1..])
  }

  // The handler goes idle at some point of the run.
  predicate Ends(s: State, events: seq<Event>, c: Config)
    decreases |events|
  {
    s.pc == Idle || (events != [] && Ends(Step(s, events[0], c), events[1..], c))
  }

  // Handler steps left for the frames now pending.
  function Work(s: State): nat {
    match s.pc
    case Idle => 0
    case ClearNi => 2 * |s.pending| + 2
    case Check => 2 * |s.pending| + 1
    case _ => 2 * |s.pending|
  }

  lemma StepWorks(s: State, e: Event, c: Config, kind: RxFrame -> bool)
    requires Shape(s, kind, c) && s.pc != Idle
    requires forall f | kind(f) && Stored(f, c.fuf) :: !Stuck(f, c.tfcd)
    ensures e.Cpu? ==> Work(Step(s, e, c)) < Work(s)
    ensures e.Arrive? ==> Work(Step(s, e, c)) <= Work(s) + 2
  {
    hide Size, Stored, Bad;
    if s.pending != [] {
      assert !Stuck(s.pending[0], c.tfcd);
    }
  }

  lemma {:induction false} EndsInTime(s: State, events: seq<Event>, c: Config, kind: RxFrame -> bool)
    requires Shape(s, kind, c) && Only(events, kind)
    requires forall f | kind(f) && Stored(f, c.fuf) :: !Stuck(f, c.tfcd)
    requires Work(s) + 2 * Arrivals(events) <= Cpus(events)
    ensures Ends(s, events, c)
    decreases |events|
  {
    if s.pc != Idle && events != [] {
      StepKeepsShape(s, events[0], c, kind);
      StepWorks(s, events[0], c, kind);
      hide Step, Shape;
      EndsInTime(Step(s, events[0], c), events[1..], c, kind);
    }
  }

  // A stuck frame at the head keeps the handler checking it.
  lemma {:induction false} StuckForEver(s: State, events: seq<Event>, c: Config)
    requires s.pc == Check && s.pending != [] && Stuck(s.pending[0], c.tfcd)
    ensures !Ends(s, events, c)
    decreases |events|
  {
    if events != [] {
      StuckForEver(Step(s, events[0], c), events[1..], c);
    }
  }

  lemma ReachStuck(f: RxFrame, c: Config)
    requires c.clearFirst && Stored(f, c.fuf) && 0 < c.descriptors
    ensures Run(START, [Arrive(f)] + ([Cpu] + ([Cpu] + [])), c) == State([f], false, false, Check)
  {
    var up := State([f], true, true, Idle);
    assert Step(START, Arrive(f), c) == up;
    RunOne(START, Arrive(f), [Cpu] + ([Cpu] + []), c);
    RunOne(up, Cpu, [Cpu] + [], c);
    RunOne(State([f], false, true, ClearNi), Cpu, [], c);
  }

  // The handler, wherever a run has taken it, goes idle once it gets its steps: two for each frame pending or
  // arriving meanwhile, and at most two more.
  ghost predicate AlwaysEnds(kind: RxFrame -> bool, c: Config) {
    forall before, after ::
      Only(before, kind) && Only(after, kind) && Work(Run(START, before, c)) + 2 * Arrivals(after) <= Cpus(after)
      ==> Ends(Run(START, before, c), after, c)
  }

  /** The handler always ends, however frames arrive, if and only if no frame that can be stored has computed
      length 1. */
  lemma HandlerEndsIff(kind: RxFrame -> bool, c: Config)
    requires c.clearFirst && 0 < c.descriptors
    ensures AlwaysEnds(kind, c) <==> forall f | kind(f) && Stored(f, c.fuf) :: !Stuck(f, c.tfcd)
  {
    if forall f | kind(f) && Stored(f, c.fuf) :: !Stuck(f, c.tfcd) {
      forall before, after | Only(before, kind) && Only(after, kind)
                             && Work(Run(START, before, c)) + 2 * Arrivals(after) <= Cpus(after)
        ensures Ends(Run(START, before, c), after, c)
      {
        RunKeepsShape(START, before, c, kind);
        EndsInTime(Run(START, before, c), after, c, kind);
      }
    } else {
      var f :| kind(f) && Stored(f, c.fuf) && Stuck(f, c.tfcd);
      var before := [Arrive(f)] + ([Cpu] + ([Cpu] + []));
      var after := [Cpu, Cpu, Cpu];
      ReachStuck(f, c);
      StuckForEver(Run(START, before, c), after, c);
      assert Only(before, kind) && Only(after, kind);
      assert Cpus(after) == 3 && Arrivals(after) == 0 by {
        assert after[1..] == [Cpu, Cpu] && after[1..][1..] == [Cpu] && after[1..][1..][1..] == [];
      }
    }
  }

  /** As the MAC is configured: the handler always ends if and only if undersized forwarding is off. */
  lemma HandlerEndsAsConfigured(c: Config)
    requires c.clearFirst && 0 < c.descriptors
    ensures AlwaysEnds((f: RxFrame) => true, c) <==> !c.fuf
  {
    var any := (f: RxFrame) => true;
    HandlerEndsIff(any, c);
    if c.fuf {
      var f := GoodFrame(5);
      assert any(f) && Stored(f, c.fuf) && Stuck(f, c.tfcd);
    } else {
      forall f: RxFrame | Stored(f, c.fuf)
        ensures !Stuck(f, c.tfcd)
      {
        LongFrames(f, c.tfcd);
      }
    }
  }
}
