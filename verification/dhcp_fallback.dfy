/** The DHCP state machine with its static fallback (`lwip_dhcp_address_get`, src/netconf.c). */
module DhcpFallback {

  const DHCP_TRIES_MAX_TIMES := 4

  datatype Status = NoneYet | Begin | Got | Fail

  // Calls the machine makes into the stack; reading the client's `tries` counter is recorded too.
  datatype Call = DhcpStart | ReadTries | DhcpStop | SetStaticAddress

  // What the stack shows at the moment of a tick: whether a dhcp_start at this tick leaves a client behind (it
  // does not when it runs out of memory), the interface address, and the DHCP client's tries.
  datatype Reply = Reply(starts: bool, addr: nat, tries: nat)

  // `client`: netif_dhcp_data is not NULL.  `fault`: a NULL client was dereferenced; nothing happens after that.
  datatype Machine = Machine(status: Status, ipAddress: nat, client: bool, fault: bool, calls: seq<Call>)

  const INITIAL := Machine(NoneYet, 0, false, false, [])

  // The switch of lwip_dhcp_address_get; the result of dhcp_start is not looked at.
  function AddressGet(m: Machine, r: Reply): Machine {
    if m.fault then m
    else
      match m.status
      case NoneYet => m.(status := Begin, client := r.starts, calls := m.calls + [DhcpStart])
      case Begin =>
        if r.addr != 0 then m.(status := Got, ipAddress := r.addr)
        else
          var read := m.(ipAddress := r.addr, calls := m.calls + [ReadTries]);
          if !m.client then read.(fault := true)
          else if r.tries > DHCP_TRIES_MAX_TIMES then
            read.(status := Fail, calls := m.calls + [ReadTries, DhcpStop, SetStaticAddress])
          else read
      case Got => m
      case Fail => m
  }

  // The state after a run of fine ticks.
  function AfterTicks(replies: seq<Reply>): Machine {
    if replies == [] then INITIAL
    else AddressGet(AfterTicks(replies[..|replies| - 1]), replies[|replies| - 1])
  }

  // ---- What a run amounts to ------------------------------------------------------------------------

  predicate Decisive(r: Reply) {
    r.addr != 0 || r.tries > 4
  }

  function Repeat(c: Call, n: nat): (r: seq<Call>)
    ensures |r| == n && forall k :: 0 <= k < n ==> r[k] == c
  {
    seq(n, _ => c)
  }

  // The first decisive reply from tick `from` on, or the length of the run.
  function FirstDecisive(replies: seq<Reply>, from: nat): (j: nat)
    requires from <= |replies|
    ensures from <= j <= |replies|
    ensures forall k :: from <= k < j ==> !Decisive(replies[k])
    ensures j < |replies| ==> Decisive(replies[j])
    decreases |replies| - from
  {
    if from == |replies| || Decisive(replies[from]) then from else FirstDecisive(replies, from + 1)
  }

  // The start left no client, and the tick after it brought no address.
  predicate Faults(replies: seq<Reply>) {
    |replies| >= 2 && !replies[0].starts && replies[1].addr == 0
  }

  // The state of a run, read off its replies: the first tick starts DHCP, the first decisive reply after
  // it settles the outcome, and every tick until then that brought no address consulted `tries` once.
  function Outcome(replies: seq<Reply>): Machine {
    if replies == [] then INITIAL
    else if Faults(replies) then Machine(Begin, 0, false, true, [DhcpStart, ReadTries])
    else
      var j := FirstDecisive(replies, 1);
      var client := replies[0].starts;
      var waited := [DhcpStart] + Repeat(ReadTries, j - 1);
      if j == |replies| then Machine(Begin, 0, client, false, waited)
      else if replies[j].addr != 0 then Machine(Got, replies[j].addr, client, false, waited)
      else Machine(Fail, 0, client, false, waited + [ReadTries, DhcpStop, SetStaticAddress])
  }

  lemma FirstDecisiveUnique(replies: seq<Reply>, from: nat, j: nat)
    requires from <= j <= |replies|
    requires forall k :: from <= k < j ==> !Decisive(replies[k])
    requires j < |replies| ==> Decisive(replies[j])
    ensures FirstDecisive(replies, from) == j
  {
  }

  lemma OutcomeStep(before: seq<Reply>, r: Reply)
    requires before != [] && !Faults(before + [r])
    ensures Outcome(before + [r]) == AddressGet(Outcome(before), r)
  {
    var replies := before + [r];
    assert replies[0] == before[0] && (|before| >= 2 ==> replies[1] == before[1]);
    var j := FirstDecisive(before, 1);
    if j < |before| || Decisive(r) {
      FirstDecisiveUnique(replies, 1, j);
    } else {
      FirstDecisiveUnique(replies, 1, |replies|);
      assert Repeat(ReadTries, j - 1) + [ReadTries] == Repeat(ReadTries, j);
    }
    if !before[0].starts {
      assert |before| == 1 ==> j == 1 && replies[1] == r;
    }
  }

  lemma OutcomeFault(before: seq<Reply>, r: Reply)
    requires before != [] && Faults(before + [r])
    ensures Outcome(before + [r]) == AddressGet(Outcome(before), r)
  {
    if |before| == 1 {
      assert (before + [r])[1] == r && FirstDecisive(before, 1) == 1;
      assert Repeat(ReadTries, 0) == [];
      assert [DhcpStart] + [ReadTries] == [DhcpStart, ReadTries];
    } else {
      assert Faults(before);
    }
  }

  /** Every run of the machine, for all environments, ends in the state its replies dictate: NONE, BEGIN,
      then GOT or FAIL for ever, with the calls in exactly this order and number; or a NULL client is read. */
  lemma {:induction false} RunOutcome(replies: seq<Reply>)
    ensures AfterTicks(replies) == Outcome(replies)
    decreases |replies|
  {
    if replies != [] {
      var before := replies[..|replies| - 1];
      var r := replies[|replies| - 1];
      RunOutcome(before);
      assert replies == before + [r];
      if before == [] {
        assert Repeat(ReadTries, 0) == [];
      } else if Faults(replies) {
        OutcomeFault(before, r);
      } else {
        OutcomeStep(before, r);
      }
    }
  }

  /** A NULL client is read if and only if the start left none and the next tick brings no address. */
  lemma FaultIff(replies: seq<Reply>)
    ensures AfterTicks(replies).fault <==> Faults(replies)
  {
    RunOutcome(replies);
  }

  /** So every run reads `tries` from an existing client if and only if the start leaves one. */
  lemma ClientNeeded(starts: bool)
    ensures (forall replies: seq<Reply> :: replies != [] && replies[0].starts == starts ==> !AfterTicks(replies).fault)
            <==> starts
  {
    if starts {
      forall replies: seq<Reply> | replies != [] && replies[0].starts == starts
        ensures !AfterTicks(replies).fault
      {
        FaultIff(replies);
      }
    } else {
      var silent := [Reply(false, 0, 0), Reply(false, 0, 0)];
      FaultIff(silent);
      assert AfterTicks(silent).fault;
    }
  }

  // The DHCP client exists between start and stop.
  predicate Running(calls: seq<Call>) {
    DhcpStart in calls && DhcpStop !in calls
  }

  /** The address is nonzero exactly in GOT, and the machine leaves NONE at its first tick. */
  lemma AddressOnlyInGot(replies: seq<Reply>)
    ensures AfterTicks(replies).ipAddress != 0 <==> AfterTicks(replies).status == Got
    ensures AfterTicks(replies).status == NoneYet <==> replies == []
  {
    RunOutcome(replies);
  }

  /** Start is called once, on leaving NONE; stop and the static address once each, and only in runs that
      reach FAIL. */
  lemma RunCalls(replies: seq<Reply>)
    ensures var m := AfterTicks(replies);
            match m.status
            case NoneYet => CountsAre(m.calls, 0, 0, 0)
            case Begin => CountsAre(m.calls, 1, 0, 0)
            case Got => CountsAre(m.calls, 1, 0, 0)
            case Fail => CountsAre(m.calls, 1, 1, 1)
  {
    RunOutcome(replies);
    if Faults(replies) {
      assert multiset([DhcpStart, ReadTries]) == multiset{DhcpStart, ReadTries};
    } else if replies != [] {
      Counts(FirstDecisive(replies, 1) - 1);
    }
  }

  /** `tries` is read only between start and stop, and, unless the run faults, from the client that the start
      left. */
  lemma TriesReadWhileRunning(replies: seq<Reply>, k: nat)
    requires k < |AfterTicks(replies).calls| && AfterTicks(replies).calls[k] == ReadTries
    ensures Running(AfterTicks(replies).calls[..k])
    ensures replies != [] && (AfterTicks(replies).fault <==> !replies[0].starts)
  {
    RunOutcome(replies);
    hide AfterTicks;
    if Faults(replies) {
      assert k == 1 && Outcome(replies).calls[..1] == [DhcpStart];
    } else {
      ReadNeedsSilence(replies, k);
      RunningAtRead(FirstDecisive(replies, 1) - 1, Outcome(replies).calls, k);
    }
  }

  lemma RunningAtRead(n: nat, calls: seq<Call>, k: nat)
    requires var waited := [DhcpStart] + Repeat(ReadTries, n);
             calls == waited || calls == waited + [ReadTries, DhcpStop, SetStaticAddress]
    requires k < |calls| && calls[k] == ReadTries
    ensures Running(calls[..k])
  {
    var before := calls[..k];
    assert k > 0 && before[0] == DhcpStart;
    assert forall i :: 0 < i < k ==> before[i] == ReadTries;
  }

  // A recorded read means a second tick without an address.
  lemma ReadNeedsSilence(replies: seq<Reply>, k: nat)
    requires replies != [] && !Faults(replies) && k < |Outcome(replies).calls| && Outcome(replies).calls[k] == ReadTries
    ensures replies[0].starts
  {
    var j := FirstDecisive(replies, 1);
    if j == 1 && j < |replies| && replies[1].addr == 0 {
      assert replies[0].starts;
    } else if j > 1 {
      assert !Decisive(replies[1]);
    } else {
      assert Repeat(ReadTries, j - 1) == [];
    }
  }

  lemma {:induction false} CountRepeat(n: nat)
    ensures multiset(Repeat(ReadTries, n)) == multiset{}[ReadTries := n]
    decreases n
  {
    if n == 0 {
      assert Repeat(ReadTries, 0) == [];
    } else {
      CountRepeat(n - 1);
      assert Repeat(ReadTries, n) == Repeat(ReadTries, n - 1) + [ReadTries];
    }
  }

  ghost predicate CountsAre(calls: seq<Call>, starts: nat, stops: nat, statics: nat) {
    && multiset(calls)[DhcpStart] == starts
    && multiset(calls)[DhcpStop] == stops
    && multiset(calls)[SetStaticAddress] == statics
  }

  lemma Counts(n: nat)
    ensures CountsAre([DhcpStart] + Repeat(ReadTries, n), 1, 0, 0)
    ensures CountsAre([DhcpStart] + Repeat(ReadTries, n) + [ReadTries, DhcpStop, SetStaticAddress], 1, 1, 1)
  {
    var waited := [DhcpStart] + Repeat(ReadTries, n);
    assert multiset(waited) == multiset([DhcpStart]) + multiset(Repeat(ReadTries, n));
    CountRepeat(n);
    assert multiset([DhcpStart]) == multiset{DhcpStart};
    var tail := [ReadTries, DhcpStop, SetStaticAddress];
    assert multiset(waited + tail) == multiset(waited) + multiset(tail);
    assert multiset(tail) == multiset{ReadTries, DhcpStop, SetStaticAddress};
  }

  /** The machine has settled exactly when some tick after the first brought a decisive reply and it has not
      faulted. */
  lemma SettledIff(replies: seq<Reply>)
    ensures AfterTicks(replies).status in {Got, Fail}
            <==> !Faults(replies) && exists j :: 1 <= j < |replies| && Decisive(replies[j])
  {
    RunOutcome(replies);
  }

  /** Once settled, always settled: a longer run keeps the outcome. */
  lemma {:induction false} SettledForEver(replies: seq<Reply>, more: seq<Reply>)
    requires AfterTicks(replies).status in {Got, Fail}
    ensures AfterTicks(replies + more) == AfterTicks(replies)
    decreases |more|
  {
    if more == [] {
      assert replies + more == replies;
    } else {
      var front := more[..|more| - 1];
      SettledForEver(replies, front);
      assert (replies + more)[..|replies + more| - 1] == replies + front;
    }
  }
}
