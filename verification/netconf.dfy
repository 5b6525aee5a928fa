/** `lwip_timeouts_check` (src/netconf.c): five timers and the DHCP machine, driven by polls. */
module NetConf {
  import opened Timers
  import opened DhcpFallback

  // Poll k happens at true time times[k]; replies[k] is what the stack would then show to the DHCP machine.
  // The replies at the polls at which a timer of the given interval fires:
  function RepliesAtTicks(interval: nat, times: seq<nat>, replies: seq<Reply>): seq<Reply>
    requires |times| == |replies|
  {
    if times == [] then []
    else
      var n := |times| - 1;
      var before := RepliesAtTicks(interval, times[..n], replies[..n]);
      if Expired(times[n] % WRAP, Last(Firings(interval, times[..n])) % WRAP, interval)
      then before + [replies[n]] else before
  }

  lemma FiringsAppend(interval: nat, times: seq<nat>, t: nat)
    ensures var before := Firings(interval, times);
            Firings(interval, times + [t])
            == if Expired(t % WRAP, Last(before) % WRAP, interval) then before + [t] else before
  {
    assert (times + [t])[..|times|] == times;
  }

  lemma RepliesAppend(interval: nat, times: seq<nat>, replies: seq<Reply>, t: nat, r: Reply)
    requires |times| == |replies|
    ensures var before := RepliesAtTicks(interval, times, replies);
            RepliesAtTicks(interval, times + [t], replies + [r])
            == if Expired(t % WRAP, Last(Firings(interval, times)) % WRAP, interval) then before + [r] else before
  {
    assert (times + [t])[..|times|] == times;
    assert (replies + [r])[..|replies|] == replies;
  }

  lemma {:induction false} OneReplyPerTick(interval: nat, times: seq<nat>, replies: seq<Reply>)
    requires |times| == |replies|
    ensures |RepliesAtTicks(interval, times, replies)| == |Firings(interval, times)|
    decreases |times|
  {
    if times != [] {
      OneReplyPerTick(interval, times[..|times| - 1], replies[..|times| - 1]);
    }
  }

  lemma TickAppend(replies: seq<Reply>, r: Reply)
    ensures AfterTicks(replies + [r]) == AddressGet(AfterTicks(replies), r)
  {
    assert (replies + [r])[..|replies|] == replies;
  }

  // A timer's stored time and the times at which its handler was called.
  datatype TimerView = TimerView(stored: nat, ticks: seq<nat>)

  // The timer run alone on the given polls; it stores the 32-bit image of its last firing.
  function RunAlone(interval: nat, times: seq<nat>): TimerView {
    TimerView(Last(Firings(interval, times)) % WRAP, Firings(interval, times))
  }

  // The pattern that lwip_timeouts_check repeats per timer:
  // `if (curtime - stored >= INTERVAL) { stored = curtime; ... }`.
  method CheckOne(cur: nat, stored: nat, interval: nat, ghost now: nat, ghost ticks: seq<nat>, ghost times: seq<nat>)
      returns (due: bool, stored': nat, ghost ticks': seq<nat>)
    requires cur == now % WRAP && TimerView(stored, ticks) == RunAlone(interval, times)
    ensures due <==> Expired(now % WRAP, Last(Firings(interval, times)) % WRAP, interval)
    ensures ticks' == (if due then ticks + [now] else ticks)
    ensures TimerView(stored', ticks') == RunAlone(interval, times + [now])
  {
    due, stored', ticks' := false, stored, ticks;
    if (cur - stored) % WRAP >= interval {
      due, stored', ticks' := true, cur, ticks + [now];
    }
    FiringsAppend(interval, times, now);
  }

  /** The globals of src/netconf.c in the USE_DHCP build, with ghost histories. */
  class TimeoutsState {
    const tcpInterval: nat
    const arpInterval: nat
    const fineInterval: nat
    const coarseInterval: nat
    const acdInterval: nat

    var tcpCurTime: nat
    var arpCurTime: nat
    var fineCurTime: nat
    var coarseCurTime: nat
    var acdCurTime: nat
    var status: Status
    var ipAddress: nat
    var client: bool                // netif_dhcp_data(&g_mynetif) != NULL
    var fault: bool                 // the core is in its fault handler for good

    // The polls so far, the times at which each timer's handler was called, and the DHCP calls.
    ghost var times: seq<nat>
    ghost var replies: seq<Reply>
    ghost var tcpTicks: seq<nat>
    ghost var arpTicks: seq<nat>
    ghost var fineTicks: seq<nat>
    ghost var coarseTicks: seq<nat>
    ghost var acdTicks: seq<nat>
    ghost var calls: seq<Call>

    // Every timer's history is its history when run alone, the stored times are the last firings, and the
    // DHCP machine is where the replies at the fine ticks put it.
    ghost predicate Valid()
      reads this
    {
      && TimerView(tcpCurTime, tcpTicks) == RunAlone(tcpInterval, times)
      && TimerView(arpCurTime, arpTicks) == RunAlone(arpInterval, times)
      && TimerView(fineCurTime, fineTicks) == RunAlone(fineInterval, times)
      && TimerView(coarseCurTime, coarseTicks) == RunAlone(coarseInterval, times)
      && TimerView(acdCurTime, acdTicks) == RunAlone(acdInterval, times)
      && |times| == |replies|
      && Machine(status, ipAddress, client, fault, calls) == AfterTicks(RepliesAtTicks(fineInterval, times, replies))
    }

    constructor (tcp: nat, arp: nat, fine: nat, coarse: nat, acd: nat)
      ensures Valid() && !fault && times == [] && replies == []
      ensures tcpInterval == tcp && arpInterval == arp && fineInterval == fine
      ensures coarseInterval == coarse && acdInterval == acd
    {
      tcpInterval, arpInterval, fineInterval, coarseInterval, acdInterval := tcp, arp, fine, coarse, acd;
      tcpCurTime, arpCurTime, fineCurTime, coarseCurTime, acdCurTime := 0, 0, 0, 0, 0;
      status, ipAddress, client, fault, calls := NoneYet, 0, false, false, [];
      times, replies := [], [];
      tcpTicks, arpTicks, fineTicks, coarseTicks, acdTicks := [], [], [], [], [];
    }

    // lwip_dhcp_address_get
    method DhcpAddressGet(reply: Reply)
      requires !fault
      modifies `status, `ipAddress, `client, `fault, `calls
      ensures Machine(status, ipAddress, client, fault, calls) == AddressGet(old(Machine(status, ipAddress, client, fault, calls)), reply)
    {
      match status {
        case NoneYet =>
          calls := calls + [DhcpStart];
          client := reply.starts;
          status := Begin;
        case Begin =>
          ipAddress := reply.addr;
          if 0 != ipAddress {
            status := Got;
          } else {
            calls := calls + [ReadTries];
            if !client {
              fault := true;
            } else if reply.tries > DHCP_TRIES_MAX_TIMES {
              status := Fail;
              calls := calls + [DhcpStop];
              calls := calls + [SetStaticAddress];
            }
          }
        case _ =>
      }
    }

    // What follows dhcp_fine_tmr when the fine timer is due.
    method FineTick(due: bool, ghost now: nat, reply: Reply)
      requires !fault && |times| == |replies|
      requires due <==> Expired(now % WRAP, Last(Firings(fineInterval, times)) % WRAP, fineInterval)
      requires Machine(status, ipAddress, client, fault, calls) == AfterTicks(RepliesAtTicks(fineInterval, times, replies))
      modifies `status, `ipAddress, `client, `fault, `calls
      ensures Machine(status, ipAddress, client, fault, calls)
              == AfterTicks(RepliesAtTicks(fineInterval, times + [now], replies + [reply]))
    {
      RepliesAppend(fineInterval, times, replies, now, reply);
      if due {
        TickAppend(RepliesAtTicks(fineInterval, times, replies), reply);
        if Got != status && Fail != status {
          DhcpAddressGet(reply);
        }
      }
    }

    method CheckTcpAndArp(cur: nat, ghost now: nat)
      requires cur == now % WRAP
      requires TimerView(tcpCurTime, tcpTicks) == RunAlone(tcpInterval, times)
      requires TimerView(arpCurTime, arpTicks) == RunAlone(arpInterval, times)
      modifies `tcpCurTime, `tcpTicks, `arpCurTime, `arpTicks
      ensures TimerView(tcpCurTime, tcpTicks) == RunAlone(tcpInterval, times + [now])
      ensures TimerView(arpCurTime, arpTicks) == RunAlone(arpInterval, times + [now])
    {
      var due;
      due, tcpCurTime, tcpTicks := CheckOne(cur, tcpCurTime, tcpInterval, now, tcpTicks, times);
      due, arpCurTime, arpTicks := CheckOne(cur, arpCurTime, arpInterval, now, arpTicks, times);
    }

    method CheckFine(cur: nat, ghost now: nat, reply: Reply)
      requires !fault && cur == now % WRAP && |times| == |replies|
      requires TimerView(fineCurTime, fineTicks) == RunAlone(fineInterval, times)
      requires Machine(status, ipAddress, client, fault, calls) == AfterTicks(RepliesAtTicks(fineInterval, times, replies))
      modifies `fineCurTime, `fineTicks, `status, `ipAddress, `client, `fault, `calls
      ensures TimerView(fineCurTime, fineTicks) == RunAlone(fineInterval, times + [now])
      ensures Machine(status, ipAddress, client, fault, calls)
              == AfterTicks(RepliesAtTicks(fineInterval, times + [now], replies + [reply]))
    {
      var due;
      due, fineCurTime, fineTicks := CheckOne(cur, fineCurTime, fineInterval, now, fineTicks, times);
      FineTick(due, now, reply);
    }

    method CheckCoarseAndAcd(cur: nat, ghost now: nat)
      requires cur == now % WRAP
      requires TimerView(coarseCurTime, coarseTicks) == RunAlone(coarseInterval, times)
      requires TimerView(acdCurTime, acdTicks) == RunAlone(acdInterval, times)
      modifies `coarseCurTime, `coarseTicks, `acdCurTime, `acdTicks
      ensures TimerView(coarseCurTime, coarseTicks) == RunAlone(coarseInterval, times + [now])
      ensures TimerView(acdCurTime, acdTicks) == RunAlone(acdInterval, times + [now])
    {
      var due;
      due, coarseCurTime, coarseTicks := CheckOne(cur, coarseCurTime, coarseInterval, now, coarseTicks, times);
      due, acdCurTime, acdTicks := CheckOne(cur, acdCurTime, acdInterval, now, acdTicks, times);
    }

    /** One poll.  `cur` is the 32-bit counter, `now` the true time it stands for.  A poll that reads a NULL
        client does not return. */
    method TimeoutsCheck(cur: nat, ghost now: nat, reply: Reply)
      requires Valid() && !fault && cur == now % WRAP
      modifies this
      ensures times == old(times) + [now] && replies == old(replies) + [reply]
      ensures fault <==> Faults(RepliesAtTicks(fineInterval, times, replies))
      ensures !fault ==> Valid()
    {
      hide RunAlone, AfterTicks, RepliesAtTicks;
      CheckTcpAndArp(cur, now);
      CheckFine(cur, now, reply);
      FaultIff(RepliesAtTicks(fineInterval, times + [now], replies + [reply]));
      if !fault {
        CheckCoarseAndAcd(cur, now);
      }
      times, replies := times + [now], replies + [reply];
    }
  }

  // ---- Timing of the DHCP outcome -------------------------------------------------------------------

  /** No run decides before two fine intervals have gone by, whatever the pace of the polls. */
  lemma NotSettledEarly(interval: nat, times: seq<nat>, replies: seq<Reply>)
    requires 0 < interval && Ordered(times) && |times| == |replies|
    requires AfterTicks(RepliesAtTicks(interval, times, replies)).status in {Got, Fail}
    ensures times != [] && 2 * interval <= times[|times| - 1]
  {
    var ticks := Firings(interval, times);
    OneReplyPerTick(interval, times, replies);
    SettledIff(RepliesAtTicks(interval, times, replies));
    FiringsSpaced(interval, times);
    SpacedLast(interval, ticks);
    assert |ticks| >= 2;
    MulMonotone(2, |ticks|, interval);
  }

  lemma MulMonotone(n: nat, k: nat, step: nat)
    requires n <= k
    ensures n * step <= k * step
  {
  }

  lemma EnoughTicks(n: nat, k: nat, interval: nat, gap: nat, t: nat)
    requires 0 < interval && 0 < gap
    requires (k + 1) * (interval - 1 + gap) <= t < n * (interval - 1 + gap) + interval
    ensures n > k
  {
    var step := interval - 1 + gap;
    OneMore(k, step);
    if n <= k {
      MulMonotone(n, k, step);
    }
  }

  /** If the run does not fault and the stack shows an address or too many tries at one of the K fine ticks
      after BEGIN, then at every poll from (K+1)*(I-1+D) on the machine has settled. */
  lemma SettledInTime(interval: nat, times: seq<nat>, replies: seq<Reply>, gap: nat, k: nat)
    requires 0 < interval && 0 < gap && interval + gap <= WRAP && Paced(times, gap) && |times| == |replies|
    requires times != [] && times[|times| - 1] >= (k + 1) * (interval - 1 + gap)
    requires var ticks := RepliesAtTicks(interval, times, replies);
             |ticks| > k ==> !Faults(ticks) && exists j :: 1 <= j <= k && Decisive(ticks[j])
    ensures AfterTicks(RepliesAtTicks(interval, times, replies)).status in {Got, Fail}
  {
    var ticks := RepliesAtTicks(interval, times, replies);
    OneReplyPerTick(interval, times, replies);
    FiringCount(interval, times, gap);
    EnoughTicks(|ticks|, k, interval, gap, times[|times| - 1]);
    SettledIff(ticks);
  }
}
