/**
 Periodic timers driven by polls of a wrapping millisecond counter (`lwip_timeouts_check`, src/netconf.c).

 Times are unbounded here; the code sees them modulo 2^32.
 */
module Timers {

  const WRAP: nat := 0x1_0000_0000

  // The test of the code: an unsigned 32-bit subtraction compared with the interval.
  predicate Expired(cur: nat, stored: nat, interval: nat) {
    (cur - stored) % WRAP >= interval
  }

  function Last(fired: seq<nat>): nat {
    if fired == [] then 0 else fired[|fired| - 1]
  }

  // The times at which the code fires a timer, on its own, when it is polled at the given times.
  function Firings(interval: nat, polls: seq<nat>): seq<nat> {
    if polls == [] then []
    else
      var before := Firings(interval, polls[..|polls| - 1]);
      var t := polls[|polls| - 1];
      if Expired(t % WRAP, Last(before) % WRAP, interval) then before + [t] else before
  }

  // The times at which it should fire: whenever a full interval of true time has gone by.
  function IdealFirings(interval: nat, polls: seq<nat>): seq<nat> {
    if polls == [] then []
    else
      var before := IdealFirings(interval, polls[..|polls| - 1]);
      var t := polls[|polls| - 1];
      if t - Last(before) >= interval then before + [t] else before
  }

  ghost predicate Ordered(polls: seq<nat>) {
    forall j, k :: 0 <= j < k < |polls| ==> polls[j] <= polls[k]
  }

  // The first poll is at most `gap` after time 0, and each next one at most `gap` later.
  ghost predicate Paced(polls: seq<nat>, gap: nat) {
    && Ordered(polls)
    && (polls != [] ==> polls[0] <= gap)
    && forall k :: 0 < k < |polls| ==> polls[k] - polls[k - 1] <= gap
  }

  lemma WrappingElapsed(t: nat, last: nat, interval: nat)
    ensures Expired(t % WRAP, last % WRAP, interval) <==> (t - last) % WRAP >= interval
  {
    var x := (t % WRAP - last % WRAP) - (t - last);
    assert x == WRAP * (last / WRAP - t / WRAP);
  }

  // One poll either leaves the history alone or appends the poll, and then not before its time.
  lemma FiringsStep(interval: nat, polls: seq<nat>)
    requires polls != []
    requires Last(Firings(interval, polls[..|polls| - 1])) <= polls[|polls| - 1]
    ensures var before, t := Firings(interval, polls[..|polls| - 1]), polls[|polls| - 1];
            || Firings(interval, polls) == before
            || (Firings(interval, polls) == before + [t] && Last(before) + interval <= t)
  {
    var before, t := Firings(interval, polls[..|polls| - 1]), polls[|polls| - 1];
    if Expired(t % WRAP, Last(before) % WRAP, interval) {
      NotEarly(t, Last(before), interval);
    }
  }

  lemma NotEarly(t: nat, last: nat, interval: nat)
    requires last <= t && Expired(t % WRAP, last % WRAP, interval)
    ensures last + interval <= t
  {
    WrappingElapsed(t, last, interval);
    ElapsedModulo(t - last);
  }

  lemma ElapsedModulo(x: nat)
    ensures x % WRAP <= x
  {
  }

  // ---- Whatever the pace --------------------------------------------------------------------------

  ghost predicate Spaced(interval: nat, fired: seq<nat>) {
    && (forall k :: 0 <= k < |fired| ==> interval <= fired[k])
    && (forall j, k :: 0 <= j < k < |fired| ==> fired[j] + interval <= fired[k])
  }

  /** A timer never fires early: firings, and the first one from time 0, are at least an interval apart,
      whatever the gaps between polls. */
  lemma {:induction false} FiringsSpaced(interval: nat, polls: seq<nat>)
    requires 0 < interval && Ordered(polls)
    ensures Spaced(interval, Firings(interval, polls))
    ensures polls == [] ==> Firings(interval, polls) == []
    ensures polls != [] ==> Last(Firings(interval, polls)) <= polls[|polls| - 1]
    decreases |polls|
  {
    if polls != [] {
      var earlier := polls[..|polls| - 1];
      FiringsSpaced(interval, earlier);
      FiringsStep(interval, polls);
    }
  }

  lemma {:induction false} SpacedLast(interval: nat, fired: seq<nat>)
    requires Spaced(interval, fired)
    ensures |fired| * interval <= Last(fired)
    decreases |fired|
  {
    if fired != [] {
      var before := fired[..|fired| - 1];
      SpacedLast(interval, before);
      assert |fired| * interval == |before| * interval + interval;
    }
  }

  // ---- With polls often enough --------------------------------------------------------------------

  lemma PacedPrefix(polls: seq<nat>, gap: nat)
    requires Paced(polls, gap) && polls != []
    ensures Paced(polls[..|polls| - 1], gap)
  {
  }

  /** With poll gaps of at most 2^32 minus the interval, the wrapping test agrees with true elapsed time at
      every poll, and no timer is overdue after a poll. */
  lemma {:induction false} FiringsAgree(interval: nat, polls: seq<nat>, gap: nat)
    requires 0 < interval && interval + gap <= WRAP && Paced(polls, gap)
    ensures Firings(interval, polls) == IdealFirings(interval, polls)
    ensures polls == [] ==> Firings(interval, polls) == []
    ensures polls != [] ==>
              var last := Last(Firings(interval, polls)); last <= polls[|polls| - 1] < last + interval
    decreases |polls|
  {
    if polls != [] {
      var earlier := polls[..|polls| - 1];
      PacedPrefix(polls, gap);
      FiringsAgree(interval, earlier, gap);
      var before := Firings(interval, earlier);
      var t := polls[|polls| - 1];
      if earlier == [] {
        assert t == polls[0];
      } else {
        assert t - polls[|polls| - 2] <= gap && polls[|polls| - 2] == earlier[|earlier| - 1];
      }
      assert 0 <= t - Last(before) < WRAP;
      WrappingElapsed(t, Last(before), interval);
      SmallElapsed(t - Last(before));
    }
  }

  lemma SmallElapsed(x: int)
    requires 0 <= x < WRAP
    ensures x % WRAP == x
  {
  }

  // Each firing comes at most interval - 1 + gap after the one before it.
  lemma {:induction false} FiringsPrompt(interval: nat, polls: seq<nat>, gap: nat)
    requires 0 < interval && interval + gap <= WRAP && Paced(polls, gap)
    ensures Last(Firings(interval, polls)) <= |Firings(interval, polls)| * (interval - 1 + gap)
    decreases |polls|
  {
    if polls != [] {
      var earlier := polls[..|polls| - 1];
      PacedPrefix(polls, gap);
      FiringsPrompt(interval, earlier, gap);
      FiringsAgree(interval, earlier, gap);
      LastPoll(interval, polls, gap);
      FiringsStep(interval, polls);
      OneMore(|Firings(interval, earlier)|, interval - 1 + gap);
    }
  }

  lemma LastPoll(interval: nat, polls: seq<nat>, gap: nat)
    requires 0 < interval && interval + gap <= WRAP && Paced(polls, gap) && polls != []
    ensures var last := Last(Firings(interval, polls[..|polls| - 1]));
            last <= polls[|polls| - 1] <= last + interval - 1 + gap
  {
    var earlier := polls[..|polls| - 1];
    PacedPrefix(polls, gap);
    FiringsAgree(interval, earlier, gap);
    if earlier != [] {
      assert polls[|polls| - 2] == earlier[|earlier| - 1];
      assert polls[|polls| - 1] - polls[|polls| - 2] <= gap;
    }
  }

  lemma OneMore(k: nat, step: nat)
    ensures (k + 1) * step == k * step + step
  {
  }

  // Polls at times 0, 1, ... , n - 1, none of them late enough to fire.
  function Quiet(n: nat): (polls: seq<nat>)
    ensures |polls| == n && forall k :: 0 <= k < n ==> polls[k] == k
  {
    seq(n, k => k)
  }

  lemma {:induction false} QuietIsQuiet(interval: nat, n: nat)
    requires n <= interval <= WRAP
    ensures Firings(interval, Quiet(n)) == [] == IdealFirings(interval, Quiet(n))
  {
    if n > 0 {
      QuietIsQuiet(interval, n - 1);
      assert Quiet(n)[..n - 1] == Quiet(n - 1);
      SmallElapsed(n - 1);
    }
  }

  // A run in which the wrapping test misses an interval that has gone by.
  lemma LateOnce(interval: nat)
    requires 0 < interval <= WRAP
    ensures Firings(interval, Quiet(interval) + [WRAP]) != IdealFirings(interval, Quiet(interval) + [WRAP])
  {
    var late := Quiet(interval) + [WRAP];
    QuietIsQuiet(interval, interval);
    assert late[..interval] == Quiet(interval);
  }

  /** The bound on the gap is exact: all runs with gaps up to `gap` agree with true time if and only if the
      gap is at most 2^32 minus the interval. */
  lemma FiringsAgreeIff(interval: nat, gap: nat)
    requires 0 < interval <= WRAP
    ensures (forall polls :: Paced(polls, gap) ==> Firings(interval, polls) == IdealFirings(interval, polls))
            <==> interval + gap <= WRAP
  {
    if interval + gap <= WRAP {
      forall polls | Paced(polls, gap)
        ensures Firings(interval, polls) == IdealFirings(interval, polls)
      {
        FiringsAgree(interval, polls, gap);
      }
    } else {
      LateOnce(interval);
      assert Paced(Quiet(interval) + [WRAP], gap);
    }
  }

  /** After a poll at time t a timer has fired k times with k*I <= t < k*(I-1+D)+I. */
  lemma FiringCount(interval: nat, polls: seq<nat>, gap: nat)
    requires 0 < interval && interval + gap <= WRAP && Paced(polls, gap) && polls != []
    ensures var k, t := |Firings(interval, polls)|, polls[|polls| - 1];
            k * interval <= t < k * (interval - 1 + gap) + interval
  {
    FiringsAgree(interval, polls, gap);
    FiringsPrompt(interval, polls, gap);
    FiringsSpaced(interval, polls);
    SpacedLast(interval, Firings(interval, polls));
  }

  // ---- Two timers -----------------------------------------------------------------------------------

  lemma PacedTake(polls: seq<nat>, gap: nat, n: nat)
    requires Paced(polls, gap) && n <= |polls|
    ensures Paced(polls[..n], gap)
  {
  }

  // One more poll: the history stays, or has one more firing soon after the last.
  lemma OnePoll(interval: nat, polls: seq<nat>, gap: nat, b: nat)
    requires 0 < interval && interval + gap <= WRAP && Paced(polls, gap) && 0 < b <= |polls|
    ensures var before, after := Firings(interval, polls[..b - 1]), Firings(interval, polls[..b]);
            || after == before
            || (|after| == |before| + 1 && Last(after) <= Last(before) + (interval - 1 + gap))
  {
    var upTo := polls[..b];
    assert upTo[..b - 1] == polls[..b - 1];
    PacedTake(polls, gap, b);
    LastPoll(interval, upTo, gap);
    FiringsStep(interval, upTo);
    hide Firings;
  }

  lemma {:induction false} PromptSince(interval: nat, polls: seq<nat>, gap: nat, a: nat, b: nat)
    requires 0 < interval && interval + gap <= WRAP && Paced(polls, gap)
    requires a <= b <= |polls|
    ensures |Firings(interval, polls[..a])| <= |Firings(interval, polls[..b])|
    ensures Last(Firings(interval, polls[..b])) <= Last(Firings(interval, polls[..a]))
            + (|Firings(interval, polls[..b])| - |Firings(interval, polls[..a])|) * (interval - 1 + gap)
    decreases b - a
  {
    hide Firings, Last;
    if a < b {
      PromptSince(interval, polls, gap, a, b - 1);
      OnePoll(interval, polls, gap, b);
      OneMore(|Firings(interval, polls[..b - 1])| - |Firings(interval, polls[..a])|, interval - 1 + gap);
    }
  }

  // Poll k is one at which the timer fires.
  ghost predicate FiresAt(interval: nat, polls: seq<nat>, k: nat)
    requires k < |polls|
  {
    Firings(interval, polls[..k + 1]) == Firings(interval, polls[..k]) + [polls[k]]
  }

  lemma {:induction false} FiringsGrow(interval: nat, polls: seq<nat>, a: nat, b: nat)
    requires a <= b <= |polls|
    ensures Firings(interval, polls[..a]) <= Firings(interval, polls[..b])
    decreases b - a
  {
    if a < b {
      FiringsGrow(interval, polls, a, b - 1);
      assert polls[..b][..b - 1] == polls[..b - 1];
    }
  }

  lemma TicksApart(interval: nat, polls: seq<nat>, a: nat, b: nat)
    requires 0 < interval && Ordered(polls) && a < b < |polls|
    requires FiresAt(interval, polls, a) && FiresAt(interval, polls, b)
    ensures polls[a] + interval <= polls[b]
  {
    var fired := Firings(interval, polls[..b + 1]);
    FiringsSpaced(interval, polls[..b + 1]);
    FiringsGrow(interval, polls, a + 1, b);
    var j := |Firings(interval, polls[..a])|;
    assert fired[j] == polls[a] && fired[|fired| - 1] == polls[b];
  }

  lemma TicksBetweenPolls(interval: nat, polls: seq<nat>, gap: nat, a: nat, b: nat)
    requires 0 < interval && interval + gap <= WRAP && Paced(polls, gap)
    requires a < b < |polls|
    ensures var k := |Firings(interval, polls[..b + 1])| - |Firings(interval, polls[..a + 1])|;
            polls[b] - polls[a] < k * (interval - 1 + gap) + interval
  {
    PromptSince(interval, polls, gap, a + 1, b + 1);
    NotOverdue(interval, polls, gap, a);
    NotOverdue(interval, polls, gap, b);
  }

  lemma NotOverdue(interval: nat, polls: seq<nat>, gap: nat, k: nat)
    requires 0 < interval && interval + gap <= WRAP && Paced(polls, gap) && k < |polls|
    ensures var last := Last(Firings(interval, polls[..k + 1])); last <= polls[k] < last + interval
  {
    PacedTake(polls, gap, k + 1);
    FiringsAgree(interval, polls[..k + 1], gap);
  }

  /** Between two ticks of a slow timer (at polls a and b) a fast one ticks k times with
      k * (I_fast - 1 + D) >= I_slow - I_fast + 1. */
  lemma FastTicksBetweenSlow(fast: nat, slow: nat, polls: seq<nat>, gap: nat, a: nat, b: nat)
    requires 0 < fast && 0 < slow && fast + gap <= WRAP && Paced(polls, gap)
    requires a < b < |polls| && FiresAt(slow, polls, a) && FiresAt(slow, polls, b)
    ensures var k := |Firings(fast, polls[..b + 1])| - |Firings(fast, polls[..a + 1])|;
            k * (fast - 1 + gap) >= slow - fast + 1
  {
    TicksApart(slow, polls, a, b);
    TicksBetweenPolls(fast, polls, gap, a, b);
  }

  /** With TCP every 250 ms, ARP every second and polls at most 10 ms apart: at least three TCP ticks
      between two ARP ticks. */
  lemma ThreeTcpTicksPerArpTick(polls: seq<nat>, a: nat, b: nat)
    requires Paced(polls, 10)
    requires a < b < |polls| && FiresAt(1000, polls, a) && FiresAt(1000, polls, b)
    ensures |Firings(250, polls[..b + 1])| >= |Firings(250, polls[..a + 1])| + 3
  {
    FastTicksBetweenSlow(250, 1000, polls, 10, a, b);
  }
}
