/**
 The rolling event counter behind /metrics.json: a deque of timestamps from which
 everything older than the window is evicted on each read and write.

 Each call reads the clock and then takes the lock, so calls may go through in another
 order than their readings.  `skew` is how far behind the latest reading one has ever
 been: it is 0 as long as readings and calls come in the same order.
 */
module RollingCounter {

  /** No event carries a reading more than `skew` above that of a later one. */
  ghost predicate NearlySorted(s: seq<real>, skew: real) {
    forall i, j :: 0 <= i < j < |s| ==> s[i] <= s[j] + skew
  }

  lemma NearlyStill(s: seq<real>, skew: real, more: real, k: nat)
    requires NearlySorted(s, skew) && 0.0 <= skew <= more && k <= |s|
    ensures NearlySorted(s, more)
    ensures k < |s| ==> forall i :: k <= i < |s| ==> s[i] >= s[k] - more
  {
  }

  lemma NearlyMore(s: seq<real>, skew: real, now: real, n: nat)
    requires skew >= 0.0 && NearlySorted(s, skew) && forall i :: 0 <= i < |s| ==> s[i] <= now + skew
    ensures NearlySorted(s + Repeat(now, n), skew)
  {
  }

  /** How many recorded events are no older than `cutoff`. */
  function CountSince(log: seq<real>, cutoff: real): nat {
    if log == [] then 0 else CountSince(log[1..], cutoff) + if log[0] >= cutoff then 1 else 0
  }

  function Repeat(x: real, n: nat): (r: seq<real>)
    ensures |r| == n && forall i :: 0 <= i < n ==> r[i] == x
  {
    seq(n, _ => x)
  }

  function Max(x: real, y: real): real {
    if x >= y then x else y
  }

  /** When all the dropped events are older than `hi` and none of the others is older than `lo`, the others are at
      least as many as the events since `hi` and at most as many as those since `lo`. */
  lemma {:induction false} DroppedDoNotCount(log: seq<real>, k: nat, lo: real, hi: real)
    requires k <= |log| && lo <= hi
    requires forall i :: 0 <= i < k ==> log[i] < hi
    requires forall i :: k <= i < |log| ==> log[i] >= lo
    ensures CountSince(log, hi) <= |log| - k <= CountSince(log, lo)
  {
    if log != [] {
      var rest := log[1..];
      assert forall i :: 0 <= i < |rest| ==> rest[i] == log[i + 1];
      DroppedDoNotCount(rest, if k > 0 then k - 1 else 0, lo, hi);
    }
  }

  /** Two cutoffs with no event between them count the same. */
  lemma {:induction false} NoneBetween(log: seq<real>, lo: real, hi: real)
    requires lo <= hi && forall e :: e in log ==> e < lo || e >= hi
    ensures CountSince(log, lo) == CountSince(log, hi)
  {
    if log != [] {
      assert log[0] in log && forall e :: e in log[1..] ==> e in log;
      NoneBetween(log[1..], lo, hi);
    }
  }

  /** What the eviction loop leaves: the events from the first that is not too old. */
  function Popped(events: seq<real>, cutoff: real): (r: seq<real>)
    ensures r != [] ==> r[0] >= cutoff
  {
    if events != [] && events[0] < cutoff then Popped(events[1..], cutoff) else events
  }

  /** Eviction drops a prefix of events that are all too old. */
  lemma {:induction false} PoppedIsSuffix(log: seq<real>, k: nat, cutoff: real) returns (m: nat)
    requires k <= |log|
    ensures k <= m <= |log| && Popped(log[k..], cutoff) == log[m..]
    ensures (forall i :: k <= i < m ==> log[i] < cutoff) && (m < |log| ==> log[m] >= cutoff)
    decreases |log| - k
  {
    m := k;
    if k < |log| && log[k] < cutoff {
      assert log[k..][1..] == log[k + 1..];
      m := PoppedIsSuffix(log, k + 1, cutoff);
    }
  }

  /** How many recorded events are older than `cutoff`. */
  function CountOlder(log: seq<real>, cutoff: real): nat {
    if log == [] then 0 else CountOlder(log[1..], cutoff) + if log[0] < cutoff then 1 else 0
  }

  lemma {:induction false} CountsAddUp(log: seq<real>, k: nat, cutoff: real)
    requires k <= |log|
    ensures CountSince(log, cutoff) == CountSince(log[..k], cutoff) + CountSince(log[k..], cutoff)
    ensures CountOlder(log, cutoff) + CountSince(log, cutoff) == |log|
    ensures CountOlder(log[k..], cutoff) + CountSince(log[k..], cutoff) == |log| - k
  {
    if k > 0 {
      CountsAddUp(log[1..], k - 1, cutoff);
      assert log[..k][1..] == log[1..][..k - 1] && log[1..][k - 1..] == log[k..];
    } else {
      assert log[..0] == [] && log[0..] == log;
      if log != [] {
        CountsAddUp(log[1..], 0, cutoff);
        assert log[1..][0..] == log[1..];
      }
    }
  }

  lemma {:induction false} NoneCounted(log: seq<real>, cutoff: real)
    ensures CountSince(log, cutoff) == 0 <==> forall i :: 0 <= i < |log| ==> log[i] < cutoff
    ensures CountOlder(log, cutoff) == 0 <==> forall i :: 0 <= i < |log| ==> log[i] >= cutoff
  {
    if log != [] {
      NoneCounted(log[1..], cutoff);
      assert forall i :: 0 < i < |log| ==> log[i] == log[1..][i - 1];
    }
  }

  /** An event older than the cutoff was recorded after one that is not. */
  ghost predicate Straggler(log: seq<real>, cutoff: real) {
    exists i, j :: 0 <= i < j < |log| && log[j] < cutoff <= log[i]
  }

  /** When everything dropped is too old and the head is not, something too old was kept exactly when there is a
      straggler. */
  lemma KeptOldExactly(log: seq<real>, k: nat, cutoff: real)
    requires k <= |log| && (forall i :: 0 <= i < k ==> log[i] < cutoff) && (k < |log| ==> log[k] >= cutoff)
    ensures |log| - k == CountSince(log, cutoff) <==> !Straggler(log, cutoff)
  {
    CountsAddUp(log, k, cutoff);
    NoneCounted(log[..k], cutoff);
    NoneCounted(log[k..], cutoff);
    if j :| k <= j < |log| && log[j] < cutoff {
      assert log[k..][j - k] < cutoff;
      assert Straggler(log, cutoff);
    }
  }

  /** Once two calls have gone through in the wrong order the answer can be wrong: an event behind a younger head
      is not evicted, however old it is. */
  lemma OvertakenEventCounts(late: real, young: real, cutoff: real)
    requires late < cutoff <= young
    ensures |Popped([young, late], cutoff)| == 2 && CountSince([young, late], cutoff) == 1
  {
    assert [young, late][1..] == [late] && [late][1..] == [];
    assert CountSince([], cutoff) == 0 && CountSince([late], cutoff) == 0;
  }

  /** The deque holds what is left of the log. */
  ghost predicate Sound(log: seq<real>, events: seq<real>, evicted: nat, clock: real, skew: real, windowS: real) {
    && skew >= 0.0 && NearlySorted(log, skew)
    && evicted <= |log|
    && events == log[evicted..]
    && (forall i :: 0 <= i < evicted ==> log[i] < clock - windowS)
    && (forall i :: 0 <= i < |log| ==> log[i] <= clock)
  }

  lemma AppendKeepsSound(log: seq<real>, events: seq<real>, evicted: nat, clock: real, skew: real, windowS: real, now: real, n: nat)
    requires Sound(log, events, evicted, clock, skew, windowS) && now <= clock <= now + skew
    ensures Sound(log + Repeat(now, n), events + Repeat(now, n), evicted, clock, skew, windowS)
  {
    NearlyMore(log, skew, now, n);
    hide NearlySorted;
  }

  class RollingCounter {
    const windowS: real
    var events: seq<real>
    // every event ever recorded, the number of them evicted, the latest clock reading and the skew so far
    ghost var log: seq<real>
    ghost var evicted: nat
    ghost var clock: real
    ghost var skew: real

    ghost predicate Valid()
      reads this
    {
      Sound(log, events, evicted, clock, skew, windowS)
    }

    constructor (windowS: real, now: real)
      ensures Valid() && this.windowS == windowS && log == [] && clock == now && skew == 0.0
    {
      this.windowS, events := windowS, [];
      log, evicted, clock, skew := [], 0, now, 0.0;
    }

    method Evict(now: real)
      requires Valid()
      modifies this`events, this`evicted, this`clock, this`skew
      ensures Valid() && clock == Max(old(clock), now) && skew == Max(old(skew), old(clock) - now)
      ensures skew >= 0.0 && events == Popped(old(events), now - windowS)
      ensures CountSince(log, now - windowS + skew) <= |events| <= CountSince(log, now - windowS - skew)
      ensures evicted <= |log| && |events| == |log| - evicted
      ensures evicted < |log| ==> log[evicted] >= now - windowS
      ensures old(clock) <= now ==> forall i :: 0 <= i < evicted ==> log[i] < now - windowS
    {
      hide NearlySorted, CountSince;
      var cutoff := now - windowS;
      ghost var was := skew;
      clock, skew := Max(clock, now), Max(skew, clock - now);
      evicted := PoppedIsSuffix(log, evicted, cutoff);
      NearlyStill(log, was, skew, evicted);
      while events != [] && events[0] < cutoff
        invariant Popped(events, cutoff) == Popped(old(events), cutoff)
        decreases |events|
        modifies this`events
      {
        events := events[1..];
      }
      assert events == log[evicted..];
      DroppedDoNotCount(log, evicted, cutoff - skew, cutoff + skew);
    }

    method Incr(n: int, now: real)
      requires Valid()
      modifies this
      ensures Valid() && clock == Max(old(clock), now) && skew == Max(old(skew), old(clock) - now)
      ensures log == old(log) + Repeat(now, if n > 0 then n else 0)
      ensures events == Popped(old(events), now - windowS) + Repeat(now, if n > 0 then n else 0)
    {
      hide Sound, CountSince, Popped;
      Evict(now);
      AppendKeepsSound(log, events, evicted, clock, skew, windowS, now, if n > 0 then n else 0);
      var k := 0;
      var times := if n > 0 then n else 0;
      ghost var kept := events;
      while k < times
        invariant 0 <= k <= times
        invariant events == kept + Repeat(now, k) && log == old(log) + Repeat(now, k)
        modifies this`events, this`log
      {
        assert Repeat(now, k + 1) == Repeat(now, k) + [now];
        events := events + [now];
        log := log + [now];
        k := k + 1;
      }
    }

    /** The answer counts the events ever recorded in the window, evicted or not.  With a reading that no other call
        overtook it is exact if and only if no event was recorded after one that is younger than the cutoff while
        being older itself.  In general it is off by the too-old events still kept, less the events of the window
        that a later reading has evicted; and only events within the skew of the edge can be miscounted. */
    method Count(now: real) returns (c: nat)
      requires Valid()
      modifies this`events, this`evicted, this`clock, this`skew
      ensures Valid() && clock == Max(old(clock), now) && skew == Max(old(skew), old(clock) - now)
      ensures old(clock) <= now ==> (c == CountSince(log, now - windowS) <==> !Straggler(log, now - windowS))
      ensures evicted <= |log| && c - CountSince(log, now - windowS) ==
        CountOlder(log[evicted..], now - windowS) - CountSince(log[..evicted], now - windowS)
      ensures CountSince(log, now - windowS + skew) <= c <= CountSince(log, now - windowS - skew)
      ensures skew == 0.0 || (forall e :: e in log ==> e < now - windowS - skew || e >= now - windowS + skew) ==>
        c == CountSince(log, now - windowS)
    {
      hide Valid, NearlySorted, CountSince, CountOlder, Popped, Straggler;
      Evict(now);
      c := |events|;
      var edge := now - windowS;
      CountsAddUp(log, evicted, edge);
      if old(clock) <= now {
        KeptOldExactly(log, evicted, edge);
      }
      if forall e :: e in log ==> e < edge - skew || e >= edge + skew {
        NoneBetween(log, edge - skew, edge);
        NoneBetween(log, edge, edge + skew);
      }
    }
  }
}
