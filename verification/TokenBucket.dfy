/**
 The per-IP token-bucket rate limiter.

 A bucket is refilled at rate/60 tokens a second up to `rate`.  It lives in a
 process-local dictionary and in a Redis hash whose keys expire; a request goes
 to Redis when the client is up and to the dictionary otherwise.  Floats are
 modelled as reals and each clock reading is an argument.
 */
module TokenBucket {
  import opened Wrappers

  datatype Bucket = Bucket(tokens: real, ts: real)

  /** One decision taken by one bucket store. */
  datatype Entry = Entry(ip: string, at: real, allowed: bool)

  /** After this many seconds untouched a bucket is full again. */
  const FULL_REFILL := 60.0

  /** The expiry the Redis script sets on every touch. */
  const REDIS_EXPIRY := 120.0

  function Min(x: real, y: real): real {
    if x <= y then x else y
  }

  function Get(m: map<string, Bucket>, ip: string): Option<Bucket> {
    if ip in m then Some(m[ip]) else None
  }

  /** The tokens refilled in `t` seconds, rate * t / 60, as repeated addition. */
  function Gain(rate: nat, t: real): real {
    if rate == 0 then 0.0 else Gain(rate - 1, t) + t / 60.0
  }

  lemma {:induction false} GainLaws(rate: nat, s: real, t: real)
    ensures Gain(rate, s + t) == Gain(rate, s) + Gain(rate, t)
    ensures s >= 0.0 ==> Gain(rate, s) >= 0.0
    ensures s == 0.0 ==> Gain(rate, s) == 0.0
    ensures s == 60.0 ==> Gain(rate, s) == rate as real
    ensures rate > 0 && s < 60.0 ==> Gain(rate, s) < rate as real
  {
    if rate > 0 {
      GainLaws(rate - 1, s, t);
    }
  }

  /** The refill written as the code writes it. */
  lemma {:induction false} GainIsProduct(rate: nat, t: real)
    ensures Gain(rate, t) == t * (rate as real / 60.0)
  {
    if rate > 0 {
      GainIsProduct(rate - 1, t);
      calc {
        t * (rate as real / 60.0);
        t * ((rate - 1) as real / 60.0 + 1.0 / 60.0);
        t * ((rate - 1) as real / 60.0) + t / 60.0;
      }
    }
  }

  /** Tokens present once the bucket (full when unknown) is refilled up to `now`. */
  function Available(rate: nat, b: Option<Bucket>, now: real): real {
    var was := if b.None? then Bucket(rate as real, now) else b.value;
    Min(rate as real, was.tokens + Gain(rate, now - was.ts))
  }

  predicate Decide(rate: nat, b: Option<Bucket>, now: real) {
    Available(rate, b, now) >= 1.0
  }

  function Spend(rate: nat, b: Option<Bucket>, now: real): Bucket {
    var t := Available(rate, b, now);
    Bucket(if t >= 1.0 then t - 1.0 else t, now)
  }

  // ---------- histories of one bucket store ----------

  /** The buckets a store that never forgets holds after the requests of `log`. */
  function Buckets(rate: nat, log: seq<Entry>): map<string, Bucket> {
    if log == [] then map[] else
      var m := Buckets(rate, log[..|log| - 1]);
      var e := log[|log| - 1];
      m[e.ip := Spend(rate, Get(m, e.ip), e.at)]
  }

  /** No request of `ip` carries a reading later than `t`. */
  ghost predicate Until(log: seq<Entry>, ip: string, t: real) {
    forall i :: 0 <= i < |log| && log[i].ip == ip ==> log[i].at <= t
  }

  ghost predicate InOrder(log: seq<Entry>) {
    forall i, j :: 0 <= i < j < |log| ==> log[i].at <= log[j].at
  }

  /** Every answer is the one a store that never forgets gives.  The clock readings may be in any order: a
      request reads the clock before it reaches Redis, and another one may overtake it. */
  ghost predicate Genuine(rate: nat, log: seq<Entry>) {
    log == [] ||
    var init, e := log[..|log| - 1], log[|log| - 1];
    Genuine(rate, init) && e.allowed == Decide(rate, Get(Buckets(rate, init), e.ip), e.at)
  }

  /** Requests of `ip` allowed from index `i` on. */
  function Used(log: seq<Entry>, ip: string, i: nat): nat {
    if |log| <= i then 0 else
      var e := log[|log| - 1];
      Used(log[..|log| - 1], ip, i) + if e.ip == ip && e.allowed then 1 else 0
  }

  function Counted(e: Entry, ip: string, a: real, b: real): nat {
    if e.ip == ip && e.allowed && a <= e.at <= b then 1 else 0
  }

  /** Requests of `ip` allowed with a reading in [a, b]. */
  function InWindow(log: seq<Entry>, ip: string, a: real, b: real): nat {
    if log == [] then 0 else
      var e := log[|log| - 1];
      InWindow(log[..|log| - 1], ip, a, b) + Counted(e, ip, a, b)
  }

  /** What may be allowed from `since` to `now`: rate + rate/60 * (now - since). */
  function Allowance(rate: nat, since: real, now: real): real {
    rate as real + Gain(rate, now - since)
  }

  /** The burst, and a sixtieth of it for every second. */
  lemma AllowanceIs(rate: nat, since: real, now: real)
    ensures Allowance(rate, since, now) == rate as real + (now - since) * (rate as real / 60.0)
  {
    GainIsProduct(rate, now - since);
  }

  lemma AllowanceGrows(rate: nat, since: real, t: real, now: real)
    ensures Allowance(rate, since, now) == Allowance(rate, since, t) + Gain(rate, now - t)
    ensures t <= now ==> Gain(rate, now - t) >= 0.0
    ensures Allowance(rate, t, t) == rate as real
  {
    GainLaws(rate, now - t, t - since);
    assert (now - t) + (t - since) == now - since;
    GainLaws(rate, 0.0, 0.0);
  }

  /** What request `i` leaves at time `t`: its allowance less the requests allowed since. */
  ghost function Left(rate: nat, log: seq<Entry>, ip: string, i: nat, t: real): real
    requires i < |log|
  {
    Allowance(rate, log[i].at, t) - Used(log, ip, i) as real
  }

  /** `x` is at most what every request of `ip` leaves at time `t`. */
  ghost predicate Below(rate: nat, log: seq<Entry>, ip: string, t: real, x: real) {
    forall i :: 0 <= i < |log| && log[i].ip == ip ==> x <= Left(rate, log, ip, i, t)
  }

  /** `x` is the least of these values, attained at `w`. */
  ghost predicate Least(rate: nat, log: seq<Entry>, ip: string, t: real, x: real, w: int) {
    Below(rate, log, ip, t, x) && 0 <= w < |log| && log[w].ip == ip && x == Left(rate, log, ip, w, t)
  }

  lemma Refilled(rate: nat, log: seq<Entry>, ip: string, b: Bucket, w: int, now: real)
    requires Least(rate, log, ip, b.ts, b.tokens, w)
    ensures var x := Available(rate, Some(b), now);
      Below(rate, log, ip, now, x) && (x < rate as real ==> x == Left(rate, log, ip, w, now))
  {
    forall i | 0 <= i < |log| && log[i].ip == ip
      ensures Left(rate, log, ip, i, now) == Left(rate, log, ip, i, b.ts) + Gain(rate, now - b.ts)
    {
      AllowanceGrows(rate, log[i].at, b.ts, now);
    }
    AllowanceGrows(rate, b.ts, b.ts, now);
  }

  lemma Spent(rate: nat, log: seq<Entry>, e: Entry, x: real, w: int)
    requires Below(rate, log, e.ip, e.at, x) && x <= rate as real
    requires x < rate as real ==> 0 <= w < |log| && log[w].ip == e.ip && x == Left(rate, log, e.ip, w, e.at)
    ensures var rest := if e.allowed then x - 1.0 else x;
      Least(rate, log + [e], e.ip, e.at, rest, if x < rate as real then w else |log|)
  {
    var all := log + [e];
    assert all[..|log|] == log;
    AllowanceGrows(rate, e.at, e.at, e.at);
    forall i | 0 <= i < |log| && all[i].ip == e.ip
      ensures Left(rate, all, e.ip, i, e.at) == Left(rate, log, e.ip, i, e.at) - (if e.allowed then 1.0 else 0.0)
      ensures x <= Left(rate, log, e.ip, i, e.at)
    {
      assert log[i].ip == e.ip;
    }
    assert Used(all, e.ip, |log|) == if e.allowed then 1 else 0;
  }

  /** The stored tokens are the least that is left, over all earlier requests of the IP. */
  lemma {:induction false} Envelope(rate: nat, log: seq<Entry>, ip: string) returns (w: int)
    requires rate > 0 && Genuine(rate, log)
    ensures ip in Buckets(rate, log) <==> exists i :: 0 <= i < |log| && log[i].ip == ip
    ensures ip in Buckets(rate, log) ==>
      var b := Buckets(rate, log)[ip];
      && b.tokens <= rate as real
      && Least(rate, log, ip, b.ts, b.tokens, w)
  {
    w := -1;
    if log == [] {
      return;
    }
    var n := |log| - 1;
    var init, e := log[..n], log[n];
    assert log == init + [e];
    w := Envelope(rate, init, ip);
    var m := Buckets(rate, init);
    if e.ip == ip {
      var x := Available(rate, Get(m, ip), e.at);
      assert log[n].ip == ip;
      if ip in m {
        Refilled(rate, init, ip, m[ip], w, e.at);
      } else {
        GainLaws(rate, 0.0, 0.0);
        assert Below(rate, init, ip, e.at, x);
      }
      Spent(rate, init, e, x, w);
      w := if x < rate as real then w else n;
    } else if ip in m {
      assert log[w].ip == ip;
      KeepsLeast(rate, init, e, ip, m[ip], w);
    } else {
      assert forall i :: 0 <= i < n ==> log[i] == init[i];
    }
  }

  lemma KeepsLeast(rate: nat, log: seq<Entry>, e: Entry, ip: string, b: Bucket, w: int)
    requires Least(rate, log, ip, b.ts, b.tokens, w) && e.ip != ip
    ensures Least(rate, log + [e], ip, b.ts, b.tokens, w)
  {
    var all := log + [e];
    assert all[..|log|] == log;
    forall i | 0 <= i < |all| && all[i].ip == ip
      ensures i < |log| && log[i].ip == ip && Left(rate, all, ip, i, b.ts) == Left(rate, log, ip, i, b.ts)
    {
    }
  }

  /** Exact meaning of the limiter: a request is allowed if and only if, counting from
      every earlier request of the same IP (itself included), the allowed ones plus this
      one fit in the allowance of that span. */
  lemma AllowedExactly(rate: nat, log: seq<Entry>, j: nat)
    requires rate > 0 && Genuine(rate, log) && j < |log|
    ensures log[j].allowed <==>
      forall i :: 0 <= i <= j && log[i].ip == log[j].ip ==>
        Used(log[..j], log[j].ip, i) as real + 1.0 <= Allowance(rate, log[i].at, log[j].at)
  {
    GenuinePrefix(rate, log, j + 1);
    var init, e := log[..j], log[j];
    assert log[..j + 1][..j] == init;
    var w := Envelope(rate, init, e.ip);
    var m := Buckets(rate, init);
    var x := Available(rate, Get(m, e.ip), e.at);
    assert e.allowed <==> x >= 1.0;
    AllowanceGrows(rate, e.at, e.at, e.at);
    if e.ip in m {
      Refilled(rate, init, e.ip, m[e.ip], w, e.at);
      assert log[w].ip == e.ip;
    } else {
      GainLaws(rate, 0.0, 0.0);
    }
    forall i | 0 <= i <= j && log[i].ip == e.ip
      ensures x + Used(init, e.ip, i) as real <= Allowance(rate, log[i].at, e.at)
    {
      if i < j {
        assert init[i].ip == e.ip;
        assert x <= Left(rate, init, e.ip, i, e.at);
      }
    }
  }

  lemma {:induction false} GenuinePrefix(rate: nat, log: seq<Entry>, n: nat)
    requires n <= |log| && Genuine(rate, log)
    ensures Genuine(rate, log[..n])
    decreases |log|
  {
    if n < |log| {
      GenuinePrefix(rate, log[..|log| - 1], n);
      assert log[..|log| - 1][..n] == log[..n];
    } else {
      assert log[..n] == log;
    }
  }

  /** Brought up to any time not before its requests, a bucket is never in debt. */
  lemma {:induction false} NoDebt(rate: nat, log: seq<Entry>, ip: string, t: real)
    requires rate > 0 && ip in Buckets(rate, log) && Until(log, ip, t)
    ensures var b := Buckets(rate, log)[ip];
      b.tokens + Gain(rate, t - b.ts) >= 0.0 && b.ts <= t
  {
    var init, e := log[..|log| - 1], log[|log| - 1];
    var m := Buckets(rate, init);
    assert forall i :: 0 <= i < |init| ==> init[i] == log[i];
    if e.ip != ip {
      NoDebt(rate, init, ip, t);
    } else {
      assert e.at <= t;
      AllowanceGrows(rate, e.at, e.at, t);
      GainLaws(rate, 0.0, 0.0);
      if ip in m {
        NoDebt(rate, init, ip, t);
        GainLaws(rate, t - e.at, e.at - m[ip].ts);
        assert (t - e.at) + (e.at - m[ip].ts) == t - m[ip].ts;
      }
    }
  }

  /** A bucket carries the reading of the latest request of its IP. */
  lemma {:induction false} Stamped(rate: nat, log: seq<Entry>, ip: string) returns (i: nat)
    requires ip in Buckets(rate, log)
    ensures i < |log| && log[i].ip == ip && log[i].at == Buckets(rate, log)[ip].ts
    ensures forall j :: i < j < |log| ==> log[j].ip != ip
  {
    i := |log| - 1;
    if log[i].ip != ip {
      i := Stamped(rate, log[..i], ip);
    }
  }

  lemma {:induction false} Unknown(rate: nat, log: seq<Entry>, ip: string)
    requires ip !in Buckets(rate, log)
    ensures forall i :: 0 <= i < |log| ==> log[i].ip != ip
  {
    if log != [] {
      Unknown(rate, log[..|log| - 1], ip);
    }
  }

  /** Stored tokens never exceed the rate, are never negative while the readings come in order, and a request
      touches no other IP's bucket. */
  lemma TokensInRangeAndFramed(rate: nat, log: seq<Entry>, e: Entry, ip: string)
    requires rate > 0 && Genuine(rate, log + [e])
    ensures ip in Buckets(rate, log + [e]) ==> Buckets(rate, log + [e])[ip].tokens <= rate as real
    ensures ip in Buckets(rate, log + [e]) && InOrder(log + [e]) ==> Buckets(rate, log + [e])[ip].tokens >= 0.0
    ensures ip != e.ip ==> Get(Buckets(rate, log + [e]), ip) == Get(Buckets(rate, log), ip)
  {
    var all := log + [e];
    var _ := Envelope(rate, all, ip);
    assert all[..|log|] == log;
    if ip in Buckets(rate, all) && InOrder(all) {
      var _ := Stamped(rate, all, ip);
      NoDebt(rate, all, ip, Buckets(rate, all)[ip].ts);
      GainLaws(rate, 0.0, 0.0);
    }
  }

  /** All the requests counted in a window come after some request in it. */
  lemma {:induction false} FirstInWindow(log: seq<Entry>, ip: string, a: real, b: real) returns (i: nat)
    requires InWindow(log, ip, a, b) > 0
    ensures i < |log| && log[i].ip == ip && a <= log[i].at <= b
    ensures InWindow(log, ip, a, b) <= Used(log, ip, i)
  {
    var n := |log| - 1;
    if InWindow(log[..n], ip, a, b) > 0 {
      i := FirstInWindow(log[..n], ip, a, b);
    } else {
      i := n;
    }
  }

  /** One bucket allows at most rate + rate/60 * (b - a) requests of an IP with readings in [a, b], in whatever
      order they arrive. */
  lemma {:induction false} WindowBound(rate: nat, log: seq<Entry>, ip: string, a: real, b: real)
    requires rate > 0 && Genuine(rate, log) && a <= b
    ensures InWindow(log, ip, a, b) as real <= Allowance(rate, a, b)
    decreases |log|
  {
    if InWindow(log, ip, a, b) == 0 {
      AllowanceGrows(rate, a, a, b);
    } else {
      var n := |log| - 1;
      if InWindow(log[..n], ip, a, b) == InWindow(log, ip, a, b) {
        WindowBound(rate, log[..n], ip, a, b);
      } else {
        var i := FirstInWindow(log, ip, a, b);
        AllowedExactly(rate, log, n);
        GainLaws(rate, log[n].at - log[i].at, (b - a) - (log[n].at - log[i].at));
        GainLaws(rate, (b - a) - (log[n].at - log[i].at), 0.0);
        assert (log[n].at - log[i].at) + ((b - a) - (log[n].at - log[i].at)) == b - a;
      }
    }
  }

  // ---------- the bound is attained ----------

  lemma GenuineStep(rate: nat, log: seq<Entry>, e: Entry)
    requires Genuine(rate, log)
    requires e.allowed == Decide(rate, Get(Buckets(rate, log), e.ip), e.at)
    ensures Genuine(rate, log + [e])
    ensures Buckets(rate, log + [e]) == Buckets(rate, log)[e.ip := Spend(rate, Get(Buckets(rate, log), e.ip), e.at)]
  {
    assert (log + [e])[..|log|] == log;
  }

  function Repeat(e: Entry, k: nat): seq<Entry> {
    if k == 0 then [] else Repeat(e, k - 1) + [e]
  }

  lemma TakeOne(rate: nat, log: seq<Entry>, ip: string, at: real)
    requires Genuine(rate, log) && 1.0 <= Available(rate, Get(Buckets(rate, log), ip), at)
    ensures var all, left := log + [Entry(ip, at, true)], Available(rate, Get(Buckets(rate, log), ip), at) - 1.0;
      && Genuine(rate, all) && Get(Buckets(rate, all), ip) == Some(Bucket(left, at))
      && Available(rate, Get(Buckets(rate, all), ip), at) == left
  {
    GainLaws(rate, 0.0, 0.0);
    hide Genuine, Buckets, Gain;
    GenuineStep(rate, log, Entry(ip, at, true));
  }

  /** A full bucket allows `rate` requests at once and is then empty. */
  lemma {:induction false} BurstEmpties(rate: nat, log: seq<Entry>, ip: string, at: real, k: nat)
    requires k <= rate && Genuine(rate, log) && Available(rate, Get(Buckets(rate, log), ip), at) == rate as real
    ensures var all := log + Repeat(Entry(ip, at, true), k);
      && Genuine(rate, all) && Available(rate, Get(Buckets(rate, all), ip), at) == (rate - k) as real
      && (k > 0 ==> Get(Buckets(rate, all), ip) == Some(Bucket((rate - k) as real, at)))
  {
    hide Genuine, Buckets, Available;
    var e := Entry(ip, at, true);
    if k == 0 {
      assert log + Repeat(e, 0) == log;
    } else {
      BurstEmpties(rate, log, ip, at, k - 1);
      TakeOne(rate, log + Repeat(e, k - 1), ip, at);
      assert log + Repeat(e, k) == (log + Repeat(e, k - 1)) + [e];
    }
  }

  /** The time of the `j`th full refill after `a`. */
  function At(a: real, j: nat): real {
    if j == 0 then a else At(a, j - 1) + FULL_REFILL
  }

  /** `waves` bursts of `rate` requests, a full refill apart. */
  function Bursts(rate: nat, ip: string, a: real, waves: nat): seq<Entry> {
    if waves == 0 then [] else Bursts(rate, ip, a, waves - 1) + Repeat(Entry(ip, At(a, waves - 1), true), rate)
  }

  lemma {:induction false} BurstsAreGenuine(rate: nat, ip: string, a: real, waves: nat)
    requires rate > 0
    ensures Genuine(rate, Bursts(rate, ip, a, waves))
    ensures var m := Buckets(rate, Bursts(rate, ip, a, waves));
      if waves == 0 then m == map[] else Get(m, ip) == Some(Bucket(0.0, At(a, waves - 1)))
  {
    if waves > 0 {
      BurstsAreGenuine(rate, ip, a, waves - 1);
      GainLaws(rate, 0.0, 0.0);
      GainLaws(rate, FULL_REFILL, 0.0);
      BurstEmpties(rate, Bursts(rate, ip, a, waves - 1), ip, At(a, waves - 1), rate);
    }
  }

  lemma {:induction false} RepeatInWindow(log: seq<Entry>, e: Entry, k: nat, a: real, b: real)
    requires e.allowed && a <= e.at <= b
    ensures InWindow(log + Repeat(e, k), e.ip, a, b) == InWindow(log, e.ip, a, b) + k
  {
    hide InWindow;
    if k == 0 {
      assert log + Repeat(e, 0) == log;
    } else {
      RepeatInWindow(log, e, k - 1, a, b);
      assert log + Repeat(e, k) == (log + Repeat(e, k - 1)) + [e];
      OneMoreInWindow(log + Repeat(e, k - 1), e, e.ip, a, b);
    }
  }

  lemma {:induction false} AllowanceAt(rate: nat, a: real, minutes: nat)
    ensures a <= At(a, minutes) && Allowance(rate, a, At(a, minutes)) == (rate * (minutes + 1)) as real
  {
    GainLaws(rate, 0.0, 0.0);
    if minutes > 0 {
      AllowanceAt(rate, a, minutes - 1);
      AllowanceGrows(rate, a, At(a, minutes - 1), At(a, minutes));
      GainLaws(rate, FULL_REFILL, 0.0);
      assert rate * (minutes + 1) == rate * minutes + rate;
    }
  }

  lemma {:induction false} BurstsCount(rate: nat, ip: string, a: real, waves: nat, b: real)
    requires waves > 0 ==> At(a, waves - 1) <= b
    ensures InWindow(Bursts(rate, ip, a, waves), ip, a, b) == rate * waves
  {
    if waves > 0 {
      AllowanceAt(rate, a, waves - 1);
      hide Allowance, InWindow;
      BurstsCount(rate, ip, a, waves - 1, b);
      RepeatInWindow(Bursts(rate, ip, a, waves - 1), Entry(ip, At(a, waves - 1), true), rate, a, b);
      assert rate * waves == rate * (waves - 1) + rate;
    }
  }

  /** The bound is attained for every rate, over every whole number of full refills. */
  lemma WindowBoundAttained(rate: nat, ip: string, a: real, minutes: nat)
    requires rate > 0
    ensures var log, b := Bursts(rate, ip, a, minutes + 1), At(a, minutes);
      a <= b && Genuine(rate, log) && InWindow(log, ip, a, b) as real == Allowance(rate, a, b)
  {
    hide Allowance, InWindow, Bursts, Genuine, Buckets;
    BurstsAreGenuine(rate, ip, a, minutes + 1);
    AllowanceAt(rate, a, minutes);
    BurstsCount(rate, ip, a, minutes + 1, At(a, minutes));
  }

  lemma OneMoreInWindow(log: seq<Entry>, e: Entry, ip: string, a: real, b: real)
    ensures InWindow(log + [e], ip, a, b) == InWindow(log, ip, a, b) + Counted(e, ip, a, b)
  {
    assert (log + [e])[..|log|] == log;
  }

  // ---------- the Redis hash, which forgets ----------

  /** Forgetting a bucket untouched for `idle` seconds changes nothing, whatever it held,
      exactly when `idle` is at least 60: a full refill. */
  lemma ForgettingIsInvisible(rate: nat, idle: real, now: real)
    requires rate > 0 && idle >= 0.0
    ensures idle >= 60.0 <==>
      forall b: Bucket :: b.ts == now - idle && 0.0 <= b.tokens <= rate as real ==>
        Spend(rate, Some(b), now) == Spend(rate, None, now) && Decide(rate, Some(b), now) == Decide(rate, None, now)
  {
    GainLaws(rate, 0.0, 0.0);
    GainLaws(rate, idle, 0.0);
    GainLaws(rate, 60.0, idle - 60.0);
    GainLaws(rate, idle - 60.0, 0.0);
    var empty := Bucket(0.0, now - idle);
    assert now - empty.ts == idle;
    if idle < FULL_REFILL {
      assert Available(rate, Some(empty), now) < rate as real;
    }
  }

  /** At Redis time `clock` the hash `mem` holds the buckets of `log` except for keys whose expiry has run out;
      `touched` says when Redis last ran the script for an IP, which is not before any reading it was given. */
  ghost predicate Remembers(rate: nat, mem: map<string, Bucket>, log: seq<Entry>, touched: map<string, real>, clock: real) {
    var full := Buckets(rate, log);
    && (forall ip :: ip in mem ==> ip in full && mem[ip] == full[ip])
    && (forall ip :: ip in full ==> ip in touched && touched[ip] <= clock && Until(log, ip, touched[ip]))
    && (forall ip :: ip in full && ip !in mem ==> clock - touched[ip] >= REDIS_EXPIRY)
  }

  /** A bucket that has been idle for a full refill answers as one that was never seen. */
  lemma IdleIsFull(rate: nat, log: seq<Entry>, ip: string, t: real, now: real)
    requires rate > 0 && ip in Buckets(rate, log) && Until(log, ip, t) && now - t >= FULL_REFILL
    ensures Available(rate, Some(Buckets(rate, log)[ip]), now) == Available(rate, None, now)
  {
    var b := Buckets(rate, log)[ip];
    NoDebt(rate, log, ip, t);
    GainLaws(rate, t - b.ts, now - t);
    assert (t - b.ts) + (now - t) == now - b.ts;
    GainLaws(rate, FULL_REFILL, (now - t) - FULL_REFILL);
    GainLaws(rate, (now - t) - FULL_REFILL, 0.0);
    GainLaws(rate, 0.0, 0.0);
  }

  lemma UntilStep(log: seq<Entry>, e: Entry, ip: string, t: real)
    requires Until(log, ip, t) && (e.ip == ip ==> e.at <= t)
    ensures Until(log + [e], ip, t)
  {
  }

  /** The expiring store answers a request exactly as the store that never forgets, as long as a request reaches
      Redis within 60 seconds of reading the clock: the expiry of 120 seconds less a full refill. */
  lemma ExpiryChangesNoDecision(rate: nat, mem: map<string, Bucket>, log: seq<Entry>, touched: map<string, real>, clock: real,
                                ip: string, stamp: real, now: real)
    requires rate > 0 && Remembers(rate, mem, log, touched, clock)
    requires clock <= now && stamp <= now && now - stamp <= 60.0
    ensures Decide(rate, Get(mem, ip), stamp) == Decide(rate, Get(Buckets(rate, log), ip), stamp)
    ensures Spend(rate, Get(mem, ip), stamp) == Spend(rate, Get(Buckets(rate, log), ip), stamp)
  {
    hide Gain, Available, Buckets, Until;
    if ip in Buckets(rate, log) && ip !in mem {
      UntilLater(log, ip, touched[ip], now);
      IdleIsFull(rate, log, ip, touched[ip], stamp);
    }
  }

  /** If the request that read `stamp` reaches Redis at `now`, at most `d` seconds later, the expired hash answers it
      as the full one does. */
  ghost predicate AnswersAlike(rate: nat, d: real, mem: map<string, Bucket>, log: seq<Entry>, touched: map<string, real>,
                               clock: real, ip: string, stamp: real, now: real)
  {
    Genuine(rate, log) && Remembers(rate, mem, log, touched, clock) && clock <= now && stamp <= now && now - stamp <= d ==>
      && Decide(rate, Get(mem, ip), stamp) == Decide(rate, Get(Buckets(rate, log), ip), stamp)
      && Spend(rate, Get(mem, ip), stamp) == Spend(rate, Get(Buckets(rate, log), ip), stamp)
  }

  /** The longest delay under which the expiry is invisible is the 120 seconds of the expiry less a full refill. */
  lemma DelayBoundExactly(rate: nat, d: real)
    requires rate > 0
    ensures d <= 60.0 <==>
      forall mem, log, touched, clock, ip, stamp, now :: AnswersAlike(rate, d, mem, log, touched, clock, ip, stamp, now)
  {
    if d <= REDIS_EXPIRY - FULL_REFILL {
      forall mem, log, touched, clock, ip, stamp, now
        ensures AnswersAlike(rate, d, mem, log, touched, clock, ip, stamp, now)
      {
        hide Genuine, Buckets, Decide, Spend;
        if Genuine(rate, log) && Remembers(rate, mem, log, touched, clock) && clock <= now && stamp <= now && now - stamp <= d {
          ExpiryChangesNoDecision(rate, mem, log, touched, clock, ip, stamp, now);
        }
      }
    } else {
      LateRequestDiffers(rate, d);
    }
  }

  lemma EmptiedDiffers(rate: nat, stamp: real)
    requires rate > 0 && stamp < FULL_REFILL
    ensures Decide(rate, None, stamp) != Decide(rate, Some(Bucket(0.0, 0.0)), stamp)
         || Spend(rate, None, stamp) != Spend(rate, Some(Bucket(0.0, 0.0)), stamp)
  {
    GainLaws(rate, stamp, 0.0);
    GainLaws(rate, 0.0, 0.0);
    hide Gain;
    assert Available(rate, Some(Bucket(0.0, 0.0)), stamp) < rate as real == Available(rate, None, stamp);
  }

  /** A bucket emptied at 0, then left alone, expires at 120. */
  lemma EmptiedExpires(rate: nat)
    requires rate > 0
    ensures var log := Bursts(rate, "", 0.0, 1);
      && Genuine(rate, log) && Get(Buckets(rate, log), "") == Some(Bucket(0.0, 0.0))
      && Remembers(rate, map[], log, map["" := 0.0], REDIS_EXPIRY)
  {
    BurstsAreGenuine(rate, "", 0.0, 1);
    BurstsOnlyOf(rate, "", 0.0, 1, 0.0);
    OnlyKnown(rate, Bursts(rate, "", 0.0, 1), "");
    hide Genuine, Buckets, Bursts, Until;
  }

  /** A request that read the clock before 60 was not due a full bucket yet. */
  lemma LateRequestDiffers(rate: nat, d: real)
    requires rate > 0 && d > REDIS_EXPIRY - FULL_REFILL
    ensures var stamp := REDIS_EXPIRY - Min(d, REDIS_EXPIRY);
      !AnswersAlike(rate, d, map[], Bursts(rate, "", 0.0, 1), map["" := 0.0], REDIS_EXPIRY, "", stamp, REDIS_EXPIRY)
  {
    hide Genuine, Buckets, Bursts, Remembers, Decide, Spend;
    EmptiedExpires(rate);
    EmptiedDiffers(rate, REDIS_EXPIRY - Min(d, REDIS_EXPIRY));
  }

  lemma {:induction false} RepeatOnly(log: seq<Entry>, e: Entry, k: nat)
    ensures forall i :: |log| <= i < |log + Repeat(e, k)| ==> (log + Repeat(e, k))[i] == e
  {
    if k > 0 {
      RepeatOnly(log, e, k - 1);
      assert log + Repeat(e, k) == (log + Repeat(e, k - 1)) + [e];
    }
  }

  lemma BurstsOnlyOf(rate: nat, ip: string, a: real, waves: nat, t: real)
    requires waves == 1 && a <= t
    ensures forall i :: 0 <= i < |Bursts(rate, ip, a, waves)| ==> Bursts(rate, ip, a, waves)[i] == Entry(ip, a, true)
    ensures Until(Bursts(rate, ip, a, waves), ip, t)
  {
    RepeatOnly([], Entry(ip, a, true), rate);
    assert Bursts(rate, ip, a, 0) == [] && At(a, 0) == a;
  }

  lemma {:induction false} OnlyKnown(rate: nat, log: seq<Entry>, ip: string)
    requires forall i :: 0 <= i < |log| ==> log[i].ip == ip
    ensures forall j :: j in Buckets(rate, log) ==> j == ip
  {
    if log != [] {
      OnlyKnown(rate, log[..|log| - 1], ip);
    }
  }

  lemma UntilLater(log: seq<Entry>, ip: string, t: real, u: real)
    requires Until(log, ip, t) && t <= u
    ensures Until(log, ip, u)
  {
  }

  lemma UnknownUntil(rate: nat, log: seq<Entry>, ip: string, t: real)
    requires ip !in Buckets(rate, log)
    ensures Until(log, ip, t)
  {
    Unknown(rate, log, ip);
  }

  /** After the script has run the hash still stands for the full history. */
  lemma RemembersStep(rate: nat, mem: map<string, Bucket>, log: seq<Entry>, touched: map<string, real>, clock: real,
                      e: Entry, now: real)
    requires Remembers(rate, mem, log, touched, clock) && clock <= now && e.at <= now
    ensures var b := Spend(rate, Get(Buckets(rate, log), e.ip), e.at);
      Remembers(rate, mem[e.ip := b], log + [e], touched[e.ip := now], now)
  {
    hide Until, Spend;
    var full, all, later := Buckets(rate, log), log + [e], touched[e.ip := now];
    assert all[..|log|] == log;
    forall i | i in Buckets(rate, all)
      ensures i in later && later[i] <= now && Until(all, i, later[i])
    {
      if i !in full {
        UnknownUntil(rate, log, i, now);
      } else {
        UntilLater(log, i, touched[i], later[i]);
      }
      UntilStep(log, e, i, later[i]);
    }
  }

  // ---------- the limiter with its two stores ----------

  /** What happened to one request: answered by the dictionary, answered by Redis, or run
      by Redis with no answer reaching this process (a lost reply, or another replica). */
  datatype Handled = ByLocal(e: Entry) | ByRedis(e: Entry) | Unseen(e: Entry)

  function LocalLog(trace: seq<Handled>): seq<Entry> {
    if trace == [] then [] else
      var h := trace[|trace| - 1];
      LocalLog(trace[..|trace| - 1]) + if h.ByLocal? then [h.e] else []
  }

  function RedisLog(trace: seq<Handled>): seq<Entry> {
    if trace == [] then [] else
      var h := trace[|trace| - 1];
      RedisLog(trace[..|trace| - 1]) + if h.ByLocal? then [] else [h.e]
  }

  /** Requests of `ip` this process answered with "allowed" at a time in [a, b]. */
  function Answered(trace: seq<Handled>, ip: string, a: real, b: real): nat {
    if trace == [] then 0 else
      var h := trace[|trace| - 1];
      Answered(trace[..|trace| - 1], ip, a, b)
      + if h.Unseen? then 0 else Counted(h.e, ip, a, b)
  }

  ghost predicate GenuineTrace(rate: nat, trace: seq<Handled>) {
    Genuine(rate, LocalLog(trace)) && Genuine(rate, RedisLog(trace))
  }

  /** One more handled request is at most one more in the window, in the log of the store that handled it. */
  lemma AnsweredBy(trace: seq<Handled>, h: Handled, ip: string, a: real, b: real)
    ensures Answered(trace + [h], ip, a, b) == Answered(trace, ip, a, b) + if h.Unseen? then 0 else Counted(h.e, ip, a, b)
    ensures InWindow(LocalLog(trace + [h]), ip, a, b) == InWindow(LocalLog(trace), ip, a, b) + if h.ByLocal? then Counted(h.e, ip, a, b) else 0
    ensures InWindow(RedisLog(trace + [h]), ip, a, b) == InWindow(RedisLog(trace), ip, a, b) + if h.ByLocal? then 0 else Counted(h.e, ip, a, b)
  {
    hide InWindow;
    Logged(trace, h);
    OneMoreInWindow(LocalLog(trace), h.e, ip, a, b);
    OneMoreInWindow(RedisLog(trace), h.e, ip, a, b);
    assert (trace + [h])[..|trace|] == trace;
  }

  lemma Logged(trace: seq<Handled>, h: Handled)
    ensures LocalLog(trace + [h]) == if h.ByLocal? then LocalLog(trace) + [h.e] else LocalLog(trace)
    ensures RedisLog(trace + [h]) == if h.ByLocal? then RedisLog(trace) else RedisLog(trace) + [h.e]
  {
    assert (trace + [h])[..|trace|] == trace;
  }

  lemma NoneAnswered(ip: string, a: real, b: real)
    ensures Answered([], ip, a, b) == 0
  {
  }

  lemma {:induction false} AnswersSplit(trace: seq<Handled>, ip: string, a: real, b: real)
    ensures Answered(trace, ip, a, b) <= InWindow(LocalLog(trace), ip, a, b) + InWindow(RedisLog(trace), ip, a, b)
  {
    hide Answered, InWindow, LocalLog, RedisLog;
    NoneAnswered(ip, a, b);
    if trace != [] {
      var init, h := trace[..|trace| - 1], trace[|trace| - 1];
      AnswersSplit(init, ip, a, b);
      AnsweredBy(init, h, ip, a, b);
      assert init + [h] == trace;
    }
  }

  lemma {:induction false} LocalAnswers(trace: seq<Handled>, ip: string, a: real, b: real)
    requires forall i :: 0 <= i < |trace| ==> !trace[i].ByRedis?
    ensures Answered(trace, ip, a, b) <= InWindow(LocalLog(trace), ip, a, b)
  {
    hide Answered, InWindow, LocalLog, RedisLog;
    NoneAnswered(ip, a, b);
    if trace != [] {
      var init, h := trace[..|trace| - 1], trace[|trace| - 1];
      LocalAnswers(init, ip, a, b);
      AnsweredBy(init, h, ip, a, b);
      assert init + [h] == trace;
    }
  }

  lemma {:induction false} RedisAnswers(trace: seq<Handled>, ip: string, a: real, b: real)
    requires forall i :: 0 <= i < |trace| ==> !trace[i].ByLocal?
    ensures Answered(trace, ip, a, b) <= InWindow(RedisLog(trace), ip, a, b)
  {
    hide Answered, InWindow, LocalLog, RedisLog;
    NoneAnswered(ip, a, b);
    if trace != [] {
      var init, h := trace[..|trace| - 1], trace[|trace| - 1];
      RedisAnswers(init, ip, a, b);
      AnsweredBy(init, h, ip, a, b);
      assert init + [h] == trace;
    }
  }

  /** However requests switch between Redis and the dictionary, an IP gets at most twice the
      allowance of any interval, and at most the allowance when one store gives every answer. */
  lemma FallbackBound(rate: nat, trace: seq<Handled>, ip: string, a: real, b: real)
    requires rate > 0 && GenuineTrace(rate, trace) && a <= b
    ensures Answered(trace, ip, a, b) as real <= 2.0 * Allowance(rate, a, b)
    ensures (forall i :: 0 <= i < |trace| ==> !trace[i].ByRedis?) || (forall i :: 0 <= i < |trace| ==> !trace[i].ByLocal?) ==>
      Answered(trace, ip, a, b) as real <= Allowance(rate, a, b)
  {
    hide Answered, InWindow, Allowance, Genuine;
    AnswersSplit(trace, ip, a, b);
    if forall i :: 0 <= i < |trace| ==> !trace[i].ByRedis? {
      LocalAnswers(trace, ip, a, b);
    } else if forall i :: 0 <= i < |trace| ==> !trace[i].ByLocal? {
      RedisAnswers(trace, ip, a, b);
    }
    WindowBound(rate, LocalLog(trace), ip, a, b);
    WindowBound(rate, RedisLog(trace), ip, a, b);
  }

  /** Every entry handled once by each store. */
  function Both(log: seq<Entry>): seq<Handled> {
    if log == [] then [] else Both(log[..|log| - 1]) + [ByLocal(log[|log| - 1])] + [ByRedis(log[|log| - 1])]
  }

  lemma {:induction false} BothAnswer(log: seq<Entry>, ip: string, a: real, b: real)
    ensures LocalLog(Both(log)) == log && RedisLog(Both(log)) == log
    ensures Answered(Both(log), ip, a, b) == 2 * InWindow(log, ip, a, b)
  {
    if log != [] {
      hide LocalLog, RedisLog, Answered, InWindow;
      var init, e := log[..|log| - 1], log[|log| - 1];
      BothAnswer(init, ip, a, b);
      assert log == init + [e];
      OneMoreInWindow(init, e, ip, a, b);
      Logged(Both(init), ByLocal(e));
      Logged(Both(init) + [ByLocal(e)], ByRedis(e));
      AnsweredBy(Both(init), ByLocal(e), ip, a, b);
      AnsweredBy(Both(init) + [ByLocal(e)], ByRedis(e), ip, a, b);
    }
  }

  /** Twice the allowance is really given, for every rate and every whole number of full refills, when Redis and the
      dictionary answer in turn. */
  lemma FallbackBoundAttained(rate: nat, ip: string, a: real, minutes: nat)
    requires rate > 0
    ensures var trace, b := Both(Bursts(rate, ip, a, minutes + 1)), At(a, minutes);
      GenuineTrace(rate, trace) && Answered(trace, ip, a, b) as real == 2.0 * Allowance(rate, a, b)
  {
    hide Genuine, InWindow, Answered, LocalLog, RedisLog, Allowance, Bursts, Both;
    WindowBoundAttained(rate, ip, a, minutes);
    BothAnswer(Bursts(rate, ip, a, minutes + 1), ip, a, At(a, minutes));
  }

  /** How Redis behaves for one request. */
  datatype Reply = Answers | FailsBefore | FailsAfter

  /** An unknown IP is treated as one with a full bucket filled now. */
  lemma UnknownIsFull(rate: nat, now: real)
    ensures Spend(rate, None, now) == Spend(rate, Some(Bucket(rate as real, now)), now)
    ensures Decide(rate, None, now) == Decide(rate, Some(Bucket(rate as real, now)), now)
  {
  }

  /** Refill and take, as both stores compute it. */
  method TakeToken(rate: nat, tokens: real, ts: real, now: real) returns (left: real, ok: bool)
    ensures Bucket(left, now) == Spend(rate, Some(Bucket(tokens, ts)), now)
    ensures ok == Decide(rate, Some(Bucket(tokens, ts)), now)
  {
    hide Gain;
    var refillPerS := rate as real / 60.0;
    left := Min(rate as real, tokens + (now - ts) * refillPerS);
    ok := false;
    GainIsProduct(rate, now - ts);
    if left >= 1.0 {
      left, ok := left - 1.0, true;
    }
  }

  class TokenBucketLimiter {
    const rate: nat
    var local: map<string, Bucket>
    var connected: bool
    var redisFailed: bool
    // the Redis hash, shared with the other replicas
    var hash: map<string, Bucket>
    // every request handled so far; the time at Redis, when it last ran the script for each IP, and whether
    // every request has reached it in time
    ghost var trace: seq<Handled>
    ghost var redisClock: real
    ghost var touched: map<string, real>
    ghost var timely: bool

    ghost predicate Valid()
      reads this
    {
      rate > 0 ==>
        && Genuine(rate, LocalLog(trace))
        && local == Buckets(rate, LocalLog(trace))
        && (timely ==> GenuineTrace(rate, trace) && Remembers(rate, hash, RedisLog(trace), touched, redisClock))
    }

    constructor (ratePerMinute: int)
      ensures Valid() && rate == (if ratePerMinute > 0 then ratePerMinute else 0)
      ensures local == map[] && hash == map[] && trace == [] && !connected && !redisFailed && timely
    {
      rate := if ratePerMinute > 0 then ratePerMinute else 0;
      local, hash, connected, redisFailed := map[], map[], false, false;
      trace, redisClock, touched, timely := [], 0.0, map[], true;
    }

    /** Does this request find Redis reachable? */
    predicate RedisUp(pingOk: bool)
      reads this
    {
      connected || (!redisFailed && pingOk)
    }

    /** Connect once; a failed ping is never retried. */
    method RedisClient(pingOk: bool) returns (up: bool)
      requires Valid()
      modifies this`connected, this`redisFailed
      ensures Valid()
      ensures up == connected == old(RedisUp(pingOk))
      ensures up <==> old(connected) || (!old(redisFailed) && pingOk)
      ensures redisFailed == (old(redisFailed) || (!old(connected) && !pingOk))
    {
      hide Genuine, Buckets, LocalLog, RedisLog;
      if connected || redisFailed {
        return connected;
      }
      if pingOk {
        connected := true;
      } else {
        redisFailed := true;
      }
      return connected;
    }

    method AllowLocal(ip: string, now: real) returns (ok: bool)
      requires Valid() && rate > 0
      modifies this`local, this`trace
      ensures Valid() && trace == old(trace) + [ByLocal(Entry(ip, now, ok))]
    {
      hide Genuine, Buckets, Gain, LocalLog, RedisLog;
      var b := if ip in local then local[ip] else Bucket(rate as real, now);
      var left;
      left, ok := TakeToken(rate, b.tokens, b.ts, now);
      UnknownIsFull(rate, now);
      ghost var was := Get(local, ip);
      assert Bucket(left, now) == Spend(rate, was, now) && ok == Decide(rate, was, now);
      local := local[ip := Bucket(left, now)];
      ghost var h := ByLocal(Entry(ip, now, ok));
      Logged(trace, h);
      GenuineStep(rate, LocalLog(trace), h.e);
      trace := trace + [h];
    }

    /** A request that read the clock at `stamp` is in time at Redis at `now`. */
    ghost predicate InTime(stamp: real, now: real) {
      stamp <= now && now - stamp <= 60.0
    }

    /** The Lua script, run by Redis for this process (`seen`) or with no answer reaching it.  While every request
        has been in time, its answers are those of a hash that never forgets. */
    method RunScript(ip: string, stamp: real, now: real, seen: bool) returns (ok: bool)
      requires Valid() && rate > 0 && redisClock <= now
      modifies this`hash, this`trace, this`redisClock, this`touched, this`timely
      ensures Valid() && redisClock == now && timely == (old(timely) && InTime(stamp, now))
      ensures LocalLog(trace) == LocalLog(old(trace))
      ensures trace == old(trace) + [if seen then ByRedis(Entry(ip, stamp, ok)) else Unseen(Entry(ip, stamp, ok))]
      ensures ok == Decide(rate, Get(old(hash), ip), stamp) && hash == old(hash)[ip := Spend(rate, Get(old(hash), ip), stamp)]
    {
      hide Genuine, Buckets, Gain, LocalLog, RedisLog, Remembers, Decide, Spend;
      ghost var log := RedisLog(trace);
      UnknownIsFull(rate, stamp);
      var tokens := if ip in hash then hash[ip].tokens else rate as real;
      var ts := if ip in hash then hash[ip].ts else stamp;
      tokens, ok := TakeToken(rate, tokens, ts, stamp);
      ghost var e := Entry(ip, stamp, ok);
      ghost var h := if seen then ByRedis(e) else Unseen(e);
      Logged(trace, h);
      if timely && InTime(stamp, now) {
        ExpiryChangesNoDecision(rate, hash, log, touched, redisClock, ip, stamp, now);
        RemembersStep(rate, hash, log, touched, redisClock, e, now);
        GenuineStep(rate, log, e);
      }
      hash := hash[ip := Bucket(tokens, stamp)];
      redisClock, touched, timely := now, touched[ip := now], timely && InTime(stamp, now);
      trace := trace + [h];
    }

    /** Redis drops a key whose expiry, set by the script's latest run for it, has passed. */
    method Expire(ip: string, now: real)
      requires Valid() && rate > 0 && redisClock <= now
      requires ip in hash && ip in touched && now - touched[ip] >= 120.0
      modifies this`hash, this`redisClock
      ensures Valid() && hash == old(hash) - {ip}
    {
      hide Genuine, Buckets, LocalLog, RedisLog, Until;
      hash := hash - {ip};
      redisClock := now;
    }

    /** One request: Redis first, the dictionary when Redis is down or its call fails. */
    method Allow(ip: string, pingOk: bool, reply: Reply, stamp: real, redisNow: real, localNow: real) returns (ok: bool)
      requires Valid() && redisClock <= redisNow
      modifies this
      ensures Valid() && (old(timely) && InTime(stamp, redisNow) ==> timely)
      ensures rate == 0 ==> ok && unchanged(this)
      ensures rate > 0 && !old(RedisUp(pingOk)) ==> trace == old(trace) + [ByLocal(Entry(ip, localNow, ok))]
      ensures rate > 0 && old(RedisUp(pingOk)) ==>
        match reply
        case Answers => trace == old(trace) + [ByRedis(Entry(ip, stamp, ok))]
        case FailsBefore => trace == old(trace) + [ByLocal(Entry(ip, localNow, ok))]
        case FailsAfter => exists lost: bool ::
          trace == old(trace) + [Unseen(Entry(ip, stamp, lost)), ByLocal(Entry(ip, localNow, ok))]
    {
      hide Genuine, Buckets, Gain, LocalLog, RedisLog, Remembers;
      if rate <= 0 {
        return true;
      }
      var up := RedisClient(pingOk);
      if up && reply.Answers? {
        ok := RunScript(ip, stamp, redisNow, true);
        return;
      }
      if up && reply.FailsAfter? {
        var lost := RunScript(ip, stamp, redisNow, false);
        assert old(trace) + [Unseen(Entry(ip, stamp, lost))] == trace;
      }
      ok := AllowLocal(ip, localNow);
    }
  }
}
