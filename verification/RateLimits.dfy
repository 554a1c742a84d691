/** One token bucket per proxy. Times are seconds, as reals, on one monotone clock. */
module TokenBuckets {
  datatype Bucket = Bucket(tokens: real, last: real)

  datatype Limits = Limits(rate: real, burst: real, buckets: map<string, Bucket>)

  function Min(a: real, b: real): real {
    if a <= b then a else b
  }

  function BurstFor(perSecond: real): real {
    var b := Min(perSecond, 10.0);
    if b >= 1.0 then b else 1.0
  }

  function NewLimits(perSecond: real): Limits {
    Limits(perSecond, BurstFor(perSecond), map[])
  }

  /** Tokens that accrue over a stretch of time. */
  function Gain(rate: real, dt: real): real {
    dt * rate
  }

  /** The bucket of a key brought up to date; a new key starts full. */
  function Refilled(l: Limits, key: string, now: real): Bucket {
    if key in l.buckets then
      var b := l.buckets[key];
      Bucket(Min(l.burst, b.tokens + Gain(l.rate, now - b.last)), now)
    else Bucket(l.burst, now)
  }

  predicate Admits(l: Limits, key: string, now: real) {
    Refilled(l, key, now).tokens >= 1.0
  }

  /** One turn of `wait`'s loop under the lock. */
  function Turn(l: Limits, key: string, now: real): Limits {
    var b := Refilled(l, key, now);
    l.(buckets := l.buckets[key := if b.tokens >= 1.0 then b.(tokens := b.tokens - 1.0) else b])
  }

  class IPRateLimiter {
    const rate: real
    const burst: real
    var buckets: map<string, Bucket>

    ghost function State(): Limits
      reads this
    {
      Limits(rate, burst, buckets)
    }

    constructor (perSecond: real)
      requires perSecond > 0.0
      ensures State() == NewLimits(perSecond)
    {
      rate, burst, buckets := perSecond, BurstFor(perSecond), map[];
    }

    /** One turn of the loop: admitted, or how long to sleep before the next. */
    method TryTake(key: string, now: real) returns (ok: bool, pause: real)
      requires rate > 0.0
      modifies this
      ensures State() == Turn(old(State()), key, now)
      ensures ok <==> Admits(old(State()), key, now)
      ensures !ok ==> Gain(rate, pause) == 1.0 - Refilled(old(State()), key, now).tokens
    {
      pause := 0.0;
      ghost var before := buckets;
      if key !in buckets {
        buckets := buckets[key := Bucket(burst, now)];
      }
      var b := buckets[key];
      b := Bucket(Min(burst, b.tokens + Gain(rate, now - b.last)), now);
      assert Gain(rate, 0.0) == 0.0;
      ok := b.tokens >= 1.0;
      if ok {
        b := b.(tokens := b.tokens - 1.0);
      } else {
        pause := (1.0 - b.tokens) / rate;
      }
      buckets := buckets[key := b];
      assert buckets == before[key := b];
    }

    /** The turns other callers take while one sleeps. */
    method TakeTurns(rs: seq<Rival>, from: real) returns (clock: real)
      requires rate > 0.0
      modifies this
      ensures State() == After(old(State()), rs, from) && clock == Clock(rs, from)
    {
      clock := from;
      for i := 0 to |rs|
        invariant After(State(), rs[i..], clock) == After(old(State()), rs, from)
        invariant Clock(rs[i..], clock) == Clock(rs, from)
      {
        assert rs[i..][1..] == rs[i + 1..];
        clock := clock + rs[i].gap;
        var _, _ := TryTake(rs[i].key, clock);
      }
    }

    /** `wait`, for a caller that competes: it sleeps at most once more than there are
        sleeps in which a rival turned up at its bucket, and fails only when cancelled.
        `rivals` says who takes turns during each sleep; timers may fire late, never
        early. */
    method Wait(key: string, start: real, rivals: seq<seq<Rival>>, late: nat -> real, cancelled: nat -> bool)
      returns (ok: bool, sleeps: nat)
      requires BucketInv(State(), start)
      requires forall rs <- rivals :: GoesForward(rs)
      requires forall i: nat :: late(i) >= 0.0
      modifies this
      ensures sleeps <= 1 + Contended(rivals, key)
      ensures !ok ==> cancelled(sleeps)
      ensures Admits(old(State()), key, start) ==> ok && sleeps == 0
    {
      var now := start;
      sleeps := 0;
      while true
        invariant BucketInv(State(), now)
        invariant sleeps == 0 ==> State() == old(State()) && now == start
        invariant sleeps > 0 ==> !Admits(old(State()), key, start)
        invariant sleeps + Contended(rivals[Least(sleeps, |rivals|)..], key)
               <= Contended(rivals, key) + (if Admits(State(), key, now) then 1 else 0)
        decreases if Admits(State(), key, now) then 0 else 1,
                  Contended(rivals[Least(sleeps, |rivals|)..], key)
      {
        ghost var before := State();
        TurnKeepsInv(before, key, now);
        var got, pause := TryTake(key, now);
        if got {
          return true, sleeps;
        }
        ghost var needed := pause;
        if pause < 0.001 {
          pause := 0.001;
        }
        if cancelled(sleeps) {
          return false, sleeps;
        }
        var rs := if sleeps < |rivals| then rivals[sleeps] else [];
        ghost var asleep := State();
        var clock := TakeTurns(rs, now);
        var wake := (if now + pause >= clock then now + pause else clock) + late(sleeps);
        SleeperIsOvertaken(before, key, now, needed, rs, wake);
        AfterKeepsInv(asleep, rs, now);
        StaysInRange(State(), clock, wake);
        NextContended(rivals, key, sleeps);
        now := wake;
        sleeps := sleeps + 1;
      }
    }
  }

  /** `newIPRateLimiter`: no limiter at all for a rate of zero or less. */
  method NewIPRateLimiter(perSecond: real) returns (r: IPRateLimiter?)
    ensures r == null <==> perSecond <= 0.0
    ensures r != null ==> fresh(r) && r.State() == NewLimits(perSecond)
  {
    if perSecond <= 0.0 {
      return null;
    }
    r := new IPRateLimiter(perSecond);
  }

  lemma GainGrows(rate: real, x: real, y: real)
    requires rate > 0.0 && x >= y
    ensures Gain(rate, x) >= Gain(rate, y)
    ensures y >= 0.0 ==> Gain(rate, y) >= 0.0
  {
    assert (x - y) * rate >= 0.0;
  }

  lemma GainAdds(rate: real, x: real, y: real)
    ensures Gain(rate, x + y) == Gain(rate, x) + Gain(rate, y)
  {
  }

  /** The pause `wait` computes, or any longer one, leaves a whole token. */
  lemma SleepIsEnough(l: Limits, key: string, now: real, pause: real, late: real)
    requires l.rate > 0.0 && l.burst >= 1.0 && !Admits(l, key, now) && late >= pause
    requires Gain(l.rate, pause) == 1.0 - Refilled(l, key, now).tokens
    ensures Admits(Turn(l, key, now), key, now + late)
  {
    var b := Refilled(l, key, now);
    GainGrows(l.rate, late, pause);
    assert Turn(l, key, now).buckets[key] == b;
    assert now + late - b.last == late;
  }

  // ------------------------------------------------------------------ competition

  /** A turn some other caller takes, `gap` after the one before. */
  datatype Rival = Rival(key: string, gap: real)

  predicate GoesForward(rs: seq<Rival>) {
    forall r <- rs :: r.gap >= 0.0
  }

  function After(l: Limits, rs: seq<Rival>, from: real): Limits
    decreases rs
  {
    if rs == [] then l else After(Turn(l, rs[0].key, from + rs[0].gap), rs[1..], from + rs[0].gap)
  }

  function Clock(rs: seq<Rival>, from: real): real {
    if rs == [] then from else Clock(rs[1..], from + rs[0].gap)
  }

  /** How often rivals got a token of a key. */
  function Overtakes(l: Limits, rs: seq<Rival>, from: real, key: string): nat
    decreases rs
  {
    if rs == [] then 0
    else
      var t := from + rs[0].gap;
      (if rs[0].key == key && Admits(l, key, t) then 1 else 0) + Overtakes(Turn(l, rs[0].key, t), rs[1..], t, key)
  }

  /** How many sleeps some rival spends at a key's bucket. */
  function Contended(rivals: seq<seq<Rival>>, key: string): nat {
    if rivals == [] then 0
    else (if exists r <- rivals[0] :: r.key == key then 1 else 0) + Contended(rivals[1..], key)
  }

  function Least(a: nat, b: nat): nat {
    if a <= b then a else b
  }

  lemma NextContended(rivals: seq<seq<Rival>>, key: string, i: nat)
    ensures var left := Contended(rivals[Least(i, |rivals|)..], key);
            var more := i < |rivals| && exists r <- rivals[i] :: r.key == key;
            left == (if more then 1 else 0) + Contended(rivals[Least(i + 1, |rivals|)..], key)
  {
    if i < |rivals| {
      assert rivals[i..][0] == rivals[i] && rivals[i..][1..] == rivals[i + 1..];
    }
  }

  /** A turn at another bucket, or one that is refused, leaves what a caller will find. */
  lemma RefillAgain(l: Limits, turn: string, key: string, t: real, now: real)
    requires BucketInv(l, t) && now >= t && !(turn == key && Admits(l, key, t))
    ensures Refilled(Turn(l, turn, t), key, now) == Refilled(l, key, now)
  {
    if turn == key {
      var b := l.buckets[key];
      GainAdds(l.rate, t - b.last, now - t);
      GainGrows(l.rate, now - t, 0.0);
      assert Gain(l.rate, 0.0) == 0.0;
      assert t - b.last + (now - t) == now - b.last;
    }
  }

  lemma StaysInRange(l: Limits, t: real, now: real)
    requires BucketInv(l, t) && now >= t
    ensures BucketInv(l, now)
  {
  }

  lemma {:induction false} ClockAdvances(rs: seq<Rival>, from: real)
    requires GoesForward(rs)
    ensures Clock(rs, from) >= from
    decreases rs
  {
    if rs != [] {
      ClockAdvances(rs[1..], from + rs[0].gap);
    }
  }

  lemma {:induction false} AfterKeepsInv(l: Limits, rs: seq<Rival>, from: real)
    requires BucketInv(l, from) && GoesForward(rs)
    ensures BucketInv(After(l, rs, from), Clock(rs, from))
    ensures Clock(rs, from) >= from
    decreases rs
  {
    if rs != [] {
      var t := from + rs[0].gap;
      StaysInRange(l, from, t);
      TurnKeepsInv(l, rs[0].key, t);
      AfterKeepsInv(Turn(l, rs[0].key, t), rs[1..], t);
    }
  }

  lemma {:induction false} NotOvertaken(l: Limits, rs: seq<Rival>, from: real, key: string, now: real)
    requires BucketInv(l, from) && GoesForward(rs) && now >= Clock(rs, from)
    requires Overtakes(l, rs, from, key) == 0
    ensures Refilled(After(l, rs, from), key, now) == Refilled(l, key, now)
    decreases rs
  {
    hide Admits;
    hide Refilled;
    if rs != [] {
      var t := from + rs[0].gap;
      StaysInRange(l, from, t);
      TurnKeepsInv(l, rs[0].key, t);
      ClockAdvances(rs[1..], t);
      RefillAgain(l, rs[0].key, key, t, now);
      NotOvertaken(Turn(l, rs[0].key, t), rs[1..], t, key, now);
    }
  }

  lemma {:induction false} OvertakerWasThere(l: Limits, rs: seq<Rival>, from: real, key: string)
    requires Overtakes(l, rs, from, key) > 0
    ensures exists r <- rs :: r.key == key
    decreases rs
  {
    if rs[0].key != key {
      var t := from + rs[0].gap;
      OvertakerWasThere(Turn(l, rs[0].key, t), rs[1..], t, key);
      var r :| r in rs[1..] && r.key == key;
      assert r in rs;
    }
  }

  /** Whoever sleeps as long as `wait` computes, or longer, and is refused again, was
      overtaken: a rival took a token of the same bucket in the meantime. */
  lemma SleeperIsOvertaken(l: Limits, key: string, now: real, pause: real, rs: seq<Rival>, wake: real)
    requires BucketInv(l, now) && GoesForward(rs) && !Admits(l, key, now)
    requires Gain(l.rate, pause) == 1.0 - Refilled(l, key, now).tokens
    requires wake >= now + pause && wake >= Clock(rs, now)
    ensures !Admits(After(Turn(l, key, now), rs, now), key, wake) ==>
              Overtakes(Turn(l, key, now), rs, now, key) > 0 && exists r <- rs :: r.key == key
  {
    hide Refilled;
    hide Turn;
    var l' := Turn(l, key, now);
    TurnKeepsInv(l, key, now);
    SleepIsEnough(l, key, now, pause, wake - now);
    if Overtakes(l', rs, now, key) == 0 {
      NotOvertaken(l', rs, now, key, wake);
    } else {
      OvertakerWasThere(l', rs, now, key);
    }
  }

  // ------------------------------------------------------------------ whole runs

  /** A turn taken by some worker. */
  datatype Event = Try(key: string, now: real)

  ghost predicate Ordered(es: seq<Event>, from: real) {
    (forall e <- es :: e.now >= from) && forall i, j :: 0 <= i < j < |es| ==> es[i].now <= es[j].now
  }

  function Run(l: Limits, es: seq<Event>): Limits
    decreases es
  {
    if es == [] then l else Run(Turn(l, es[0].key, es[0].now), es[1..])
  }

  /** How often a key was admitted between two times. */
  function Admitted(l: Limits, es: seq<Event>, key: string, from: real, to: real): nat
    decreases es
  {
    if es == [] then 0
    else
      (if es[0].key == key && from <= es[0].now <= to && Admits(l, key, es[0].now) then 1 else 0)
      + Admitted(Turn(l, es[0].key, es[0].now), es[1..], key, from, to)
  }

  ghost predicate BucketInv(l: Limits, now: real) {
    && l.rate > 0.0 && l.burst >= 1.0
    && forall k <- l.buckets :: 0.0 <= l.buckets[k].tokens <= l.burst && l.buckets[k].last <= now
  }

  lemma RefillInRange(l: Limits, key: string, now: real)
    requires BucketInv(l, now)
    ensures 0.0 <= Refilled(l, key, now).tokens <= l.burst
  {
    if key in l.buckets {
      GainGrows(l.rate, now - l.buckets[key].last, now - l.buckets[key].last);
    }
  }

  lemma TurnKeepsInv(l: Limits, key: string, now: real)
    requires BucketInv(l, now)
    ensures BucketInv(Turn(l, key, now), now)
  {
    RefillInRange(l, key, now);
  }

  /** Tokens stay between zero and the burst in every run. */
  lemma {:induction false} TokensStayInRange(l: Limits, es: seq<Event>, from: real)
    requires BucketInv(l, from) && Ordered(es, from)
    ensures var l' := Run(l, es);
            l'.rate == l.rate && l'.burst == l.burst
            && forall k <- l'.buckets :: 0.0 <= l'.buckets[k].tokens <= l'.burst
    decreases es
  {
    if es != [] {
      TurnKeepsInv(l, es[0].key, es[0].now);
      assert es == [es[0]] + es[1..];
      TokensStayInRange(Turn(l, es[0].key, es[0].now), es[1..], es[0].now);
    }
  }

  /** Waiting refills at most at the rate. */
  lemma RefillIsAtMostRate(l: Limits, key: string, t: real, now: real)
    requires BucketInv(l, t) && now >= t
    ensures Refilled(l, key, now).tokens <= Refilled(l, key, t).tokens + Gain(l.rate, now - t)
  {
    GainGrows(l.rate, now - t, now - t);
    if key in l.buckets {
      GainAdds(l.rate, t - l.buckets[key].last, now - t);
      assert t - l.buckets[key].last + (now - t) == now - l.buckets[key].last;
    }
  }

  /** A turn spends a token of its own key and nothing else. */
  lemma TurnSpends(l: Limits, turn: string, key: string, now: real)
    requires BucketInv(l, now)
    ensures Refilled(Turn(l, turn, now), key, now).tokens
         == Refilled(l, key, now).tokens - (if turn == key && Admits(l, key, now) then 1.0 else 0.0)
  {
    assert Gain(l.rate, 0.0) == 0.0;
    RefillInRange(l, key, now);
    if turn == key {
      assert now - Turn(l, turn, now).buckets[key].last == 0.0;
    }
  }

  lemma {:induction false} NoneAfter(l: Limits, es: seq<Event>, key: string, from: real, to: real)
    requires forall e <- es :: e.now > to
    ensures Admitted(l, es, key, from, to) == 0
    decreases es
  {
    if es != [] {
      NoneAfter(Turn(l, es[0].key, es[0].now), es[1..], key, from, to);
    }
  }

  lemma OrderedTail(es: seq<Event>, from: real)
    requires es != [] && Ordered(es, from)
    ensures Ordered(es[1..], es[0].now) && es[0].now >= from
    ensures forall e <- es :: e.now >= es[0].now
  {
  }

  /** One turn inside the window: what it admits is paid for by the refill since. */
  lemma TurnIsPaidFor(l: Limits, e: Event, key: string, t: real, to: real, rest: real)
    requires BucketInv(l, t) && t <= e.now <= to
    requires rest <= Refilled(Turn(l, e.key, e.now), key, e.now).tokens + Gain(l.rate, to - e.now)
    ensures rest + (if e.key == key && Admits(l, key, e.now) then 1.0 else 0.0)
         <= Refilled(l, key, t).tokens + Gain(l.rate, to - t)
  {
    assert BucketInv(l, e.now);
    TurnSpends(l, e.key, key, e.now);
    RefillIsAtMostRate(l, key, t, e.now);
    GainAdds(l.rate, to - e.now, e.now - t);
    assert to - e.now + (e.now - t) == to - t;
  }

  /** From any moment on, admissions are bounded by what the bucket then held plus
      the rate. */
  lemma {:induction false} AdmissionsFrom(l: Limits, es: seq<Event>, key: string, from: real, to: real, t: real)
    requires BucketInv(l, t) && Ordered(es, t) && from <= t <= to
    ensures Admitted(l, es, key, from, to) as real <= Refilled(l, key, t).tokens + Gain(l.rate, to - t)
    decreases es
  {
    RefillInRange(l, key, t);
    GainGrows(l.rate, to - t, to - t);
    if es != [] {
      var e := es[0];
      OrderedTail(es, t);
      if e.now <= to {
        var l' := Turn(l, e.key, e.now);
        assert BucketInv(l, e.now);
        TurnKeepsInv(l, e.key, e.now);
        AdmissionsFrom(l', es[1..], key, from, to, e.now);
        TurnIsPaidFor(l, e, key, t, to, Admitted(l', es[1..], key, from, to) as real);
      } else {
        NoneAfter(l, es, key, from, to);
      }
    }
  }

  lemma {:induction false} WindowBound(l: Limits, es: seq<Event>, key: string, from: real, to: real, t: real)
    requires BucketInv(l, t) && Ordered(es, t) && from <= to
    ensures Admitted(l, es, key, from, to) as real <= l.burst + Gain(l.rate, to - from)
    decreases es
  {
    GainGrows(l.rate, to - from, to - from);
    if es != [] {
      var e := es[0];
      OrderedTail(es, t);
      assert BucketInv(l, e.now);
      if e.now < from {
        TurnKeepsInv(l, e.key, e.now);
        WindowBound(Turn(l, e.key, e.now), es[1..], key, from, to, e.now);
      } else if e.now <= to {
        AdmissionsFrom(l, es, key, from, to, e.now);
        RefillInRange(l, key, e.now);
        GainGrows(l.rate, to - from, to - e.now);
      } else {
        NoneAfter(l, es, key, from, to);
      }
    }
  }

  /** Token bucket bound: whatever the workers do, a key is admitted at most
      burst + rate * T times in any stretch of length T, where the burst is one second's
      worth, but at least one and at most ten. */
  lemma AdmissionsAreBounded(perSecond: real, es: seq<Event>, key: string, from: real, to: real, start: real)
    requires perSecond > 0.0 && Ordered(es, start) && from <= to
    ensures var burst := if perSecond < 1.0 then 1.0 else if perSecond > 10.0 then 10.0 else perSecond;
            Admitted(NewLimits(perSecond), es, key, from, to) as real <= burst + (to - from) * perSecond
  {
    hide Admitted;
    hide Ordered;
    WindowBound(NewLimits(perSecond), es, key, from, to, start);
    BurstIs(perSecond);
    assert Gain(perSecond, to - from) == (to - from) * perSecond;
  }

  lemma BurstIs(perSecond: real)
    requires perSecond > 0.0
    ensures NewLimits(perSecond).burst
         == if perSecond < 1.0 then 1.0 else if perSecond > 10.0 then 10.0 else perSecond
  {
  }

  /** `n` turns at one moment. */
  function AtOnce(key: string, now: real, n: nat): seq<Event> {
    if n == 0 then [] else [Try(key, now)] + AtOnce(key, now, n - 1)
  }

  lemma {:induction false} TokensAreSpent(l: Limits, key: string, now: real, n: nat)
    requires l.burst >= 1.0 && Refilled(l, key, now).tokens >= n as real
    ensures Admitted(l, AtOnce(key, now, n), key, now, now) == n
    decreases n
  {
    if n > 0 {
      var l' := Turn(l, key, now);
      var es := AtOnce(key, now, n);
      assert es[0] == Try(key, now) && es[1..] == AtOnce(key, now, n - 1);
      assert Gain(l.rate, 0.0) == 0.0;
      assert now - l'.buckets[key].last == 0.0;
      if n > 1 {
        assert Refilled(l', key, now).tokens >= (n - 1) as real;
        TokensAreSpent(l', key, now, n - 1);
      } else {
        assert AtOnce(key, now, 0) == [];
      }
    }
  }

  /** And the burst is really there: a key nobody has used is admitted that often at once. */
  lemma NewKeyHasBurst(perSecond: real, key: string, now: real, n: nat)
    requires perSecond > 0.0 && (n <= 1 || (n <= 10 && n as real <= perSecond))
    ensures Admitted(NewLimits(perSecond), AtOnce(key, now, n), key, now, now) == n
  {
    TokensAreSpent(NewLimits(perSecond), key, now, n);
  }

  /** A run can be cut anywhere: the second part starts from where the first one left. */
  lemma {:induction false} AdmissionsAdd(l: Limits, es: seq<Event>, more: seq<Event>, key: string, from: real, to: real)
    ensures Admitted(l, es + more, key, from, to)
         == Admitted(l, es, key, from, to) + Admitted(Run(l, es), more, key, from, to)
    decreases es
  {
    hide Turn;
    if es == [] {
      assert es + more == more;
    } else {
      assert (es + more)[1..] == es[1..] + more;
      AdmissionsAdd(Turn(l, es[0].key, es[0].now), es[1..], more, key, from, to);
    }
  }

  function OnlyKey(es: seq<Event>, key: string): seq<Event> {
    if es == [] then []
    else (if es[0].key == key then [es[0]] else []) + OnlyKey(es[1..], key)
  }

  predicate SameBucket(l: Limits, m: Limits, key: string) {
    && l.rate == m.rate && l.burst == m.burst
    && (key in l.buckets <==> key in m.buckets)
    && (key in l.buckets ==> l.buckets[key] == m.buckets[key])
  }

  /** Keys never affect one another: a key's bucket and admissions are those of the
      run with every other key's turns taken out. */
  lemma {:induction false} KeysAreIndependent(l: Limits, m: Limits, es: seq<Event>, key: string, from: real, to: real)
    requires SameBucket(l, m, key)
    ensures SameBucket(Run(l, es), Run(m, OnlyKey(es, key)), key)
    ensures Admitted(l, es, key, from, to) == Admitted(m, OnlyKey(es, key), key, from, to)
    decreases es
  {
    if es != [] {
      var e := es[0];
      var l' := Turn(l, e.key, e.now);
      if e.key == key {
        KeysAreIndependent(l', Turn(m, key, e.now), es[1..], key, from, to);
        assert ([e] + OnlyKey(es[1..], key))[1..] == OnlyKey(es[1..], key);
      } else {
        KeysAreIndependent(l', m, es[1..], key, from, to);
        assert [] + OnlyKey(es[1..], key) == OnlyKey(es[1..], key);
      }
    }
  }
}

/** A growing counter smoothed into a rate over a trailing window. */
module RateWindows {
  /** Times are nanoseconds. */
  datatype Sample = Sample(at: int, value: real)

  const SECOND: real := 1_000_000_000.0

  /** The rate per second from a baseline to now, never negative, rounded down. */
  function RateFrom(base: Sample, now: int, value: real): int {
    if now <= base.at then 0
    else
      var rate := (value - base.value) / ((now - base.at) as real / SECOND);
      if rate < 0.0 then 0 else rate.Floor
  }

  /** What the answer means, over a stretch of `dt` nanoseconds: the whole number of
      counts per second that fits, and nothing for a counter that fell or no time. */
  predicate ReadsRate(base: Sample, now: int, value: real, rate: int) {
    var dt := (now - base.at) as real;
    if now <= base.at || value < base.value then rate == 0
    else Scaled(rate, dt) <= (value - base.value) * 1_000_000_000.0 < Scaled(rate + 1, dt)
  }

  function Scaled(n: int, x: real): real {
    n as real * x
  }

  lemma RateFromReads(base: Sample, now: int, value: real)
    ensures ReadsRate(base, now, value, RateFrom(base, now, value))
  {
    if now > base.at {
      var dt, dv := (now - base.at) as real, value - base.value;
      var d := dt / SECOND;
      var q := dv / d;
      assert d > 0.0 && d * SECOND == dt;
      assert q * d == dv;
      assert RateFrom(base, now, value) == if q < 0.0 then 0 else q.Floor;
      if dv < 0.0 {
        FallingQuotient(q, d);
      } else {
        RisingQuotient(q, d);
        Regroup(q, d, dv, dt);
        RoundedDown(q, q.Floor, dt);
      }
    }
  }

  lemma Regroup(q: real, d: real, dv: real, dt: real)
    requires q * d == dv && d * SECOND == dt
    ensures dv * SECOND == q * dt
  {
    assert dv * SECOND == q * (d * SECOND);
  }

  lemma RoundedDown(q: real, r: int, dt: real)
    requires dt > 0.0 && r as real <= q < (r + 1) as real
    ensures Scaled(r, dt) <= q * dt
    ensures q * dt < Scaled(r + 1, dt)
  {
    Stretch(r as real, q, dt);
    StretchStrictly(q, (r + 1) as real, dt);
  }

  lemma FallingQuotient(q: real, d: real)
    requires d > 0.0 && q * d < 0.0
    ensures q < 0.0
  {
  }

  lemma RisingQuotient(q: real, d: real)
    requires d > 0.0 && q * d >= 0.0
    ensures q >= 0.0
  {
  }

  lemma Stretch(x: real, y: real, d: real)
    requires x <= y && d > 0.0
    ensures x * d <= y * d
  {
    assert (y - x) * d >= 0.0;
  }

  lemma StretchStrictly(x: real, y: real, d: real)
    requires x < y && d > 0.0
    ensures x * d < y * d
  {
    assert (y - x) * d > 0.0;
  }

  lemma OnlyOneFits(rate: int, r: int, dt: real, x: real)
    requires dt > 0.0 && Scaled(rate, dt) <= x < Scaled(rate + 1, dt) && x == Scaled(r, dt)
    ensures rate == r
  {
    if rate < r {
      Stretch((rate + 1) as real, r as real, dt);
    } else if rate > r {
      StretchStrictly(r as real, rate as real, dt);
    }
  }

  /** There is only one such answer, and for a counter that grew by a whole number `r` a
      second since the baseline it is `r`. */
  lemma SteadyCounterReads(base: Sample, now: int, value: real, r: nat, rate: int)
    requires now > base.at && value == base.value + Scaled(r, (now - base.at) as real / 1_000_000_000.0)
    requires ReadsRate(base, now, value, rate)
    ensures rate == r
  {
    var dt := (now - base.at) as real;
    var d := dt / 1_000_000_000.0;
    assert d > 0.0 && d * SECOND == dt;
    var grown := Scaled(r, d);
    assert grown >= 0.0;
    Regroup(r as real, d, grown, dt);
    OnlyOneFits(rate, r, dt, grown * SECOND);
  }

  predicate InOrder(h: seq<Sample>) {
    forall i, j :: 0 <= i < j < |h| ==> h[i].at <= h[j].at
  }

  /** `b` is the newest sample at or before the cutoff, or the first if there is none. */
  ghost predicate IsBaseline(h: seq<Sample>, cutoff: int, b: nat) {
    && b < |h|
    && (b == 0 || h[b].at <= cutoff)
    && forall j :: b < j < |h| ==> h[j].at > cutoff
  }

  /** Where `add` cuts: the index before the first sample inside the window. */
  function Drop(h: seq<Sample>, cutoff: int, i: nat, drop: nat): (d: nat)
    requires drop <= i <= |h| && (i > 0 ==> drop == i - 1) && (i == 0 ==> drop == 0)
    ensures h != [] ==> d < |h|
    decreases |h| - i
  {
    if i == |h| || h[i].at > cutoff then drop else Drop(h, cutoff, i + 1, i)
  }

  /** The samples kept after counting each of `h` in turn. */
  function Kept(h: seq<Sample>, span: int): (k: seq<Sample>)
    ensures h != [] ==> k != []
  {
    if h == [] then []
    else
      var s := h[|h| - 1];
      var all := Kept(h[..|h| - 1], span) + [s];
      all[Drop(all, s.at - span, 0, 0)..]
  }

  lemma {:induction false} DropIsBaseline(h: seq<Sample>, cutoff: int, i: nat, drop: nat)
    requires h != [] && InOrder(h)
    requires drop <= i <= |h| && (i > 0 ==> drop == i - 1) && (i == 0 ==> drop == 0)
    requires forall j :: 0 <= j < i ==> h[j].at <= cutoff
    ensures IsBaseline(h, cutoff, Drop(h, cutoff, i, drop))
    decreases |h| - i
  {
    if i < |h| && h[i].at <= cutoff {
      DropIsBaseline(h, cutoff, i + 1, i);
    }
  }

  lemma BaselineIsUnique(h: seq<Sample>, cutoff: int, a: nat, b: nat)
    requires InOrder(h) && IsBaseline(h, cutoff, a) && IsBaseline(h, cutoff, b)
    ensures a == b
  {
  }

  lemma BaselineOfSuffix(h: seq<Sample>, start: nat, cutoff: int, d: nat)
    requires start < |h| && IsBaseline(h[start..], cutoff, d)
    requires start == 0 || h[start].at <= cutoff
    ensures IsBaseline(h, cutoff, start + d)
  {
    assert forall j :: start <= j < |h| ==> h[j] == h[start..][j - start];
  }

  lemma PruneStep(h: seq<Sample>, cutoff: int, start: nat) returns (b: nat)
    requires start < |h| && InOrder(h)
    requires start == 0 || h[start].at <= cutoff
    ensures IsBaseline(h, cutoff, b)
    ensures h[start..][Drop(h[start..], cutoff, 0, 0)..] == h[b..]
  {
    DropIsBaseline(h[start..], cutoff, 0, 0);
    b := start + Drop(h[start..], cutoff, 0, 0);
    BaselineOfSuffix(h, start, cutoff, b - start);
  }

  lemma KeptUnfold(h: seq<Sample>, span: int, start: nat)
    requires h != [] && start <= |h| - 1
    requires Kept(h[..|h| - 1], span) == h[start..|h| - 1]
    ensures Kept(h, span) == h[start..][Drop(h[start..], h[|h| - 1].at - span, 0, 0)..]
  {
    assert h[start..|h| - 1] + [h[|h| - 1]] == h[start..];
  }

  lemma {:induction false} KeptIsSuffix(h: seq<Sample>, span: int) returns (b: nat)
    requires h != [] && InOrder(h)
    ensures IsBaseline(h, h[|h| - 1].at - span, b)
    ensures Kept(h, span) == h[b..]
    decreases |h|
  {
    var n := |h| - 1;
    var start := 0;
    if n > 0 {
      start := KeptIsSuffix(h[..n], span);
      assert h[..n][start..] == h[start..n];
      assert h[..n][start] == h[start] && h[..n][n - 1] == h[n - 1];
      assert h[n - 1].at <= h[n].at;
    }
    KeptUnfold(h, span, start);
    b := PruneStep(h, h[n].at - span, start);
  }

  /** Pruning loses nothing: for times that never go back, what is kept is exactly
      the full history from the newest sample at or before the cutoff. */
  lemma PruningRefinesHistory(h: seq<Sample>, span: int, b: nat)
    requires h != [] && InOrder(h) && b < |h|
    ensures Kept(h, span) == h[b..] <==> IsBaseline(h, h[|h| - 1].at - span, b)
  {
    var c := KeptIsSuffix(h, span);
    assert |h[b..]| == |h| - b && |h[c..]| == |h| - c;
    if IsBaseline(h, h[|h| - 1].at - span, b) {
      BaselineIsUnique(h, h[|h| - 1].at - span, b, c);
    }
  }

  /** Every kept sample but the first lies inside the window. */
  lemma KeptLieInWindow(h: seq<Sample>, span: int, j: nat)
    requires h != [] && InOrder(h) && 1 <= j < |Kept(h, span)|
    ensures Kept(h, span)[j].at > h[|h| - 1].at - span
  {
    var b := KeptIsSuffix(h, span);
    assert Kept(h, span)[j] == h[b + j];
  }

  lemma SamplesInOrder(h: seq<Sample>, span: int)
    requires InOrder(h)
    ensures InOrder(Kept(h, span))
    ensures h == [] ==> Kept(h, span) == []
    ensures h != [] ==> Kept(h, span) != [] && Kept(h, span)[|Kept(h, span)| - 1] == h[|h| - 1]
  {
    if h != [] {
      var b := KeptIsSuffix(h, span);
    }
  }

  lemma KeptAppend(g: seq<Sample>, s: Sample, span: int)
    ensures var all := Kept(g, span) + [s];
            Kept(g + [s], span) == all[Drop(all, s.at - span, 0, 0)..]
  {
    assert (g + [s])[..|g|] == g;
  }

  lemma AppendInOrder(k: seq<Sample>, s: Sample)
    requires InOrder(k) && (k != [] ==> k[|k| - 1].at <= s.at)
    ensures InOrder(k + [s])
  {
  }

  class RateWindow {
    var samples: seq<Sample>
    const span: int
    ghost var history: seq<Sample>

    /** What is stored is the pruned form of everything counted so far. */
    ghost predicate Valid()
      reads this
    {
      InOrder(history) && samples == Kept(history, span)
    }

    constructor (span: int)
      ensures Valid() && history == [] && this.span == span
    {
      samples, history := [], [];
      this.span := span;
    }

    /** The bookkeeping half of `add`. */
    method Record(now: int, value: real)
      requires Valid()
      requires history != [] ==> history[|history| - 1].at <= now
      modifies this
      ensures Valid()
      ensures history == old(history) + [Sample(now, value)]
      ensures samples != []
      ensures exists b: nat :: IsBaseline(history, now - span, b) && samples == history[b..]
    {
      hide Kept;
      hide IsBaseline;
      hide Drop;
      hide InOrder;
      RecordFacts(history, Sample(now, value), span);
      samples := samples + [Sample(now, value)];
      history := history + [Sample(now, value)];
      var drop := CutIndex(samples, now - span);
      samples := samples[drop..];
    }

    /** `add`: the rate per second since the baseline the whole history would give. */
    method Add(now: int, value: real) returns (rate: int)
      requires Valid()
      requires history != [] ==> history[|history| - 1].at <= now
      modifies this
      ensures Valid()
      ensures history == old(history) + [Sample(now, value)]
      ensures exists b: nat :: IsBaseline(history, now - span, b) && ReadsRate(history[b], now, value, rate)
    {
      hide RateFrom;
      hide ReadsRate;
      hide Kept;
      hide InOrder;
      Record(now, value);
      rate := RateFrom(samples[0], now, value);
      RateFromReads(samples[0], now, value);
    }
  }

  lemma RecordFacts(g: seq<Sample>, s: Sample, span: int)
    requires InOrder(g) && (g != [] ==> g[|g| - 1].at <= s.at)
    ensures InOrder(g + [s]) && InOrder(Kept(g, span) + [s])
    ensures var all := Kept(g, span) + [s]; Kept(g + [s], span) == all[Drop(all, s.at - span, 0, 0)..]
    ensures exists b: nat :: IsBaseline(g + [s], s.at - span, b) && Kept(g + [s], span) == (g + [s])[b..]
  {
    hide Kept;
    hide Drop;
    hide IsBaseline;
    SamplesInOrder(g, span);
    AppendInOrder(g, s);
    AppendInOrder(Kept(g, span), s);
    KeptAppend(g, s, span);
    var b := KeptIsSuffix(g + [s], span);
  }

  /** The loop of `add` that finds where to cut. */
  method CutIndex(samples: seq<Sample>, cutoff: int) returns (drop: nat)
    requires samples != [] && InOrder(samples)
    ensures drop == Drop(samples, cutoff, 0, 0)
    ensures IsBaseline(samples, cutoff, drop)
    ensures drop < |samples|
  {
    drop := 0;
    var i := 0;
    while i < |samples|
      invariant 0 <= i <= |samples|
      invariant (i > 0 ==> drop == i - 1) && (i == 0 ==> drop == 0)
      invariant Drop(samples, cutoff, 0, 0) == Drop(samples, cutoff, i, drop)
    {
      if samples[i].at > cutoff {
        break;
      }
      drop := i;
      i := i + 1;
    }
    DropIsBaseline(samples, cutoff, 0, 0);
  }
}
