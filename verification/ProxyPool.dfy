/** The proxy rotation: health, latency, slow-proxy skipping and the pick. */
module ProxyPool {
  import opened Text
  import M = Modulo

  /** Times are nanoseconds on one monotone clock. */
  const REFRESH_EVERY: int := 200_000_000
  const QUARANTINE: int := 60_000_000_000
  const MAX_FAILS: nat := 3
  const SLOW_FACTOR: real := 4.0
  const SLOW_PROBE_INTERVAL: nat := 20

  /** The fields of `proxyPool`; a proxy is its cache key. */
  datatype Pool = Pool(
    items: seq<string>,
    idx: nat,
    fails: map<string, nat>,
    sleeping: map<string, int>,
    latency: map<string, real>,
    skips: map<string, nat>,
    best: real,
    healthyN: nat,
    refreshedAt: Option<int>)

  function NewPool(items: seq<string>): Pool {
    Pool(items, 0, map[], map[], map[], map[], 0.0, |items|, None)
  }

  function Latency(latency: map<string, real>, k: string): real {
    if k in latency then latency[k] else 0.0
  }

  function CountAt(m: map<string, nat>, k: string): nat {
    if k in m then m[k] else 0
  }

  /** The proxies that are not in quarantine, in list order. */
  function Awake(items: seq<string>, sleeping: set<string>): seq<string> {
    if items == [] then []
    else (if items[0] in sleeping then [] else [items[0]]) + Awake(items[1..], sleeping)
  }

  function Faster(best: real, v: real): real {
    if v > 0.0 && (best == 0.0 || v < best) then v else best
  }

  function Fastest(items: seq<string>, sleeping: set<string>, latency: map<string, real>, best: real): real {
    if items == [] then best
    else
      Fastest(items[1..], sleeping, latency,
              if items[0] in sleeping then best else Faster(best, Latency(latency, items[0])))
  }

  function Unexpired(sleeping: map<string, int>, now: int): map<string, int> {
    map k | k in sleeping && now <= sleeping[k] :: sleeping[k]
  }

  /** `refreshLocked`. */
  function Refreshed(p: Pool, now: int): (q: Pool)
    ensures q.items == p.items && q.idx == p.idx && q.fails == p.fails && q.latency == p.latency && q.skips == p.skips
  {
    if p.refreshedAt.Some? && now - p.refreshedAt.value < REFRESH_EVERY then p
    else
      var sleeping := Unexpired(p.sleeping, now);
      p.(refreshedAt := Some(now), sleeping := sleeping,
         best := Fastest(p.items, sleeping.Keys, p.latency, 0.0),
         healthyN := |Awake(p.items, sleeping.Keys)|)
  }

  predicate Slow(latency: map<string, real>, cutoff: real, k: string) {
    cutoff > 0.0 && Latency(latency, k) > cutoff
  }

  /** What the pick loop found: the proxy it settled on, how many places it moved,
      the new skip counters, whether it met the avoided proxy, and which proxies it
      passed over for slowness. */
  datatype Scan = Scan(
    pick: Option<string>, used: nat, skips: map<string, nat>, fallback: bool, passed: seq<string>)

  /** What the loop looks at besides the candidates. */
  datatype View = View(sleeping: set<string>, latency: map<string, real>, cutoff: real, avoid: string)

  /** A proxy the loop will step over this time if it still has budget. */
  predicate Skippable(v: View, skips: map<string, nat>, k: string) {
    Slow(v.latency, v.cutoff, k) && CountAt(skips, k) + 1 < SLOW_PROBE_INTERVAL
  }

  predicate Avoided(v: View, k: string) {
    v.avoid != "" && k == v.avoid
  }

  function ScanOver(cands: seq<string>, v: View, skips: map<string, nat>, budget: nat): Scan {
    if cands == [] then Scan(None, 0, skips, false, [])
    else
      var c := cands[0];
      if c in v.sleeping then
        var s := ScanOver(cands[1..], v, skips, budget);
        s.(used := s.used + 1)
      else if Avoided(v, c) then
        var s := ScanOver(cands[1..], v, skips, budget);
        s.(used := s.used + 1, fallback := true)
      else if Skippable(v, skips, c) && budget > 0 then
        var s := ScanOver(cands[1..], v, skips[c := CountAt(skips, c) + 1], budget - 1);
        s.(used := s.used + 1, passed := [c] + s.passed)
      else Scan(Some(c), 1, skips - {c}, false, [])
  }

  /** The list in the order one call visits it. */
  function Rotated(items: seq<string>, r: nat): (c: seq<string>)
    requires r <= |items|
    ensures |c| == |items|
  {
    items[r..] + items[..r]
  }

  /** `rest` is what the loop still has to find after `t` places. */
  ghost predicate Continues(full: Scan, rest: Scan, t: nat, met: bool) {
    && full.pick == rest.pick
    && full.used == t + rest.used
    && full.skips == rest.skips
    && full.fallback == (met || rest.fallback)
  }

  lemma NothingLeft(v: View, skips: map<string, nat>, budget: nat)
    ensures ScanOver([], v, skips, budget) == Scan(None, 0, skips, false, [])
  {
  }

  /** One turn of the loop, whichever way it goes. */
  lemma ScanTurn(full: Scan, cands: seq<string>, t: nat, v: View, skips: map<string, nat>, budget: nat, met: bool)
    requires t < |cands| && Continues(full, ScanOver(cands[t..], v, skips, budget), t, met)
    ensures var c, later := cands[t], cands[t + 1..];
            if c in v.sleeping then Continues(full, ScanOver(later, v, skips, budget), t + 1, met)
            else if Avoided(v, c) then Continues(full, ScanOver(later, v, skips, budget), t + 1, true)
            else if Skippable(v, skips, c) && budget > 0 then
              Continues(full, ScanOver(later, v, skips[c := CountAt(skips, c) + 1], budget - 1), t + 1, met)
            else full.pick == Some(c) && full.used == t + 1 && full.skips == skips - {c}
  {
    hide Skippable;
    hide Avoided;
    assert cands[t..][0] == cands[t] && cands[t..][1..] == cands[t + 1..];
  }

  function Cutoff(best: real): real {
    if best > 0.0 then best * SLOW_FACTOR else 0.0
  }

  function ViewOf(p: Pool, avoid: string): View {
    View(p.sleeping.Keys, p.latency, Cutoff(p.best), avoid)
  }

  function CallScan(p: Pool, avoid: string): Scan
    requires p.items != []
  {
    ScanOver(Rotated(p.items, M.Rem(p.idx, |p.items|)), ViewOf(p, avoid), p.skips, |p.items| / 2)
  }

  /** `nextExcluding`: the choice and the pool after it. */
  function Pick(p: Pool, avoid: string, now: int): (Option<string>, Pool) {
    if p.items == [] then (None, p)
    else
      var p := Refreshed(p, now);
      var n := |p.items|;
      if p.healthyN == 0 then (Some(p.items[M.Rem(p.idx, n)]), p.(idx := p.idx + 1))
      else
        var s := CallScan(p, avoid);
        if s.pick.Some? then (s.pick, p.(idx := p.idx + s.used, skips := s.skips))
        else if s.fallback then (Some(avoid), p.(idx := p.idx + n, skips := s.skips))
        else (Some(p.items[M.Rem(p.idx, n)]), p.(idx := p.idx + n + 1, skips := s.skips))
  }

  /** `markOK`; `ms` is the round trip in milliseconds, zero for none. */
  function MarkOK(p: Pool, k: string, ms: real): Pool {
    var p' := p.(fails := p.fails - {k},
                 sleeping := p.sleeping - {k},
                 healthyN := if k in p.sleeping then p.healthyN + 1 else p.healthyN);
    if ms <= 0.0 then p'
    else p'.(latency := p.latency[k := if k in p.latency then p.latency[k] * 0.7 + ms * 0.3 else ms])
  }

  /** `markFail`. */
  function MarkFail(p: Pool, k: string, now: int): Pool {
    var f := CountAt(p.fails, k) + 1;
    if f >= MAX_FAILS then
      p.(fails := p.fails[k := 0],
         healthyN := if k !in p.sleeping && p.healthyN > 0 then p.healthyN - 1 else p.healthyN,
         sleeping := p.sleeping[k := now + QUARANTINE])
    else p.(fails := p.fails[k := f])
  }

  // ----------------------------------------------------------------- the class

  class Rotation {
    const items: seq<string>
    var idx: nat
    var fails: map<string, nat>
    var sleeping: map<string, int>
    var latency: map<string, real>
    var skips: map<string, nat>
    var best: real
    var healthyN: nat
    var refreshedAt: Option<int>

    ghost function State(): Pool
      reads this
    {
      Pool(items, idx, fails, sleeping, latency, skips, best, healthyN, refreshedAt)
    }

    constructor (items: seq<string>)
      ensures State() == NewPool(items)
    {
      this.items := items;
      idx, healthyN, best, refreshedAt := 0, |items|, 0.0, None;
      fails, sleeping, latency, skips := map[], map[], map[], map[];
    }

    /** The sweep of expired quarantines in `refreshLocked`. */
    method Sweep(now: int)
      modifies `sleeping
      ensures sleeping == Unexpired(old(sleeping), now)
    {
      ghost var was := sleeping;
      var todo := sleeping.Keys;
      while todo != {}
        invariant todo <= was.Keys
        invariant sleeping == map k | k in was && (k in todo || now <= was[k]) :: was[k]
        decreases todo
      {
        var k :| k in todo;
        todo := todo - {k};
        if now > sleeping[k] {
          sleeping := sleeping - {k};
        }
      }
    }

    /** The recount of `refreshLocked`. */
    method Recount()
      modifies `best, `healthyN
      ensures best == Fastest(items, sleeping.Keys, latency, 0.0)
      ensures healthyN == |Awake(items, sleeping.Keys)|
    {
      best, healthyN := 0.0, 0;
      for i := 0 to |items|
        invariant healthyN + |Awake(items[i..], sleeping.Keys)| == |Awake(items, sleeping.Keys)|
        invariant Fastest(items[i..], sleeping.Keys, latency, best) == Fastest(items, sleeping.Keys, latency, 0.0)
      {
        assert items[i..][0] == items[i] && items[i..][1..] == items[i + 1..];
        if items[i] in sleeping {
          continue;
        }
        healthyN := healthyN + 1;
        var v := Latency(latency, items[i]);
        if v > 0.0 && (best == 0.0 || v < best) {
          best := v;
        }
      }
    }

    method Refresh(now: int)
      modifies this
      ensures State() == Refreshed(old(State()), now)
    {
      hide Awake;
      hide Fastest;
      hide Unexpired;
      if refreshedAt.Some? && now - refreshedAt.value < REFRESH_EVERY {
        return;
      }
      refreshedAt := Some(now);
      Sweep(now);
      Recount();
    }

    /** The next place of the rotation. */
    method NextPlace() returns (cand: string)
      requires items != []
      modifies `idx
      ensures idx == old(idx) + 1
      ensures cand == items[M.Rem(old(idx), |items|)]
    {
      idx := idx + 1;
      M.RemIsRemainder(idx - 1, |items|);
      cand := items[(idx - 1) % |items|];
    }

    /** The candidate loop of `nextExcluding`. */
    method Walk(avoid: string, slowCutoff: real) returns (pick: Option<string>, fallback: Option<string>)
      requires items != []
      modifies `idx, `skips
      ensures var n := |items|;
              var v := View(sleeping.Keys, latency, slowCutoff, avoid);
              var s := ScanOver(Rotated(items, M.Rem(old(idx), n)), v, old(skips), n / 2);
              && pick == s.pick && skips == s.skips
              && idx == old(idx) + (if pick.Some? then s.used else n)
              && (pick.None? ==> fallback == if s.fallback then Some(avoid) else None)
    {
      hide Rotated;
      hide Latency;
      hide M.Rem;
      hide ScanOver;
      var n := |items|;
      var slowBudget := n / 2;
      ghost var v := View(sleeping.Keys, latency, slowCutoff, avoid);
      ghost var cands := Rotated(items, M.Rem(idx, n));
      ghost var full := ScanOver(cands, v, skips, slowBudget);
      pick, fallback := None, None;
      assert cands[0..] == cands;
      for tries := 0 to n
        invariant idx == old(idx) + tries
        invariant slowBudget >= 0 && pick.None?
        invariant fallback.Some? ==> fallback.value == avoid
        invariant Continues(full, ScanOver(cands[tries..], v, skips, slowBudget), tries, fallback.Some?)
      {
        assert |cands| == n;
        var cand := NextPlace();
        RotatedAt(items, old(idx), tries);
        ScanTurn(full, cands, tries, v, skips, slowBudget, fallback.Some?);
        if cand in sleeping {
          continue;
        }
        if avoid != "" && cand == avoid {
          if fallback.None? {
            fallback := Some(cand);
          }
          continue;
        }
        if slowCutoff > 0.0 && Latency(latency, cand) > slowCutoff && slowBudget > 0 {
          var turns := CountAt(skips, cand) + 1;
          assert skips[cand := turns] - {cand} == skips - {cand};
          skips := skips[cand := turns];
          if turns < SLOW_PROBE_INTERVAL {
            slowBudget := slowBudget - 1;
            continue;
          }
        }
        skips := skips - {cand};
        return Some(cand), fallback;
      }
      assert cands[n..] == [];
      NothingLeft(v, skips, slowBudget);
    }

    method NextExcluding(avoid: string, now: int) returns (pick: Option<string>)
      modifies this
      ensures (pick, State()) == Pick(old(State()), avoid, now)
    {
      hide M.Rem;
      hide ScanOver;
      hide Refreshed;
      hide Rotated;
      if |items| == 0 {
        return None;
      }
      Refresh(now);
      if healthyN == 0 {
        var any := NextPlace();
        return Some(any);
      }
      var slowCutoff := if best > 0.0 then best * SLOW_FACTOR else 0.0;
      ghost var start := idx;
      var found, fallback := Walk(avoid, slowCutoff);
      if found.Some? {
        return found;
      }
      if fallback.Some? {
        return fallback;
      }
      M.Advance(start, |items|, |items|);
      var any := NextPlace();
      return Some(any);
    }

    method RecordOK(k: string, ms: real)
      modifies this
      ensures State() == MarkOK(old(State()), k, ms)
    {
      fails := fails - {k};
      if k in sleeping {
        sleeping := sleeping - {k};
        healthyN := healthyN + 1;
      } else {
        assert sleeping - {k} == sleeping;
      }
      if ms <= 0.0 {
        return;
      }
      latency := latency[k := if k in latency then latency[k] * 0.7 + ms * 0.3 else ms];
    }

    method RecordFailure(k: string, now: int)
      modifies this
      ensures State() == MarkFail(old(State()), k, now)
    {
      ghost var before := fails;
      fails := fails[k := CountAt(fails, k) + 1];
      if fails[k] >= MAX_FAILS {
        if k !in sleeping && healthyN > 0 {
          healthyN := healthyN - 1;
        }
        sleeping := sleeping[k := now + QUARANTINE];
        fails := fails[k := 0];
        assert fails == before[k := 0];
      }
    }

    method Healthy(now: int) returns (n: nat)
      modifies this
      ensures State() == Refreshed(old(State()), now)
      ensures n == healthyN
    {
      Refresh(now);
      n := healthyN;
    }
  }

  // ------------------------------------------------------------ one call's loop

  /** The candidates that could serve as a second opinion: awake, and not the avoided one. */
  function Eligible(cands: seq<string>, v: View): seq<string> {
    if cands == [] then []
    else (if cands[0] in v.sleeping || Avoided(v, cands[0]) then [] else [cands[0]]) + Eligible(cands[1..], v)
  }

  lemma {:induction false} EligibleMembers(cands: seq<string>, v: View)
    ensures forall k :: k in Eligible(cands, v) <==> k in cands && k !in v.sleeping && !Avoided(v, k)
  {
    if cands != [] {
      EligibleMembers(cands[1..], v);
      assert cands == [cands[0]] + cands[1..];
    }
  }

  lemma {:induction false} EligibleAppend(a: seq<string>, b: seq<string>, v: View)
    ensures Eligible(a + b, v) == Eligible(a, v) + Eligible(b, v)
  {
    if a == [] {
      assert a + b == b;
    } else {
      assert (a + b)[1..] == a[1..] + b;
      EligibleAppend(a[1..], b, v);
    }
  }

  lemma RotatedAt(items: seq<string>, idx: nat, t: nat)
    requires t < |items|
    ensures Rotated(items, M.Rem(idx, |items|))[t] == items[M.Rem(idx + t, |items|)]
  {
    M.Advance(idx, t, |items|);
  }

  lemma RotatedMembers(items: seq<string>, r: nat)
    requires r <= |items|
    ensures multiset(Rotated(items, r)) == multiset(items)
    ensures forall k :: k in Rotated(items, r) <==> k in items
    ensures NoRepeats(items) ==> NoRepeats(Rotated(items, r))
  {
    assert items == items[..r] + items[r..];
    assert forall k :: k in items <==> k in items[..r] || k in items[r..];
  }

  lemma RotatedEligible(items: seq<string>, r: nat, v: View)
    requires r <= |items|
    ensures |Eligible(Rotated(items, r), v)| == |Eligible(items, v)|
    ensures forall k :: k in Eligible(Rotated(items, r), v) <==> k in Eligible(items, v)
  {
    assert items == items[..r] + items[r..];
    EligibleAppend(items[..r], items[r..], v);
    EligibleAppend(items[r..], items[..r], v);
  }

  /** One call visits every place of the list exactly once. */
  lemma RotationVisitsAll(items: seq<string>, idx: nat)
    requires items != []
    ensures var c := Rotated(items, M.Rem(idx, |items|));
            && multiset(c) == multiset(items)
            && (forall t: nat :: t < |items| ==> c[t] == items[M.Rem(idx + t, |items|)])
  {
    RotatedMembers(items, M.Rem(idx, |items|));
    forall t: nat | t < |items|
      ensures Rotated(items, M.Rem(idx, |items|))[t] == items[M.Rem(idx + t, |items|)]
    {
      RotatedAt(items, idx, t);
    }
  }

  predicate AllSkippable(cands: seq<string>, v: View, skips: map<string, nat>) {
    forall k <- cands :: Skippable(v, skips, k)
  }

  /** The loop comes up empty exactly when every eligible proxy is one it may step
      over and the budget covers them all; otherwise it settles on an eligible one. */
  lemma {:induction false} ScanOutcome(cands: seq<string>, v: View, skips: map<string, nat>, budget: nat)
    requires NoRepeats(cands)
    ensures var s := ScanOver(cands, v, skips, budget);
            && (s.pick.None? <==> AllSkippable(Eligible(cands, v), v, skips) && |Eligible(cands, v)| <= budget)
            && (s.pick.Some? ==> s.pick.value in Eligible(cands, v))
  {
    hide Skippable;
    hide Avoided;
    hide AllSkippable;
    hide NoRepeats;
    NothingSkippable(v, skips);
    if cands != [] {
      var c, rest := cands[0], cands[1..];
      TailNoRepeats(cands);
      var e := Eligible(rest, v);
      if c in v.sleeping || Avoided(v, c) {
        assert Eligible(cands, v) == e;
        ScanOutcome(rest, v, skips, budget);
      } else {
        assert Eligible(cands, v) == [c] + e;
        SkippableCons(c, e, v, skips);
        if Skippable(v, skips, c) && budget > 0 {
          ScanOutcome(rest, v, skips[c := CountAt(skips, c) + 1], budget - 1);
          EligibleMembers(rest, v);
          SkippableElsewhere(e, v, skips, c);
        }
      }
    }
  }

  lemma NothingSkippable(v: View, skips: map<string, nat>)
    ensures AllSkippable([], v, skips)
  {
  }

  lemma TailNoRepeats(s: seq<string>)
    requires s != [] && NoRepeats(s)
    ensures NoRepeats(s[1..]) && s[0] !in s[1..]
  {
  }

  lemma SkippableCons(c: string, e: seq<string>, v: View, skips: map<string, nat>)
    ensures AllSkippable([c] + e, v, skips) <==> Skippable(v, skips, c) && AllSkippable(e, v, skips)
    ensures c in [c] + e && forall k <- e :: k in [c] + e
  {
  }

  lemma SkippableElsewhere(e: seq<string>, v: View, skips: map<string, nat>, c: string)
    requires c !in e
    ensures AllSkippable(e, v, skips[c := CountAt(skips, c) + 1]) <==> AllSkippable(e, v, skips)
  {
    var skips' := skips[c := CountAt(skips, c) + 1];
    assert forall k <- e :: Skippable(v, skips', k) == Skippable(v, skips, k);
  }

  lemma {:induction false} ScanMeetsAvoided(cands: seq<string>, v: View, skips: map<string, nat>, budget: nat)
    requires ScanOver(cands, v, skips, budget).pick.None?
    ensures ScanOver(cands, v, skips, budget).fallback <==> v.avoid != "" && v.avoid in cands && v.avoid !in v.sleeping
  {
    if cands != [] {
      var c, rest := cands[0], cands[1..];
      assert cands == [c] + rest;
      if c in v.sleeping || Avoided(v, c) {
        ScanMeetsAvoided(rest, v, skips, budget);
      } else {
        ScanMeetsAvoided(rest, v, skips[c := CountAt(skips, c) + 1], budget - 1);
      }
    }
  }

  /** The avoided proxy is there and awake. */
  predicate AvoidedAwake(p: Pool, avoid: string) {
    avoid != "" && avoid in p.items && avoid !in p.sleeping
  }

  /** Every second-opinion proxy will be stepped over for slowness. */
  predicate AllPassedOver(p: Pool, avoid: string) {
    var v := ViewOf(p, avoid);
    AllSkippable(Eligible(p.items, v), v, p.skips) && |Eligible(p.items, v)| <= |p.items| / 2
  }

  predicate SecondOpinion(p: Pool, avoid: string, k: string) {
    k in p.items && k !in p.sleeping && !(avoid != "" && k == avoid)
  }

  /** Pick correctness. No proxies gives none; otherwise a member of the pool, and
      an awake proxy other than the avoided one if and only if some such proxy will
      not be stepped over, or the plain-rotation fallback happens to land on one. */
  lemma PickIsSecondOpinion(p: Pool, avoid: string, now: int)
    requires PoolInv(p)
    ensures var (k, p') := Pick(p, avoid, now); var q := Refreshed(p, now);
            && (p.items == [] <==> k.None?)
            && (k.Some? ==> k.value in p.items)
            && (k.Some? ==>
                  (SecondOpinion(q, avoid, k.value) <==>
                     !AllPassedOver(q, avoid)
                     || (!AvoidedAwake(q, avoid) && SecondOpinion(q, avoid, q.items[M.Rem(q.idx, |q.items|)]))))
  {
    if p.items != [] {
      var q := Refreshed(p, now);
      RefreshKeepsInv(p, now);
      EligibleMembers(q.items, ViewOf(q, avoid));
      if q.healthyN == 0 {
        NoneAwake(q.items, q.sleeping.Keys);
        NothingEligible(q.items, ViewOf(q, avoid));
      } else {
        CallOutcome(q, avoid);
      }
    }
  }

  lemma {:induction false} NothingEligible(items: seq<string>, v: View)
    requires forall k <- items :: k in v.sleeping
    ensures Eligible(items, v) == []
  {
    if items != [] {
      NothingEligible(items[1..], v);
    }
  }

  /** The loop's outcome in terms of the list as the pool holds it. */
  lemma CallOutcome(q: Pool, avoid: string)
    requires NoRepeats(q.items) && q.items != []
    ensures var s := CallScan(q, avoid);
            && (s.pick.None? <==> AllPassedOver(q, avoid))
            && (s.pick.Some? ==> SecondOpinion(q, avoid, s.pick.value))
            && (s.pick.None? ==> (s.fallback <==> AvoidedAwake(q, avoid)))
  {
    var v, r := ViewOf(q, avoid), M.Rem(q.idx, |q.items|);
    RotatedMembers(q.items, r);
    RotatedEligible(q.items, r, v);
    EligibleMembers(q.items, v);
    ScanOutcome(Rotated(q.items, r), v, q.skips, |q.items| / 2);
    if CallScan(q, avoid).pick.None? {
      ScanMeetsAvoided(Rotated(q.items, r), v, q.skips, |q.items| / 2);
    }
  }

  lemma {:induction false} NoneAwake(items: seq<string>, sleeping: set<string>)
    ensures |Awake(items, sleeping)| == 0 <==> forall k <- items :: k in sleeping
  {
    if items != [] {
      NoneAwake(items[1..], sleeping);
      assert items == [items[0]] + items[1..];
    }
  }

  /** More second-opinion proxies than half the pool, or one with none of them slow:
      the pick is one of them. */
  lemma EnoughProxiesGiveSecondOpinion(p: Pool, avoid: string, now: int)
    requires PoolInv(p) && p.items != []
    requires var q := Refreshed(p, now); var e := Eligible(q.items, ViewOf(q, avoid));
             |e| > |q.items| / 2
             || (e != [] && forall k <- e :: !Slow(q.latency, ViewOf(q, avoid).cutoff, k))
    ensures SecondOpinion(Refreshed(p, now), avoid, Pick(p, avoid, now).0.value)
  {
    PickIsSecondOpinion(p, avoid, now);
    var q := Refreshed(p, now);
    var e := Eligible(q.items, ViewOf(q, avoid));
    if |e| <= |q.items| / 2 {
      assert e[0] in e;
    }
  }

  // --------------------------------------------------------- over whole runs

  /** The cached count agrees with a full scan, failure streaks stay below the
      quarantine threshold and skip counters below the re-probe interval. */
  ghost predicate PoolInv(p: Pool) {
    && NoRepeats(p.items)
    && p.healthyN == |Awake(p.items, p.sleeping.Keys)|
    && (forall k <- p.fails :: p.fails[k] < MAX_FAILS)
    && (forall k <- p.skips :: p.skips[k] < SLOW_PROBE_INTERVAL)
  }

  datatype Event =
    | Choose(avoid: string, now: int)
    | Worked(k: string, ms: real)
    | Failed(k: string, now: int)
    | Asked(now: int)

  function Step(p: Pool, e: Event): Pool {
    match e
    case Choose(avoid, now) => Pick(p, avoid, now).1
    case Worked(k, ms) => if k in p.items then MarkOK(p, k, ms) else p
    case Failed(k, now) => if k in p.items then MarkFail(p, k, now) else p
    case Asked(now) => Refreshed(p, now)
  }

  function Run(p: Pool, es: seq<Event>): Pool
    decreases es
  {
    if es == [] then p else Run(Step(p, es[0]), es[1..])
  }

  lemma RefreshKeepsInv(p: Pool, now: int)
    requires PoolInv(p)
    ensures PoolInv(Refreshed(p, now))
  {
  }

  /** Putting one awake member to sleep lowers the full count by exactly one. */
  lemma {:induction false} SleepingOne(items: seq<string>, sleeping: set<string>, k: string)
    requires NoRepeats(items) && k !in sleeping
    ensures |Awake(items, sleeping + {k})| == |Awake(items, sleeping)| - (if k in items then 1 else 0)
  {
    if items != [] {
      SleepingOne(items[1..], sleeping, k);
      assert items == [items[0]] + items[1..];
    }
  }

  lemma MarkFailKeepsInv(p: Pool, k: string, now: int)
    requires PoolInv(p) && k in p.items
    ensures PoolInv(MarkFail(p, k, now))
  {
    hide Awake;
    hide NoRepeats;
    var p' := MarkFail(p, k, now);
    if CountAt(p.fails, k) + 1 >= MAX_FAILS {
      assert p'.sleeping.Keys == p.sleeping.Keys + {k};
      if k !in p.sleeping {
        SleepingOne(p.items, p.sleeping.Keys, k);
      } else {
        assert p.sleeping.Keys + {k} == p.sleeping.Keys;
      }
    }
  }

  lemma MarkOKKeepsInv(p: Pool, k: string, ms: real)
    requires PoolInv(p) && k in p.items
    ensures PoolInv(MarkOK(p, k, ms))
  {
    hide Awake;
    hide NoRepeats;
    var p' := MarkOK(p, k, ms);
    assert p'.sleeping == p.sleeping - {k};
    assert p'.sleeping.Keys == p.sleeping.Keys - {k};
    if k in p.sleeping {
      SleepingOne(p.items, p'.sleeping.Keys, k);
      assert p'.sleeping.Keys + {k} == p.sleeping.Keys;
    } else {
      assert p.sleeping.Keys - {k} == p.sleeping.Keys;
    }
  }

  lemma {:induction false} ScanSkips(cands: seq<string>, v: View, skips: map<string, nat>, budget: nat, k: string)
    requires NoRepeats(cands)
    requires forall x <- skips :: skips[x] < SLOW_PROBE_INTERVAL
    ensures var s := ScanOver(cands, v, skips, budget);
            && (forall x <- s.skips :: s.skips[x] < SLOW_PROBE_INTERVAL)
            && (forall x <- s.passed :: x in cands)
            && (s.pick != Some(k) ==>
                  CountAt(s.skips, k) == CountAt(skips, k) + (if k in s.passed then 1 else 0))
  {
    if cands != [] {
      var c, rest := cands[0], cands[1..];
      if c in v.sleeping || Avoided(v, c) {
        ScanSkips(rest, v, skips, budget, k);
      } else if Skippable(v, skips, c) && budget > 0 {
        var skips' := skips[c := CountAt(skips, c) + 1];
        ScanSkips(rest, v, skips', budget - 1, k);
        assert c !in rest;
      }
    }
  }

  lemma CallSkips(q: Pool, avoid: string, k: string)
    requires PoolInv(q) && q.items != []
    ensures var s := CallScan(q, avoid);
            && (forall x <- s.skips :: s.skips[x] < SLOW_PROBE_INTERVAL)
            && (s.pick != Some(k) ==>
                  CountAt(s.skips, k) == CountAt(q.skips, k) + (if k in s.passed then 1 else 0))
  {
    var r := M.Rem(q.idx, |q.items|);
    RotatedMembers(q.items, r);
    ScanSkips(Rotated(q.items, r), ViewOf(q, avoid), q.skips, |q.items| / 2, k);
  }

  lemma PickKeepsInv(p: Pool, avoid: string, now: int)
    requires PoolInv(p)
    ensures PoolInv(Pick(p, avoid, now).1)
  {
    hide Refreshed;
    hide CallScan;
    hide Awake;
    hide M.Rem;
    if p.items != [] {
      RefreshKeepsInv(p, now);
      CallSkips(Refreshed(p, now), avoid, "");
    }
  }

  lemma StepKeepsInv(p: Pool, e: Event)
    requires PoolInv(p)
    ensures PoolInv(Step(p, e))
  {
    hide PoolInv;
    hide Pick;
    hide MarkOK;
    hide MarkFail;
    hide Refreshed;
    hide CallScan;
    match e {
      case Worked(k, ms) => if k in p.items { MarkOKKeepsInv(p, k, ms); }
      case Failed(k, now) => if k in p.items { MarkFailKeepsInv(p, k, now); }
      case Asked(now) => RefreshKeepsInv(p, now);
      case Choose(avoid, now) => PickKeepsInv(p, avoid, now);
    }
  }

  lemma {:induction false} RunKeepsInv(p: Pool, es: seq<Event>)
    requires PoolInv(p)
    ensures PoolInv(Run(p, es))
    decreases es
  {
    if es != [] {
      StepKeepsInv(p, es[0]);
      RunKeepsInv(Step(p, es[0]), es[1..]);
    }
  }

  /** Cached health agrees with a full scan in every run from a fresh pool. */
  lemma EveryRunKeepsInv(items: seq<string>, es: seq<Event>)
    requires NoRepeats(items)
    ensures PoolInv(Run(NewPool(items), es))
  {
    NobodyAsleep(items);
    assert NewPool(items).sleeping.Keys == {};
    RunKeepsInv(NewPool(items), es);
  }

  lemma {:induction false} NobodyAsleep(items: seq<string>)
    ensures Awake(items, {}) == items
  {
    if items != [] {
      NobodyAsleep(items[1..]);
    }
  }

  /** Two proxies, the one five times as slow as the other. */
  function FastAndSlow(): Pool {
    Pool(["a", "b"], 0, map[], map[], map["a" := 10.0, "b" := 50.0], map[], 10.0, 2, Some(0))
  }

  const TO_FAST_AND_SLOW: seq<Event> := [Worked("a", 10.0), Worked("b", 50.0), Asked(0)]

  lemma RunOfThree(p: Pool, a: Event, b: Event, c: Event)
    ensures Run(p, [a, b, c]) == Step(Step(Step(p, a), b), c)
  {
    hide Step;
    assert [a, b, c][1..] == [b, c] && [b, c][1..] == [c] && [c][1..] == [];
    var p1, p2 := Step(p, a), Step(Step(p, a), b);
    assert Run(p2, [c]) == Run(Step(p2, c), []);
    assert Run(p, [a, b, c]) == Run(p1, [b, c]) == Run(p2, [c]);
  }

  lemma FastAndSlowAwake()
    ensures Awake(["a", "b"], {}) == ["a", "b"]
    ensures Fastest(["a", "b"], {}, map["a" := 10.0, "b" := 50.0], 0.0) == 10.0
  {
    NobodyAsleep(["a", "b"]);
    var l := map["a" := 10.0, "b" := 50.0];
    assert ["a", "b"][1..] == ["b"] && ["b"][1..] == [];
    assert Latency(l, "a") == 10.0 && Latency(l, "b") == 50.0;
    assert Fastest(["b"], {}, l, 10.0) == Fastest([], {}, l, 10.0);
    assert Fastest(["a", "b"], {}, l, 0.0) == Fastest(["b"], {}, l, 10.0);
  }

  /** A run that gets there. */
  lemma FastAndSlowIsReached()
    ensures Run(NewPool(["a", "b"]), TO_FAST_AND_SLOW) == FastAndSlow()
  {
    hide Awake;
    hide Fastest;
    var p0 := NewPool(["a", "b"]);
    RunOfThree(p0, Worked("a", 10.0), Worked("b", 50.0), Asked(0));
    var p1 := MarkOK(p0, "a", 10.0);
    var p2 := MarkOK(p1, "b", 50.0);
    assert p2.latency == map["a" := 10.0, "b" := 50.0];
    assert p2.fails == map[] && p2.sleeping == map[] && p2.healthyN == 2;
    FastAndSlowAwake();
    assert Unexpired(p2.sleeping, 0) == map[] && Unexpired(p2.sleeping, 0).Keys == {};
    assert Refreshed(p2, 0).best == 10.0 && Refreshed(p2, 0).healthyN == 2;
    assert Refreshed(p2, 0) == FastAndSlow();
  }

  lemma SlowIsSteppedOver()
    ensures CallScan(FastAndSlow(), "a").pick == None && CallScan(FastAndSlow(), "a").fallback
  {
    var p := FastAndSlow();
    var v := ViewOf(p, "a");
    assert ["a", "b"][1..] == ["b"] && ["b"][1..] == [];
    assert Rotated(p.items, 0) == ["a", "b"];
    assert Skippable(v, map[], "b");
    assert ScanOver([], v, map["b" := 1], 0) == Scan(None, 0, map["b" := 1], false, []);
    var s := ScanOver(["b"], v, map[], 1);
    assert s == Scan(None, 1, map["b" := 1], false, ["b"] + []);
    assert CallScan(p, "a") == s.(used := 2, fallback := true);
  }

  /** The comment in the source is stronger than the code: after two answers, the one
      five times slower than the other, a pick that is to avoid the fast proxy returns
      it although the slow one is awake. */
  lemma AvoidedProxyCanBePicked()
    ensures var p := Run(NewPool(["a", "b"]), TO_FAST_AND_SLOW);
            Pick(p, "a", 0).0 == Some("a") && SecondOpinion(p, "a", "b")
  {
    hide CallScan;
    FastAndSlowIsReached();
    SlowIsSteppedOver();
  }

  /** Whether a call passed over `k`, and whether its loop settled on `k`. */
  predicate PassesOver(p: Pool, e: Event, k: string) {
    e.Choose? && p.items != [] &&
    var q := Refreshed(p, e.now);
    q.healthyN > 0 && k in CallScan(q, e.avoid).passed
  }

  predicate SettlesOn(p: Pool, e: Event, k: string) {
    e.Choose? && p.items != [] &&
    var q := Refreshed(p, e.now);
    q.healthyN > 0 && CallScan(q, e.avoid).pick == Some(k)
  }

  function TimesPassed(p: Pool, es: seq<Event>, k: string): nat
    decreases es
  {
    if es == [] then 0
    else (if PassesOver(p, es[0], k) then 1 else 0) + TimesPassed(Step(p, es[0]), es[1..], k)
  }

  predicate NeverSettles(p: Pool, es: seq<Event>, k: string)
    decreases es
  {
    es == [] || (!SettlesOn(p, es[0], k) && NeverSettles(Step(p, es[0]), es[1..], k))
  }

  lemma StepCountsPasses(p: Pool, e: Event, k: string)
    requires PoolInv(p) && !SettlesOn(p, e, k)
    ensures CountAt(Step(p, e).skips, k) == CountAt(p.skips, k) + (if PassesOver(p, e, k) then 1 else 0)
  {
    hide Refreshed;
    hide CallScan;
    hide M.Rem;
    if e.Choose? && p.items != [] {
      RefreshKeepsInv(p, e.now);
      CallSkips(Refreshed(p, e.now), e.avoid, k);
    }
  }

  /** A slow proxy is never exiled: in any stretch of a run where the rotation does
      not settle on it, it is passed over at most 19 times. */
  lemma {:induction false} SlowProxyIsReprobed(p: Pool, es: seq<Event>, k: string)
    requires PoolInv(p) && NeverSettles(p, es, k)
    ensures TimesPassed(p, es, k) <= SLOW_PROBE_INTERVAL - 1 - CountAt(p.skips, k)
    decreases es
  {
    if es != [] {
      StepKeepsInv(p, es[0]);
      StepCountsPasses(p, es[0], k);
      SlowProxyIsReprobed(Step(p, es[0]), es[1..], k);
    }
  }

  /** Three failures in a row, and no fewer, put an awake proxy to sleep, for the
      quarantine period from the third. */
  lemma ThreeStrikes(p: Pool, k: string, t1: int, t2: int, t3: int)
    requires CountAt(p.fails, k) == 0 && k !in p.sleeping
    ensures var p1 := MarkFail(p, k, t1); var p2 := MarkFail(p1, k, t2); var p3 := MarkFail(p2, k, t3);
            && k !in p1.sleeping && k !in p2.sleeping
            && p3.sleeping == p.sleeping[k := t3 + QUARANTINE]
            && CountAt(p3.fails, k) == 0
  {
  }

  // ------------------------------------------- quarantine told from the events

  /** How often `k` has failed since it last answered. */
  function Streak(es: seq<Event>, k: string): nat {
    if es == [] then 0
    else
      var e, before := es[|es| - 1], Streak(es[..|es| - 1], k);
      if e.Failed? && e.k == k then before + 1
      else if e.Worked? && e.k == k then 0
      else before
  }

  /** Until when its last third failure in a row keeps `k` out, unless it has answered
      since. */
  function OutUntil(es: seq<Event>, k: string): Option<int> {
    if es == [] then None
    else
      var e, before := es[|es| - 1], OutUntil(es[..|es| - 1], k);
      if e.Failed? && e.k == k && Streak(es, k) % 3 == 0 then Some(e.now + 60_000_000_000)
      else if e.Worked? && e.k == k then None
      else before
  }

  lemma {:induction false} RunAppend(p: Pool, es: seq<Event>)
    requires es != []
    ensures Run(p, es) == Step(Run(p, es[..|es| - 1]), es[|es| - 1])
    decreases es
  {
    hide Step;
    if |es| > 1 {
      RunAppend(Step(p, es[0]), es[1..]);
      assert es[1..][..|es| - 2] == es[..|es| - 1][1..];
    } else {
      assert es[1..] == [];
    }
  }

  /** A pick leaves all but the cursor and the skip counters as a sweep leaves it. */
  lemma PickSweeps(p: Pool, avoid: string, now: int)
    ensures var q := Pick(p, avoid, now).1;
            && q.items == p.items && q.fails == p.fails
            && q.sleeping == if p.items == [] then p.sleeping else Refreshed(p, now).sleeping
  {
    hide CallScan;
    hide M.Rem;
    hide Refreshed;
  }

  lemma StepKeepsItems(p: Pool, e: Event)
    ensures Step(p, e).items == p.items
  {
    hide Pick;
    hide Refreshed;
    if e.Choose? {
      PickSweeps(p, e.avoid, e.now);
    }
  }

  lemma StepFails(p: Pool, e: Event, k: string)
    requires k in p.items
    ensures CountAt(Step(p, e).fails, k)
         == if e.Failed? && e.k == k then (if CountAt(p.fails, k) + 1 >= MAX_FAILS then 0 else CountAt(p.fails, k) + 1)
            else if e.Worked? && e.k == k then 0
            else CountAt(p.fails, k)
  {
    hide Pick;
    hide Refreshed;
    if e.Choose? {
      PickSweeps(p, e.avoid, e.now);
    }
  }

  /** What one event does to `k`'s quarantine. */
  lemma StepSleeps(p: Pool, e: Event, k: string, t: int)
    requires k in p.items && (e.Choose? || e.Asked? ==> e.now <= t)
    ensures var p' := Step(p, e);
            if e.Failed? && e.k == k && CountAt(p.fails, k) + 1 >= MAX_FAILS then
              k in p'.sleeping && p'.sleeping[k] == e.now + QUARANTINE
            else if e.Worked? && e.k == k then k !in p'.sleeping
            else
              && (k in p'.sleeping ==> k in p.sleeping && p'.sleeping[k] == p.sleeping[k])
              && (k in p.sleeping && p.sleeping[k] >= t ==> k in p'.sleeping)
  {
    hide Pick;
    hide Awake;
    hide Fastest;
    if e.Choose? {
      PickSweeps(p, e.avoid, e.now);
    }
  }

  /** No sweep later than `t`. */
  predicate NotAfter(es: seq<Event>, t: int) {
    forall e <- es :: e.Choose? || e.Asked? ==> e.now <= t
  }

  lemma {:induction false} QuarantineFollows(items: seq<string>, es: seq<Event>, k: string, t: int)
    requires k in items && NotAfter(es, t)
    ensures var p := Run(NewPool(items), es);
            && p.items == items
            && CountAt(p.fails, k) == Streak(es, k) % MAX_FAILS
            && (k in p.sleeping ==> OutUntil(es, k) == Some(p.sleeping[k]))
            && (OutUntil(es, k).Some? && OutUntil(es, k).value >= t ==> k in p.sleeping)
    decreases |es|
  {
    hide Step;
    if es != [] {
      hide Run;
      hide NewPool;
      var before, e := es[..|es| - 1], es[|es| - 1];
      QuarantineFollows(items, before, k, t);
      RunAppend(NewPool(items), es);
      var p := Run(NewPool(items), before);
      StepKeepsItems(p, e);
      StepFails(p, e, k);
      StepSleeps(p, e, k, t);
      assert e in es;
    }
  }

  /** The failure count is the streak: in every run it is the number of failures since
      the last answer, counted in threes. */
  lemma FailsCountTheStreak(items: seq<string>, es: seq<Event>, k: string)
    requires k in items
    ensures CountAt(Run(NewPool(items), es).fails, k) == Streak(es, k) % MAX_FAILS
  {
    var t := LastSweep(es);
    QuarantineFollows(items, es, k, t);
  }

  lemma {:induction false} LastSweep(es: seq<Event>) returns (t: int)
    ensures NotAfter(es, t)
  {
    t := 0;
    if es != [] {
      t := LastSweep(es[1..]);
      assert es == [es[0]] + es[1..];
      if (es[0].Choose? || es[0].Asked?) && es[0].now > t {
        t := es[0].now;
      }
    }
  }

  /** Quarantine is exact. Whatever has happened, a sweep that is due finds `k` out if
      and only if its last third failure in a row is no more than a minute old and it
      has not answered since. */
  lemma AsleepExactly(items: seq<string>, es: seq<Event>, k: string, now: int)
    requires k in items && NotAfter(es, now)
    requires var p := Run(NewPool(items), es); p.refreshedAt.Some? ==> now - p.refreshedAt.value >= 200_000_000
    ensures k in Refreshed(Run(NewPool(items), es), now).sleeping
       <==> OutUntil(es, k).Some? && now <= OutUntil(es, k).value
  {
    hide Awake;
    hide Fastest;
    hide Run;
    hide OutUntil;
    QuarantineFollows(items, es, k, now);
  }

  // ------------------------------------------------- while a quarantine lasts

  function TimeOf(e: Event): int {
    match e
    case Choose(_, now) => now
    case Failed(_, now) => now
    case Asked(now) => now
    case Worked(_, _) => 0
  }

  /** It happens within a quarantine period of `from`, and is not an answer of `k`. */
  predicate Within(e: Event, k: string, from: int) {
    if e.Worked? then e.k != k else from <= TimeOf(e) <= from + QUARANTINE
  }

  ghost predicate AsleepUntil(p: Pool, k: string, until: int) {
    k in p.sleeping && p.sleeping[k] >= until
  }

  lemma StepKeepsAsleep(p: Pool, e: Event, k: string, from: int)
    requires AsleepUntil(p, k, from + QUARANTINE) && Within(e, k, from)
    ensures AsleepUntil(Step(p, e), k, from + QUARANTINE)
  {
    hide CallScan;
    hide Awake;
    hide Fastest;
    hide M.Rem;
  }

  lemma {:induction false} NeverSettlesAsleep(cands: seq<string>, v: View, skips: map<string, nat>, budget: nat)
    ensures var s := ScanOver(cands, v, skips, budget); s.pick.Some? ==> s.pick.value !in v.sleeping
  {
    hide Skippable;
    if cands != [] {
      NeverSettlesAsleep(cands[1..], v, skips, budget);
      if budget > 0 {
        NeverSettlesAsleep(cands[1..], v, skips[cands[0] := CountAt(skips, cands[0]) + 1], budget - 1);
      }
    }
  }

  /** Quarantine holds. Until its time is up, and unless it answers, a sleeping proxy
      stays asleep through any run and the pick loop never settles on it. */
  lemma {:induction false} QuarantineHolds(p: Pool, es: seq<Event>, k: string, from: int)
    requires AsleepUntil(p, k, from + QUARANTINE) && forall e <- es :: Within(e, k, from)
    ensures AsleepUntil(Run(p, es), k, from + QUARANTINE) && NeverSettles(p, es, k)
    decreases es
  {
    hide Step;
    hide AsleepUntil;
    hide SettlesOn;
    if es != [] {
      StepKeepsAsleep(p, es[0], k, from);
      AsleepIsNotSettledOn(p, es[0], k, from);
      QuarantineHolds(Step(p, es[0]), es[1..], k, from);
    }
  }

  lemma AsleepIsNotSettledOn(p: Pool, e: Event, k: string, from: int)
    requires AsleepUntil(p, k, from + QUARANTINE) && Within(e, k, from)
    ensures !SettlesOn(p, e, k)
  {
    hide Awake;
    hide Fastest;
    hide ScanOver;
    if e.Choose? && p.items != [] {
      var q := Refreshed(p, e.now);
      NeverSettlesAsleep(Rotated(q.items, M.Rem(q.idx, |q.items|)), ViewOf(q, e.avoid), q.skips, |q.items| / 2);
    }
  }

  /** The reference latency is the smallest measured one among awake proxies. */
  lemma {:induction false} FastestIsLeast(
    items: seq<string>, sleeping: set<string>, latency: map<string, real>, best: real)
    requires best >= 0.0
    ensures var f := Fastest(items, sleeping, latency, best);
            && (forall k <- items :: k !in sleeping && Latency(latency, k) > 0.0 ==> 0.0 < f <= Latency(latency, k))
            && (best > 0.0 ==> 0.0 < f <= best)
            && (f == best || exists k <- items :: k !in sleeping && f == Latency(latency, k) > 0.0)
  {
    if items != [] {
      var b := if items[0] in sleeping then best else Faster(best, Latency(latency, items[0]));
      FastestIsLeast(items[1..], sleeping, latency, b);
      assert items == [items[0]] + items[1..];
    }
  }

  /** With everything awake and nothing slow or avoided, a pick is the next in line. */
  lemma HealthyPick(p: Pool, now: int)
    requires PoolInv(p) && p.items != []
    requires var q := Refreshed(p, now);
             forall k <- p.items :: k !in q.sleeping && !Slow(q.latency, ViewOf(q, "").cutoff, k)
    ensures var (k, p') := Pick(p, "", now);
            k == Some(p.items[M.Rem(p.idx, |p.items|)]) && p'.idx == p.idx + 1
  {
    hide Fastest;
    hide Unexpired;
    hide M.Rem;
    hide Awake;
    var q := Refreshed(p, now);
    RefreshKeepsInv(p, now);
    NoneAwake(q.items, q.sleeping.Keys);
    assert q.items[0] in q.items;
    var c := Rotated(q.items, M.Rem(q.idx, |q.items|));
    assert c[0] == q.items[M.Rem(q.idx, |q.items|)] && c[0] in q.items;
  }

  /** Nobody is asleep, and nobody is slow by the cached reference latency or the one a
      recount gives. */
  predicate Calm(p: Pool) {
    && p.sleeping == map[]
    && (forall k <- p.items :: !Slow(p.latency, Cutoff(p.best), k))
    && (forall k <- p.items :: !Slow(p.latency, Cutoff(Fastest(p.items, {}, p.latency, 0.0)), k))
  }

  /** What consecutive calls return that are each to avoid the same proxy, or none. */
  function Picks(p: Pool, avoid: string, nows: seq<int>): (r: seq<Option<string>>)
    ensures |r| == |nows|
    decreases nows
  {
    if nows == [] then []
    else [Pick(p, avoid, nows[0]).0] + Picks(Pick(p, avoid, nows[0]).1, avoid, nows[1..])
  }

  lemma CalmPick(p: Pool, now: int)
    requires PoolInv(p) && p.items != [] && Calm(p)
    ensures var (k, p') := Pick(p, "", now);
            && k == Some(p.items[M.Rem(p.idx, |p.items|)])
            && p'.idx == p.idx + 1 && p'.items == p.items && Calm(p')
  {
    hide Fastest;
    hide M.Rem;
    hide Awake;
    hide CallScan;
    hide Slow;
    assert Unexpired(map[], now) == map[];
    var none: map<string, int> := map[];
    assert none.Keys == {};
    HealthyPick(p, now);
  }

  /** Plain rotation: with everything awake and nothing slow or avoided, any number of
      picks, whenever they are made, walk the list in order. */
  lemma {:induction false} HealthyPoolRotates(p: Pool, nows: seq<int>, j: nat)
    requires PoolInv(p) && p.items != [] && Calm(p) && j < |nows|
    ensures Picks(p, "", nows)[j] == Some(p.items[M.Rem(p.idx + j, |p.items|)])
    decreases nows
  {
    hide Pick;
    hide PoolInv;
    hide Calm;
    hide M.Rem;
    CalmPick(p, nows[0]);
    PickKeepsInv(p, "", nows[0]);
    if j > 0 {
      HealthyPoolRotates(Pick(p, "", nows[0]).1, nows[1..], j - 1);
    }
  }

  /** Everything is asleep, past every one of the given moments. */
  predicate AllOut(p: Pool, nows: seq<int>) {
    forall k <- p.items :: k in p.sleeping && forall now <- nows :: now <= p.sleeping[k]
  }

  lemma OutPick(p: Pool, avoid: string, nows: seq<int>)
    requires PoolInv(p) && p.items != [] && nows != [] && AllOut(p, nows)
    ensures var (k, p') := Pick(p, avoid, nows[0]);
            && k == Some(p.items[M.Rem(p.idx, |p.items|)])
            && p'.idx == p.idx + 1 && p'.items == p.items && AllOut(p', nows[1..])
  {
    hide Fastest;
    hide M.Rem;
    hide Awake;
    hide CallScan;
    var q := Refreshed(p, nows[0]);
    RefreshKeepsInv(p, nows[0]);
    assert nows[0] in nows;
    assert forall k <- p.items :: k in q.sleeping && q.sleeping[k] == p.sleeping[k];
    NoneAwake(q.items, q.sleeping.Keys);
    assert forall now <- nows[1..] :: now in nows;
  }

  /** With everything in quarantine the run goes on: any number of picks walk the list in
      order, whatever is slow or to be avoided. */
  lemma {:induction false} QuarantinedPoolRotates(p: Pool, avoid: string, nows: seq<int>, j: nat)
    requires PoolInv(p) && p.items != [] && AllOut(p, nows) && j < |nows|
    ensures Picks(p, avoid, nows)[j] == Some(p.items[M.Rem(p.idx + j, |p.items|)])
    decreases nows
  {
    hide Pick;
    hide PoolInv;
    hide AllOut;
    hide M.Rem;
    OutPick(p, avoid, nows);
    PickKeepsInv(p, avoid, nows[0]);
    if j > 0 {
      QuarantinedPoolRotates(Pick(p, avoid, nows[0]).1, avoid, nows[1..], j - 1);
    }
  }

  // ------------------------------------------------------------- how often it sweeps

  /** A sweep happens if and only if none did in the two tenths of a second before. */
  lemma SweepsExactlyWhen(p: Pool, now: int)
    ensures Refreshed(p, now) != p <==> p.refreshedAt.None? || now - p.refreshedAt.value >= 200_000_000
    ensures Refreshed(p, now) != p ==> Refreshed(p, now).refreshedAt == Some(now)
  {
  }

  // --------------------------------------------------------- the measured latency

  /** The round trips measured for `k`, oldest first. */
  function Samples(es: seq<Event>, k: string): seq<real> {
    if es == [] then []
    else
      var e := es[|es| - 1];
      Samples(es[..|es| - 1], k) + (if e.Worked? && e.k == k && e.ms > 0.0 then [e.ms] else [])
  }

  /** Each new sample moves the value three tenths of the way. */
  function Smoothed(samples: seq<real>): real {
    if samples == [] then 0.0
    else if |samples| == 1 then samples[0]
    else
      var before := Smoothed(samples[..|samples| - 1]);
      before + (samples[|samples| - 1] - before) * 3.0 / 10.0
  }

  lemma StepLatency(p: Pool, e: Event, k: string)
    requires k in p.items
    ensures var l := Step(p, e).latency;
            if e.Worked? && e.k == k && e.ms > 0.0 then
              k in l && l[k] == if k in p.latency then p.latency[k] * 0.7 + e.ms * 0.3 else e.ms
            else (k in l <==> k in p.latency) && (k in l ==> l[k] == p.latency[k])
  {
    hide Pick;
    hide Refreshed;
    if e.Choose? {
      PickLatency(p, e.avoid, e.now);
    }
    if e.Asked? {
      assert Refreshed(p, e.now).latency == p.latency;
    }
  }

  lemma PickLatency(p: Pool, avoid: string, now: int)
    ensures Pick(p, avoid, now).1.latency == p.latency
  {
    hide CallScan;
    hide M.Rem;
    hide Refreshed;
  }

  /** In every run the latency kept for a proxy is that of its measured round trips, and
      nothing for one that was never measured. */
  lemma {:induction false} LatencyFollowsSamples(items: seq<string>, es: seq<Event>, k: string)
    requires k in items
    ensures var p, samples := Run(NewPool(items), es), Samples(es, k);
            && p.items == items
            && (k in p.latency <==> samples != [])
            && Latency(p.latency, k) == Smoothed(samples)
    decreases |es|
  {
    hide Step;
    if es != [] {
      hide Run;
      hide NewPool;
      var before, e := es[..|es| - 1], es[|es| - 1];
      LatencyFollowsSamples(items, before, k);
      RunAppend(NewPool(items), es);
      var p := Run(NewPool(items), before);
      StepKeepsItems(p, e);
      StepLatency(p, e, k);
      var earlier := Samples(before, k);
      if e.Worked? && e.k == k && e.ms > 0.0 {
        assert (earlier + [e.ms])[..|earlier|] == earlier;
        assert Samples(es, k) == earlier + [e.ms];
      } else {
        assert Samples(es, k) == earlier;
      }
    }
  }

  /** So it never leaves the range of what was measured. */
  lemma {:induction false} SmoothedStaysBetween(samples: seq<real>, low: real, high: real)
    requires samples != [] && forall x <- samples :: low <= x <= high
    ensures low <= Smoothed(samples) <= high
  {
    var last := samples[|samples| - 1];
    assert last in samples;
    if |samples| > 1 {
      var before := samples[..|samples| - 1];
      assert forall x <- before :: x in samples;
      SmoothedStaysBetween(before, low, high);
    }
  }

  // ------------------------------------------------------------ who is passed over

  lemma {:induction false} PassedInScan(cands: seq<string>, v: View, skips: map<string, nat>, budget: nat, k: string)
    requires NoRepeats(cands) && k in ScanOver(cands, v, skips, budget).passed
    ensures k in cands && k !in v.sleeping && !Avoided(v, k) && Skippable(v, skips, k)
  {
    hide Slow;
    hide NoRepeats;
    TailNoRepeats(cands);
    var c, rest := cands[0], cands[1..];
    if c in v.sleeping || Avoided(v, c) {
      PassedInScan(rest, v, skips, budget, k);
    } else if Skippable(v, skips, c) && budget > 0 && k != c {
      var skips' := skips[c := CountAt(skips, c) + 1];
      PassedInScan(rest, v, skips', budget - 1, k);
      assert CountAt(skips', k) == CountAt(skips, k);
    }
  }

  lemma {:induction false} PassedWithinBudget(cands: seq<string>, v: View, skips: map<string, nat>, budget: nat)
    ensures |ScanOver(cands, v, skips, budget).passed| <= budget
  {
    hide Skippable;
    if cands != [] {
      PassedWithinBudget(cands[1..], v, skips, budget);
      if budget > 0 {
        PassedWithinBudget(cands[1..], v, skips[cands[0] := CountAt(skips, cands[0]) + 1], budget - 1);
      }
    }
  }

  /** Only a proxy that is awake, not the avoided one, more than four times as slow as the
      fastest, and not yet passed over nineteen times, is passed over; and in one call no
      more than half the pool. */
  lemma PassedAreSlow(q: Pool, avoid: string, k: string)
    requires NoRepeats(q.items) && q.items != []
    ensures |CallScan(q, avoid).passed| <= |q.items| / 2
    ensures k in CallScan(q, avoid).passed ==>
              && k in q.items && k !in q.sleeping && (avoid == "" || k != avoid)
              && q.best > 0.0 && Latency(q.latency, k) > 4.0 * q.best
              && CountAt(q.skips, k) < 19
  {
    var r := M.Rem(q.idx, |q.items|);
    RotatedMembers(q.items, r);
    PassedWithinBudget(Rotated(q.items, r), ViewOf(q, avoid), q.skips, |q.items| / 2);
    if k in CallScan(q, avoid).passed {
      PassedInScan(Rotated(q.items, r), ViewOf(q, avoid), q.skips, |q.items| / 2, k);
    }
  }

  /** And such a proxy is passed over when the rotation comes to it first, in any pool of
      two or more. */
  lemma SlowIsPassed(q: Pool, avoid: string)
    requires |q.items| >= 2
    requires var k := q.items[M.Rem(q.idx, |q.items|)];
             && k !in q.sleeping && (avoid == "" || k != avoid)
             && q.best > 0.0 && Latency(q.latency, k) > 4.0 * q.best && CountAt(q.skips, k) < 19
    ensures q.items[M.Rem(q.idx, |q.items|)] in CallScan(q, avoid).passed
  {
    hide M.Rem;
    var c := Rotated(q.items, M.Rem(q.idx, |q.items|));
    var k := q.items[M.Rem(q.idx, |q.items|)];
    assert c[0] == k;
    assert Skippable(ViewOf(q, avoid), q.skips, k);
    assert |q.items| / 2 > 0;
  }

  // --------------------------------------------------------------- the cursor

  lemma {:induction false} ScanStops(cands: seq<string>, v: View, skips: map<string, nat>, budget: nat)
    ensures var s := ScanOver(cands, v, skips, budget);
            s.pick.Some? ==> 1 <= s.used <= |cands| && cands[s.used - 1] == s.pick.value
  {
    hide Skippable;
    hide Avoided;
    if cands != [] {
      var c, rest := cands[0], cands[1..];
      ScanStops(rest, v, skips, budget);
      if budget > 0 {
        ScanStops(rest, v, skips[c := CountAt(skips, c) + 1], budget - 1);
      }
    }
  }

  /** After a pick the cursor stands right behind the proxy that was handed out; only when
      the avoided one had to be does it come round to where it was. */
  lemma CursorFollowsPick(p: Pool, avoid: string, now: int)
    requires p.items != []
    ensures var (k, p') := Pick(p, avoid, now); var n := |p.items|;
            && p'.idx > p.idx
            && (k == Some(p.items[M.Rem(p'.idx - 1, n)])
                || (k == Some(avoid) && M.Rem(p'.idx, n) == M.Rem(p.idx, n)))
  {
    hide M.Rem;
    hide Rotated;
    hide ScanOver;
    hide Refreshed;
    hide ViewOf;
    var q, n := Refreshed(p, now), |p.items|;
    if q.healthyN > 0 {
      var c := Rotated(q.items, M.Rem(q.idx, n));
      var s := CallScan(q, avoid);
      ScanStops(c, ViewOf(q, avoid), q.skips, n / 2);
      M.Advance(q.idx, n, n);
      if s.pick.Some? {
        RotatedAt(q.items, q.idx, s.used - 1);
      }
    }
  }
}
