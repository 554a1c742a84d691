/** The adaptive concurrency cap: additive increase, multiplicative decrease, a
    remembered edge and a moving ceiling, over the reals. */
module Limiter {
  import opened Text

  /** Times are nanoseconds on one monotone clock. */
  const CUT_COOLDOWN: int := 1_000_000_000
  const PROBE_INTERVAL: int := 5_000_000_000
  const CLEAN_STREAK: nat := 16
  const MIN_FLOOR_DIVISOR: int := 20

  function Min(a: real, b: real): real {
    if a <= b then a else b
  }

  function Max(a: real, b: real): real {
    if a >= b then a else b
  }

  /** `math.Ceil`. */
  function Ceil(x: real): int {
    if x == x.Floor as real then x.Floor else x.Floor + 1
  }

  /** The control state of `adaptiveLimiter`. */
  datatype Lim = Lim(
    enabled: bool,
    limit: real,
    min: real,
    max: real,
    inflight: nat,
    ceiling: real,
    clean: nat,
    lastCut: Option<int>,
    lastGrow: Option<int>,
    ssthresh: real,
    edgeKnown: bool,
    growths: nat,
    cutsMade: nat)

  function Threads(threads: int): int {
    if threads < 1 then 1 else threads
  }

  function FloorFor(threads: int): real {
    var f := Threads(threads) / MIN_FLOOR_DIVISOR;
    Max(1.0, f as real)
  }

  function NewLimiter(threads: int, enabled: bool): Lim {
    var t := Threads(threads) as real;
    Lim(enabled, t, FloorFor(threads), t, 0, 0.0, 0, None, None, t, false, 0, 0)
  }

  function Headroom(l: Lim): real {
    if l.ceiling > 0.0 && l.ceiling < l.max then l.ceiling else l.max
  }

  /** What `acquire` compares the requests in flight with. */
  function Cap(l: Lim): real {
    Min(l.limit, Headroom(l))
  }

  /** What `current` reports. */
  function Current(l: Lim): int {
    if l.enabled then Ceil(Cap(l)) else 0
  }

  predicate HasSlot(l: Lim) {
    l.inflight as real < Cap(l)
  }

  function Admit(l: Lim): Lim {
    if l.enabled && HasSlot(l) then l.(inflight := l.inflight + 1) else l
  }

  function Release(l: Lim): Lim {
    if l.enabled && l.inflight > 0 then l.(inflight := l.inflight - 1) else l
  }

  function GrowthStep(l: Lim): real {
    if l.limit < l.ssthresh then Min(l.limit * 0.5, l.ssthresh - l.limit) else 1.0
  }

  function Grow(l: Lim, now: int): Lim {
    if l.limit >= Headroom(l) then l
    else l.(limit := Min(Headroom(l), l.limit + GrowthStep(l)), lastGrow := Some(now), growths := l.growths + 1)
  }

  function OnClean(l: Lim, now: int): Lim {
    if !l.enabled then l
    else if l.clean + 1 < CLEAN_STREAK then l.(clean := l.clean + 1)
    else Grow(l.(clean := 0), now)
  }

  predicate Since(t: Option<int>, now: int, interval: int) {
    t.None? || now - t.value >= interval
  }

  function Probe(l: Lim, now: int): Lim {
    if l.enabled && Since(l.lastCut, now, PROBE_INTERVAL) && Since(l.lastGrow, now, PROBE_INTERVAL)
    then Grow(l, now) else l
  }

  predicate Cuts(l: Lim, now: int) {
    l.enabled && Since(l.lastCut, now, CUT_COOLDOWN)
  }

  function OnThrottle(l: Lim, now: int): Lim {
    if !Cuts(l, now) then l
    else
      var next := Max(l.min, l.limit * 0.7);
      l.(lastCut := Some(now), clean := 0, edgeKnown := true,
         ssthresh := if !l.edgeKnown || next > l.ssthresh then next else l.ssthresh * 0.95 + next * 0.05,
         limit := Min(next, l.limit),
         cutsMade := if next < l.limit then l.cutsMade + 1 else l.cutsMade)
  }

  function SetCeiling(l: Lim, n: int): Lim {
    if !l.enabled then l
    else if n < 1 then l.(ceiling := 0.0)
    else
      var c := n as real;
      l.(ceiling := c, limit := if l.limit > c then Max(l.min, c) else l.limit)
  }

  // ----------------------------------------------------------------- the class

  /** What one pass of `acquire`'s loop decides. */
  datatype Entry = Admitted | Cancelled | MustWait

  class AdaptiveLimiter {
    const enabled: bool
    var limit: real
    const min: real
    const max: real
    var inflight: nat
    var ceiling: real
    var cleanSinceCut: nat
    var lastCut: Option<int>
    var lastGrow: Option<int>
    var ssthresh: real
    var edgeKnown: bool
    var growths: nat
    var cutsMade: nat

    ghost function State(): Lim
      reads this
    {
      Lim(enabled, limit, min, max, inflight, ceiling, cleanSinceCut, lastCut, lastGrow, ssthresh, edgeKnown,
          growths, cutsMade)
    }

    constructor (threads: int, enabled: bool)
      ensures State() == NewLimiter(threads, enabled)
    {
      var t := Threads(threads);
      this.enabled := enabled;
      limit, max, ssthresh := t as real, t as real, t as real;
      min := Max(1.0, (t / MIN_FLOOR_DIVISOR) as real);
      inflight, ceiling, cleanSinceCut := 0, 0.0, 0;
      lastCut, lastGrow, edgeKnown := None, None, false;
      growths, cutsMade := 0, 0;
    }

    function Room(): (r: real)
      reads this
      ensures r == Headroom(State())
    {
      if ceiling > 0.0 && ceiling < max then ceiling else max
    }

    /** One pass of `acquire`'s loop under the lock. */
    method TryAcquire(cancelled: bool) returns (r: Entry)
      modifies this
      ensures State() == Admit(old(State()))
      ensures r.Admitted? <==> !enabled || HasSlot(old(State()))
      ensures r.Cancelled? <==> enabled && !HasSlot(old(State())) && cancelled
    {
      if !enabled {
        return Admitted;
      }
      if inflight as real >= Min(limit, Room()) {
        return if cancelled then Cancelled else MustWait;
      }
      inflight := inflight + 1;
      return Admitted;
    }

    /** `current`. */
    method Reported() returns (n: int)
      ensures n == Current(State())
    {
      if !enabled {
        return 0;
      }
      return Ceil(Min(limit, Room()));
    }

    method ReleaseSlot()
      modifies this
      ensures State() == Release(old(State()))
    {
      if enabled && inflight > 0 {
        inflight := inflight - 1;
      }
    }

    method GrowLocked(now: int)
      modifies this
      ensures State() == Grow(old(State()), now)
    {
      var top := Room();
      if limit >= top {
        return;
      }
      var step := 1.0;
      if limit < ssthresh {
        step := limit * 0.5;
        if limit + step > ssthresh {
          step := ssthresh - limit;
        }
      }
      limit := Min(top, limit + step);
      lastGrow := Some(now);
      growths := growths + 1;
    }

    method RecordClean(now: int)
      modifies this
      ensures State() == OnClean(old(State()), now)
    {
      if !enabled {
        return;
      }
      cleanSinceCut := cleanSinceCut + 1;
      if cleanSinceCut < CLEAN_STREAK {
        return;
      }
      cleanSinceCut := 0;
      GrowLocked(now);
    }

    method ProbeNow(now: int)
      modifies this
      ensures State() == Probe(old(State()), now)
    {
      if !enabled || limit >= Room() {
        return;
      }
      if lastCut.Some? && now - lastCut.value < PROBE_INTERVAL {
        return;
      }
      if lastGrow.Some? && now - lastGrow.value < PROBE_INTERVAL {
        return;
      }
      GrowLocked(now);
    }

    method RecordThrottle(now: int)
      modifies this
      ensures State() == OnThrottle(old(State()), now)
    {
      if !enabled || (lastCut.Some? && now - lastCut.value < CUT_COOLDOWN) {
        return;
      }
      lastCut := Some(now);
      cleanSinceCut := 0;
      var next := limit * 0.7;
      if next < min {
        next := min;
      }
      if !edgeKnown {
        ssthresh := next;
        edgeKnown := true;
      } else if next > ssthresh {
        ssthresh := next;
      } else {
        ssthresh := ssthresh * 0.95 + next * 0.05;
      }
      if next < limit {
        limit := next;
        cutsMade := cutsMade + 1;
      }
    }

    method SetCeilingTo(n: int)
      modifies this
      ensures State() == SetCeiling(old(State()), n)
    {
      if !enabled {
        return;
      }
      if n < 1 {
        ceiling := 0.0;
        return;
      }
      ceiling := n as real;
      if limit > ceiling {
        limit := Max(min, ceiling);
      }
    }
  }

  // ------------------------------------------------------------------ whole runs

  datatype Event =
    | Enter
    | Leave
    | Clean(now: int)
    | Throttle(now: int)
    | Tick(now: int)
    | Ceiling(n: int)

  function Step(l: Lim, e: Event): Lim {
    match e
    case Enter => Admit(l)
    case Leave => Release(l)
    case Clean(now) => OnClean(l, now)
    case Throttle(now) => OnThrottle(l, now)
    case Tick(now) => Probe(l, now)
    case Ceiling(n) => SetCeiling(l, n)
  }

  function Run(l: Lim, es: seq<Event>): Lim
    decreases es
  {
    if es == [] then l else Run(Step(l, es[0]), es[1..])
  }

  /** The cap stays between the floor and the requested concurrency, and so does the
      remembered edge; requests in flight never exceed the requested concurrency. */
  predicate LimInv(l: Lim, threads: int) {
    && l.max == Threads(threads) as real
    && l.min == FloorFor(threads)
    && 1.0 <= l.min <= l.limit <= l.max
    && l.min <= l.ssthresh <= l.max
    && l.clean < CLEAN_STREAK
    && l.inflight <= Threads(threads)
    && (l.ceiling == 0.0 || l.ceiling >= 1.0)
    && (l.ceiling > 0.0 ==> l.limit <= Max(l.min, l.ceiling))
  }

  lemma NewLimiterInv(threads: int, enabled: bool)
    ensures LimInv(NewLimiter(threads, enabled), threads)
  {
    var t := Threads(threads);
    assert t / MIN_FLOOR_DIVISOR <= t;
  }

  lemma StepKeepsInv(l: Lim, e: Event, threads: int)
    requires LimInv(l, threads)
    ensures LimInv(Step(l, e), threads)
  {
    if e.Throttle? && Cuts(l, e.now) {
      CutLeavesRoom(l, e.now, threads);
    }
  }

  lemma {:induction false} RunKeepsInv(l: Lim, es: seq<Event>, threads: int)
    requires LimInv(l, threads)
    ensures LimInv(Run(l, es), threads)
    decreases es
  {
    if es != [] {
      StepKeepsInv(l, es[0], threads);
      RunKeepsInv(Step(l, es[0]), es[1..], threads);
    }
  }

  lemma LimiterStaysInBounds(threads: int, enabled: bool, es: seq<Event>)
    ensures LimInv(Run(NewLimiter(threads, enabled), es), threads)
  {
    NewLimiterInv(threads, enabled);
    RunKeepsInv(NewLimiter(threads, enabled), es, threads);
  }

  /** A cut lowers the cap to seven tenths or the floor and leaves it at or below
      the edge, so the climb back starts geometric. The first one takes the edge to be
      there; a later one moves it a twentieth of the way down, and never below the cap. */
  lemma CutLeavesRoom(l: Lim, now: int, threads: int)
    requires LimInv(l, threads) && Cuts(l, now)
    ensures var l' := OnThrottle(l, now);
            && l'.limit == Max(l.min, l.limit * 0.7) <= l.limit
            && l'.limit <= l'.ssthresh <= l.max
            && l'.clean == 0 && l'.lastCut == Some(now) && l'.edgeKnown
            && l'.ssthresh == (if !l.edgeKnown then l'.limit
                               else Max(l'.limit, l.ssthresh - (l.ssthresh - l'.limit) / 20.0))
  {
  }

  /** A growth step starting below the edge never passes it; one at or above it adds
      at most one. Neither passes the headroom. */
  lemma GrowthRespectsEdge(l: Lim, now: int, threads: int)
    requires LimInv(l, threads)
    ensures var l' := Grow(l, now);
            && (l.limit < l.ssthresh ==> l.limit <= l'.limit <= l.ssthresh)
            && (l.limit >= l.ssthresh ==> l.limit <= l'.limit <= l.limit + 1.0)
            && (l'.limit > l.limit ==> l'.limit <= Headroom(l))
            && (l.limit < Headroom(l) ==>
                  l'.limit > l.limit && l'.lastGrow == Some(now)
                  && l'.limit == Min(Headroom(l), if l.limit >= l.ssthresh then l.limit + 1.0
                                                  else Min(l.ssthresh, l.limit * 1.5)))
            && (l.limit >= Headroom(l) ==> l' == l)
  {
  }

  /** A throttled answer cuts the cap if and only if none did in the second before. */
  lemma CutsExactlyWhen(l: Lim, now: int)
    ensures OnThrottle(l, now) != l
       <==> l.enabled && (l.lastCut.None? || now - l.lastCut.value >= 1_000_000_000)
  {
  }

  /** A tick widens the cap if and only if there is room and it sat unmoved for five
      seconds, after cuts and growths alike. */
  lemma ProbesExactlyWhen(l: Lim, now: int, threads: int)
    requires LimInv(l, threads)
    ensures Probe(l, now).limit > l.limit
       <==> && l.enabled && l.limit < Headroom(l)
            && (l.lastCut.None? || now - l.lastCut.value >= 5_000_000_000)
            && (l.lastGrow.None? || now - l.lastGrow.value >= 5_000_000_000)
    ensures Probe(l, now) == l || Probe(l, now) == Grow(l, now)
  {
    GrowthRespectsEdge(l, now, threads);
  }

  /** Switched off, nothing moves. */
  lemma {:induction false} DisabledStays(l: Lim, es: seq<Event>)
    requires !l.enabled
    ensures Run(l, es) == l && Current(l) == 0
    decreases es
  {
    if es != [] {
      DisabledStays(Step(l, es[0]), es[1..]);
    }
  }

  /** How often along a run growth raised the cap, and throttled answers lowered it. */
  function Rises(l: Lim, es: seq<Event>): nat
    decreases es
  {
    if es == [] then 0
    else
      (if (es[0].Clean? || es[0].Tick?) && Step(l, es[0]).limit > l.limit then 1 else 0) + Rises(Step(l, es[0]), es[1..])
  }

  function Falls(l: Lim, es: seq<Event>): nat
    decreases es
  {
    if es == [] then 0
    else (if es[0].Throttle? && Step(l, es[0]).limit < l.limit then 1 else 0) + Falls(Step(l, es[0]), es[1..])
  }

  lemma StepCounts(l: Lim, e: Event, threads: int)
    requires LimInv(l, threads)
    ensures var l' := Step(l, e);
            && l'.growths == l.growths + (if (e.Clean? || e.Tick?) && l'.limit > l.limit then 1 else 0)
            && l'.cutsMade == l.cutsMade + (if e.Throttle? && l'.limit < l.limit then 1 else 0)
  {
  }

  lemma {:induction false} CountersCount(l: Lim, es: seq<Event>, threads: int)
    requires LimInv(l, threads)
    ensures Run(l, es).growths == l.growths + Rises(l, es) && Run(l, es).cutsMade == l.cutsMade + Falls(l, es)
    decreases es
  {
    hide LimInv;
    hide Step;
    if es != [] {
      StepCounts(l, es[0], threads);
      StepKeepsInv(l, es[0], threads);
      CountersCount(Step(l, es[0]), es[1..], threads);
    }
  }

  /** The two counters of the status line say exactly that. */
  lemma CountersAreExact(threads: int, es: seq<Event>)
    ensures var l := NewLimiter(threads, true);
            Run(l, es).growths == Rises(l, es) && Run(l, es).cutsMade == Falls(l, es)
  {
    NewLimiterInv(threads, true);
    CountersCount(NewLimiter(threads, true), es, threads);
  }

  /** Clean answers since the last cut, counted in sixteens. */
  function CleanSince(l: Lim, es: seq<Event>, n: nat): nat
    decreases es
  {
    if es == [] then n
    else
      CleanSince(Step(l, es[0]), es[1..],
                 if es[0].Clean? then (if n == 15 then 0 else n + 1)
                 else if es[0].Throttle? && Cuts(l, es[0].now) then 0
                 else n)
  }

  lemma StepStreak(l: Lim, e: Event, threads: int)
    requires LimInv(l, threads) && l.enabled
    ensures Step(l, e).clean == if e.Clean? then (if l.clean == 15 then 0 else l.clean + 1)
                                else if e.Throttle? && Cuts(l, e.now) then 0
                                else l.clean
  {
  }

  /** The streak is kept exactly: a cut starts it afresh, and every sixteenth clean answer
      widens the cap if there is room, and no other clean answer does. */
  lemma {:induction false} SixteenCleanAnswers(l: Lim, es: seq<Event>, now: int, threads: int)
    requires LimInv(l, threads) && l.enabled
    ensures var t := Run(l, es); var n := CleanSince(l, es, l.clean);
            && t.clean == n
            && (OnClean(t, now).limit > t.limit <==> n == 15 && t.limit < Headroom(t))
    decreases es
  {
    hide Step;
    hide LimInv;
    hide Cuts;
    if es == [] {
      SixteenthWidens(l, now, threads);
    } else {
      StepKeepsInv(l, es[0], threads);
      StepKeepsRoom(l, es[0]);
      StepStreak(l, es[0], threads);
      SixteenCleanAnswers(Step(l, es[0]), es[1..], now, threads);
    }
  }

  lemma SixteenthWidens(l: Lim, now: int, threads: int)
    requires LimInv(l, threads) && l.enabled
    ensures OnClean(l, now).limit > l.limit <==> l.clean == 15 && l.limit < Headroom(l)
  {
    GrowthRespectsEdge(l.(clean := 0), now, threads);
  }

  /** When cuts happened along a run. */
  function CutTimes(l: Lim, es: seq<Event>): seq<int>
    decreases es
  {
    if es == [] then []
    else (if es[0].Throttle? && Cuts(l, es[0].now) then [es[0].now] else []) + CutTimes(Step(l, es[0]), es[1..])
  }

  lemma StepMovesLastCut(l: Lim, e: Event)
    ensures Step(l, e).lastCut == if e.Throttle? && Cuts(l, e.now) then Some(e.now) else l.lastCut
    ensures e.Throttle? && Cuts(l, e.now) && l.lastCut.Some? ==> e.now - l.lastCut.value >= CUT_COOLDOWN
  {
  }

  predicate Spaced(c: seq<int>) {
    forall i :: 0 <= i < |c| - 1 ==> c[i + 1] - c[i] >= CUT_COOLDOWN
  }

  lemma SpacedMore(first: int, rest: seq<int>)
    requires Spaced(rest) && (rest != [] ==> rest[0] - first >= CUT_COOLDOWN)
    ensures Spaced([first] + rest)
  {
  }

  /** However many throttled answers arrive, any two cuts next to each other are at
      least a cooldown apart. */
  lemma {:induction false} CutsAreSpaced(l: Lim, es: seq<Event>)
    ensures var c := CutTimes(l, es);
            Spaced(c) && (c != [] && l.lastCut.Some? ==> c[0] - l.lastCut.value >= CUT_COOLDOWN)
    decreases es
  {
    hide Step;
    hide Cuts;
    if es != [] {
      StepMovesLastCut(l, es[0]);
      CutsAreSpaced(Step(l, es[0]), es[1..]);
      var rest := CutTimes(Step(l, es[0]), es[1..]);
      if es[0].Throttle? && Cuts(l, es[0].now) {
        SpacedMore(es[0].now, rest);
      } else {
        assert CutTimes(l, es) == rest;
      }
    }
  }

  /** A moment the cap was widened or cut, and whether a probe did it. */
  datatype Move = Move(at: int, probed: bool)

  function MoveOf(l: Lim, e: Event): Option<Move> {
    match e
    case Throttle(now) => if Cuts(l, now) then Some(Move(now, false)) else None
    case Clean(now) => if Step(l, e).growths > l.growths then Some(Move(now, false)) else None
    case Tick(now) => if Step(l, e).growths > l.growths then Some(Move(now, true)) else None
    case _ => None
  }

  function Moves(l: Lim, es: seq<Event>): seq<Move>
    decreases es
  {
    if es == [] then []
    else (if MoveOf(l, es[0]).Some? then [MoveOf(l, es[0]).value] else []) + Moves(Step(l, es[0]), es[1..])
  }

  predicate ProbesAreLate(m: seq<Move>) {
    forall i :: 0 <= i < |m| - 1 && m[i + 1].probed ==> m[i + 1].at - m[i].at >= PROBE_INTERVAL
  }

  /** A probe waits for both the last cut and the last growth to be old enough. */
  predicate LateAfter(l: Lim, m: seq<Move>) {
    m != [] && m[0].probed ==> Since(l.lastCut, m[0].at, PROBE_INTERVAL) && Since(l.lastGrow, m[0].at, PROBE_INTERVAL)
  }

  lemma StepIsRemembered(l: Lim, e: Event)
    ensures var l' := Step(l, e); var m := MoveOf(l, e);
            && (m.None? ==> l'.lastCut == l.lastCut && l'.lastGrow == l.lastGrow)
            && (m.Some? ==> l'.lastCut == Some(m.value.at) || l'.lastGrow == Some(m.value.at))
            && (m.Some? ==> LateAfter(l, [m.value]))
  {
  }

  lemma LateMore(first: Move, rest: seq<Move>)
    requires ProbesAreLate(rest)
    requires rest != [] && rest[0].probed ==> rest[0].at - first.at >= PROBE_INTERVAL
    ensures ProbesAreLate([first] + rest)
  {
  }

  /** A probe widens the cap only after it sat unmoved for the whole interval: no
      growth and no cut came less than that before it, in any run. */
  lemma {:induction false} ProbesWaitForQuiet(l: Lim, es: seq<Event>)
    ensures ProbesAreLate(Moves(l, es)) && LateAfter(l, Moves(l, es))
    decreases es
  {
    hide Step;
    hide MoveOf;
    if es != [] {
      StepIsRemembered(l, es[0]);
      ProbesWaitForQuiet(Step(l, es[0]), es[1..]);
      var rest := Moves(Step(l, es[0]), es[1..]);
      if MoveOf(l, es[0]).Some? {
        LateMore(MoveOf(l, es[0]).value, rest);
      } else {
        assert Moves(l, es) == rest;
      }
    }
  }

  // ------------------------------------------------------------------- admission

  /** Right after an admission the requests in flight are within the reported cap. */
  lemma AdmissionWithinCurrent(l: Lim, threads: int)
    requires LimInv(l, threads) && l.enabled && HasSlot(l)
    ensures Admit(l).inflight == l.inflight + 1 <= Current(l) <= Threads(threads)
  {
  }

  /** An idle limiter always admits, even under a ceiling below the floor. */
  lemma IdleAlwaysAdmits(l: Lim, threads: int)
    requires LimInv(l, threads) && l.inflight == 0
    ensures HasSlot(l)
  {
  }

  function Admissions(l: Lim, es: seq<Event>): nat
    decreases es
  {
    if es == [] then 0
    else (if es[0].Enter? && l.enabled && HasSlot(l) then 1 else 0) + Admissions(Step(l, es[0]), es[1..])
  }

  function Releases(es: seq<Event>): nat {
    if es == [] then 0 else (if es[0].Leave? then 1 else 0) + Releases(es[1..])
  }

  /** Every release belongs to an admission that came before it. */
  predicate Paired(l: Lim, es: seq<Event>)
    decreases es
  {
    es == [] || ((es[0].Leave? ==> l.inflight > 0) && Paired(Step(l, es[0]), es[1..]))
  }

  lemma {:induction false} InflightIsAdmissionsMinusReleases(l: Lim, es: seq<Event>)
    requires l.enabled && Paired(l, es)
    ensures Run(l, es).inflight == l.inflight + Admissions(l, es) - Releases(es)
    decreases es
  {
    if es != [] {
      InflightIsAdmissionsMinusReleases(Step(l, es[0]), es[1..]);
    }
  }

  lemma {:induction false} EdgeKnownAfterCut(l: Lim, es: seq<Event>)
    ensures Run(l, es).edgeKnown <==> l.edgeKnown || CutTimes(l, es) != []
    decreases es
  {
    hide Cuts;
    if es != [] {
      EdgeKnownAfterCut(Step(l, es[0]), es[1..]);
    }
  }

  /** A run starts knowing nothing: the edge is known exactly from the first cut on, and
      clean answers count from none. */
  lemma StartsAfresh(threads: int, es: seq<Event>)
    ensures var l := NewLimiter(threads, true);
            && (Run(l, es).edgeKnown <==> CutTimes(l, es) != [])
            && Run(l, es).clean == CleanSince(l, es, 0)
  {
    NewLimiterInv(threads, true);
    EdgeKnownAfterCut(NewLimiter(threads, true), es);
    SixteenCleanAnswers(NewLimiter(threads, true), es, 0, threads);
  }

  function Entering(n: nat): seq<Event> {
    if n == 0 then [] else [Enter] + Entering(n - 1)
  }

  lemma {:induction false} Fills(l: Lim, room: nat, n: nat)
    requires l.enabled && Cap(l) == room as real && l.inflight <= room
    ensures Run(l, Entering(n)).inflight == if l.inflight + n <= room then l.inflight + n else room
    decreases n
  {
    if n > 0 {
      var es := Entering(n);
      assert es[0] == Enter && es[1..] == Entering(n - 1);
      Fills(Step(l, Enter), room, n - 1);
    }
  }

  /** A new limiter starts wide open: of any number of callers at once it admits as many
      as it was asked for, at least one. */
  lemma StartsWideOpen(threads: int, n: nat)
    ensures var asked := if threads < 1 then 1 else threads;
            Run(NewLimiter(threads, true), Entering(n)).inflight == if n <= asked then n else asked
  {
    Fills(NewLimiter(threads, true), Threads(threads), n);
  }

  /** And can fall to a twentieth of that, rounded down, but not below one. */
  lemma FloorIsATwentieth(threads: int)
    ensures var asked := if threads < 1 then 1 else threads;
            NewLimiter(threads, true).min == if asked < 40 then 1.0 else (asked / 20) as real
  {
  }

  // ------------------------------------------------------------------ the ceiling

  /** What a ceiling move does. With a ceiling the cap reported and the room to grow come
      down to it at once, and the cap itself no further than the floor; it never goes up.
      Without one there is all the room asked for and the cap stays. */
  lemma CeilingIsObeyed(l: Lim, n: int, threads: int)
    requires LimInv(l, threads) && l.enabled
    ensures var l' := SetCeiling(l, n);
            && l'.inflight == l.inflight
            && (n >= 1 ==>
                  && Headroom(l') == Min(n as real, l.max)
                  && Current(l') <= n
                  && l'.limit == if l.limit <= n as real then l.limit else Max(l.min, n as real))
            && (n < 1 ==> Headroom(l') == l.max && l'.limit == l.limit)
  {
  }

  /** What the last ceiling move of a run asked for, or what held before it. */
  function AskedFor(es: seq<Event>, before: int): int {
    if es == [] then before
    else AskedFor(es[1..], if es[0].Ceiling? then es[0].n else before)
  }

  /** The room to grow under a ceiling of `n`, where less than one means none. */
  function RoomUnder(n: int, threads: int): real {
    if n < 1 || n > Threads(threads) then Threads(threads) as real else n as real
  }

  lemma StepKeepsRoom(l: Lim, e: Event)
    ensures Step(l, e).enabled == l.enabled
    ensures !e.Ceiling? ==> Headroom(Step(l, e)) == Headroom(l)
  {
  }

  lemma {:induction false} RunObeysCeiling(l: Lim, es: seq<Event>, threads: int, n: int)
    requires LimInv(l, threads) && l.enabled && Headroom(l) == RoomUnder(n, threads)
    ensures Headroom(Run(l, es)) == RoomUnder(AskedFor(es, n), threads)
    decreases es
  {
    hide LimInv;
    hide Headroom;
    hide RoomUnder;
    hide Step;
    if es != [] {
      var e := es[0];
      StepKeepsInv(l, e, threads);
      StepKeepsRoom(l, e);
      if e.Ceiling? {
        CeilingGivesRoom(l, e.n, threads);
      }
      RunObeysCeiling(Step(l, e), es[1..], threads, if e.Ceiling? then e.n else n);
    }
  }

  lemma CeilingGivesRoom(l: Lim, n: int, threads: int)
    requires LimInv(l, threads) && l.enabled
    ensures Headroom(Step(l, Ceiling(n))) == RoomUnder(n, threads)
  {
    CeilingIsObeyed(l, n, threads);
  }

  /** Over whole runs: the room is the one the last ceiling move asked for, and no
      admission after it leaves more requests than that in flight. */
  lemma LastCeilingRules(threads: int, es: seq<Event>)
    ensures var l := Run(NewLimiter(threads, true), es); var room := RoomUnder(AskedFor(es, 0), threads);
            && Headroom(l) == room
            && (Admit(l).inflight > l.inflight ==> Admit(l).inflight as real <= room)
            && Current(l) as real <= room
  {
    hide Run;
    hide LimInv;
    hide AskedFor;
    NewLimiterInv(threads, true);
    RunObeysCeiling(NewLimiter(threads, true), es, threads, 0);
    StaysEnabled(NewLimiter(threads, true), es);
    var n := AskedFor(es, 0);
    WholeRoom(Run(NewLimiter(threads, true), es), if n < 1 || n > Threads(threads) then Threads(threads) else n);
  }

  lemma WholeRoom(l: Lim, n: nat)
    requires l.enabled && Headroom(l) == n as real
    ensures HasSlot(l) ==> l.inflight + 1 <= n
    ensures Current(l) <= n
  {
    hide Headroom;
  }

  // -------------------------------------------------------------------- recovery

  /** Along the run no cut happens and the ceiling does not move. */
  predicate Undisturbed(l: Lim, es: seq<Event>)
    decreases es
  {
    es == [] || (
    (es[0].Throttle? ==> !Cuts(l, es[0].now))
    && (es[0].Ceiling? ==> SetCeiling(l, es[0].n).ceiling == l.ceiling)
    && Undisturbed(Step(l, es[0]), es[1..]))
  }

  function Cleans(es: seq<Event>): nat {
    if es == [] then 0 else (if es[0].Clean? then 1 else 0) + Cleans(es[1..])
  }

  /** What recovery climbs to. */
  function Target(l: Lim): real {
    Min(l.ssthresh, Headroom(l))
  }

  /** `b` after `k` geometric growths. */
  function Boosted(b: real, k: nat): real
    decreases k
  {
    if k == 0 then b else Boosted(b * 1.5, k - 1)
  }

  lemma {:induction false} BoostedGrows(b: real, k: nat)
    requires b >= 0.0
    ensures Boosted(b, k) >= b
    decreases k
  {
    if k > 0 {
      BoostedGrows(b * 1.5, k - 1);
    }
  }

  lemma GrowClimbs(l: Lim, now: int, threads: int, b: real)
    requires LimInv(l, threads) && l.limit >= Min(Target(l), b)
    ensures Grow(l, now).limit >= Min(Target(l), b * 1.5)
    ensures Grow(l, now).limit >= Min(Target(l), b)
    ensures Target(Grow(l, now)) == Target(l)
  {
  }

  /** Nothing but a cut or a new ceiling takes guaranteed ground away. */
  lemma OtherStepHolds(l: Lim, e: Event, threads: int, b: real)
    requires l.enabled && LimInv(l, threads) && !e.Clean? && l.limit >= Min(Target(l), b)
    requires e.Throttle? ==> !Cuts(l, e.now)
    requires e.Ceiling? ==> SetCeiling(l, e.n).ceiling == l.ceiling
    ensures var l' := Step(l, e);
            l'.enabled && l'.clean == l.clean && Target(l') == Target(l) && l'.limit >= Min(Target(l), b)
  {
    if e.Tick? {
      GrowClimbs(l, e.now, threads, b);
    }
  }

  /** A clean answer counts, and every sixteenth one climbs. */
  lemma CleanStepClimbs(l: Lim, now: int, threads: int, b: real)
    requires l.enabled && LimInv(l, threads) && b >= 0.0 && l.limit >= Min(Target(l), b)
    ensures var l' := Step(l, Clean(now));
            && l'.enabled && Target(l') == Target(l)
            && (if l.clean + 1 < CLEAN_STREAK then l'.clean == l.clean + 1 && l'.limit >= Min(Target(l), b)
                else l'.clean == 0 && l'.limit >= Min(Target(l), b * 1.5))
  {
    GrowClimbs(l.(clean := 0), now, threads, b);
  }

  /** Every sixteen clean answers multiply the guaranteed level by one and a half,
      up to the target. */
  lemma {:induction false} Climb(l: Lim, es: seq<Event>, threads: int, b: real)
    requires l.enabled && LimInv(l, threads) && Undisturbed(l, es)
    requires b >= 0.0 && l.limit >= Min(Target(l), b)
    ensures Target(Run(l, es)) == Target(l)
    ensures Run(l, es).limit >= Min(Target(l), Boosted(b, (l.clean + Cleans(es)) / CLEAN_STREAK))
    decreases es
  {
    hide Step;
    hide Target;
    hide Min;
    hide LimInv;
    InvClean(l, threads);
    if es != [] {
      var e := es[0];
      var l' := Step(l, e);
      StepKeepsInv(l, e, threads);
      if !e.Clean? {
        OtherStepHolds(l, e, threads, b);
        Climb(l', es[1..], threads, b);
      } else {
        CleanStepClimbs(l, e.now, threads, b);
        if l.clean + 1 < CLEAN_STREAK {
          Climb(l', es[1..], threads, b);
        } else {
          Climb(l', es[1..], threads, b * 1.5);
          assert (l.clean + Cleans(es)) / CLEAN_STREAK == Cleans(es[1..]) / CLEAN_STREAK + 1;
        }
      }
    }
  }

  lemma InvClean(l: Lim, threads: int)
    requires LimInv(l, threads)
    ensures l.clean < CLEAN_STREAK
  {
  }

  lemma TenBoosts(b: real)
    requires b >= 0.0
    ensures Boosted(b, 10) >= 57.0 * b
  {
    var b5 := b * 1.5 * 1.5 * 1.5 * 1.5 * 1.5;
    FiveBoosts(b, 5);
    FiveBoosts(b5, 0);
  }

  lemma FiveBoosts(b: real, k: nat)
    ensures Boosted(b, k + 5) == Boosted(b * 1.5 * 1.5 * 1.5 * 1.5 * 1.5, k)
  {
    assert Boosted(b, k + 5) == Boosted(b * 1.5, k + 4);
    assert Boosted(b * 1.5, k + 4) == Boosted(b * 1.5 * 1.5, k + 3);
    assert Boosted(b * 1.5 * 1.5, k + 3) == Boosted(b * 1.5 * 1.5 * 1.5, k + 2);
    assert Boosted(b * 1.5 * 1.5 * 1.5, k + 2) == Boosted(b * 1.5 * 1.5 * 1.5 * 1.5, k + 1);
  }

  lemma {:induction false} BoostedMoreOften(b: real, j: nat, k: nat)
    requires b >= 0.0 && j <= k
    ensures Boosted(b, j) <= Boosted(b, k)
    decreases j
  {
    if j == 0 {
      BoostedGrows(b, k);
    } else {
      BoostedMoreOften(b * 1.5, j - 1, k - 1);
    }
  }

  /** Recovery bound. From every state a run can reach, for every thread count, 160
      clean answers with no cut and a fixed ceiling bring the cap to the edge or to
      the headroom, whichever is lower, whatever else happens in between. */
  lemma RecoveryBound(threads: int, before: seq<Event>, es: seq<Event>)
    requires var l := Run(NewLimiter(threads, true), before); Undisturbed(l, es)
    requires Cleans(es) >= 160
    ensures var l := Run(NewLimiter(threads, true), before);
            Run(l, es).limit >= Target(l)
  {
    var l := Run(NewLimiter(threads, true), before);
    LimiterStaysInBounds(threads, true, before);
    StaysEnabled(NewLimiter(threads, true), before);
    Climb(l, es, threads, l.min);
    var k := (l.clean + Cleans(es)) / CLEAN_STREAK;
    BoostedMoreOften(l.min, 10, k);
    TenBoosts(l.min);
    FloorTimes57(threads);
  }

  lemma {:induction false} StaysEnabled(l: Lim, es: seq<Event>)
    ensures Run(l, es).enabled == l.enabled
    decreases es
  {
    if es != [] {
      StaysEnabled(Step(l, es[0]), es[1..]);
    }
  }

  lemma FloorTimes57(threads: int)
    ensures 57.0 * FloorFor(threads) >= Threads(threads) as real
  {
    var t := Threads(threads);
    var f := t / MIN_FLOOR_DIVISOR;
    assert t <= 20 * f + 19;
    assert t as real <= 20.0 * (f as real) + 19.0;
  }

  /** Ticks at least the probe interval apart, the first that long after the last move. */
  predicate PatientTicks(l: Lim, es: seq<Event>) {
    && (forall e <- es :: e.Tick?)
    && (forall i :: 1 <= i < |es| && es[i].Tick? && es[i - 1].Tick? ==> es[i].now - es[i - 1].now >= PROBE_INTERVAL)
    && (es != [] && es[0].Tick? ==>
          Since(l.lastCut, es[0].now, PROBE_INTERVAL) && Since(l.lastGrow, es[0].now, PROBE_INTERVAL))
  }

  lemma PatientRest(l: Lim, es: seq<Event>)
    requires es != [] && PatientTicks(l, es)
    ensures PatientTicks(Step(l, es[0]), es[1..])
  {
    assert es[0] in es;
    if |es| > 1 {
      assert es[1] in es;
    }
  }

  /** A run that answers nothing climbs out too: `k` such ticks widen the cap as `k`
      growth steps do, up to the edge or the headroom. */
  lemma {:induction false} QuietRunClimbs(l: Lim, es: seq<Event>, threads: int, b: real)
    requires l.enabled && LimInv(l, threads) && PatientTicks(l, es)
    requires b >= 0.0 && l.limit >= Min(Target(l), b)
    ensures Target(Run(l, es)) == Target(l) && Run(l, es).limit >= Min(Target(l), Boosted(b, |es|))
    decreases es
  {
    hide Target;
    hide LimInv;
    hide Min;
    hide PatientTicks;
    if es != [] {
      PatientRest(l, es);
      assert es[0].Tick? && Probe(l, es[0].now) == Grow(l, es[0].now) by { FirstTickGrows(l, es); }
      GrowClimbs(l, es[0].now, threads, b);
      StepKeepsInv(l, es[0], threads);
      QuietRunClimbs(Step(l, es[0]), es[1..], threads, b * 1.5);
    }
  }

  lemma FirstTickGrows(l: Lim, es: seq<Event>)
    requires l.enabled && es != [] && PatientTicks(l, es)
    ensures es[0].Tick? && Probe(l, es[0].now) == Grow(l, es[0].now)
  {
    assert es[0] in es;
  }
}
