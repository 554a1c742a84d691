/** Who wakes a parked `acquire`: releases signal one waiter, growth broadcasts, and
    one poker goroutine re-checks everybody on a timer. */
module Wakeup {
  datatype Phase = Outside | Parked | Woken | Holding

  /** A poker is between ticks, or has seen waiters and is about to broadcast. */
  datatype Poker = Sleeping | Broadcasting

  /** `cap` is what `acquire` compares with; `signals` counts releases whose signal
      has not been delivered yet. */
  datatype State = State(
    workers: map<nat, Phase>,
    cancelled: set<nat>,
    inflight: nat,
    cap: real,
    waiters: nat,
    poking: bool,
    pokers: map<nat, Poker>,
    signals: nat)

  datatype Action =
    | Enter(w: nat, spawn: nat)      // acquire is called
    | Resume(w: nat, spawn: nat)     // a woken waiter gets the lock back
    | Leave(w: nat)                  // release, up to its unlock
    | Signal(w: nat)                 // its signal reaches a parked waiter
    | SignalNobody                   // or finds none
    | Tick(p: nat)                   // the poker's timer fires
    | Broadcast(p: nat)              // the poker's broadcast
    | Move(cap: real)                // the cap moves silently: a cut or a new ceiling
    | Widen(cap: real)               // growth moves it and broadcasts
    | Cancel(w: nat)

  function PhaseOf(s: State, w: nat): Phase {
    if w in s.workers then s.workers[w] else Outside
  }

  function Waiting(ws: map<nat, Phase>): set<nat> {
    set w | w in ws && (ws[w].Parked? || ws[w].Woken?)
  }

  function Holders(ws: map<nat, Phase>): set<nat> {
    set w | w in ws && ws[w].Holding?
  }

  function WakeAll(ws: map<nat, Phase>): map<nat, Phase> {
    map w | w in ws :: if ws[w].Parked? then Woken else ws[w]
  }

  function Less(n: nat): nat {
    if n > 0 then n - 1 else 0
  }

  predicate Enabled(s: State, a: Action) {
    match a
    case Enter(w, p) => PhaseOf(s, w).Outside? && p !in s.pokers
    case Resume(w, p) => PhaseOf(s, w).Woken? && p !in s.pokers
    case Leave(w) => PhaseOf(s, w).Holding?
    case Signal(w) => s.signals > 0 && PhaseOf(s, w).Parked?
    case SignalNobody => s.signals > 0 && forall w <- s.workers :: !s.workers[w].Parked?
    case Tick(p) => p in s.pokers && s.pokers[p].Sleeping?
    case Broadcast(p) => p in s.pokers && s.pokers[p].Broadcasting?
    case _ => true
  }

  /** One pass of `acquire`'s loop under the lock. */
  function Try(s: State, w: nat, p: nat): State {
    if s.inflight as real < s.cap then s.(inflight := s.inflight + 1, workers := s.workers[w := Holding])
    else if w in s.cancelled then s.(workers := s.workers[w := Outside])
    else
      s.(workers := s.workers[w := Parked],
         waiters := s.waiters + 1,
         pokers := if s.poking then s.pokers else s.pokers[p := Sleeping],
         poking := true)
  }

  function Step(s: State, a: Action): State
    requires Enabled(s, a)
  {
    match a
    case Enter(w, p) => Try(s, w, p)
    case Resume(w, p) => Try(s.(waiters := Less(s.waiters)), w, p)
    case Leave(w) =>
      s.(workers := s.workers[w := Outside],
         inflight := Less(s.inflight),
         signals := s.signals + 1)
    case Signal(w) => s.(workers := s.workers[w := Woken], signals := s.signals - 1)
    case SignalNobody => s.(signals := s.signals - 1)
    case Tick(p) =>
      if s.waiters == 0 then s.(poking := false, pokers := s.pokers - {p})
      else s.(pokers := s.pokers[p := Broadcasting])
    case Broadcast(p) => s.(workers := WakeAll(s.workers), pokers := s.pokers[p := Sleeping])
    case Move(c) => s.(cap := c)
    case Widen(c) => s.(workers := WakeAll(s.workers), cap := c)
    case Cancel(w) => s.(cancelled := s.cancelled + {w})
  }

  /** `poking` holds exactly when one poker is alive, any waiter implies it, and the
      counters count what they say. */
  ghost predicate Inv(s: State) {
    && s.waiters == |Waiting(s.workers)|
    && s.inflight == |Holders(s.workers)|
    && |s.pokers| == (if s.poking then 1 else 0)
    && (s.waiters > 0 ==> s.poking)
  }

  function Idle(cap: real): State {
    State(map[], {}, 0, cap, 0, false, map[], 0)
  }

  lemma IdleInv(cap: real)
    ensures Inv(Idle(cap))
  {
  }

  lemma SetPhase(ws: map<nat, Phase>, w: nat, ph: Phase)
    ensures Waiting(ws[w := ph]) == if ph.Parked? || ph.Woken? then Waiting(ws) + {w} else Waiting(ws) - {w}
    ensures Holders(ws[w := ph]) == if ph.Holding? then Holders(ws) + {w} else Holders(ws) - {w}
  {
  }

  lemma Rejoin(a: set<nat>, w: nat)
    ensures |a + {w}| == |a - {w}| + 1
  {
    assert a + {w} == (a - {w}) + {w};
  }

  /** Moving one worker to another phase moves it between the two counted groups. */
  lemma CountPhase(ws: map<nat, Phase>, w: nat, ph: Phase)
    ensures |Waiting(ws[w := ph])| == |Waiting(ws) - {w}| + (if ph.Parked? || ph.Woken? then 1 else 0)
    ensures |Holders(ws[w := ph])| == |Holders(ws) - {w}| + (if ph.Holding? then 1 else 0)
  {
    SetPhase(ws, w, ph);
    Rejoin(Waiting(ws), w);
    Rejoin(Holders(ws), w);
  }

  lemma Without(a: set<nat>, w: nat)
    ensures |a - {w}| == |a| - (if w in a then 1 else 0)
  {
    if w !in a {
      assert a - {w} == a;
    }
  }

  lemma WakeAllCounts(ws: map<nat, Phase>)
    ensures Waiting(WakeAll(ws)) == Waiting(ws) && Holders(WakeAll(ws)) == Holders(ws)
  {
  }

  lemma FirstPoker(pokers: map<nat, Poker>, p: nat)
    requires |pokers| == 0
    ensures |pokers[p := Sleeping]| == 1
  {
    assert pokers == map[];
    assert pokers[p := Sleeping].Keys == {p};
    assert |pokers[p := Sleeping]| == |pokers[p := Sleeping].Keys|;
  }

  lemma TryKeepsInv(s: State, w: nat, p: nat)
    requires s.waiters == |Waiting(s.workers) - {w}| && s.inflight == |Holders(s.workers) - {w}|
    requires |s.pokers| == (if s.poking then 1 else 0) && (s.waiters > 0 ==> s.poking)
    ensures Inv(Try(s, w, p))
  {
    hide Waiting;
    hide Holders;
    CountPhase(s.workers, w, Try(s, w, p).workers[w]);
    if !s.poking {
      FirstPoker(s.pokers, p);
    }
  }

  lemma LockStepKeepsInv(s: State, a: Action)
    requires Inv(s) && Enabled(s, a) && (a.Enter? || a.Resume? || a.Leave? || a.Signal?)
    ensures Inv(Step(s, a))
  {
    var ws := s.workers;
    Without(Waiting(ws), a.w);
    Without(Holders(ws), a.w);
    match a {
      case Enter(w, p) => TryKeepsInv(s, w, p);
      case Resume(w, p) => TryKeepsInv(s.(waiters := Less(s.waiters)), w, p);
      case Leave(w) => CountPhase(ws, w, Outside);
      case Signal(w) => CountPhase(ws, w, Woken);
    }
  }

  lemma StepKeepsInv(s: State, a: Action)
    requires Inv(s) && Enabled(s, a)
    ensures Inv(Step(s, a))
  {
    match a {
      case Tick(p) =>
        OnlyPoker(s, p);
      case Broadcast(p) =>
        WakeAllCounts(s.workers);
        OnlyPoker(s, p);
      case Widen(c) =>
        WakeAllCounts(s.workers);
      case SignalNobody =>
      case Move(_) =>
      case Cancel(_) =>
      case _ =>
        LockStepKeepsInv(s, a);
    }
  }

  lemma OnlyPoker(s: State, p: nat)
    requires Inv(s) && p in s.pokers
    ensures s.poking && s.pokers.Keys == {p}
    ensures s.pokers - {p} == map[]
    ensures |s.pokers[p := Sleeping]| == 1 && |s.pokers[p := Broadcasting]| == 1
  {
    assert |s.pokers.Keys| == |s.pokers|;
    assert |s.pokers.Keys - {p}| == |s.pokers.Keys| - 1;
    assert s.pokers.Keys == {p};
    assert s.pokers[p := Sleeping].Keys == {p} && s.pokers[p := Broadcasting].Keys == {p};
    assert |s.pokers[p := Sleeping]| == |s.pokers[p := Sleeping].Keys|;
    assert |s.pokers[p := Broadcasting]| == |s.pokers[p := Broadcasting].Keys|;
  }

  ghost predicate Runs(s: State, es: seq<Action>, t: State)
    decreases es
  {
    if es == [] then s == t else Enabled(s, es[0]) && Runs(Step(s, es[0]), es[1..], t)
  }

  lemma {:induction false} RunKeepsInv(s: State, es: seq<Action>, t: State)
    requires Inv(s) && Runs(s, es, t)
    ensures Inv(t)
    decreases es
  {
    if es != [] {
      StepKeepsInv(s, es[0]);
      RunKeepsInv(Step(s, es[0]), es[1..], t);
    }
  }

  /** In every interleaving `poking` means exactly one live poker, and any parked
      waiter has one, which can always take its next step. */
  lemma ParkedHasPoker(cap: real, es: seq<Action>, s: State, w: nat)
    requires Runs(Idle(cap), es, s)
    ensures |s.pokers| == (if s.poking then 1 else 0)
    ensures PhaseOf(s, w).Parked? ==> s.poking
    ensures PhaseOf(s, w).Parked? ==> exists p :: p in s.pokers && (Enabled(s, Tick(p)) || Enabled(s, Broadcast(p)))
  {
    IdleInv(cap);
    RunKeepsInv(Idle(cap), es, s);
    if PhaseOf(s, w).Parked? {
      assert w in Waiting(s.workers);
      assert s.pokers != map[];
      var p :| p in s.pokers;
      assert Enabled(s, Tick(p)) || Enabled(s, Broadcast(p));
    }
  }

  /** The worker is parked before, between and after all of these steps. */
  ghost predicate StaysParked(s: State, es: seq<Action>, w: nat)
    decreases es
  {
    && PhaseOf(s, w).Parked?
    && (es == [] || (Enabled(s, es[0]) && StaysParked(Step(s, es[0]), es[1..], w)))
  }

  function PokerSteps(es: seq<Action>): nat {
    if es == [] then 0 else (if es[0].Tick? || es[0].Broadcast? then 1 else 0) + PokerSteps(es[1..])
  }

  /** A waiter can stay parked through at most one step of the poker: the tick that
      sees it. The broadcast that must follow wakes it, whatever signals were lost
      and whichever way the cap moved without one. */
  lemma {:induction false} NobodyIsForgotten(s: State, es: seq<Action>, w: nat)
    requires Inv(s) && StaysParked(s, es, w)
    ensures PokerSteps(es) <= 1
    ensures (exists p <- s.pokers :: s.pokers[p].Broadcasting?) ==> PokerSteps(es) == 0
    decreases es
  {
    if es != [] {
      var s' := Step(s, es[0]);
      assert w in Waiting(s.workers);
      StepKeepsInv(s, es[0]);
      NobodyIsForgotten(s', es[1..], w);
      match es[0] {
        case Tick(p) =>
          OnlyPoker(s, p);
          assert s'.pokers[p].Broadcasting?;
        case Enter(v, p) =>
          assert s.poking;
        case Resume(v, p) =>
          ResumeKeepsPokers(s, v, p, w);
        case _ =>
      }
    }
  }

  lemma ResumeKeepsPokers(s: State, v: nat, p: nat, w: nat)
    requires Inv(s) && Enabled(s, Resume(v, p)) && PhaseOf(s, w).Parked?
    ensures Step(s, Resume(v, p)).pokers == s.pokers
  {
    assert w in Waiting(s.workers);
  }

  /** A cancelled caller that is not parked never parks again. */
  lemma {:induction false} CancelledParksNoMore(s: State, es: seq<Action>, t: State, w: nat)
    requires w in s.cancelled && !PhaseOf(s, w).Parked? && Runs(s, es, t)
    ensures !PhaseOf(t, w).Parked?
    decreases es
  {
    if es != [] {
      CancelledParksNoMore(Step(s, es[0]), es[1..], t, w);
    }
  }

  /** A run keeps a cancelled caller parked throughout, or has it off the condition at
      its end. */
  lemma {:induction false} ParkedThroughoutOrGone(s: State, es: seq<Action>, t: State, w: nat)
    requires w in s.cancelled && Runs(s, es, t)
    ensures StaysParked(s, es, w) || !PhaseOf(t, w).Parked?
    decreases es
  {
    hide Step;
    hide Enabled;
    if PhaseOf(s, w).Parked? && es != [] {
      assert w in Step(s, es[0]).cancelled by { CancelIsForGood(s, es[0], w); }
      ParkedThroughoutOrGone(Step(s, es[0]), es[1..], t, w);
    } else if es != [] {
      CancelledParksNoMore(s, es, t, w);
    }
  }

  lemma CancelIsForGood(s: State, a: Action, w: nat)
    requires w in s.cancelled && Enabled(s, a)
    ensures w in Step(s, a).cancelled
  {
  }

  /** Shutdown: in any interleaving, a caller whose context has ended is off the
      condition, and stays off it, once the poker has taken two steps. */
  lemma CancelledWaiterLeaves(s: State, es: seq<Action>, t: State, w: nat)
    requires Inv(s) && w in s.cancelled && Runs(s, es, t) && PokerSteps(es) >= 2
    ensures !PhaseOf(t, w).Parked?
  {
    ParkedThroughoutOrGone(s, es, t, w);
    if StaysParked(s, es, w) {
      NobodyIsForgotten(s, es, w);
    }
  }

  /** What one pass under the lock decides: a caller is let in if and only if there is
      room, and parks if and only if there is none and its context lives. */
  lemma PassDecides(s: State, a: Action)
    requires Enabled(s, a) && (a.Enter? || a.Resume?)
    ensures var t := Step(s, a);
            && (PhaseOf(t, a.w).Holding? <==> s.inflight as real < s.cap)
            && (PhaseOf(t, a.w).Parked? <==> s.inflight as real >= s.cap && a.w !in s.cancelled)
            && t.inflight == s.inflight + (if PhaseOf(t, a.w).Holding? then 1 else 0)
            && forall v :: v != a.w ==> PhaseOf(t, v) == PhaseOf(s, v)
  {
  }

  /** Growth and the poker's broadcast wake everybody, and nobody is let in by that. */
  lemma WakesEverybody(s: State, a: Action, w: nat)
    requires Enabled(s, a) && (a.Widen? || a.Broadcast?)
    ensures PhaseOf(Step(s, a), w) == if PhaseOf(s, w).Parked? then Woken else PhaseOf(s, w)
    ensures a.Widen? ==> Step(s, a).cap == a.cap
    ensures a.Broadcast? ==> Step(s, a).pokers == s.pokers[a.p := Sleeping]
  {
  }

  /** A signal wakes the waiter it reaches and nobody else. */
  lemma SignalWakesOne(s: State, w: nat, v: nat)
    requires Enabled(s, Signal(w))
    ensures PhaseOf(Step(s, Signal(w)), v) == if v == w then Woken else PhaseOf(s, v)
  {
  }

  /** A free slot is not left to a parked caller for ever: when the poker ticks and nothing
      else moves the caller is let in, whether or not it was signalled. */
  lemma RoomIsTaken(s: State, w: nat, p: nat, spawn: nat)
    requires Inv(s) && PhaseOf(s, w).Parked? && s.inflight as real < s.cap
    requires p in s.pokers && s.pokers[p].Sleeping? && spawn !in s.pokers
    ensures Enabled(s, Tick(p))
    ensures var s1 := Step(s, Tick(p)); Enabled(s1, Broadcast(p))
    ensures var s1 := Step(s, Tick(p)); var s2 := Step(s1, Broadcast(p)); Enabled(s2, Resume(w, spawn))
    ensures var s1 := Step(s, Tick(p)); var s2 := Step(s1, Broadcast(p));
            PhaseOf(Step(s2, Resume(w, spawn)), w).Holding?
  {
    assert w in Waiting(s.workers);
  }

  /** When nobody waits any more the poker goes at its next tick. */
  lemma IdlePokerGoes(s: State, p: nat)
    requires Inv(s) && Enabled(s, Tick(p)) && s.waiters == 0
    ensures Step(s, Tick(p)).pokers == map[] && !Step(s, Tick(p)).poking
  {
    OnlyPoker(s, p);
  }

  function Leaves(es: seq<Action>): nat {
    if es == [] then 0 else (if es[0].Leave? then 1 else 0) + Leaves(es[1..])
  }

  function Delivered(es: seq<Action>): nat {
    if es == [] then 0 else (if es[0].Signal? || es[0].SignalNobody? then 1 else 0) + Delivered(es[1..])
  }

  function Cancels(es: seq<Action>): set<nat> {
    set a | a in es && a.Cancel? :: a.w
  }

  /** What the cap was moved to last. */
  function CapAfter(es: seq<Action>, cap: real): real {
    if es == [] then cap
    else CapAfter(es[1..], if es[0].Move? || es[0].Widen? then es[0].cap else cap)
  }

  lemma StepBooks(s: State, a: Action)
    requires Enabled(s, a)
    ensures var t := Step(s, a);
            && t.signals + (if a.Signal? || a.SignalNobody? then 1 else 0) == s.signals + (if a.Leave? then 1 else 0)
            && t.cancelled == s.cancelled + (if a.Cancel? then {a.w} else {})
            && t.cap == (if a.Move? || a.Widen? then a.cap else s.cap)
  {
  }

  /** Over every run: each release sends one signal, and none is sent otherwise; exactly
      those cancelled are; and the cap is what it was last moved to. */
  lemma {:induction false} RunBooks(s: State, es: seq<Action>, t: State)
    requires Runs(s, es, t)
    ensures t.signals + Delivered(es) == s.signals + Leaves(es)
    ensures t.cancelled == s.cancelled + Cancels(es)
    ensures t.cap == CapAfter(es, s.cap)
    decreases es
  {
    hide Step;
    hide Enabled;
    if es != [] {
      StepBooks(s, es[0]);
      RunBooks(Step(s, es[0]), es[1..], t);
      assert es == [es[0]] + es[1..];
      assert Cancels(es) == (if es[0].Cancel? then {es[0].w} else {}) + Cancels(es[1..]);
    }
  }
}
