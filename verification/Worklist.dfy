/** The live set of names being checked: cursors over a fixed slice, a set of
    retired names, a cached live count, and a two-phase `replace`. */
module Worklist {
  import opened Text
  import opened ListFile

  /** The fields of `worklist`, as a value. */
  datatype Roster = Roster(
    names: seq<string>,
    retired: set<string>,
    live: nat,
    retireGen: nat,
    cycle: bool,
    pos: nat,
    next: nat,
    passes: nat,
    closed: bool)

  function Fresh(names: seq<string>, cycle: bool): Roster {
    Roster(names, {}, |names|, 0, cycle, 0, 0, 0, false)
  }

  predicate LiveAt(names: seq<string>, retired: set<string>, i: nat)
    requires i < |names|
  {
    Key(names[i]) !in retired
  }

  /** The live indices of a stretch of the list, in order. */
  function LiveIn(names: seq<string>, retired: set<string>, lo: nat, hi: nat): (r: seq<nat>)
    requires lo <= hi <= |names|
    ensures forall j :: 0 <= j < |r| ==> lo <= r[j] < hi
    decreases hi - lo
  {
    if lo == hi then []
    else if LiveAt(names, retired, lo) then [lo] + LiveIn(names, retired, lo + 1, hi)
    else LiveIn(names, retired, lo + 1, hi)
  }

  lemma {:induction false} LiveInMembers(names: seq<string>, retired: set<string>, lo: nat, hi: nat)
    requires lo <= hi <= |names|
    ensures var r := LiveIn(names, retired, lo, hi);
            && (forall i :: i in r <==> lo <= i < hi && LiveAt(names, retired, i))
            && (forall a, b :: 0 <= a < b < |r| ==> r[a] < r[b])
    decreases hi - lo
  {
    if lo < hi {
      LiveInMembers(names, retired, lo + 1, hi);
    }
  }

  function CountLive(names: seq<string>, retired: set<string>): nat {
    |LiveIn(names, retired, 0, |names|)|
  }

  /** The least live index of a stretch, or its end. */
  function FirstLive(names: seq<string>, retired: set<string>, lo: nat, hi: nat): (k: nat)
    requires lo <= hi <= |names|
    ensures lo <= k <= hi
    ensures k < hi ==> LiveAt(names, retired, k)
    ensures forall i :: lo <= i < k ==> !LiveAt(names, retired, i)
    decreases hi - lo
  {
    if lo == hi || LiveAt(names, retired, lo) then lo
    else FirstLive(names, retired, lo + 1, hi)
  }

  /** The live indices in the order a cycling cursor meets them. */
  function Ahead(r: Roster): seq<nat>
    requires r.pos <= |r.names|
  {
    LiveIn(r.names, r.retired, r.pos, |r.names|) + LiveIn(r.names, r.retired, 0, r.pos)
  }

  predicate WellPlaced(r: Roster) {
    r.pos < |r.names| || r.pos == 0
  }

  /** Which index `claim` hands out. */
  function ClaimIndex(r: Roster, cancelled: bool): (k: Option<nat>)
    requires WellPlaced(r)
    ensures k.Some? ==> k.value < |r.names| && LiveAt(r.names, r.retired, k.value)
  {
    var n := |r.names|;
    if r.closed || cancelled || r.live == 0 then None
    else if !r.cycle then
      if r.next >= n then None
      else
        var k := FirstLive(r.names, r.retired, r.next, n);
        if k < n then Some(k) else None
    else
      var k := FirstLive(r.names, r.retired, r.pos, n);
      if k < n then Some(k)
      else
        var k' := FirstLive(r.names, r.retired, 0, r.pos);
        if k' < r.pos then Some(k') else None
  }

  function AfterClaim(r: Roster, cancelled: bool): (r': Roster)
    requires WellPlaced(r)
    ensures r'.names == r.names && r'.retired == r.retired && r'.cycle == r.cycle
    ensures WellPlaced(r')
  {
    var n := |r.names|;
    match ClaimIndex(r, cancelled)
    case None =>
      if !r.closed && !cancelled && r.live > 0 && !r.cycle && r.next < n then r.(next := n) else r
    case Some(k) =>
      if !r.cycle then r.(next := k + 1)
      else if k + 1 == n then r.(pos := 0, passes := r.passes + 1)
      else r.(pos := k + 1)
  }

  function AfterRetire(r: Roster, name: string): (r': Roster)
    ensures r'.names == r.names && r.retired <= r'.retired && r'.cycle == r.cycle
    ensures r'.pos == r.pos && r'.next == r.next
  {
    if Key(name) in r.retired then r
    else r.(retired := r.retired + {Key(name)},
            retireGen := r.retireGen + 1,
            live := if r.live > 0 then r.live - 1 else 0)
  }

  /** What `replace` remembers between its two critical sections. */
  datatype Replacer = Replacer(names: seq<string>, retired: set<string>, gen: nat)

  function AfterCommit(r: Roster, p: Replacer): Roster {
    r.(names := p.names,
       live := CountLive(p.names, if r.retireGen == p.gen then p.retired else r.retired),
       pos := if r.pos >= |p.names| then 0 else r.pos)
  }

  // ----------------------------------------------------------------- the class

  class WorkList {
    var names: seq<string>
    var retired: set<string>
    var live: nat
    var retireGen: nat
    var cycle: bool
    var pos: nat
    var next: nat
    var passes: nat
    var closed: bool

    ghost function State(): Roster
      reads this
    {
      Roster(names, retired, live, retireGen, cycle, pos, next, passes, closed)
    }

    constructor (names: seq<string>, cycle: bool)
      ensures State() == Fresh(names, cycle)
    {
      this.names := names;
      retired := {};
      live := |names|;
      retireGen := 0;
      this.cycle := cycle;
      pos, next, passes, closed := 0, 0, 0, false;
    }

    /** The single-pass half of `claim`. */
    method ClaimNext() returns (name: string, ok: bool)
      modifies `next
      ensures next == if old(next) >= |names| then old(next)
                      else var k := FirstLive(names, retired, old(next), |names|); if k < |names| then k + 1 else k
      ensures ok <==> old(next) < |names| && FirstLive(names, retired, old(next), |names|) < |names|
      ensures ok ==> name == names[FirstLive(names, retired, old(next), |names|)]
      ensures !ok ==> name == ""
    {
      while next < |names|
        invariant old(next) <= next
        invariant next <= |names| || next == old(next)
        invariant forall i :: old(next) <= i < next && i < |names| ==> !LiveAt(names, retired, i)
      {
        name := names[next];
        next := next + 1;
        if Lower(name) in retired {
          continue;
        }
        assert LiveAt(names, retired, next - 1);
        return name, true;
      }
      return "", false;
    }

    /** The cycling half of `claim`. */
    method ClaimAround() returns (name: string, ok: bool)
      requires pos < |names| || pos == 0
      modifies `pos, `passes
      ensures var n := |names|; var k := FirstLive(names, retired, old(pos), n);
              var k' := FirstLive(names, retired, 0, old(pos));
              if k == n && k' == old(pos) then !ok && name == "" && pos == old(pos) && passes == old(passes)
              else
                var j := if k < n then k else k';
                && ok && name == names[j]
                && pos == (if j + 1 == n then 0 else j + 1)
                && passes == old(passes) + (if j + 1 == n then 1 else 0)
    {
      var n := |names|;
      for i := 0 to n
        invariant pos == old(pos) && passes == old(passes)
        invariant forall j :: pos <= j < n && j < pos + i ==> !LiveAt(names, retired, j)
        invariant forall j :: 0 <= j < pos + i - n ==> !LiveAt(names, retired, j)
      {
        WrapAround(pos, i, n);
        var idx := (pos + i) % n;
        name := names[idx];
        if Lower(name) in retired {
          continue;
        }
        assert LiveAt(names, retired, idx);
        pos := idx + 1;
        if pos >= n {
          pos := 0;
          passes := passes + 1;
        }
        return name, true;
      }
      return "", false;
    }

    method Claim(cancelled: bool) returns (name: string, ok: bool)
      requires WellPlaced(State())
      modifies this
      ensures State() == AfterClaim(old(State()), cancelled)
      ensures ok <==> ClaimIndex(old(State()), cancelled).Some?
      ensures name == if ok then old(names)[ClaimIndex(old(State()), cancelled).value] else ""
    {
      hide FirstLive;
      if closed || cancelled || live == 0 {
        return "", false;
      }
      if !cycle {
        name, ok := ClaimNext();
      } else {
        name, ok := ClaimAround();
      }
    }

    method RetiredName(name: string) returns (r: bool)
      ensures r <==> Key(name) in retired
    {
      r := Lower(name) in retired;
    }

    method Retire(name: string) returns (left: nat)
      modifies this
      ensures State() == AfterRetire(old(State()), name)
      ensures left == live
    {
      var key := Lower(name);
      if key !in retired {
        retired := retired + {key};
        retireGen := retireGen + 1;
        if live > 0 {
          live := live - 1;
        }
      }
      left := live;
    }

    /** First critical section of `replace`. */
    method BeginReplace(names: seq<string>) returns (p: Replacer)
      ensures p == Replacer(names, retired, retireGen)
    {
      p := Replacer(names, retired, retireGen);
    }

    /** Second critical section of `replace`; `counted` was computed from `p` with
        the lock released. */
    method CommitReplace(p: Replacer, counted: nat)
      requires counted == CountLive(p.names, p.retired)
      modifies this
      ensures State() == AfterCommit(old(State()), p)
    {
      names := p.names;
      if retireGen == p.gen {
        live := counted;
      } else {
        live := Count(names, retired);
      }
      if pos >= |names| {
        pos := 0;
      }
    }

    method Snapshot() returns (out: seq<string>)
      ensures |out| == CountLive(names, retired)
      ensures forall j :: 0 <= j < |out| ==> out[j] == names[LiveIn(names, retired, 0, |names|)[j]]
    {
      out := [];
      for i := 0 to |names|
        invariant |out| == |LiveIn(names, retired, 0, i)|
        invariant forall j :: 0 <= j < |out| ==> out[j] == names[LiveIn(names, retired, 0, i)[j]]
      {
        LiveInSplit(names, retired, 0, i, i + 1);
        if Lower(names[i]) !in retired {
          out := out + [names[i]];
        }
      }
    }

    method Close()
      modifies this
      ensures State() == old(State()).(closed := true)
    {
      closed := true;
    }
  }

  /** The counting walk of `replace`. */
  method Count(names: seq<string>, retired: set<string>) returns (live: nat)
    ensures live == CountLive(names, retired)
  {
    live := 0;
    for i := 0 to |names|
      invariant live == |LiveIn(names, retired, 0, i)|
    {
      LiveInSplit(names, retired, 0, i, i + 1);
      if Lower(names[i]) !in retired {
        live := live + 1;
      }
    }
  }

  lemma WrapAround(pos: nat, i: nat, n: nat)
    requires i < n && (pos < n || pos == 0)
    ensures (pos + i) % n == if pos + i < n then pos + i else pos + i - n
  {
    if pos + i >= n {
      assert (pos + i) % n == (pos + i - n) % n;
    }
  }

  lemma {:induction false} LiveInSplit(names: seq<string>, retired: set<string>, lo: nat, mid: nat, hi: nat)
    requires lo <= mid <= hi <= |names|
    ensures LiveIn(names, retired, lo, hi) == LiveIn(names, retired, lo, mid) + LiveIn(names, retired, mid, hi)
    decreases mid - lo
  {
    if lo < mid {
      LiveInSplit(names, retired, lo + 1, mid, hi);
    }
  }

  // -------------------------------------------- the live count over whole runs

  /** Everything that can happen to a list. `Begin` and `Commit` are the critical
      sections of one `replace` call, named by `id`; anything may happen between. */
  datatype Event =
    | Claim(cancelled: bool)
    | Retire(name: string)
    | Begin(id: nat, names: seq<string>)
    | Commit(id: nat)
    | Close

  datatype System = System(roster: Roster, replacing: map<nat, Replacer>)

  function Step(s: System, e: Event): (s': System)
    requires WellPlaced(s.roster)
    ensures WellPlaced(s'.roster)
  {
    var r := s.roster;
    match e
    case Claim(c) => s.(roster := AfterClaim(r, c))
    case Retire(n) => s.(roster := AfterRetire(r, n))
    case Begin(id, names) => s.(replacing := s.replacing[id := Replacer(names, r.retired, r.retireGen)])
    case Commit(id) =>
      if id in s.replacing then System(AfterCommit(r, s.replacing[id]), s.replacing - {id}) else s
    case Close => s.(roster := r.(closed := true))
  }

  function Run(s: System, es: seq<Event>): (s': System)
    requires WellPlaced(s.roster)
    ensures WellPlaced(s'.roster)
    decreases es
  {
    if es == [] then s else Run(Step(s, es[0]), es[1..])
  }

  /** The generation counter is the size of the retired set, now and in every copy. */
  ghost predicate GenerationInv(s: System) {
    && s.roster.retireGen == |s.roster.retired|
    && forall id <- s.replacing ::
         s.replacing[id].retired <= s.roster.retired && s.replacing[id].gen == |s.replacing[id].retired|
  }

  lemma StepKeepsGeneration(s: System, e: Event)
    requires WellPlaced(s.roster) && GenerationInv(s)
    ensures GenerationInv(Step(s, e))
  {
  }

  lemma {:induction false} RunKeepsGeneration(s: System, es: seq<Event>)
    requires WellPlaced(s.roster) && GenerationInv(s)
    ensures GenerationInv(Run(s, es))
    decreases es
  {
    if es != [] {
      StepKeepsGeneration(s, es[0]);
      RunKeepsGeneration(Step(s, es[0]), es[1..]);
    }
  }

  lemma SubsetOfSameSize(a: set<string>, b: set<string>)
    requires a <= b && |a| == |b|
    ensures a == b
  {
    assert |b - a| == |b| - |a|;
  }

  /** The optimistic test of `replace` is exact: the generation it copied is still
      current if and only if nothing was retired since. */
  lemma GenerationDetectsRetirement(names: seq<string>, cycle: bool, es: seq<Event>, id: nat)
    requires var s := Run(System(Fresh(names, cycle), map[]), es); id in s.replacing
    ensures var s := Run(System(Fresh(names, cycle), map[]), es);
            s.replacing[id].gen == s.roster.retireGen <==> s.replacing[id].retired == s.roster.retired
  {
    var s := Run(System(Fresh(names, cycle), map[]), es);
    RunKeepsGeneration(System(Fresh(names, cycle), map[]), es);
    if s.replacing[id].gen == s.roster.retireGen {
      SubsetOfSameSize(s.replacing[id].retired, s.roster.retired);
    }
  }

  predicate Exact(r: Roster) {
    r.live == CountLive(r.names, r.retired)
  }

  /** Two-phase `replace` is atomic in effect: whatever was claimed, retired or
      replaced between its two critical sections, the count is right afterwards. */
  lemma ReplaceIsAtomic(names: seq<string>, cycle: bool, es: seq<Event>, id: nat)
    requires id in Run(System(Fresh(names, cycle), map[]), es).replacing
    ensures var s := Run(System(Fresh(names, cycle), map[]), es);
            var r := Step(s, Commit(id)).roster;
            && Exact(r) && r.names == s.replacing[id].names && r.retired == s.roster.retired
            && r.pos == (if s.roster.pos < |r.names| then s.roster.pos else 0)
            && r.(names := s.roster.names, live := s.roster.live, pos := s.roster.pos) == s.roster
  {
    GenerationDetectsRetirement(names, cycle, es, id);
  }

  /** How often a key is on the list. */
  function Occurrences(names: seq<string>, key: string): nat {
    if names == [] then 0
    else (if Key(names[0]) == key then 1 else 0) + Occurrences(names[1..], key)
  }

  lemma {:induction false} LiveInSuffix(names: seq<string>, retired: set<string>, lo: nat)
    requires lo <= |names|
    ensures |LiveIn(names, retired, lo, |names|)| == CountLive(names[lo..], retired)
    decreases |names| - lo
  {
    LiveInShift(names, retired, lo, lo);
  }

  lemma {:induction false} LiveInShift(names: seq<string>, retired: set<string>, shift: nat, lo: nat)
    requires shift <= lo <= |names|
    ensures |LiveIn(names, retired, lo, |names|)| == |LiveIn(names[shift..], retired, lo - shift, |names| - shift)|
    decreases |names| - lo
  {
    if lo < |names| {
      assert names[shift..][lo - shift] == names[lo];
      LiveInShift(names, retired, shift, lo + 1);
    }
  }

  lemma {:induction false} RetiringCount(names: seq<string>, retired: set<string>, key: string)
    requires key !in retired
    ensures CountLive(names, retired + {key}) == CountLive(names, retired) - Occurrences(names, key)
  {
    if names != [] {
      RetiringCount(names[1..], retired, key);
      LiveInSuffix(names, retired, 1);
      LiveInSuffix(names, retired + {key}, 1);
    }
  }

  /** From an exact count, `retire` leaves it exact if and only if the name was
      already retired, or is on the list exactly once, or nothing was live. */
  lemma RetireIsExact(r: Roster, name: string)
    requires Exact(r)
    ensures Exact(AfterRetire(r, name)) <==>
              Key(name) in r.retired || r.live == 0 || Occurrences(r.names, Key(name)) == 1
  {
    if Key(name) !in r.retired {
      RetiringCount(r.names, r.retired, Key(name));
    }
  }

  lemma {:induction false} AbsentKey(names: seq<string>, key: string)
    requires forall n <- names :: Key(n) != key
    ensures Occurrences(names, key) == 0
  {
    if names != [] {
      AbsentKey(names[1..], key);
    }
  }

  lemma {:induction false} DistinctOccurrences(names: seq<string>, i: nat)
    requires DistinctKeys(names) && i < |names|
    ensures Occurrences(names, Key(names[i])) == 1
  {
    if i == 0 {
      AbsentKey(names[1..], Key(names[0]));
    } else {
      DistinctOccurrences(names[1..], i - 1);
    }
  }

  lemma {:induction false} AllLive(names: seq<string>)
    ensures CountLive(names, {}) == |names|
  {
    if names != [] {
      AllLive(names[1..]);
      LiveInSuffix(names, {}, 1);
    }
  }

  /** Every list installed is free of repeats, and every retirement is of a name on
      the current list or already retired. */
  ghost predicate Disciplined(s: System, es: seq<Event>)
    requires WellPlaced(s.roster)
    decreases es
  {
    es == [] || (
    (match es[0]
        case Retire(n) =>
          || Key(n) in s.roster.retired
          || exists i :: 0 <= i < |s.roster.names| && Key(s.roster.names[i]) == Key(n)
        case Begin(_, names) => DistinctKeys(names)
        case _ => true)
    && Disciplined(Step(s, es[0]), es[1..]))
  }

  ghost predicate CountInv(s: System) {
    && GenerationInv(s) && Exact(s.roster) && DistinctKeys(s.roster.names)
    && forall id <- s.replacing :: DistinctKeys(s.replacing[id].names)
  }

  /** The count stays exact through the whole of a disciplined run, replaces and all. */
  lemma {:induction false} LiveCountIsExact(s: System, es: seq<Event>)
    requires WellPlaced(s.roster) && CountInv(s) && Disciplined(s, es)
    ensures CountInv(Run(s, es))
    decreases es
  {
    if es != [] {
      var s' := Step(s, es[0]);
      StepKeepsGeneration(s, es[0]);
      match es[0] {
        case Retire(n) =>
          if Key(n) !in s.roster.retired {
            var i :| 0 <= i < |s.roster.names| && Key(s.roster.names[i]) == Key(n);
            DistinctOccurrences(s.roster.names, i);
          }
          RetireIsExact(s.roster, n);
        case Commit(id) =>
          if id in s.replacing && s.replacing[id].gen == s.roster.retireGen {
            SubsetOfSameSize(s.replacing[id].retired, s.roster.retired);
          }
        case _ =>
      }
      LiveCountIsExact(s', es[1..]);
    }
  }

  lemma {:induction false} RepeatedOccurrences(names: seq<string>, i: nat, j: nat)
    requires i < j < |names| && Key(names[i]) == Key(names[j])
    ensures Occurrences(names, Key(names[i])) >= 2
  {
    hide Key;
    if i > 0 {
      RepeatedOccurrences(names[1..], i - 1, j - 1);
    } else {
      PresentKey(names[1..], j - 1);
    }
  }

  lemma {:induction false} PresentKey(names: seq<string>, i: nat)
    requires i < |names|
    ensures Occurrences(names, Key(names[i])) >= 1
  {
    if i > 0 {
      PresentKey(names[1..], i - 1);
    }
  }

  function Start(raw: string, cycle: bool): (s: System)
    ensures WellPlaced(s.roster)
  {
    System(Fresh(StartNames(raw), cycle), map[])
  }

  /** From the start of a run over a loaded list: the count is exact through every
      disciplined run if and only if no two of the names that start it, stripped of
      their ids, are the same. */
  lemma LiveCountFromStart(raw: string, cycle: bool)
    ensures (forall es :: Disciplined(Start(raw, cycle), es) ==> Exact(Run(Start(raw, cycle), es).roster))
       <==> DistinctKeys(StartNames(raw))
  {
    var names, s := StartNames(raw), Start(raw, cycle);
    AllLive(names);
    if DistinctKeys(names) {
      forall es | Disciplined(s, es) ensures Exact(Run(s, es).roster) {
        LiveCountIsExact(s, es);
      }
    } else {
      var i, j :| 0 <= i < j < |names| && Key(names[i]) == Key(names[j]);
      RepeatedOccurrences(names, i, j);
      RetireIsExact(s.roster, names[i]);
      RetiredAtStart(s, names[i], i);
    }
  }

  lemma RetiredAtStart(s: System, name: string, i: nat)
    requires WellPlaced(s.roster) && i < |s.roster.names| && s.roster.names[i] == name
    ensures Disciplined(s, [Retire(name)])
    ensures Run(s, [Retire(name)]).roster == AfterRetire(s.roster, name)
  {
    hide Key;
    assert [Retire(name)][1..] == [];
    assert Run(Step(s, Retire(name)), []) == Step(s, Retire(name));
  }

  /** A file on which it is not: `a` with two ids starts the run twice, and once it is
      retired a name is still counted although none is live. */
  lemma TwoIdsMiscount(cycle: bool)
    ensures StartNames(TWO_IDS) == ["a", "a"]
    ensures var r := Run(Start(TWO_IDS, cycle), [Retire("a")]).roster;
            r.live == 1 && CountLive(r.names, r.retired) == 0
  {
    hide StartNames;
    TwoIdsStart();
    RetiredAtStart(Start(TWO_IDS, cycle), "a", 0);
    NoneLive(["a", "a"], {} + {Key("a")}, 0, 2);
  }

  /** Without that discipline the count drifts and stops the run: a name found
      after an edit took it off the list is still subtracted, and `claim` refuses
      although a name is live. */
  lemma LateRetirementStopsTheRun()
    ensures var es := [Begin(0, ["b"]), Commit(0), Retire("a")];
            var r := Run(System(Fresh(["a"], true), map[]), es).roster;
            |r.names| == 1 && LiveAt(r.names, r.retired, 0) && r.live == 0 && ClaimIndex(r, false).None?
  {
    var es := [Begin(0, ["b"]), Commit(0), Retire("a")];
    var s0 := System(Fresh(["a"], true), map[]);
    assert Key("a") == "a" && Key("b") == "b";
    var s1 := Step(s0, es[0]);
    var s2 := Step(s1, es[1]);
    AllLive(["b"]);
    assert s2.roster.names == ["b"] && s2.roster.live == 1;
    var s3 := Step(s2, es[2]);
    assert es[1..] == [es[1], es[2]] && es[1..][1..] == [es[2]] && es[1..][1..][1..] == [];
    assert Run(s0, es) == Run(s1, es[1..]) == Run(s2, [es[2]]) == Run(s3, []);
    assert s3.roster.retired == {"a"};
  }

  // ------------------------------------------------------------------ fairness

  lemma {:induction false} NoneLive(names: seq<string>, retired: set<string>, lo: nat, hi: nat)
    requires lo <= hi <= |names|
    requires forall i :: lo <= i < hi ==> !LiveAt(names, retired, i)
    ensures LiveIn(names, retired, lo, hi) == []
    decreases hi - lo
  {
    if lo < hi {
      NoneLive(names, retired, lo + 1, hi);
    }
  }

  predicate Cycling(r: Roster) {
    WellPlaced(r) && r.cycle && !r.closed && r.live > 0
  }

  lemma FirstLiveSplits(names: seq<string>, retired: set<string>, lo: nat, hi: nat)
    requires lo <= hi <= |names|
    ensures var k := FirstLive(names, retired, lo, hi);
            if k == hi then LiveIn(names, retired, lo, hi) == []
            else LiveIn(names, retired, lo, hi) == [k] + LiveIn(names, retired, k + 1, hi)
                 && LiveIn(names, retired, lo, k + 1) == [k]
  {
    var k := FirstLive(names, retired, lo, hi);
    NoneLive(names, retired, lo, k);
    LiveInSplit(names, retired, lo, k, hi);
    if k < hi {
      LiveInSplit(names, retired, lo, k, k + 1);
    }
  }

  lemma RotateHere(names: seq<string>, retired: set<string>, pos: nat)
    requires pos <= |names| && FirstLive(names, retired, pos, |names|) < |names|
    ensures var k, n := FirstLive(names, retired, pos, |names|), |names|;
            var now := LiveIn(names, retired, pos, n) + LiveIn(names, retired, 0, pos);
            now != [] && now[0] == k
            && LiveIn(names, retired, k + 1, n) + LiveIn(names, retired, 0, k + 1) == now[1..] + [k]
  {
    var k := FirstLive(names, retired, pos, |names|);
    FirstLiveSplits(names, retired, pos, |names|);
    LiveInSplit(names, retired, 0, pos, k + 1);
  }

  lemma RotateWrapped(names: seq<string>, retired: set<string>, pos: nat)
    requires pos <= |names| && FirstLive(names, retired, pos, |names|) == |names|
    requires FirstLive(names, retired, 0, pos) < pos
    ensures var k, n := FirstLive(names, retired, 0, pos), |names|;
            var now := LiveIn(names, retired, pos, n) + LiveIn(names, retired, 0, pos);
            now != [] && now[0] == k
            && LiveIn(names, retired, k + 1, n) + LiveIn(names, retired, 0, k + 1) == now[1..] + [k]
  {
    var k := FirstLive(names, retired, 0, pos);
    FirstLiveSplits(names, retired, pos, |names|);
    FirstLiveSplits(names, retired, 0, pos);
    LiveInSplit(names, retired, k + 1, pos, |names|);
  }

  /** A claim hands out the next live index and sends it to the back of the queue. */
  lemma ClaimRotates(r: Roster)
    requires Cycling(r) && Ahead(r) != []
    ensures ClaimIndex(r, false) == Some(Ahead(r)[0])
    ensures Ahead(AfterClaim(r, false)) == Ahead(r)[1..] + [Ahead(r)[0]]
    ensures Cycling(AfterClaim(r, false))
  {
    if FirstLive(r.names, r.retired, r.pos, |r.names|) < |r.names| {
      RotateHere(r.names, r.retired, r.pos);
    } else {
      FirstLiveSplits(r.names, r.retired, r.pos, |r.names|);
      FirstLiveSplits(r.names, r.retired, 0, r.pos);
      RotateWrapped(r.names, r.retired, r.pos);
    }
  }

  /** The indices handed out by `m` consecutive claims. */
  function Claims(r: Roster, m: nat): seq<nat>
    requires WellPlaced(r)
    decreases m
  {
    if m == 0 || ClaimIndex(r, false).None? then []
    else [ClaimIndex(r, false).value] + Claims(AfterClaim(r, false), m - 1)
  }

  function AfterClaims(r: Roster, m: nat): (r': Roster)
    requires WellPlaced(r)
    ensures WellPlaced(r')
    decreases m
  {
    if m == 0 then r else AfterClaims(AfterClaim(r, false), m - 1)
  }

  /** With nothing retired or replaced, any number of claims goes round the live
      indices in a fixed order, again and again. */
  lemma {:induction false} RoundRobin(r: Roster, m: nat)
    requires Cycling(r) && Ahead(r) != []
    ensures |Claims(r, m)| == m
    ensures forall j :: 0 <= j < m && j < |Ahead(r)| ==> Claims(r, m)[j] == Ahead(r)[j]
    ensures forall j :: |Ahead(r)| <= j < m ==> Claims(r, m)[j] == Claims(r, m)[j - |Ahead(r)|]
    decreases m
  {
    hide ClaimIndex;
    hide AfterClaim;
    hide Ahead;
    if m > 0 {
      var r' := AfterClaim(r, false);
      ClaimRotates(r);
      RoundRobin(r', m - 1);
      RotatedPeriod(Ahead(r), Claims(r', m - 1));
      assert Claims(r, m) == [Ahead(r)[0]] + Claims(r', m - 1);
    }
  }

  lemma RotatedPeriod(a: seq<nat>, c: seq<nat>)
    requires a != []
    requires var a' := a[1..] + [a[0]];
             && (forall j :: 0 <= j < |c| && j < |a'| ==> c[j] == a'[j])
             && (forall j :: |a'| <= j < |c| ==> c[j] == c[j - |a'|])
    ensures var d := [a[0]] + c;
            && (forall j :: 0 <= j < |d| && j < |a| ==> d[j] == a[j])
            && (forall j :: |a| <= j < |d| ==> d[j] == d[j - |a|])
  {
  }

  lemma AheadIsEveryLiveIndexOnce(r: Roster)
    requires WellPlaced(r)
    ensures forall a, b :: 0 <= a < b < |Ahead(r)| ==> Ahead(r)[a] != Ahead(r)[b]
    ensures forall i :: i in Ahead(r) <==> 0 <= i < |r.names| && LiveAt(r.names, r.retired, i)
    ensures |Ahead(r)| == CountLive(r.names, r.retired)
  {
    var lo := LiveIn(r.names, r.retired, 0, r.pos);
    var hi := LiveIn(r.names, r.retired, r.pos, |r.names|);
    LiveInSplit(r.names, r.retired, 0, r.pos, |r.names|);
    LiveInMembers(r.names, r.retired, 0, r.pos);
    LiveInMembers(r.names, r.retired, r.pos, |r.names|);
    assert forall x <- lo :: x < r.pos;
    assert forall x <- hi :: x >= r.pos;
    forall a, b | 0 <= a < b < |Ahead(r)| ensures Ahead(r)[a] != Ahead(r)[b] {
      if a < |hi| <= b {
        assert hi[a] in hi && lo[b - |hi|] in lo;
      }
    }
  }

  lemma FullRoundIsAhead(r: Roster)
    requires Cycling(r) && Exact(r)
    ensures Ahead(r) != [] && Claims(r, r.live) == Ahead(r)
  {
    AheadIsEveryLiveIndexOnce(r);
    RoundRobin(r, r.live);
  }

  /** Cycling fairness: the next `live` claims hand out every live index exactly
      once. */
  lemma FullRoundIsFair(r: Roster)
    requires Cycling(r) && Exact(r)
    ensures |Claims(r, r.live)| == r.live
    ensures forall i :: i in Claims(r, r.live) <==> 0 <= i < |r.names| && LiveAt(r.names, r.retired, i)
    ensures forall a, b :: 0 <= a < b < r.live ==> Claims(r, r.live)[a] != Claims(r, r.live)[b]
  {
    FullRoundIsAhead(r);
    AheadIsEveryLiveIndexOnce(r);
  }

  /** The displayed pass count grows by one per full round if and only if the last
      entry is live; once that entry is retired a wrap goes uncounted. */
  lemma PassCountNeedsLastEntry(r: Roster)
    requires Cycling(r) && Exact(r)
    ensures AfterClaims(r, r.live).passes
         == r.passes + (if LiveAt(r.names, r.retired, |r.names| - 1) then 1 else 0)
  {
    FullRoundIsAhead(r);
    AheadIsEveryLiveIndexOnce(r);
    PassesAreLastEntries(r, r.live);
    CountInDistinct(Ahead(r), |r.names| - 1);
  }

  function CountOf(s: seq<nat>, x: int): nat {
    if s == [] then 0 else (if s[0] == x then 1 else 0) + CountOf(s[1..], x)
  }

  lemma {:induction false} CountInDistinct(s: seq<nat>, x: int)
    requires forall a, b :: 0 <= a < b < |s| ==> s[a] != s[b]
    ensures CountOf(s, x) == if x in s then 1 else 0
  {
    if s != [] {
      CountInDistinct(s[1..], x);
      assert s == [s[0]] + s[1..];
    }
  }

  lemma {:induction false} PassesAreLastEntries(r: Roster, m: nat)
    requires Cycling(r) && Ahead(r) != []
    ensures AfterClaims(r, m).passes == r.passes + CountOf(Claims(r, m), |r.names| - 1)
    decreases m
  {
    if m > 0 {
      ClaimRotates(r);
      PassesAreLastEntries(AfterClaim(r, false), m - 1);
    }
  }

  // --------------------------------------------- fairness under retirements

  /** What one event hands out. */
  function HandedNow(s: System, e: Event): Option<nat>
    requires WellPlaced(s.roster)
  {
    if e.Claim? then ClaimIndex(s.roster, e.cancelled) else None
  }

  /** The indices handed out along a run. */
  function Handed(s: System, es: seq<Event>): seq<nat>
    requires WellPlaced(s.roster)
    decreases es
  {
    if es == [] then []
    else
      (if HandedNow(s, es[0]).Some? then [HandedNow(s, es[0]).value] else []) + Handed(Step(s, es[0]), es[1..])
  }

  predicate OnlyClaimsAndRetirements(es: seq<Event>) {
    forall e <- es :: e.Claim? || e.Retire?
  }

  lemma {:induction false} RetiredGrows(s: System, es: seq<Event>)
    requires WellPlaced(s.roster) && OnlyClaimsAndRetirements(es)
    ensures var s' := Run(s, es);
            s.roster.retired <= s'.roster.retired && s'.roster.names == s.roster.names
            && s'.roster.cycle == s.roster.cycle
    decreases es
  {
    if es != [] {
      RetiredGrows(Step(s, es[0]), es[1..]);
    }
  }

  /** How many places the cursor is away from an index. */
  function Distance(r: Roster, i: nat): nat
    requires WellPlaced(r) && i < |r.names|
  {
    if r.pos <= i then i - r.pos else i + |r.names| - r.pos
  }

  lemma DistanceShrinks(r: Roster, i: nat, cancelled: bool)
    requires WellPlaced(r) && r.cycle && i < |r.names| && LiveAt(r.names, r.retired, i)
    requires ClaimIndex(r, cancelled).Some? && ClaimIndex(r, cancelled) != Some(i)
    ensures Distance(AfterClaim(r, cancelled), i) < Distance(r, i)
  {
  }

  lemma FailedClaimStays(r: Roster, cancelled: bool)
    requires WellPlaced(r) && r.cycle && ClaimIndex(r, cancelled).None?
    ensures AfterClaim(r, cancelled) == r
  {
  }

  /** Whatever is retired along the way, an index that stays live is handed out
      again after at most `n - 1` other claims. */
  lemma {:induction false} NoStarvation(s: System, es: seq<Event>, i: nat)
    requires WellPlaced(s.roster) && s.roster.cycle && OnlyClaimsAndRetirements(es)
    requires i < |s.roster.names| && Key(s.roster.names[i]) !in Run(s, es).roster.retired
    requires i !in Handed(s, es)
    ensures |Handed(s, es)| <= Distance(s.roster, i) <= |s.roster.names| - 1
    decreases es
  {
    hide ClaimIndex;
    hide AfterClaim;
    hide AfterRetire;
    hide Key;
    if es != [] {
      RetiredGrows(s, es);
      var s' := Step(s, es[0]);
      var rest := Handed(s', es[1..]);
      assert forall x :: x in rest ==> x in Handed(s, es);
      NoStarvation(s', es[1..], i);
      if es[0].Claim? && ClaimIndex(s.roster, es[0].cancelled).Some? {
        var k := ClaimIndex(s.roster, es[0].cancelled).value;
        assert Handed(s, es) == [k] + rest;
        assert k in Handed(s, es);
        DistanceShrinks(s.roster, i, es[0].cancelled);
      } else if es[0].Claim? {
        FailedClaimStays(s.roster, es[0].cancelled);
      }
    }
  }

  /** A cycling claim is refused only when nothing is live, the list is closed or
      the caller was cancelled. */
  lemma CyclingClaimSucceeds(r: Roster, cancelled: bool)
    requires WellPlaced(r) && r.cycle && Exact(r)
    ensures ClaimIndex(r, cancelled).None? <==> r.closed || cancelled || CountLive(r.names, r.retired) == 0
  {
    AheadIsEveryLiveIndexOnce(r);
    if r.live > 0 && !r.closed && !cancelled {
      assert Ahead(r) != [];
      ClaimRotates(r);
    }
  }

  lemma SinglePassStep(r: Roster, cancelled: bool)
    requires WellPlaced(r) && !r.cycle && r.next <= |r.names|
    ensures var r', k := AfterClaim(r, cancelled), ClaimIndex(r, cancelled);
            && r.next <= r'.next <= |r.names|
            && (k.Some? ==> r.next <= k.value && r'.next == k.value + 1)
            && (forall i :: r.next <= i < r'.next ==> k == Some(i) || Key(r.names[i]) in r.retired)
            && (k.None? && !r.closed && !cancelled && r.live > 0 ==> r'.next == |r.names|)
  {
    forall i | r.next <= i < AfterClaim(r, cancelled).next && ClaimIndex(r, cancelled) != Some(i)
      ensures !LiveAt(r.names, r.retired, i)
    {
    }
  }

  /** Strictly increasing indices of a stretch, missing only retired ones. */
  ghost predicate Covers(h: seq<nat>, names: seq<string>, retired: set<string>, lo: nat, hi: nat) {
    && lo <= hi <= |names|
    && (forall a, b :: 0 <= a < b < |h| ==> h[a] < h[b])
    && (forall a :: 0 <= a < |h| ==> lo <= h[a] < hi)
    && (forall i :: lo <= i < hi ==> i in h || Key(names[i]) in retired)
  }

  lemma CoversMore(h: seq<nat>, names: seq<string>, retired: set<string>, lo: nat, mid: nat, hi: nat, k: Option<nat>)
    requires lo <= mid && Covers(h, names, retired, mid, hi)
    requires k.Some? ==> lo <= k.value && mid == k.value + 1
    requires forall i :: lo <= i < mid ==> k == Some(i) || Key(names[i]) in retired
    ensures Covers((if k.Some? then [k.value] else []) + h, names, retired, lo, hi)
  {
    hide Key;
    var h' := (if k.Some? then [k.value] else []) + h;
    assert k.Some? ==> h'[0] == k.value;
    assert forall x <- h :: x in h';
  }

  /** Whenever an event moves the single-pass cursor past an index, it hands that index
      out or the name there is retired by then. */
  ghost predicate SkipsOnlyRetired(s: System, es: seq<Event>)
    requires WellPlaced(s.roster)
    decreases es
  {
    if es == [] then true
    else SkipsFairly(s, es[0]) && SkipsOnlyRetired(Step(s, es[0]), es[1..])
  }

  ghost predicate SkipsFairly(s: System, e: Event)
    requires WellPlaced(s.roster)
  {
    forall i :: s.roster.next <= i < Step(s, e).roster.next ==>
      i < |s.roster.names| && (HandedNow(s, e) == Some(i) || Key(s.roster.names[i]) in s.roster.retired)
  }

  /** Single pass: indices are handed out in strictly increasing order, and every
      index the cursor passes is handed out or was retired before it was passed. */
  lemma {:induction false} SinglePass(s: System, es: seq<Event>)
    requires WellPlaced(s.roster) && !s.roster.cycle && OnlyClaimsAndRetirements(es)
    requires s.roster.next <= |s.roster.names|
    ensures Covers(Handed(s, es), s.roster.names, Run(s, es).roster.retired, s.roster.next, Run(s, es).roster.next)
    ensures SkipsOnlyRetired(s, es)
    decreases es
  {
    hide ClaimIndex;
    hide AfterClaim;
    hide AfterRetire;
    hide Key;
    hide LiveAt;
    if es == [] {
      NothingPassed(s.roster);
    } else {
      hide Covers;
      var s' := Step(s, es[0]);
      RetiredGrows(s, es);
      RetiredGrows(s', es[1..]);
      var k: Option<nat> := None;
      if es[0].Claim? {
        SinglePassStep(s.roster, es[0].cancelled);
        k := ClaimIndex(s.roster, es[0].cancelled);
      }
      SinglePass(s', es[1..]);
      CoversMore(Handed(s', es[1..]), s.roster.names, Run(s, es).roster.retired,
                 s.roster.next, s'.roster.next, Run(s, es).roster.next, k);
    }
  }

  lemma NothingPassed(r: Roster)
    requires r.next <= |r.names|
    ensures Covers([], r.names, r.retired, r.next, r.next)
  {
  }

  /** A single-pass claim is refused exactly when the list is closed, the caller was
      cancelled, the count is down to zero, or nothing live is left ahead. */
  lemma SinglePassRefuses(r: Roster, cancelled: bool)
    requires WellPlaced(r) && !r.cycle && r.next <= |r.names|
    ensures ClaimIndex(r, cancelled).None?
       <==> || r.closed || cancelled || r.live == 0
            || forall i :: r.next <= i < |r.names| ==> Key(r.names[i]) in r.retired
  {
    var k := FirstLive(r.names, r.retired, r.next, |r.names|);
    assert k < |r.names| ==> Key(r.names[k]) !in r.retired;
    forall i | r.next <= i < k ensures Key(r.names[i]) in r.retired {
      assert !LiveAt(r.names, r.retired, i);
    }
  }

  /** Indices in order. */
  function Upto(n: nat): (r: seq<nat>)
    ensures |r| == n && forall i :: 0 <= i < n ==> r[i] == i
  {
    if n == 0 then [] else Upto(n - 1) + [n - 1]
  }

  lemma NothingRetired(names: seq<string>, lo: nat, hi: nat)
    requires lo <= hi <= |names|
    ensures FirstLive(names, {}, lo, hi) == lo
  {
  }

  lemma {:induction false} FreshClaims(r: Roster, m: nat)
    requires r.retired == {} && !r.closed && r.live > 0 && WellPlaced(r)
    requires (if r.cycle then r.pos else r.next) + m <= |r.names|
    ensures |Claims(r, m)| == m
    ensures forall i :: 0 <= i < m ==> Claims(r, m)[i] == (if r.cycle then r.pos else r.next) + i
    ensures var t := AfterClaims(r, m); t.names == r.names && t.retired == {} && t.cycle == r.cycle
    ensures !r.cycle ==> AfterClaims(r, m).next == r.next + m
    decreases m
  {
    if m > 0 {
      NothingRetired(r.names, if r.cycle then r.pos else r.next, |r.names|);
      var r' := AfterClaim(r, false);
      if m > 1 {
        FreshClaims(r', m - 1);
      } else {
        assert Claims(r', 0) == [];
      }
    }
  }

  lemma FreshPasses(names: seq<string>)
    requires names != []
    ensures AfterClaims(Fresh(names, true), |names|).passes == 1
  {
    hide AfterClaims;
    hide LiveIn;
    AllLive(names);
    PassCountNeedsLastEntry(Fresh(names, true));
  }

  lemma FreshIsOver(names: seq<string>)
    requires names != []
    ensures ClaimIndex(AfterClaims(Fresh(names, false), |names|), false).None?
  {
    hide AfterClaims;
    hide Claims;
    FreshClaims(Fresh(names, false), |names|);
    PassedIsOver(AfterClaims(Fresh(names, false), |names|));
  }

  lemma FreshOrder(names: seq<string>, cycle: bool)
    requires names != []
    ensures Claims(Fresh(names, cycle), |names|) == Upto(|names|)
  {
    hide Claims;
    hide AfterClaims;
    hide ClaimIndex;
    hide Upto;
    var c, n := Claims(Fresh(names, cycle), |names|), |names|;
    FreshClaims(Fresh(names, cycle), n);
    assert |c| == |Upto(n)| && forall i :: 0 <= i < n ==> c[i] == i == Upto(n)[i];
  }

  /** A new list is handed out from its first name to its last, in order; a single pass
      then ends, and a cycling one has counted one pass. */
  lemma FreshListInOrder(names: seq<string>, cycle: bool)
    requires names != []
    ensures Claims(Fresh(names, cycle), |names|) == Upto(|names|)
    ensures !cycle ==> ClaimIndex(AfterClaims(Fresh(names, cycle), |names|), false).None?
    ensures cycle ==> AfterClaims(Fresh(names, cycle), |names|).passes == 1
  {
    hide Claims;
    hide AfterClaims;
    hide ClaimIndex;
    hide Upto;
    FreshOrder(names, cycle);
    if cycle {
      FreshPasses(names);
    } else {
      FreshIsOver(names);
    }
  }

  lemma PassedIsOver(r: Roster)
    requires WellPlaced(r) && !r.cycle && r.next >= |r.names|
    ensures ClaimIndex(r, false).None?
  {
  }

  /** Once closed, a list hands out nothing any more, whatever else happens to it. */
  lemma {:induction false} ClosedForGood(s: System, es: seq<Event>, cancelled: bool)
    requires WellPlaced(s.roster)
    ensures Step(s, Close).roster.closed
    ensures s.roster.closed ==> Run(s, es).roster.closed && ClaimIndex(Run(s, es).roster, cancelled) == None
    decreases es
  {
    if es != [] && s.roster.closed {
      ClosedForGood(Step(s, es[0]), es[1..], cancelled);
    }
  }
}
