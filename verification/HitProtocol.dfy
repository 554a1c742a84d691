/** From a found name to the edited usernames file: the writer goroutine, any number
    of overlapping pruner flushes, and the user's own edits, as interleaved steps. */
module HitProtocol {
  import opened Text
  import opened ListFile
  import S = Sink

  /** Where one call of `listPruner.flush` has got to. `clean` says that since the
      file was read nobody but this protocol's clean rewrites touched it. */
  datatype Flusher =
    | Took(batch: seq<string>)
    | Cleared(batch: seq<string>)
    | Rewriting(batch: seq<string>, snapshot: string, clean: bool)

  /** Where the writer goroutine has got to with one available name. */
  datatype Pc = Idle | Recorded(name: string) | Flushed(name: string) | Retired(name: string)

  /** `base`, `wanted`, `raced` and `hits` are bookkeeping for the statements: what
      available.txt held at the start, the keys the user last put in the list file,
      whether a raced rename, one with an edit since its read, has happened since then,
      and the hits counted so far. */
  datatype State = State(
    sink: S.State,
    base: string,
    retired: set<string>,
    pc: Pc,
    pending: seq<string>,
    flushers: map<nat, Flusher>,
    list: string,
    keepList: bool,
    wanted: set<string>,
    raced: bool,
    hits: seq<string>)

  datatype Action =
    | Other(bucket: S.Bucket, line: string, io: S.Io)  // a taken, unknown or failed result
    | Invalid(name: string)                            // an invalid name is retired
    | Hit(name: string, io: S.Io)                      // available: record the line
    | MakeDurable(io: S.Io)                            // ... flush it
    | Retire                                           // ... drop it from the rotation
    | Queue                                            // ... hand it to the pruner
    | FlushFile(bucket: S.Bucket, io: S.Io)
    | Take(id: nat)                                    // flush: swap the batch out
    | Check(id: nat)                                   // ... ask the sink for a failure
    | Read(id: nat, ok: bool)                          // ... read the list file
    | Rename(id: nat, ok: bool)                        // ... replace it
    | Edit(content: string)                            // the user saves the file

  function Initial(existing: string, loop: bool, list: string, keepList: bool): State {
    State(S.Opened(existing, loop), existing, {}, Idle, [], map[], list, keepList, FileKeys(list), false, [])
  }

  function Dirtied(flushers: map<nat, Flusher>): map<nat, Flusher> {
    map id | id in flushers ::
      match flushers[id]
      case Rewriting(b, s, _) => Rewriting(b, s, false)
      case f => f
  }

  predicate CanRename(s: State, id: nat) {
    id in s.flushers && s.flushers[id].Rewriting?
  }

  predicate Enabled(s: State, a: Action) {
    match a
    case Other(b, _, _) => s.pc == Idle && b != S.Available
    case Invalid(n) => s.pc == Idle && !ValidUsername(n)
    case Hit(n, _) => s.pc == Idle && ValidUsername(n) && Key(n) !in s.retired
    case MakeDurable(_) => s.pc.Recorded?
    case Retire => s.pc.Flushed?
    case Queue => s.pc.Retired?
    case FlushFile(_, _) => s.pc == Idle
    case Take(id) => id !in s.flushers
    case Check(id) => id in s.flushers && s.flushers[id].Took?
    case Read(id, _) => id in s.flushers && s.flushers[id].Cleared?
    case Rename(id, _) => CanRename(s, id)
    case Edit(c) => PlainText(c)
  }

  /** A rename that went through. */
  function AfterRename(s: State, id: nat): State
    requires CanRename(s, id)
  {
    var f := s.flushers[id];
    var rest := s.flushers - {id};
    s.(list := Rewrite(f.snapshot, f.batch),
       flushers := if f.clean then rest else Dirtied(rest),
       raced := s.raced || !f.clean)
  }

  /** The user has saved the file. */
  function AfterEdit(s: State, content: string): State {
    s.(list := content, flushers := Dirtied(s.flushers), wanted := FileKeys(content), raced := false)
  }

  function Step(s: State, a: Action): State
    requires Enabled(s, a)
  {
    match a
    case Other(b, line, io) => s.(sink := S.Record(s.sink, b, line, io))
    case Invalid(n) => s.(retired := s.retired + {Key(n)})
    case Hit(n, io) => s.(sink := S.Record(s.sink, S.Available, n, io), pc := Recorded(n), hits := s.hits + [n])
    case MakeDurable(io) => s.(sink := S.FlushBucket(s.sink, S.Available, io), pc := Flushed(s.pc.name))
    case Retire => s.(retired := s.retired + {Key(s.pc.name)}, pc := Retired(s.pc.name))
    case Queue => s.(pending := if s.keepList then s.pending else s.pending + [s.pc.name], pc := Idle)
    case FlushFile(b, io) => s.(sink := S.FlushBucket(s.sink, b, io))
    case Take(id) =>
      if s.pending == [] then s else s.(flushers := s.flushers[id := Took(s.pending)], pending := [])
    case Check(id) =>
      if s.sink.failed then s.(flushers := s.flushers - {id})
      else s.(flushers := s.flushers[id := Cleared(s.flushers[id].batch)])
    case Read(id, ok) =>
      if ok then s.(flushers := s.flushers[id := Rewriting(s.flushers[id].batch, s.list, true)])
      else s.(flushers := s.flushers - {id})
    case Rename(id, ok) =>
      if ok then AfterRename(s, id) else s.(flushers := s.flushers - {id})
    case Edit(c) => AfterEdit(s, c)
  }

  /** `s` runs to `t` through the actions `es`. */
  ghost predicate Runs(s: State, es: seq<Action>, t: State)
    decreases es
  {
    if es == [] then s == t
    else Enabled(s, es[0]) && Runs(Step(s, es[0]), es[1..], t)
  }

  // ------------------------------------------------------------- the invariant

  /** The names on lines of their own in available.txt, on disk. */
  function Durable(s: State): set<string> {
    S.Durable(s.sink)
  }

  /** The names a last line left open in available.txt has cost: none, if it was
      terminated at the start, and at most two otherwise. */
  function Victims(s: State): set<string> {
    S.Victims(s.sink.available.Log(), s.base)
  }

  function Covered(s: State): set<string> {
    S.Covered(s.sink, s.base)
  }

  /** The name is accounted for, or a write failure is latched. */
  predicate Safe(failed: bool, covered: set<string>, name: string) {
    failed || Key(Trim(name)) in covered
  }

  ghost predicate AllSafe(failed: bool, covered: set<string>, names: seq<string>) {
    forall n <- names :: Safe(failed, covered, n)
  }

  ghost predicate FlusherInv(failed: bool, covered: set<string>, list: string, f: Flusher) {
    match f
    case Took(batch) => AllSafe(failed, covered, batch)
    case Cleared(batch) => DropKeys(batch) <= covered
    case Rewriting(batch, snapshot, clean) =>
      && DropKeys(batch) <= covered
      && PlainText(snapshot)
      && (clean ==> FileKeys(snapshot) - covered == FileKeys(list) - covered)
  }

  ghost predicate FlushersInv(failed: bool, covered: set<string>, list: string, fs: map<nat, Flusher>) {
    forall id <- fs :: FlusherInv(failed, covered, list, fs[id])
  }

  ghost predicate PcInv(sink: S.State, base: string, pc: Pc) {
    match pc
    case Idle => true
    case Recorded(n) => sink.failed || Key(Trim(n)) in S.Logged(sink.available.Log(), base)
    case Flushed(n) => Safe(sink.failed, S.Covered(sink, base), n)
    case Retired(n) => Safe(sink.failed, S.Covered(sink, base), n)
  }

  ghost predicate Inv(s: State) {
    && S.SinkInv(s.sink, s.base)
    && PlainText(s.list)
    && AllSafe(s.sink.failed, Covered(s), s.pending)
    && FlushersInv(s.sink.failed, Covered(s), s.list, s.flushers)
    && PcInv(s.sink, s.base, s.pc)
    && (!s.raced ==> s.wanted <= FileKeys(s.list) + Covered(s))
  }

  lemma InitialInv(existing: string, loop: bool, list: string, keepList: bool)
    requires PlainText(list)
    ensures Inv(Initial(existing, loop, list, keepList))
  {
    S.OpenedKeepsPromise(existing, loop);
  }

  /** Promises about flushes outlive more names becoming durable, or a failure. */
  lemma FlushersOutlive(
    failed: bool, d: set<string>, failed': bool, d': set<string>, list: string, fs: map<nat, Flusher>)
    requires FlushersInv(failed, d, list, fs) && d <= d' && (failed ==> failed')
    ensures FlushersInv(failed', d', list, fs)
  {
    hide FileKeys;
    hide PlainText;
    hide DropKeys;
    forall id | id in fs ensures FlusherInv(failed', d', list, fs[id]) {
      assert FlusherInv(failed, d, list, fs[id]);
      if fs[id].Rewriting? && fs[id].clean {
        var a, b := FileKeys(fs[id].snapshot), FileKeys(list);
        assert a - d' == (a - d) - d';
        assert b - d' == (b - d) - d';
      }
    }
  }

  /** Anything the writer does to the sink leaves the rest of the protocol intact. */
  lemma SinkStep(s: State, sink: S.State)
    requires Inv(s) && S.SinkInv(sink, s.base)
    requires Covered(s) <= S.Covered(sink, s.base) && (s.sink.failed ==> sink.failed)
    ensures AllSafe(sink.failed, S.Covered(sink, s.base), s.pending)
    ensures FlushersInv(sink.failed, S.Covered(sink, s.base), s.list, s.flushers)
    ensures !s.raced ==> s.wanted <= FileKeys(s.list) + S.Covered(sink, s.base)
  {
    hide S.SinkInv;
    hide S.Covered;
    hide S.Logged;
    hide FileKeys;
    FlushersOutlive(s.sink.failed, Covered(s), sink.failed, S.Covered(sink, s.base), s.list, s.flushers);
  }

  lemma OtherWrites(s: State, a: Action)
    requires Inv(s) && Enabled(s, a) && (a.Other? || a.FlushFile?)
    ensures Inv(Step(s, a))
  {
    hide S.SinkInv;
    hide S.Covered;
    hide S.Logged;
    hide S.Record;
    hide S.FlushBucket;
    hide FlushersInv;
    hide FileKeys;
    hide PlainText;
    if a.Other? {
      S.RecordKeepsPromise(s.sink, s.base, a.bucket, a.line, a.io);
    } else {
      S.FlushKeepsPromise(s.sink, s.base, a.bucket, a.io);
    }
    SinkStep(s, Step(s, a).sink);
  }

  lemma HitWrites(s: State, a: Action)
    requires Inv(s) && Enabled(s, a) && (a.Hit? || a.MakeDurable?)
    ensures Inv(Step(s, a))
  {
    hide S.SinkInv;
    hide S.Covered;
    hide S.Logged;
    hide S.Record;
    hide S.FlushBucket;
    hide FlushersInv;
    hide FileKeys;
    hide PlainText;
    hide Key;
    hide Trim;
    if a.Hit? {
      ValidIsPlain(a.name);
      S.RecordKeepsPromise(s.sink, s.base, S.Available, a.name, a.io);
    } else {
      S.FlushKeepsPromise(s.sink, s.base, S.Available, a.io);
    }
    SinkStep(s, Step(s, a).sink);
  }

  lemma WriterMoves(s: State, a: Action)
    requires Inv(s) && Enabled(s, a) && (a.Invalid? || a.Retire? || a.Queue?)
    ensures Inv(Step(s, a))
  {
    hide S.SinkInv;
    hide S.Covered;
    hide S.Logged;
    hide FlushersInv;
    hide FileKeys;
    hide PlainText;
    hide Key;
    hide Trim;
  }

  /** A batch taken before the failure check passed holds only durable names. */
  lemma CheckedBatchIsDurable(covered: set<string>, batch: seq<string>)
    requires AllSafe(false, covered, batch)
    ensures DropKeys(batch) <= covered
  {
  }

  /** Replacing or dropping one flush leaves the promises about the others. */
  lemma OneFlusher(failed: bool, d: set<string>, list: string, fs: map<nat, Flusher>, id: nat, f: Flusher)
    requires FlushersInv(failed, d, list, fs)
    ensures FlushersInv(failed, d, list, fs - {id})
    ensures FlusherInv(failed, d, list, f) ==> FlushersInv(failed, d, list, fs[id := f])
  {
    hide FlusherInv;
  }

  lemma FlusherStep(s: State, a: Action)
    requires Inv(s) && Enabled(s, a)
    requires a.Take? || a.Check? || a.Read? || (a.Rename? && !a.ok)
    ensures Inv(Step(s, a))
  {
    hide S.SinkInv;
    hide S.Covered;
    hide S.Logged;
    hide FileKeys;
    hide PlainText;
    hide DropKeys;
    hide AllSafe;
    var failed, d := s.sink.failed, Covered(s);
    match a {
      case Take(id) =>
        NothingPending(failed, d);
        OneFlusher(failed, d, s.list, s.flushers, id, Took(s.pending));
      case Check(id) =>
        var batch := s.flushers[id].batch;
        assert FlusherInv(failed, d, s.list, s.flushers[id]);
        if !failed {
          CheckedBatchIsDurable(d, batch);
        }
        OneFlusher(failed, d, s.list, s.flushers, id, Cleared(batch));
      case Read(id, _) =>
        var batch := s.flushers[id].batch;
        assert FlusherInv(failed, d, s.list, s.flushers[id]);
        OneFlusher(failed, d, s.list, s.flushers, id, Rewriting(batch, s.list, true));
      case Rename(id, _) =>
        OneFlusher(failed, d, s.list, s.flushers, id, s.flushers[id]);
    }
  }

  lemma NothingPending(failed: bool, d: set<string>)
    ensures AllSafe(failed, d, [])
  {
  }

  /** A dirtied flush promises nothing about the file as it is now. */
  lemma DirtiedHold(failed: bool, d: set<string>, list: string, fs: map<nat, Flusher>, list': string)
    requires FlushersInv(failed, d, list, fs)
    ensures FlushersInv(failed, d, list', Dirtied(fs))
  {
    hide FileKeys;
    hide PlainText;
    hide DropKeys;
    hide AllSafe;
    forall id | id in fs ensures FlusherInv(failed, d, list', Dirtied(fs)[id]) {
      assert FlusherInv(failed, d, list, fs[id]);
    }
  }

  lemma EditStep(s: State, content: string)
    requires Inv(s) && PlainText(content)
    ensures Inv(AfterEdit(s, content))
  {
    hide S.SinkInv;
    hide S.Covered;
    hide S.Logged;
    hide FileKeys;
    hide PlainText;
    hide AllSafe;
    hide FlushersInv;
    DirtiedHold(s.sink.failed, Covered(s), s.list, s.flushers, content);
  }

  /** What the flush a rename belongs to promises. */
  lemma RenameFacts(s: State, id: nat)
    requires CanRename(s, id) && Inv(s)
    ensures var f := s.flushers[id];
            && DropKeys(f.batch) <= Covered(s)
            && PlainText(f.snapshot) && PlainText(Rewrite(f.snapshot, f.batch))
            && (f.clean ==> FileKeys(f.snapshot) - Covered(s) == FileKeys(s.list) - Covered(s))
            && FileKeys(Rewrite(f.snapshot, f.batch)) == FileKeys(f.snapshot) - DropKeys(f.batch)
            && AfterRename(s, id).list == Rewrite(f.snapshot, f.batch)
  {
    hide FileKeys;
    hide PlainText;
    hide DropKeys;
    hide Rewrite;
    hide S.SinkInv;
    hide S.Covered;
    hide AllSafe;
    hide PcInv;
    assert FlusherInv(s.sink.failed, Covered(s), s.list, s.flushers[id]);
    RewriteKeys(s.flushers[id].snapshot, s.flushers[id].batch);
  }

  /** A rename whose file was not edited since it was read leaves every name that is
      not yet durable exactly where it was. */
  lemma CleanRenameKeepsUndurable(s: State, id: nat)
    requires CanRename(s, id) && s.flushers[id].clean && Inv(s)
    ensures FileKeys(AfterRename(s, id).list) - Covered(s) == FileKeys(s.list) - Covered(s)
  {
    hide FileKeys;
    hide PlainText;
    hide DropKeys;
    hide Rewrite;
    hide Inv;
    hide S.Covered;
    hide S.Logged;
    RenameFacts(s, id);
    var f := s.flushers[id];
    assert FileKeys(f.snapshot) - DropKeys(f.batch) - Covered(s) == FileKeys(f.snapshot) - Covered(s);
  }

  /** A file with the same undurable names serves every flush as well. */
  lemma SameUndurable(failed: bool, d: set<string>, list: string, list': string, fs: map<nat, Flusher>)
    requires FlushersInv(failed, d, list, fs) && FileKeys(list) - d == FileKeys(list') - d
    ensures FlushersInv(failed, d, list', fs)
  {
    hide FileKeys;
    hide PlainText;
    hide DropKeys;
    hide AllSafe;
    forall id | id in fs ensures FlusherInv(failed, d, list', fs[id]) {
      assert FlusherInv(failed, d, list, fs[id]);
    }
  }

  lemma StillCovered(wanted: set<string>, before: set<string>, after: set<string>, d: set<string>)
    requires wanted <= before + d && before - d == after - d
    ensures wanted <= after + d
  {
    forall k | k in wanted ensures k in after + d {
      assert k in before - d || k in d;
    }
  }

  lemma RenameStep(s: State, id: nat)
    requires CanRename(s, id) && Inv(s)
    ensures Inv(AfterRename(s, id))
  {
    hide FileKeys;
    hide PlainText;
    hide DropKeys;
    hide Rewrite;
    hide S.SinkInv;
    hide S.Covered;
    hide S.Logged;
    hide FlushersInv;
    hide AllSafe;
    var t := AfterRename(s, id);
    var failed, d, f := s.sink.failed, Covered(s), s.flushers[id];
    RenameFacts(s, id);
    OneFlusher(failed, d, s.list, s.flushers, id, f);
    if f.clean {
      CleanRenameKeepsUndurable(s, id);
      SameUndurable(failed, d, s.list, t.list, s.flushers - {id});
      if !s.raced {
        StillCovered(s.wanted, FileKeys(s.list), FileKeys(t.list), d);
      }
    } else {
      DirtiedHold(failed, d, s.list, s.flushers - {id}, t.list);
    }
  }

  lemma StepKeepsInv(s: State, a: Action)
    requires Inv(s) && Enabled(s, a)
    ensures Inv(Step(s, a))
  {
    hide Inv;
    match a {
      case Edit(c) => EditStep(s, c);
      case Rename(id, ok) => if ok { RenameStep(s, id); } else { FlusherStep(s, a); }
      case Take(_) => FlusherStep(s, a);
      case Check(_) => FlusherStep(s, a);
      case Read(_, _) => FlusherStep(s, a);
      case Other(_, _, _) => OtherWrites(s, a);
      case FlushFile(_, _) => OtherWrites(s, a);
      case Hit(_, _) => HitWrites(s, a);
      case MakeDurable(_) => HitWrites(s, a);
      case _ => WriterMoves(s, a);
    }
  }

  lemma {:induction false} RunKeepsInv(s: State, es: seq<Action>, t: State)
    requires Inv(s) && Runs(s, es, t)
    ensures Inv(t)
    decreases es
  {
    hide Inv;
    hide Step;
    hide Enabled;
    if es != [] {
      StepKeepsInv(s, es[0]);
      RunKeepsInv(Step(s, es[0]), es[1..], t);
    }
  }

  // ------------------------------------------------------------- each hit once

  function Batches(s: State): map<nat, seq<string>> {
    map id | id in s.flushers :: s.flushers[id].batch
  }

  /** No two queued names are the same, within a batch or across them, and all of them
      are retired. */
  ghost predicate QueuedOnce(pending: seq<string>, batches: map<nat, seq<string>>, retired: set<string>) {
    && DistinctKeys(pending)
    && Keys(pending) <= retired
    && (forall id <- batches ::
          DistinctKeys(batches[id]) && Keys(batches[id]) <= retired && Keys(batches[id]) !! Keys(pending))
    && (forall i <- batches, j <- batches :: i != j ==> Keys(batches[i]) !! Keys(batches[j]))
  }

  /** The name at hand is retired once, and before it is queued. */
  ghost predicate PcOnce(pc: Pc, pending: seq<string>, batches: map<nat, seq<string>>, retired: set<string>) {
    match pc
    case Idle => true
    case Recorded(n) => Key(n) !in retired
    case Flushed(n) => Key(n) !in retired
    case Retired(n) =>
      Key(n) in retired && Key(n) !in Keys(pending) && forall id <- batches :: Key(n) !in Keys(batches[id])
  }

  ghost predicate HitsOnce(hits: seq<string>, retired: set<string>, pc: Pc) {
    && DistinctKeys(hits)
    && (forall i :: 0 <= i < |hits| ==>
          Key(hits[i]) in retired || (i == |hits| - 1 && (pc == Recorded(hits[i]) || pc == Flushed(hits[i]))))
  }

  ghost predicate Once(s: State) {
    && S.Added(s.sink, s.base)
    && HitsOnce(s.hits, s.retired, s.pc)
    && PcOnce(s.pc, s.pending, Batches(s), s.retired)
    && QueuedOnce(s.pending, Batches(s), s.retired)
  }

  lemma WriterOnce(s: State, a: Action)
    requires Once(s) && Enabled(s, a)
    requires a.Other? || a.Invalid? || a.Hit? || a.MakeDurable? || a.FlushFile?
    ensures Once(Step(s, a))
  {
    hide S.Added;
    hide S.Record;
    hide S.FlushBucket;
    hide QueuedOnce;
    hide Key;
    hide Keys;
    var t := Step(s, a);
    assert Batches(t) == Batches(s);
    match a {
      case Other(b, line, io) => SinkOnce(s.sink, s.base, S.Line(b, line, io));
      case Hit(n, io) =>
        ValidIsPlain(n);
        SinkOnce(s.sink, s.base, S.Line(S.Available, n, io));
      case MakeDurable(io) => SinkOnce(s.sink, s.base, S.Push(S.Available, io));
      case FlushFile(b, io) => SinkOnce(s.sink, s.base, S.Push(b, io));
      case Invalid(n) => MoreRetired(s.pending, Batches(s), s.retired, t.retired);
    }
  }

  lemma SinkOnce(s: S.State, base: string, op: S.Op)
    requires S.Added(s, base) && S.OneLiners([op])
    ensures S.Added(S.Apply(s, op), base)
  {
    hide S.Added;
    S.NothingWrittenTwice(s, [op], base);
    assert S.ApplyAll(S.Apply(s, op), []) == S.Apply(s, op);
  }

  lemma MoreRetired(pending: seq<string>, batches: map<nat, seq<string>>, before: set<string>, after: set<string>)
    requires QueuedOnce(pending, batches, before) && before <= after
    ensures QueuedOnce(pending, batches, after)
  {
    hide Keys;
    hide DistinctKeys;
  }

  lemma RetireOnce(s: State)
    requires Once(s) && Enabled(s, Retire)
    ensures Once(Step(s, Retire))
  {
    hide S.Added;
    hide Key;
    hide Keys;
    hide DistinctKeys;
    var t := Step(s, Retire);
    assert Batches(t) == Batches(s);
  }

  lemma QueueOnce(s: State)
    requires Once(s) && Enabled(s, Queue)
    ensures Once(Step(s, Queue))
  {
    hide S.Added;
    hide Key;
    var t := Step(s, Queue);
    assert Batches(t) == Batches(s);
    assert Keys(s.pending + [s.pc.name]) == Keys(s.pending) + {Key(s.pc.name)};
  }

  lemma TakeOnce(s: State, id: nat)
    requires Once(s) && Enabled(s, Take(id))
    ensures Once(Step(s, Take(id)))
  {
    hide S.Added;
    hide Key;
    hide Keys;
    hide HitsOnce;
    hide DistinctKeys;
    NoKeys();
    if s.pending != [] {
      assert Batches(Step(s, Take(id))) == Batches(s)[id := s.pending];
    }
  }

  lemma FlusherOnce(s: State, a: Action)
    requires Once(s) && Enabled(s, a) && (a.Check? || a.Read? || a.Rename? || a.Edit?)
    ensures Once(Step(s, a))
  {
    hide S.Added;
    hide Key;
    hide Keys;
    hide HitsOnce;
    hide DistinctKeys;
    hide Rewrite;
    hide FileKeys;
    hide PlainText;
    hide Batches;
    FewerBatches(s, a);
  }

  lemma NoKeys()
    ensures Keys([]) == {} && DistinctKeys([])
  {
  }

  lemma FewerBatches(s: State, a: Action)
    requires Enabled(s, a) && (a.Check? || a.Read? || a.Rename? || a.Edit?)
    ensures forall id <- Batches(Step(s, a)) :: id in Batches(s) && Batches(Step(s, a))[id] == Batches(s)[id]
  {
    hide Rewrite;
    hide FileKeys;
    hide PlainText;
  }

  lemma StepKeepsOnce(s: State, a: Action)
    requires Once(s) && Enabled(s, a)
    ensures Once(Step(s, a))
  {
    hide Once;
    hide Step;
    match a {
      case Retire => RetireOnce(s);
      case Queue => QueueOnce(s);
      case Take(id) => TakeOnce(s, id);
      case Other(_, _, _) => WriterOnce(s, a);
      case Invalid(_) => WriterOnce(s, a);
      case Hit(_, _) => WriterOnce(s, a);
      case MakeDurable(_) => WriterOnce(s, a);
      case FlushFile(_, _) => WriterOnce(s, a);
      case _ => FlusherOnce(s, a);
    }
  }

  lemma {:induction false} RunKeepsOnce(s: State, es: seq<Action>, t: State)
    requires Once(s) && Runs(s, es, t)
    ensures Once(t)
    decreases es
  {
    hide Once;
    hide Step;
    hide Enabled;
    if es != [] {
      StepKeepsOnce(s, es[0]);
      RunKeepsOnce(Step(s, es[0]), es[1..], t);
    }
  }

  lemma InitialOnce(existing: string, loop: bool, list: string, keepList: bool)
    ensures Once(Initial(existing, loop, list, keepList))
  {
    hide S.Added;
    hide S.Opened;
    hide FileKeys;
    NoKeys();
    S.RunWritesNothingTwice(existing, loop, []);
    assert S.ApplyAll(S.Opened(existing, loop), []) == S.Opened(existing, loop);
  }

  /** A name found once is counted, recorded and queued once, ignoring case: the
      counted hits are distinct; the lines put into available.txt repeat neither each
      other nor what was in it; and the queued names, waiting or in any flush, are
      distinct and retired, so that they are never hits again. */
  lemma HitsAreHandledOnce(s: State)
    requires Reachable(s)
    ensures DistinctKeys(s.hits)
    ensures S.Added(s.sink, s.base)
    ensures QueuedOnce(s.pending, Batches(s), s.retired)
  {
    hide Runs;
    hide S.Added;
    hide S.Opened;
    hide FileKeys;
    hide PlainText;
    hide QueuedOnce;
    hide Keys;
    hide DistinctKeys;
    var existing, loop, list, keepList, es :|
      PlainText(list) && Runs(Initial(existing, loop, list, keepList), es, s);
    hide Runs;
    InitialOnce(existing, loop, list, keepList);
    RunKeepsOnce(Initial(existing, loop, list, keepList), es, s);
  }

  // ----------------------------------------------------- what is out of rotation

  /** The flushes only ever move names that are out of the rotation: what a clean one
      read agrees with the file on every name still in it. */
  ghost predicate OutOfRotation(s: State) {
    && PlainText(s.list)
    && AllSafe(false, s.retired, s.pending)
    && FlushersInv(false, s.retired, s.list, s.flushers)
    && (s.pc != Idle ==> ValidUsername(s.pc.name))
    && (s.pc.Retired? ==> Key(s.pc.name) in s.retired)
  }

  lemma WriterRetires(s: State, a: Action)
    requires OutOfRotation(s) && Enabled(s, a)
    requires !a.Take? && !a.Check? && !a.Read? && !a.Rename? && !a.Edit?
    ensures OutOfRotation(Step(s, a))
  {
    hide S.Record;
    hide S.FlushBucket;
    hide FlushersInv;
    hide FileKeys;
    hide PlainText;
    hide Key;
    hide Trim;
    hide ValidUsername;
    FlushersOutlive(false, s.retired, false, Step(s, a).retired, s.list, s.flushers);
    if a.Queue? {
      ValidIsPlain(s.pc.name);
    }
  }

  lemma FlusherMovesRetired(s: State, a: Action)
    requires OutOfRotation(s) && Enabled(s, a)
    requires a.Take? || a.Check? || a.Read? || (a.Rename? && !a.ok)
    ensures OutOfRotation(Step(s, a))
  {
    hide FileKeys;
    hide PlainText;
    hide DropKeys;
    hide AllSafe;
    hide ValidUsername;
    var r := s.retired;
    match a {
      case Take(id) =>
        NothingPending(false, r);
        OneFlusher(false, r, s.list, s.flushers, id, Took(s.pending));
      case Check(id) =>
        var batch := s.flushers[id].batch;
        assert FlusherInv(false, r, s.list, s.flushers[id]);
        CheckedBatchIsDurable(r, batch);
        OneFlusher(false, r, s.list, s.flushers, id, Cleared(batch));
      case Read(id, _) =>
        var batch := s.flushers[id].batch;
        assert FlusherInv(false, r, s.list, s.flushers[id]);
        OneFlusher(false, r, s.list, s.flushers, id, Rewriting(batch, s.list, true));
      case Rename(id, _) =>
        OneFlusher(false, r, s.list, s.flushers, id, s.flushers[id]);
    }
  }

  /** What a rename does to the names in rotation. */
  lemma RenameInRotation(s: State, id: nat)
    requires CanRename(s, id) && OutOfRotation(s)
    ensures PlainText(AfterRename(s, id).list)
    ensures s.flushers[id].clean ==>
              FileKeys(AfterRename(s, id).list) - s.retired == FileKeys(s.list) - s.retired
  {
    hide FileKeys;
    hide PlainText;
    hide DropKeys;
    hide Rewrite;
    hide AllSafe;
    hide ValidUsername;
    var f := s.flushers[id];
    assert FlusherInv(false, s.retired, s.list, f);
    RewriteKeys(f.snapshot, f.batch);
    assert FileKeys(f.snapshot) - DropKeys(f.batch) - s.retired == FileKeys(f.snapshot) - s.retired;
  }

  lemma RenameMovesRetired(s: State, id: nat)
    requires CanRename(s, id) && OutOfRotation(s)
    ensures OutOfRotation(AfterRename(s, id))
  {
    hide FileKeys;
    hide PlainText;
    hide Rewrite;
    hide AllSafe;
    hide FlushersInv;
    hide ValidUsername;
    hide Key;
    var t, r, rest := AfterRename(s, id), s.retired, s.flushers - {id};
    RenameInRotation(s, id);
    OneFlusher(false, r, s.list, s.flushers, id, s.flushers[id]);
    if s.flushers[id].clean {
      SameUndurable(false, r, s.list, t.list, rest);
    } else {
      DirtiedHold(false, r, s.list, rest, t.list);
    }
  }

  lemma StepKeepsRotation(s: State, a: Action)
    requires OutOfRotation(s) && Enabled(s, a)
    ensures OutOfRotation(Step(s, a))
  {
    if a.Edit? {
      hide FileKeys;
      hide PlainText;
      hide AllSafe;
      hide FlushersInv;
      DirtiedHold(false, s.retired, s.list, s.flushers, a.content);
    } else {
      hide OutOfRotation;
      match a {
        case Rename(id, ok) => if ok { RenameMovesRetired(s, id); } else { FlusherMovesRetired(s, a); }
        case Take(_) => FlusherMovesRetired(s, a);
        case Check(_) => FlusherMovesRetired(s, a);
        case Read(_, _) => FlusherMovesRetired(s, a);
        case _ => WriterRetires(s, a);
      }
    }
  }

  lemma {:induction false} RunKeepsRotation(s: State, es: seq<Action>, t: State)
    requires OutOfRotation(s) && Runs(s, es, t)
    ensures OutOfRotation(t)
    decreases es
  {
    hide OutOfRotation;
    hide Step;
    hide Enabled;
    if es != [] {
      StepKeepsRotation(s, es[0]);
      RunKeepsRotation(Step(s, es[0]), es[1..], t);
    }
  }

  lemma ReachableRotation(s: State)
    requires Reachable(s)
    ensures OutOfRotation(s)
  {
    hide Runs;
    hide FileKeys;
    hide S.Opened;
    var existing, loop, list, keepList, es :|
      PlainText(list) && Runs(Initial(existing, loop, list, keepList), es, s);
    RunKeepsRotation(Initial(existing, loop, list, keepList), es, s);
  }

  /** When a name that is not in the file comes back: a rename does that exactly to the
      names its flush read and was not asked to drop. A clean one, overtaken by another
      flush's rename, does it only to names that are retired, so never asked about again
      in this run, and accounted for. */
  lemma RenameBringsBackExactly(s: State, id: nat, k: string)
    requires CanRename(s, id) && Reachable(s) && k !in FileKeys(s.list)
    ensures k in FileKeys(AfterRename(s, id).list)
       <==> k in FileKeys(s.flushers[id].snapshot) - DropKeys(s.flushers[id].batch)
    ensures k in FileKeys(AfterRename(s, id).list) && s.flushers[id].clean ==> k in s.retired && k in Covered(s)
  {
    hide Reachable;
    hide Inv;
    hide OutOfRotation;
    hide FileKeys;
    hide Rewrite;
    hide DropKeys;
    hide Covered;
    ReachableInv(s);
    ReachableRotation(s);
    RenameFacts(s, id);
    RenameInRotation(s, id);
    if s.flushers[id].clean {
      CleanRenameKeepsUndurable(s, id);
      assert k !in FileKeys(AfterRename(s, id).list) - Covered(s);
      assert k !in FileKeys(AfterRename(s, id).list) - s.retired;
    }
  }

  // ------------------------------------------------------- keeping the list file

  /** What the user saved last along a run, or what the file held before it. */
  function LastSaved(es: seq<Action>, before: string): string {
    if es == [] then before else LastSaved(es[1..], if es[0].Edit? then es[0].content else before)
  }

  lemma StepKeepsList(s: State, a: Action)
    requires s.keepList && s.pending == [] && s.flushers == map[] && Enabled(s, a)
    ensures var t := Step(s, a);
            && t.keepList && t.pending == [] && t.flushers == map[]
            && t.list == if a.Edit? then a.content else s.list
  {
    hide S.Record;
    hide S.FlushBucket;
    hide FileKeys;
    hide Rewrite;
  }

  lemma {:induction false} RunKeepsList(s: State, es: seq<Action>, t: State)
    requires s.keepList && s.pending == [] && s.flushers == map[] && Runs(s, es, t)
    ensures t.pending == [] && t.flushers == map[] && t.list == LastSaved(es, s.list)
    decreases es
  {
    hide Step;
    hide Enabled;
    if es != [] {
      StepKeepsList(s, es[0]);
      RunKeepsList(Step(s, es[0]), es[1..], t);
    }
  }

  /** When the list file is to be kept nothing is ever queued or flushed, and at every
      moment the file is the one the run started with or the one saved last. */
  lemma KeptListIsUntouched(existing: string, loop: bool, list: string, es: seq<Action>, t: State)
    requires Runs(Initial(existing, loop, list, true), es, t)
    ensures t.pending == [] && t.flushers == map[] && t.list == LastSaved(es, list)
  {
    RunKeepsList(Initial(existing, loop, list, true), es, t);
  }

  // ------------------------------------------------------------- where a hit ends

  /** What became of the hits no longer at hand: taken out of the list by a rename, or
      given up by a flush that failed or was refused. */
  datatype Ledger = Ledger(pruned: set<string>, givenUp: set<string>)

  predicate GivesUp(s: State, a: Action) {
    match a
    case Check(_) => s.sink.failed
    case Read(_, ok) => !ok
    case Rename(_, ok) => !ok
    case _ => false
  }

  function Settle(s: State, a: Action, l: Ledger): Ledger
    requires Enabled(s, a)
  {
    if a.Rename? && a.ok then l.(pruned := l.pruned + Keys(s.flushers[a.id].batch))
    else if GivesUp(s, a) then l.(givenUp := l.givenUp + Keys(s.flushers[a.id].batch))
    else l
  }

  function SettleAll(s: State, es: seq<Action>, t: State, l: Ledger): Ledger
    requires Runs(s, es, t)
    decreases es
  {
    if es == [] then l else SettleAll(Step(s, es[0]), es[1..], t, Settle(s, es[0], l))
  }

  function AtHand(pc: Pc): set<string> {
    match pc case Idle => {} case Recorded(n) => {Key(n)} case Flushed(n) => {Key(n)} case Retired(n) => {Key(n)}
  }

  function InFlushes(batches: map<nat, seq<string>>): set<string> {
    set id, n | id in batches && n in batches[id] :: Key(n)
  }

  /** Every hit is at hand, waiting, in a flush, taken out, or given up. */
  ghost predicate Balanced(s: State, l: Ledger) {
    Keys(s.hits) == AtHand(s.pc) + Keys(s.pending) + InFlushes(Batches(s)) + l.pruned + l.givenUp
  }

  lemma FlushesWithout(batches: map<nat, seq<string>>, id: nat)
    requires id in batches
    ensures InFlushes(batches) == InFlushes(batches - {id}) + Keys(batches[id])
  {
    forall k | k in InFlushes(batches) ensures k in InFlushes(batches - {id}) + Keys(batches[id]) {
      var i, n :| i in batches && n in batches[i] && Key(n) == k;
      assert i != id ==> i in batches - {id} && (batches - {id})[i] == batches[i];
    }
  }

  lemma FlushesWith(batches: map<nat, seq<string>>, id: nat, batch: seq<string>)
    requires id !in batches
    ensures InFlushes(batches[id := batch]) == InFlushes(batches) + Keys(batch)
  {
    FlushesWithout(batches[id := batch], id);
    assert batches[id := batch] - {id} == batches;
  }

  lemma WriterBalances(s: State, a: Action, l: Ledger)
    requires !s.keepList && Balanced(s, l) && Enabled(s, a)
    requires !a.Take? && !a.Check? && !a.Read? && !a.Rename? && !a.Edit?
    ensures Balanced(Step(s, a), Settle(s, a, l))
  {
    hide S.Record;
    hide S.FlushBucket;
    hide InFlushes;
    hide Key;
    hide ValidUsername;
    assert Batches(Step(s, a)) == Batches(s);
    match a {
      case Hit(n, _) => assert Keys(s.hits + [n]) == Keys(s.hits) + {Key(n)};
      case Queue => assert Keys(s.pending + [s.pc.name]) == Keys(s.pending) + {Key(s.pc.name)};
      case _ =>
    }
  }

  lemma EndBalances(s: State, a: Action, l: Ledger)
    requires !s.keepList && Balanced(s, l) && Enabled(s, a) && (a.Check? || a.Read? || a.Rename?)
    ensures Balanced(Step(s, a), Settle(s, a, l))
  {
    hide InFlushes;
    hide Keys;
    hide Rewrite;
    var bs := Batches(s);
    if (a.Rename? && a.ok) || GivesUp(s, a) {
      FlushesWithout(bs, a.id);
      assert Batches(Step(s, a)) == bs - {a.id};
    } else {
      assert Batches(Step(s, a)) == bs;
    }
  }

  lemma TakeBalances(s: State, a: Action, l: Ledger)
    requires !s.keepList && Balanced(s, l) && Enabled(s, a) && (a.Take? || a.Edit?)
    ensures Balanced(Step(s, a), Settle(s, a, l))
  {
    hide InFlushes;
    hide Keys;
    hide FileKeys;
    hide PlainText;
    var bs := Batches(s);
    NoKeys();
    if a.Take? && s.pending != [] {
      FlushesWith(bs, a.id, s.pending);
      assert Batches(Step(s, a)) == bs[a.id := s.pending];
    } else {
      assert Batches(Step(s, a)) == bs;
    }
  }

  lemma StepKeepsKeeping(s: State, a: Action)
    requires Enabled(s, a)
    ensures Step(s, a).keepList == s.keepList
  {
    hide S.Record;
    hide S.FlushBucket;
    hide Rewrite;
  }

  lemma {:induction false} RunBalances(s: State, es: seq<Action>, t: State, l: Ledger)
    requires !s.keepList && Balanced(s, l) && Runs(s, es, t)
    ensures Balanced(t, SettleAll(s, es, t, l))
    decreases es
  {
    hide Step;
    hide Enabled;
    hide Settle;
    hide Balanced;
    if es != [] {
      var a := es[0];
      StepKeepsKeeping(s, a);
      match a {
        case Take(_) => TakeBalances(s, a, l);
        case Edit(_) => TakeBalances(s, a, l);
        case Check(_) => EndBalances(s, a, l);
        case Read(_, _) => EndBalances(s, a, l);
        case Rename(_, _) => EndBalances(s, a, l);
        case _ => WriterBalances(s, a, l);
      }
      RunBalances(Step(s, a), es[1..], t, Settle(s, a, l));
    }
  }

  /** No hit is forgotten either: otherwise every name ever found is at hand, queued, in a
      flush, taken out by a rename that went through, or was given up by a flush that
      failed, and nothing else is. */
  lemma EveryHitIsAccountedFor(existing: string, loop: bool, list: string, es: seq<Action>, t: State)
    requires Runs(Initial(existing, loop, list, false), es, t)
    ensures Balanced(t, SettleAll(Initial(existing, loop, list, false), es, t, Ledger({}, {})))
  {
    hide Runs;
    hide SettleAll;
    hide FileKeys;
    hide S.Opened;
    var s := Initial(existing, loop, list, false);
    assert InFlushes(Batches(s)) == {};
    RunBalances(s, es, t, Ledger({}, {}));
  }

  // --------------------------------------------------- the run told from its steps

  /** Which flushes hold a snapshot, which of these are no longer true to the file, and
      whether such a one has renamed since the user's last save. */
  datatype Race = Race(open: set<nat>, dirty: set<nat>, raced: bool)

  function Watch(r: Race, a: Action): Race {
    match a
    case Edit(_) => Race(r.open, r.open, false)
    case Read(id, true) => r.(open := r.open + {id}, dirty := r.dirty - {id})
    case Rename(id, ok) =>
      if ok && id in r.dirty then Race(r.open - {id}, r.open - {id}, true)
      else r.(open := r.open - {id}, dirty := r.dirty - {id})
    case _ => r
  }

  function WatchAll(r: Race, es: seq<Action>): Race
    decreases es
  {
    if es == [] then r else WatchAll(Watch(r, es[0]), es[1..])
  }

  ghost predicate Watched(s: State, r: Race) {
    && s.raced == r.raced
    && (forall id :: id in r.open <==> id in s.flushers && s.flushers[id].Rewriting?)
    && (forall id :: id in r.dirty <==> id in s.flushers && s.flushers[id].Rewriting? && !s.flushers[id].clean)
  }

  lemma StepWatched(s: State, r: Race, a: Action)
    requires Watched(s, r) && Enabled(s, a)
    ensures Watched(Step(s, a), Watch(r, a))
  {
    hide S.Record;
    hide S.FlushBucket;
    hide Rewrite;
    hide FileKeys;
  }

  lemma {:induction false} RunWatched(s: State, r: Race, es: seq<Action>, t: State)
    requires Watched(s, r) && Runs(s, es, t)
    ensures Watched(t, WatchAll(r, es))
    decreases es
  {
    hide Watched;
    hide Step;
    hide Enabled;
    hide Watch;
    if es != [] {
      StepWatched(s, r, es[0]);
      RunWatched(Step(s, es[0]), Watch(r, es[0]), es[1..], t);
    }
  }

  /** What a step asks of the result files. */
  function SinkOps(es: seq<Action>): seq<S.Op> {
    if es == [] then []
    else
      (match es[0]
       case Other(b, line, io) => [S.Line(b, line, io)]
       case Hit(n, io) => [S.Line(S.Available, n, io)]
       case MakeDurable(io) => [S.Push(S.Available, io)]
       case FlushFile(b, io) => [S.Push(b, io)]
       case _ => [])
      + SinkOps(es[1..])
  }

  lemma SinkMoves(s: State, a: Action, more: seq<S.Op>)
    requires Enabled(s, a)
    ensures S.ApplyAll(s.sink, SinkOps([a]) + more) == S.ApplyAll(Step(s, a).sink, more)
  {
    hide S.Record;
    hide S.FlushBucket;
    hide Rewrite;
    hide FileKeys;
    assert [a][1..] == [] && SinkOps([]) == [];
    var ops := SinkOps([a]);
    if a.Other? || a.Hit? || a.MakeDurable? || a.FlushFile? {
      assert ops == [ops[0]];
      assert (ops + more)[0] == ops[0] && (ops + more)[1..] == more;
    } else {
      assert ops + more == more;
    }
  }

  /** The result files see exactly the steps that write or flush, in order. */
  lemma {:induction false} SinkFollows(s: State, es: seq<Action>, t: State)
    requires Runs(s, es, t)
    ensures t.sink == S.ApplyAll(s.sink, SinkOps(es))
    decreases es
  {
    hide Step;
    hide Enabled;
    if es != [] {
      SinkMoves(s, es[0], SinkOps(es[1..]));
      assert [es[0]][1..] == [];
      assert SinkOps([es[0]]) + SinkOps(es[1..]) == SinkOps(es);
      SinkFollows(Step(s, es[0]), es[1..], t);
    }
  }

  function InvalidKeys(es: seq<Action>): set<string> {
    set a | a in es && a.Invalid? :: Key(a.name)
  }

  function NotYetRetired(pc: Pc): set<string> {
    match pc case Recorded(n) => {Key(n)} case Flushed(n) => {Key(n)} case _ => {}
  }

  lemma StepRetires(s: State, a: Action, invalid: set<string>)
    requires Enabled(s, a) && s.retired + NotYetRetired(s.pc) == invalid + Keys(s.hits)
    ensures var t := Step(s, a);
            t.retired + NotYetRetired(t.pc) == invalid + (if a.Invalid? then {Key(a.name)} else {}) + Keys(t.hits)
  {
    hide S.Record;
    hide S.FlushBucket;
    hide Rewrite;
    hide FileKeys;
    hide Key;
    hide ValidUsername;
    if a.Hit? {
      assert Keys(s.hits + [a.name]) == Keys(s.hits) + {Key(a.name)};
    }
  }

  lemma {:induction false} RunRetires(s: State, es: seq<Action>, t: State, invalid: set<string>)
    requires Runs(s, es, t) && s.retired + NotYetRetired(s.pc) == invalid + Keys(s.hits)
    ensures t.retired + NotYetRetired(t.pc) == invalid + InvalidKeys(es) + Keys(t.hits)
    decreases es
  {
    hide Step;
    hide Enabled;
    hide NotYetRetired;
    hide Keys;
    if es != [] {
      var a := es[0];
      var more := if a.Invalid? then {Key(a.name)} else {};
      StepRetires(s, a, invalid);
      RunRetires(Step(s, a), es[1..], t, invalid + more);
      assert es == [a] + es[1..];
      assert InvalidKeys(es) == more + InvalidKeys(es[1..]);
    }
  }

  /** Over every run, told from its steps alone: when a raced rename has happened since the
      last save; what the result files were asked to write; and that the names out of the
      rotation are the hits, once they are on disk, and the invalid ones. */
  lemma RunIsItsSteps(existing: string, loop: bool, list: string, keepList: bool, es: seq<Action>, t: State)
    requires Runs(Initial(existing, loop, list, keepList), es, t)
    ensures t.raced == WatchAll(Race({}, {}, false), es).raced
    ensures t.sink == S.ApplyAll(S.Opened(existing, loop), SinkOps(es))
    ensures t.retired + NotYetRetired(t.pc) == InvalidKeys(es) + Keys(t.hits)
  {
    hide Runs;
    hide S.ApplyAll;
    hide WatchAll;
    hide FileKeys;
    var s := Initial(existing, loop, list, keepList);
    RunWatched(s, Race({}, {}, false), es, t);
    SinkFollows(s, es, t);
    NoKeys();
    RunRetires(s, es, t, {});
  }

  // ------------------------------------------------------------- main results

  ghost predicate Reachable(t: State) {
    exists existing, loop, list, keepList, es ::
      PlainText(list) && Runs(Initial(existing, loop, list, keepList), es, t)
  }

  lemma ReachableInv(t: State)
    requires Reachable(t)
    ensures Inv(t)
  {
    hide Inv;
    var existing, loop, list, keepList, es :|
      PlainText(list) && Runs(Initial(existing, loop, list, keepList), es, t);
    InitialInv(existing, loop, list, keepList);
    RunKeepsInv(Initial(existing, loop, list, keepList), es, t);
  }

  /** When available.txt ended in a line end at the start, accounted for means on disk. */
  lemma CoveredIsDurable(s: State)
    ensures Covered(s) == Durable(s) + Victims(s)
    ensures Blank(S.Tail(s.base)) ==> Covered(s) == Durable(s)
  {
    hide S.Tail;
    hide Blank;
  }

  /** No hit is ever lost, as long as available.txt ended in a line end at the start.
      In every reachable state, a name that a rename takes out of the file that was
      read is then on a line of its own in available.txt; otherwise it is, or it is
      one of the victims of the open line. */
  lemma RemovedNamesAreDurable(s: State, id: nat, k: string)
    requires CanRename(s, id) && Reachable(s)
    requires k in FileKeys(s.flushers[id].snapshot)
    requires k !in FileKeys(AfterRename(s, id).list)
    ensures k in Durable(s) + Victims(s)
    ensures Blank(S.Tail(s.base)) ==> k in Durable(s)
  {
    hide Reachable;
    hide Inv;
    hide FileKeys;
    hide Rewrite;
    hide DropKeys;
    hide Durable;
    hide Victims;
    hide Covered;
    hide Blank;
    hide S.Tail;
    ReachableInv(s);
    RenameFacts(s, id);
    CoveredIsDurable(s);
  }

  /** A step leaves what is on disk in available.txt there, and what it held at open. */
  lemma StepGrows(s: State, a: Action)
    requires Enabled(s, a)
    ensures s.sink.available.file <= Step(s, a).sink.available.file && Step(s, a).base == s.base
  {
    hide S.Record;
    hide S.FlushBucket;
    hide Rewrite;
    hide FileKeys;
    match a {
      case Other(b, line, io) => S.FileGrows(s.sink, b, line, io);
      case Hit(n, io) => S.FileGrows(s.sink, S.Available, n, io);
      case MakeDurable(io) => S.FileGrows(s.sink, S.Available, "", io);
      case FlushFile(b, io) => S.FileGrows(s.sink, b, "", io);
      case _ =>
    }
  }

  lemma {:induction false} RunGrows(s: State, es: seq<Action>, t: State)
    requires Runs(s, es, t)
    ensures s.sink.available.file <= t.sink.available.file && t.base == s.base
    decreases es
  {
    hide Step;
    hide Enabled;
    if es != [] {
      StepGrows(s, es[0]);
      RunGrows(Step(s, es[0]), es[1..], t);
    }
  }

  /** Runs one after the other, each ended anywhere, by a crash for instance, and the next
      opened on the available.txt it left behind; the list file may be edited in between. */
  ghost predicate Sessions(ts: seq<State>) {
    && (forall i :: 0 <= i < |ts| ==> Reachable(ts[i]))
    && (forall i {:trigger ts[i].base} :: 1 <= i < |ts| ==> ts[i].base == ts[i - 1].sink.available.file)
  }

  lemma ReachableGrows(t: State)
    requires Reachable(t)
    ensures t.base <= t.sink.available.file
  {
    hide Runs;
    hide S.Loaded;
    var existing, loop, list, keepList, es :|
      PlainText(list) && Runs(Initial(existing, loop, list, keepList), es, t);
    RunGrows(Initial(existing, loop, list, keepList), es, t);
  }

  lemma {:induction false} SessionsGrow(ts: seq<State>, i: nat, j: nat)
    requires Sessions(ts) && i <= j < |ts|
    ensures ts[i].sink.available.file <= ts[j].sink.available.file
    decreases j - i
  {
    hide Reachable;
    if i < j {
      assert ts[j].base == ts[j - 1].sink.available.file;
      SessionsGrow(ts, i, j - 1);
      ReachableGrows(ts[j]);
    }
  }

  /** No hit is lost by any number of runs. Whatever a rename takes out of the list at any
      moment `s` of any of them is on a line of its own in what the last one leaves
      behind, or it was a victim of the line open when its own run started. */
  lemma TakenOutStaysOnRecord(ts: seq<State>, i: nat, s: State, es: seq<Action>, id: nat, k: string)
    requires Sessions(ts) && i < |ts|
    requires Reachable(s) && Runs(s, es, ts[i])
    requires CanRename(s, id)
    requires k in FileKeys(s.flushers[id].snapshot) && k !in FileKeys(AfterRename(s, id).list)
    ensures k in Durable(ts[|ts| - 1]) + Victims(s)
    ensures Blank(S.Tail(s.base)) ==> k in Durable(ts[|ts| - 1])
  {
    hide Reachable;
    hide Runs;
    hide FileKeys;
    hide Rewrite;
    hide Victims;
    hide Sessions;
    hide Blank;
    hide S.Tail;
    hide S.Complete;
    hide S.LineKeys;
    var last := ts[|ts| - 1];
    RemovedNamesAreDurable(s, id, k);
    RunGrows(s, es, ts[i]);
    SessionsGrow(ts, i, |ts| - 1);
    assert s.sink.available.file <= last.sink.available.file;
    S.PrefixKeys(s.sink.available.file, last.sink.available.file);
  }

  /** Conservation. Unless a raced rename has happened since the user last saved the
      file, every name saved then is still in the file or is durable in available.txt,
      the victims of an open line apart, whatever failed and whatever was lost before. */
  lemma NothingTheUserWantsIsLost(s: State)
    requires Reachable(s) && !s.raced
    ensures s.wanted <= FileKeys(s.list) + Durable(s) + Victims(s)
    ensures Blank(S.Tail(s.base)) ==> s.wanted <= FileKeys(s.list) + Durable(s)
  {
    hide Reachable;
    hide FileKeys;
    hide Durable;
    hide Victims;
    hide Covered;
    hide Blank;
    hide S.Tail;
    ReachableInv(s);
    CoveredIsDurable(s);
  }

  /** That side condition is exact for one rename: it destroys a name that is not
      accounted for if and only if the file holds one that was not there when it was
      read. */
  lemma RenameLosesExactlyUnreadNames(s: State, id: nat)
    requires CanRename(s, id) && Reachable(s)
    ensures (exists k :: k in FileKeys(s.list) && k !in Covered(s)
                         && k !in FileKeys(AfterRename(s, id).list))
       <==> !(FileKeys(s.list) - Covered(s) <= FileKeys(s.flushers[id].snapshot))
  {
    hide Reachable;
    hide Inv;
    hide FileKeys;
    hide Rewrite;
    hide DropKeys;
    hide Step;
    hide Covered;
    ReachableInv(s);
    RenameFacts(s, id);
  }

  /** Such a rename is never one whose window was free of edits. */
  lemma OnlyRacedRenamesLose(s: State, id: nat)
    requires CanRename(s, id) && Reachable(s) && s.flushers[id].clean
    ensures FileKeys(s.list) - Covered(s) <= FileKeys(s.flushers[id].snapshot)
  {
    hide Reachable;
    hide Inv;
    hide FileKeys;
    hide Rewrite;
    hide Covered;
    ReachableInv(s);
    RenameFacts(s, id);
  }

  /** Once a write failure is latched it stays, and from then on no flush gets from
      its check to the file. */
  lemma FailureStopsPruning(s: State, a: Action)
    requires Inv(s) && Enabled(s, a) && s.sink.failed
    ensures Step(s, a).sink.failed
    ensures forall id <- Step(s, a).flushers :: Step(s, a).flushers[id].Cleared? ==>
              id in s.flushers && s.flushers[id].Cleared?
  {
    hide S.Record;
    hide S.FlushBucket;
    hide S.SinkInv;
    hide S.Covered;
    hide S.Logged;
    hide FlushersInv;
    hide Rewrite;
    match a {
      case Other(b, line, io) => S.RecordKeepsPromise(s.sink, s.base, b, line, io);
      case Hit(n, io) =>
        ValidIsPlain(n);
        S.RecordKeepsPromise(s.sink, s.base, S.Available, n, io);
      case MakeDurable(io) => S.FlushKeepsPromise(s.sink, s.base, S.Available, io);
      case FlushFile(b, io) => S.FlushKeepsPromise(s.sink, s.base, b, io);
      case _ =>
    }
  }

  // ------------------------------------------------------------- the pruner

  /** `pruneBatchLimit`. */
  const PRUNE_BATCH_LIMIT: nat := 5000

  /** The usernames file, replaced whole. */
  class Disk {
    var list: string

    constructor (list: string)
      ensures this.list == list
    {
      this.list := list;
    }
  }

  /** What became of the names a flush took. */
  datatype Outcome = Nothing | Refused | Failed | Moved(removed: nat, remaining: nat)

  class ListPruner {
    const sink: S.ResultSink
    const disk: Disk
    var pending: seq<string>

    constructor (sink: S.ResultSink, disk: Disk)
      ensures this.sink == sink && this.disk == disk && pending == []
    {
      this.sink, this.disk, pending := sink, disk, [];
    }

    /** `add`: queue the name, and flush at once when the batch is full. */
    method Add(name: string, readOk: bool, renameOk: bool)
      modifies this, disk
      ensures var queue := old(pending) + [name];
              if |queue| < 5000 then pending == queue && disk.list == old(disk.list)
              else pending == []
                   && disk.list == if !sink.failed && readOk && renameOk
                                   then Rewrite(old(disk.list), queue) else old(disk.list)
    {
      pending := pending + [name];
      if |pending| >= PRUNE_BATCH_LIMIT {
        var _ := FlushPending(readOk, renameOk);
      }
    }

    /** `flush`, when nothing else runs between its steps. */
    method FlushPending(readOk: bool, renameOk: bool) returns (r: Outcome)
      modifies this, disk
      ensures pending == []
      ensures disk.list == if !sink.failed && readOk && renameOk
                           then Rewrite(old(disk.list), old(pending)) else old(disk.list)
      ensures r.Moved? <==> old(pending) != [] && !sink.failed && readOk && renameOk
      ensures r.Refused? <==> old(pending) != [] && sink.failed
      ensures r.Nothing? <==> old(pending) == []
      ensures r.Moved? ==> r.removed == |old(pending)|
                           && r.remaining == |Names(Split(disk.list, '\n'))|
    {
      var batch := pending;
      pending := [];
      if |batch| == 0 {
        return Nothing;
      }
      var err := sink.Failure();
      if err {
        return Refused;
      }
      if !readOk {
        return Failed;
      }
      var removal := RemoveFromList(disk.list, batch);
      if !renameOk {
        return Failed;
      }
      disk.list := removal.file;
      return Moved(|batch|, removal.remaining);
    }
  }

  /** An uninterrupted flush is the protocol's four steps in a row. */
  lemma FlushIsFourSteps(s: State, id: nat)
    requires id !in s.flushers && s.pending != []
    ensures var s1 := Step(s, Take(id)); var s2 := Step(s1, Check(id));
            if s.sink.failed then s2 == s.(pending := [])
            else Enabled(s2, Read(id, true))
                 && var s3 := Step(s2, Read(id, true));
                    Enabled(s3, Rename(id, true))
                    && Step(s3, Rename(id, true)) == s.(pending := [], list := Rewrite(s.list, s.pending))
  {
    var s1 := Step(s, Take(id));
    var s2 := Step(s1, Check(id));
    assert s1.flushers - {id} == s.flushers;
    if !s.sink.failed {
      var s3 := Step(s2, Read(id, true));
      assert s3.flushers - {id} == s.flushers;
    }
  }

  // ------------------------------------------------------------- the failing runs

  lemma {:induction false} RunsAppend(s: State, es: seq<Action>, t: State, a: Action)
    requires Runs(s, es, t) && Enabled(t, a)
    ensures Runs(s, es + [a], Step(t, a))
    decreases es
  {
    hide Enabled;
    hide Step;
    if es == [] {
      assert es + [a] == [a];
    } else {
      assert (es + [a])[1..] == es[1..] + [a];
      RunsAppend(Step(s, es[0]), es[1..], t, a);
    }
  }

  const FINE := S.Io(0, true)

  /** A name in the list was found and recorded, and a flush that is to drop it has just
      read the file. */
  function FlushOpen(s: State, name: string, id: nat): State {
    s.(sink := S.FlushBucket(S.Record(s.sink, S.Available, name, FINE), S.Available, FINE),
       retired := s.retired + {Key(name)},
       flushers := s.flushers[id := Rewriting([name], s.list, true)],
       hits := s.hits + [name])
  }

  /** The same from the start of a run over a file that holds just that name. */
  function Window(existing: string, name: string): State {
    FlushOpen(Initial(existing, false, name, false), name, 0)
  }

  /** ... and its rename has gone through. */
  function Pruned(existing: string, name: string): State {
    Window(existing, name).(flushers := map[], list := Rewrite(name, [name]))
  }

  /** ... but the user saved `other` before it. */
  function Overtaken(name: string, other: string): State {
    Pruned("", name).(wanted := FileKeys(other), raced := true)
  }

  ghost predicate RunsTo(s: State, t: State) {
    exists es :: Runs(s, es, t)
  }

  lemma OneStepOn(s: State, t: State, a: Action)
    requires RunsTo(s, t) && Enabled(t, a)
    ensures RunsTo(s, Step(t, a))
  {
    hide Runs;
    hide Enabled;
    hide Step;
    var es :| Runs(s, es, t);
    RunsAppend(s, es, t, a);
  }

  ghost predicate Working(sink: S.State) {
    !sink.failed && !sink.available.broken && sink.available.buffer == ""
  }

  /** On a disk that works a hit is at once on disk. */
  lemma HitOnWorkingDisk(sink: S.State, name: string)
    requires Working(sink)
    ensures var sink' := S.FlushBucket(S.Record(sink, S.Available, name, FINE), S.Available, FINE);
            && Working(sink')
            && sink'.available.file == if (S.Available, name) in sink.seen then sink.available.file
                                       else sink.available.file + (name + "\n")
  {
    var w := sink.available;
    assert w.buffer + (name + "\n") == name + "\n";
    assert (name + "\n")[..0] == "" && (name + "\n")[0..] == name + "\n";
    assert w.file + "" == w.file;
  }

  /** A name in the list was found, recorded and queued. */
  function HitQueued(s: State, name: string): State {
    s.(sink := S.FlushBucket(S.Record(s.sink, S.Available, name, FINE), S.Available, FINE),
       retired := s.retired + {Key(name)},
       pending := [name],
       hits := s.hits + [name])
  }

  lemma HitIsQueued(s0: State, s: State, name: string)
    requires RunsTo(s0, s) && s.pc == Idle && s.pending == [] && !s.keepList
    requires ValidUsername(name) && Key(name) !in s.retired
    ensures RunsTo(s0, HitQueued(s, name))
  {
    hide RunsTo;
    hide S.Record;
    hide S.FlushBucket;
    hide FileKeys;
    hide Key;
    hide ValidUsername;
    OneStepOn(s0, s, Hit(name, FINE));
    var s1 := Step(s, Hit(name, FINE));
    OneStepOn(s0, s1, MakeDurable(FINE));
    var s2 := Step(s1, MakeDurable(FINE));
    OneStepOn(s0, s2, Retire);
    var s3 := Step(s2, Retire);
    OneStepOn(s0, s3, Queue);
    assert Step(s3, Queue).pending == [name];
  }

  lemma BatchIsRead(s0: State, s: State, id: nat)
    requires RunsTo(s0, s) && s.pending != [] && id !in s.flushers && !s.sink.failed
    ensures RunsTo(s0, s.(pending := [], flushers := s.flushers[id := Rewriting(s.pending, s.list, true)]))
  {
    hide RunsTo;
    hide FileKeys;
    OneStepOn(s0, s, Take(id));
    var s1 := Step(s, Take(id));
    OneStepOn(s0, s1, Check(id));
    var s2 := Step(s1, Check(id));
    OneStepOn(s0, s2, Read(id, true));
    assert Step(s2, Read(id, true)).flushers == s.flushers[id := Rewriting(s.pending, s.list, true)];
  }

  /** A run gets from a quiet state to the open flush. */
  lemma FlushOpens(s0: State, s: State, name: string, id: nat)
    requires RunsTo(s0, s) && s.pc == Idle && s.pending == [] && !s.keepList && id !in s.flushers
    requires ValidUsername(name) && Key(name) !in s.retired && Working(s.sink)
    ensures RunsTo(s0, FlushOpen(s, name, id))
  {
    hide RunsTo;
    hide S.Record;
    hide S.FlushBucket;
    hide Key;
    hide ValidUsername;
    HitOnWorkingDisk(s.sink, name);
    HitIsQueued(s0, s, name);
    BatchIsRead(s0, HitQueued(s, name), id);
  }

  /** A run reaches that window. */
  lemma WindowIsReached(existing: string, name: string)
    requires ValidUsername(name)
    ensures RunsTo(Initial(existing, false, name, false), Window(existing, name))
  {
    hide RunsTo;
    hide FileKeys;
    hide S.Loaded;
    var s0 := Initial(existing, false, name, false);
    StaysPut(s0);
    FlushOpens(s0, s0, name, 0);
  }

  lemma SinkAfterHit(existing: string, name: string)
    ensures !Window(existing, name).sink.failed
    ensures Window(existing, name).sink.available.file
         == if name in S.Loaded(existing) then existing else existing + (name + "\n")
  {
    hide S.Loaded;
    hide S.Record;
    hide S.FlushBucket;
    HitOnWorkingDisk(S.Opened(existing, false), name);
  }

  lemma StaysPut(s: State)
    ensures RunsTo(s, s)
  {
    assert Runs(s, [], s);
  }

  lemma RenameInWindow(existing: string, name: string)
    ensures CanRename(Window(existing, name), 0)
    ensures AfterRename(Window(existing, name), 0) == Pruned(existing, name)
  {
    hide Rewrite;
    hide FileKeys;
    hide S.Record;
    hide S.FlushBucket;
    hide S.Opened;
    var s := Window(existing, name);
    assert s.flushers - {0} == map[];
  }

  lemma EditInWindow(name: string, other: string)
    ensures var s := AfterEdit(Window("", name), other);
            CanRename(s, 0) && AfterRename(s, 0) == Overtaken(name, other)
  {
    hide Rewrite;
    hide FileKeys;
    hide S.Record;
    hide S.FlushBucket;
    hide S.Opened;
    hide PlainText;
    var s := AfterEdit(Window("", name), other);
    assert s.flushers == map[0 := Rewriting([name], name, false)];
    assert s.flushers - {0} == map[] == Dirtied(map[]);
  }

  lemma OneName(name: string)
    requires ValidUsername(name)
    ensures PlainText(name) && FileKeys(name) == {Key(name)} && DropKeys([name]) == {Key(name)}
  {
    hide Trim;
    hide Key;
    ValidIsPlain(name);
    SplitNone(name, '\n');
    assert Names([name]) == [name] + Names([]);
    assert Distinct([name], {}) == [name] + Distinct([], {Key(name)});
    assert Load(name) == [name];
  }

  lemma AfterWindow(existing: string, name: string)
    requires ValidUsername(name)
    ensures FileKeys(Rewrite(name, [name])) == {}
    ensures Durable(Window(existing, name)) == S.LineKeys(S.Complete(
              if name in S.Loaded(existing) then existing else existing + (name + "\n")))
  {
    hide FileKeys;
    hide DropKeys;
    hide PlainText;
    hide S.LineKeys;
    hide S.Complete;
    hide S.Loaded;
    OneName(name);
    RewriteKeys(name, [name]);
    SinkAfterHit(existing, name);
  }

  /** What the first side condition is for. Over any earlier available.txt there is a
      run, without a single fault, that finds a name and takes it off the list; the
      name is then on a line of its own if and only if the earlier text ended in a
      line end (or in blanks), or a line above already recorded it. */
  lemma OpenLineLosesTheHit(existing: string, name: string)
    requires ValidUsername(name)
    ensures RunsTo(Initial(existing, false, name, false), Pruned(existing, name))
    ensures var t := Pruned(existing, name);
            && !t.sink.failed && FileKeys(t.list) == {}
            && (Key(name) in Durable(t) <==>
                  Blank(S.Tail(existing)) || Key(name) in S.LineKeys(S.Complete(existing)))
  {
    hide RunsTo;
    hide FileKeys;
    hide DropKeys;
    hide Rewrite;
    hide S.LineKeys;
    hide S.Complete;
    hide S.Tail;
    hide S.Loaded;
    hide Blank;
    hide Key;
    hide ValidUsername;
    WindowIsReached(existing, name);
    OneStepOn(Initial(existing, false, name, false), Window(existing, name), Rename(0, true));
    RenameInWindow(existing, name);
    AfterWindow(existing, name);
    SinkAfterHit(existing, name);
    if name in S.Loaded(existing) && Blank(S.Tail(existing)) {
      LoadedIsRecorded(existing, name);
    } else if name !in S.Loaded(existing) {
      AppendedIsRecorded(existing, name);
    }
  }

  /** As the next start reads the file, the hit is on record in one more case: it was
      loaded, so that nothing was appended to the open line. */
  lemma OpenLineTakesTheHitOffRecord(existing: string, name: string)
    requires ValidUsername(name)
    ensures Key(name) in S.OnRecord(Pruned(existing, name).sink.available.file) <==>
              || name in S.Loaded(existing)
              || Blank(S.Tail(existing))
              || Key(name) in S.LineKeys(S.Complete(existing))
  {
    hide Rewrite;
    hide S.LineKeys;
    hide S.Complete;
    hide S.Tail;
    hide S.Loaded;
    hide Blank;
    hide Key;
    hide Trim;
    hide S.Record;
    hide S.FlushBucket;
    hide S.Opened;
    ValidIsPlain(name);
    SinkAfterHit(existing, name);
    if name !in S.Loaded(existing) {
      AppendedIsRecorded(existing, name);
      S.LineAppended(existing, name);
      S.OnRecordIs(existing + (name + "\n"), name);
      S.NoKeyOfNothing(name);
    }
  }

  lemma LoadedIsRecorded(existing: string, name: string)
    requires ValidUsername(name) && name in S.Loaded(existing) && Blank(S.Tail(existing))
    ensures Key(name) in S.LineKeys(S.Complete(existing))
  {
    hide S.LineKeys;
    hide S.Complete;
    hide S.Tail;
    hide S.Loaded;
    hide Blank;
    hide Key;
    hide Trim;
    ValidIsPlain(name);
    S.LoadedLineIsLogged(existing, existing, name);
  }

  lemma AppendedIsRecorded(existing: string, name: string)
    requires ValidUsername(name)
    ensures Key(name) in S.LineKeys(S.Complete(existing + (name + "\n")))
       <==> Blank(S.Tail(existing)) || Key(name) in S.LineKeys(S.Complete(existing))
  {
    hide S.LineKeys;
    hide S.Complete;
    hide S.Tail;
    hide Blank;
    hide Key;
    hide Trim;
    ValidIsPlain(name);
    S.LineAppended(existing, name);
    S.MergedLine(S.Complete(existing), S.Tail(existing), name);
  }

  /** A file that holds `foo` without a line end: the next hit, `bar`, is written as
      `foobar`, and neither name is on record any more. */
  lemma FoobarIsNoRecord()
    ensures RunsTo(Initial("foo", false, "bar", false), Pruned("foo", "bar"))
    ensures var t := Pruned("foo", "bar");
            && !t.sink.failed && FileKeys(t.list) == {}
            && t.sink.available.file == "foobar\n" && Durable(t) == {"foobar"}
  {
    hide RunsTo;
    hide FileKeys;
    hide Rewrite;
    hide S.Loaded;
    hide S.Tail;
    hide S.Complete;
    hide S.LineKeys;
    hide Blank;
    hide ValidUsername;
    FooLines();
    FoobarLines();
    OpenLineLosesTheHit("foo", "bar");
    SinkAfterHit("foo", "bar");
    AfterWindow("foo", "bar");
  }

  lemma FooLines()
    ensures S.Tail("foo") == "foo" && S.Complete("foo") == []
    ensures "bar" !in S.Loaded("foo") && ValidUsername("bar")
  {
    hide Trim;
    SplitNone("foo", '\n');
    ValidIsPlain("foo");
    assert ScanLines("foo")[0] == DropCR("foo") == "foo";
    assert ScanLines("foo") == ["foo"];
  }

  lemma FoobarLines()
    ensures "foo" + ("bar" + "\n") == "foobar\n"
    ensures S.LineKeys(S.Complete("foo" + ("bar" + "\n"))) == {"foobar"}
  {
    hide Trim;
    hide S.Tail;
    hide S.Complete;
    FooLines();
    S.LineAppended("foo", "bar");
    assert "foo" + "bar" == "foobar";
    assert S.Complete("foo" + ("bar" + "\n")) == ["foobar"];
    ValidIsPlain("foobar");
    LowerIsKey("foobar");
  }

  lemma LowerIsKey(name: string)
    requires forall i :: 0 <= i < |name| ==> !('A' <= name[i] <= 'Z')
    ensures Key(name) == name
  {
  }

  /** What the second one is for: for any two names there is a run, without a fault, in
      which the user saves the second between a flush's read and its rename, and it is
      then neither in the file nor on record. */
  lemma EditInsideTheWindowIsLost(name: string, other: string)
    requires ValidUsername(name) && ValidUsername(other) && Key(name) != Key(other)
    ensures RunsTo(Initial("", false, name, false), Overtaken(name, other))
    ensures var t := Overtaken(name, other);
            && !t.sink.failed
            && t.wanted == {Key(other)} && FileKeys(t.list) == {} && Durable(t) == {Key(name)}
  {
    hide RunsTo;
    hide FileKeys;
    hide DropKeys;
    hide Rewrite;
    hide S.Loaded;
    hide S.LineKeys;
    hide S.Complete;
    hide ValidUsername;
    hide Key;
    var s0, w := Initial("", false, name, false), Window("", name);
    OneName(other);
    WindowIsReached("", name);
    OneStepOn(s0, w, Edit(other));
    EditInWindow(name, other);
    OneStepOn(s0, Step(w, Edit(other)), Rename(0, true));
    AfterWindow("", name);
    SinkAfterHit("", name);
    OneLine(name);
  }

  lemma OneLine(name: string)
    requires ValidUsername(name)
    ensures name !in S.Loaded("")
    ensures S.LineKeys(S.Complete("" + (name + "\n"))) == {Key(name)}
  {
    hide Trim;
    hide Key;
    ValidIsPlain(name);
    S.LineAppended("", name);
    assert "" + name == name;
    assert S.Complete("") == [] && S.Tail("") == "";
    assert ScanLines("") == [];
  }

  /** Two names in the file, both found; two flushes have read it, one to drop each. */
  function TwoFlushes(a: string, b: string): State {
    FlushOpen(FlushOpen(Initial("", false, a + "\n" + b, false), a, 0), b, 1)
  }

  lemma TwoFlushesAreOpen(a: string, b: string)
    requires ValidUsername(a) && ValidUsername(b) && Key(a) != Key(b)
    ensures RunsTo(Initial("", false, a + "\n" + b, false), TwoFlushes(a, b))
  {
    hide RunsTo;
    hide FileKeys;
    hide Key;
    hide ValidUsername;
    hide S.Record;
    hide S.FlushBucket;
    hide S.Loaded;
    var s0 := Initial("", false, a + "\n" + b, false);
    StaysPut(s0);
    FlushOpens(s0, s0, a, 0);
    HitOnWorkingDisk(s0.sink, a);
    FlushOpens(s0, FlushOpen(s0, a, 0), b, 1);
  }

  lemma TwoNames(a: string, b: string)
    requires ValidUsername(a) && ValidUsername(b) && Key(a) != Key(b)
    ensures PlainText(a + "\n" + b) && FileKeys(a + "\n" + b) == {Key(a), Key(b)}
  {
    hide Trim;
    hide Key;
    ValidIsPlain(a);
    ValidIsPlain(b);
    var text := a + "\n" + b;
    assert text == a + ['\n'] + b;
    SplitLine(a, b, '\n');
    SplitNone(b, '\n');
    assert text[0] == a[0] && a[0] in a;
    assert Body(text) == text;
    assert [a, b][1..] == [b];
    assert Names([b]) == [b] + Names([]);
    assert Names([a, b]) == [a] + Names([b]) == [a, b];
    DistinctPair(a, b);
    assert Load(text) == [a, b];
  }

  /** The later flush renames first, the earlier one second: the name the later one took
      out is in the file again, without any edit or fault, although it is retired. */
  lemma OlderSnapshotBringsNameBack(a: string, b: string)
    requires ValidUsername(a) && ValidUsername(b) && Key(a) != Key(b)
    ensures var s := TwoFlushes(a, b);
            && RunsTo(Initial("", false, a + "\n" + b, false), s)
            && CanRename(s, 1) && CanRename(AfterRename(s, 1), 0)
    ensures var s1 := AfterRename(TwoFlushes(a, b), 1);
            && RunsTo(Initial("", false, a + "\n" + b, false), AfterRename(s1, 0))
            && FileKeys(s1.list) == {Key(a)} && FileKeys(AfterRename(s1, 0).list) == {Key(b)}
            && Key(b) in s1.retired && !AfterRename(s1, 0).raced
  {
    hide RunsTo;
    hide FileKeys;
    hide PlainText;
    hide DropKeys;
    hide Rewrite;
    hide Key;
    hide ValidUsername;
    hide S.Record;
    hide S.FlushBucket;
    hide S.Opened;
    var s0, s := Initial("", false, a + "\n" + b, false), TwoFlushes(a, b);
    var s1 := AfterRename(s, 1);
    TwoFlushesAreOpen(a, b);
    TwoNames(a, b);
    OneName(a);
    OneName(b);
    RewriteKeys(a + "\n" + b, [a]);
    RewriteKeys(a + "\n" + b, [b]);
    OneStepOn(s0, s, Rename(1, true));
    OneStepOn(s0, s1, Rename(0, true));
  }
}
