/** The result files: buffered writers, duplicate suppression, and the first write
    failure, latched. */
module Sink {
  import opened Text
  import opened ListFile

  datatype Bucket = Available | Taken | Unknown | Errors

  /** What the operating system does to one buffered write or flush: how many of
      the buffered characters reach the disk, and whether an error is reported. */
  datatype Io = Io(landed: nat, ok: bool)

  /** A `bufio.Writer` over an appended file. After an error it refuses every later
      call. A failing write can stop anywhere, in the middle of a line too. */
  datatype Writer = Writer(file: string, buffer: string, broken: bool) {
    function Log(): string {
      file + buffer
    }
  }

  function Land(w: Writer, text: string, io: Io): (w': Writer)
    ensures w'.Log() == w.file + text
    ensures w.file <= w'.file
  {
    var n := if io.landed <= |text| then io.landed else |text|;
    assert text == text[..n] + text[n..];
    Writer(w.file + text[..n], text[n..], !io.ok)
  }

  function WriteLine(w: Writer, line: string, io: Io): Writer {
    if w.broken then w else Land(w, w.buffer + (line + "\n"), io)
  }

  function Flush(w: Writer, io: Io): Writer {
    if w.broken || w.buffer == "" then w
    else if io.ok then Land(w, w.buffer, Io(|w.buffer|, true))
    else Land(w, w.buffer, io)
  }

  datatype State = State(
    available: Writer,
    others: map<Bucket, Writer>,
    seen: set<(Bucket, string)>,
    dedup: bool,
    failed: bool)

  function WriterOf(s: State, b: Bucket): Option<Writer> {
    if b == Available then Some(s.available)
    else if b in s.others then Some(s.others[b]) else None
  }

  function WithWriter(s: State, b: Bucket, w: Writer): State {
    var s' := s.(failed := s.failed || w.broken);
    if b == Available then s'.(available := w) else s'.(others := s.others[b := w])
  }

  /** `record`. */
  function Record(s: State, b: Bucket, line: string, io: Io): State {
    if (s.dedup || b == Available) && (b, line) in s.seen then s
    else
      var s' := if s.dedup || b == Available then s.(seen := s.seen + {(b, line)}) else s;
      match WriterOf(s', b)
      case None => s'
      case Some(w) => WithWriter(s', b, WriteLine(w, line, io))
  }

  /** `flushBucket`. */
  function FlushBucket(s: State, b: Bucket, io: Io): State {
    match WriterOf(s, b)
    case None => s
    case Some(w) => WithWriter(s, b, Flush(w, io))
  }

  function NewWriters(): map<Bucket, Writer> {
    var w := Writer("", "", false);
    map[Taken := w, Unknown := w, Errors := w]
  }

  /** What `loadSeen` takes from the text already in the file, last line included even
      when it is not terminated. */
  function Loaded(text: string): set<string> {
    set l | l in ScanLines(text) && Trim(l) != "" :: Trim(l)
  }

  function Opened(existing: string, dedup: bool): State {
    State(Writer(existing, "", false), NewWriters(), set l | l in Loaded(existing) :: (Available, l), dedup, false)
  }

  class ResultSink {
    var available: Writer
    var others: map<Bucket, Writer>
    var seen: set<(Bucket, string)>
    var dedup: bool
    var failed: bool

    ghost function View(): State
      reads this
    {
      State(available, others, seen, dedup, failed)
    }

    /** Opens the files; only available.txt keeps what it already held. */
    constructor (existing: string, loop: bool)
      ensures View() == Opened(existing, loop)
    {
      available := Writer(existing, "", false);
      others := NewWriters();
      dedup, failed := loop, false;
      seen := {};
      new;
      var lines := ScanLines(existing);
      for i := 0 to |lines|
        invariant available == Writer(existing, "", false) && dedup == loop && !failed
        invariant others == NewWriters()
        invariant seen == set l | l in lines[..i] && Trim(l) != "" :: (Available, Trim(l))
      {
        assert lines[..i + 1] == lines[..i] + [lines[i]];
        var line := Trim(lines[i]);
        if line != "" {
          seen := seen + {(Available, line)};
        }
      }
      assert lines[..|lines|] == lines;
    }

    method Fail(broken: bool)
      modifies this`failed
      ensures failed == (old(failed) || broken)
    {
      if broken {
        failed := true;
      }
    }

    method RecordLine(b: Bucket, line: string, io: Io)
      modifies this
      ensures View() == Record(old(View()), b, line, io)
    {
      if dedup || b == Available {
        if (b, line) in seen {
          return;
        }
        seen := seen + {(b, line)};
      }
      if b == Available {
        available := WriteLine(available, line, io);
        Fail(available.broken);
      } else if b in others {
        var w := WriteLine(others[b], line, io);
        others := others[b := w];
        Fail(w.broken);
      }
    }

    method FlushOne(b: Bucket, io: Io)
      modifies this
      ensures View() == FlushBucket(old(View()), b, io)
    {
      if b == Available {
        available := Flush(available, io);
        Fail(available.broken);
      } else if b in others {
        var w := Flush(others[b], io);
        others := others[b := w];
        Fail(w.broken);
      }
    }

    method Failure() returns (r: bool)
      ensures r == failed
    {
      r := failed;
    }
  }

  // ------------------------------------------------------------ lines of a text

  /** The terminated lines of a text. */
  function Complete(text: string): seq<string> {
    var p := Split(text, '\n');
    p[..|p| - 1]
  }

  /** What follows the last line end: empty exactly when the text is terminated. */
  function Tail(text: string): string {
    var p := Split(text, '\n');
    p[|p| - 1]
  }

  lemma TextConcat(a: string, b: string)
    ensures Tail(b) == "" ==>
              Complete(a + b) == if Complete(b) == [] then Complete(a)
                                 else Complete(a) + [Tail(a) + Complete(b)[0]] + Complete(b)[1..]
    ensures Tail(b) == "" ==> Tail(a + b) == if Complete(b) == [] then Tail(a) else ""
    ensures Complete(a) <= Complete(a + b)
  {
    SplitConcat(a, b, '\n');
    var p, q := Split(a, '\n'), Split(b, '\n');
    assert Tail(a) + "" == Tail(a);
  }

  /** Appending a line ends whatever line was open. */
  lemma LineAppended(text: string, line: string)
    requires '\n' !in line
    ensures Complete(text + (line + "\n")) == Complete(text) + [Tail(text) + line]
    ensures Tail(text + (line + "\n")) == ""
  {
    assert line + "\n" == line + ['\n'] + "";
    SplitLine(line, "", '\n');
    assert Split("", '\n') == [""];
    TextConcat(text, line + "\n");
  }

  /** The name keys some lines record. */
  function LineKeys(lines: seq<string>): set<string> {
    set l <- lines :: Key(Trim(l))
  }

  lemma LineKeysGrow(a: seq<string>, b: seq<string>)
    ensures LineKeys(a) <= LineKeys(a + b)
    ensures LineKeys(a + b) == LineKeys(a) + LineKeys(b)
  {
    hide Trim;
    hide Key;
    forall k | k in LineKeys(a) + LineKeys(b) ensures k in LineKeys(a + b) {
      if l :| l in a && Key(Trim(l)) == k {
        assert l in a + b;
      } else {
        var l :| l in b && Key(Trim(l)) == k;
        assert l in a + b;
      }
    }
    forall k | k in LineKeys(a + b) ensures k in LineKeys(a) + LineKeys(b) {
      var l :| l in a + b && Key(Trim(l)) == k;
      assert l in a || l in b;
    }
  }

  lemma PrefixKeys(a: string, b: string)
    requires a <= b
    ensures LineKeys(Complete(a)) <= LineKeys(Complete(b))
  {
    assert b == a + b[|a|..];
    TextConcat(a, b[|a|..]);
    var p, q := Complete(a), Complete(b);
    assert q == p + q[|p|..];
    LineKeysGrow(p, q[|p|..]);
  }

  // ------------------------------------------------------------------ promises

  /** The keys on lines of their own, on disk, in available.txt. */
  function Durable(s: State): set<string> {
    LineKeys(Complete(s.available.file))
  }

  /** The lines this run has put into available.txt or its buffer. */
  function News(log: string, base: string): seq<string> {
    if |base| <= |log| then Complete(log[|base|..]) else []
  }

  /** When the file did not end in a line end at open, the names it costs: the one on
      the open line, and the first one appended to it. */
  function Victims(log: string, base: string): set<string> {
    if Blank(Tail(base)) then {}
    else {Key(Trim(Tail(base)))} + (if News(log, base) == [] then {} else {Key(Trim(News(log, base)[0]))})
  }

  /** What the log records: keys on lines of their own, or one of the victims. */
  function Logged(log: string, base: string): set<string> {
    LineKeys(Complete(log)) + Victims(log, base)
  }

  /** A broken writer has latched the failure; the run has appended whole lines to
      what the file held at open (`base`); and a line the sink claims to have seen is
      one of those or was loaded at open, unless a failure is latched. */
  ghost predicate SinkInv(s: State, base: string) {
    && base <= s.available.file
    && Tail(s.available.Log()[|base|..]) == ""
    && (s.available.broken ==> s.failed)
    && (forall b <- s.others :: s.others[b].broken ==> s.failed)
    && (s.failed || forall line :: (Available, line) in s.seen ==>
          line in News(s.available.Log(), base) || line in Loaded(base))
  }

  /** The names accounted for: on disk, or among the victims. */
  function Covered(s: State, base: string): set<string> {
    Durable(s) + Victims(s.available.Log(), base)
  }

  lemma BrokenLineIsVictim(log: string, base: string, line: string)
    requires base <= log && Tail(log[|base|..]) == "" && line in News(log, base)
    ensures Key(Trim(line)) in Logged(log, base)
  {
    hide Key;
    hide Trim;
    var rest := log[|base|..];
    assert log == base + rest;
    TextConcat(base, rest);
    var news := Complete(rest);
    var i :| 0 <= i < |news| && news[i] == line;
    if i > 0 {
      assert Complete(log)[|Complete(base)| + i] == line;
      assert line in Complete(log);
    } else if Blank(Tail(base)) {
      SpacePrefix(Tail(base), line);
      assert Complete(log)[|Complete(base)|] == Tail(base) + line;
      assert Tail(base) + line in Complete(log);
    }
  }

  lemma LoadedLineIsLogged(log: string, base: string, line: string)
    requires base <= log && line in Loaded(base)
    ensures Key(Trim(line)) in Logged(log, base)
  {
    hide Key;
    hide TrimLeft;
    hide TrimRight;
    var l :| l in ScanLines(base) && Trim(l) != "" && Trim(l) == line;
    TrimIdempotent(l);
    var p := Split(base, '\n');
    var i :| 0 <= i < |ScanLines(base)| && ScanLines(base)[i] == l;
    assert i < |p| && l == DropCR(p[i]);
    TrimRightIgnoresCRs(p[i]);
    assert Trim(p[i]) == line;
    if i < |p| - 1 {
      assert Complete(base)[i] == p[i];
      assert p[i] in Complete(base);
      PrefixKeys(base, log);
    } else {
      assert p[i] == Tail(base);
      if Blank(Tail(base)) {
        BlankTrims(Tail(base));
      }
    }
  }

  lemma {:induction false} TrimIdempotent(l: string)
    ensures Trim(Trim(l)) == Trim(l)
  {
    RightTrimmed(l);
    LeftOfRight(TrimRight(l));
  }

  lemma {:induction false} RightTrimmed(l: string)
    ensures var r := TrimRight(l); r == "" || !IsSpace(r[|r| - 1])
  {
    if l != "" && IsSpace(l[|l| - 1]) {
      RightTrimmed(l[..|l| - 1]);
    }
  }

  lemma {:induction false} LeftOfRight(r: string)
    requires r == "" || !IsSpace(r[|r| - 1])
    ensures TrimRight(TrimLeft(r)) == TrimLeft(r)
    ensures TrimLeft(TrimLeft(r)) == TrimLeft(r)
  {
    if r != "" && IsSpace(r[0]) {
      LeftOfRight(r[1..]);
    }
  }

  lemma VictimsGrow(log: string, more: string, base: string)
    requires base <= log
    ensures base <= log + more && Victims(log, base) <= Victims(log + more, base)
  {
    assert (log + more)[|base|..] == log[|base|..] + more;
    TextConcat(log[|base|..], more);
  }

  lemma NewsAppended(log: string, base: string, line: string)
    requires base <= log && Tail(log[|base|..]) == "" && '\n' !in line
    ensures var log' := log + (line + "\n");
            base <= log' && Tail(log'[|base|..]) == "" && News(log', base) == News(log, base) + [line]
  {
    var log' := log + (line + "\n");
    assert log'[|base|..] == log[|base|..] + (line + "\n");
    LineAppended(log[|base|..], line);
    assert "" + line == line;
  }

  /** What a write of one line does to the log, however the disk behaves. */
  lemma WriteLogs(w: Writer, line: string, io: Io)
    ensures var w' := WriteLine(w, line, io);
            && w.file <= w'.file
            && w'.Log() == (if w.broken then w.Log() else w.Log() + (line + "\n"))
            && (w.broken ==> w'.broken)
  {
    assert w.file + (w.buffer + (line + "\n")) == w.Log() + (line + "\n");
  }

  /** Recording never takes anything off disk, never unlatches, and what it has seen
      is logged. */
  lemma RecordKeepsPromise(s: State, base: string, b: Bucket, line: string, io: Io)
    requires SinkInv(s, base) && (b == Available ==> '\n' !in line)
    ensures var s' := Record(s, b, line, io);
            SinkInv(s', base) && Covered(s, base) <= Covered(s', base) && (s.failed ==> s'.failed)
    ensures b == Available ==>
              Record(s, b, line, io).failed
              || Key(Trim(line)) in Logged(Record(s, b, line, io).available.Log(), base)
  {
    hide Complete;
    hide Tail;
    hide Loaded;
    hide LineKeys;
    hide Key;
    hide Trim;
    hide WriteLine;
    var s' := Record(s, b, line, io);
    if b == Available {
      WriteLogs(s.available, line, io);
      var log, log' := s.available.Log(), s'.available.Log();
      if (Available, line) !in s.seen && !s.available.broken {
        NewsAppended(log, base, line);
        VictimsGrow(log, line + "\n", base);
        assert line in News(log', base);
      }
      PrefixKeys(s.available.file, s'.available.file);
      if !s'.failed {
        SeenIsLogged(s', base, line);
      }
    }
  }

  lemma SeenIsLogged(s: State, base: string, line: string)
    requires SinkInv(s, base) && !s.failed && (Available, line) in s.seen
    ensures Key(Trim(line)) in Logged(s.available.Log(), base)
  {
    hide Logged;
    hide Key;
    hide Trim;
    if line in News(s.available.Log(), base) {
      BrokenLineIsVictim(s.available.Log(), base, line);
    } else {
      LoadedLineIsLogged(s.available.Log(), base, line);
    }
  }

  /** A flush either latches or leaves everything logged on disk. */
  lemma FlushKeepsPromise(s: State, base: string, b: Bucket, io: Io)
    requires SinkInv(s, base)
    ensures var s' := FlushBucket(s, b, io);
            SinkInv(s', base) && Covered(s, base) <= Covered(s', base) && (s.failed ==> s'.failed)
    ensures var s' := FlushBucket(s, b, io);
            s'.available.Log() == s.available.Log()
            && (b == Available ==> s'.failed || s'.available.file == s.available.Log())
            && (b == Available && !s'.failed ==> Logged(s.available.Log(), base) == Covered(s', base))
  {
    hide Complete;
    hide Tail;
    hide Loaded;
    hide LineKeys;
    var s' := FlushBucket(s, b, io);
    assert s'.available.Log() == s.available.Log();
    PrefixKeys(s.available.file, s'.available.file);
    if b == Available && !s'.failed {
      assert s'.available.buffer == "";
      assert s'.available.file + "" == s'.available.file;
    }
  }

  lemma OpenedKeepsPromise(existing: string, dedup: bool)
    ensures SinkInv(Opened(existing, dedup), existing)
    ensures Durable(Opened(existing, dedup)) == LineKeys(Complete(existing))
  {
    hide Loaded;
    var s := Opened(existing, dedup);
    assert s.available.Log() == existing;
    assert existing[|existing|..] == "";
  }

  /** A hit that was recorded and flushed is on a line of its own on disk, or the
      failure is latched, whenever the file was terminated at open. */
  lemma HitIsDurable(s: State, base: string, name: string, io: Io, io': Io)
    requires SinkInv(s, base) && '\n' !in name && Blank(Tail(base))
    ensures var s' := FlushBucket(Record(s, Available, name, io), Available, io');
            s'.failed || Key(Trim(name)) in Durable(s')
  {
    hide Complete;
    hide Tail;
    hide LineKeys;
    hide SinkInv;
    hide Key;
    hide Trim;
    hide Record;
    hide FlushBucket;
    RecordKeepsPromise(s, base, Available, name, io);
    FlushKeepsPromise(Record(s, Available, name, io), base, Available, io');
    InvBase(s, base);
    InvBase(Record(s, Available, name, io), base);
  }

  lemma InvBase(s: State, base: string)
    requires SinkInv(s, base)
    ensures base <= s.available.file && base <= s.available.Log()
  {
  }

  /** And exactly then, or once a line has been appended: a hit the sink has not seen
      before is lost if and only if it is the first append to a file whose last line
      was left open, and no line records it already; one it has seen, if and only if
      no line records it. */
  lemma HitIsDurableExactly(s: State, base: string, name: string, io: Io, io': Io)
    requires SinkInv(s, base) && ValidUsername(name)
    requires !FlushBucket(Record(s, Available, name, io), Available, io').failed
    ensures var s' := FlushBucket(Record(s, Available, name, io), Available, io');
            Key(name) in Durable(s') <==>
              || Key(name) in LineKeys(Complete(s.available.Log()))
              || ((Available, name) !in s.seen && (Blank(Tail(base)) || News(s.available.Log(), base) != []))
  {
    ValidIsPlain(name);
    hide Complete;
    hide Tail;
    hide LineKeys;
    hide Loaded;
    hide Key;
    hide Trim;
    hide ValidUsername;
    hide WriteLine;
    hide Flush;
    hide Blank;
    var log := s.available.Log();
    var s1 := Record(s, Available, name, io);
    RecordKeepsPromise(s, base, Available, name, io);
    FlushKeepsPromise(s1, base, Available, io');
    WriteLogs(s.available, name, io);
    if (Available, name) !in s.seen {
      var rest := log[|base|..];
      assert log == base + rest;
      TextConcat(base, rest);
      LineAppended(log, name);
      MergedLine(Complete(log), Tail(log), name);
      EmptyIsBlank();
    }
  }

  /** The names the next start would read out of a text: its last line counts even when
      it is open. */
  function OnRecord(text: string): set<string> {
    set l <- Loaded(text) :: Key(l)
  }

  lemma OnRecordIs(text: string, name: string)
    requires name != ""
    ensures Key(name) in OnRecord(text) <==>
              Key(name) in LineKeys(Complete(text)) || Key(name) == Key(Trim(Tail(text)))
  {
    hide TrimLeft;
    hide TrimRight;
    var p, ls := Split(text, '\n'), ScanLines(text);
    if Key(name) in OnRecord(text) {
      var l :| l in ls && Trim(l) != "" && Key(Trim(l)) == Key(name);
      var i :| 0 <= i < |ls| && ls[i] == l;
      TrimRightIgnoresCRs(p[i]);
      assert i < |p| - 1 ==> Complete(text)[i] == p[i] && p[i] in Complete(text);
    }
    forall i | 0 <= i < |p| && Key(Trim(p[i])) == Key(name) ensures Key(name) in OnRecord(text) {
      TrimEmpty();
      TrimRightIgnoresCRs(p[i]);
      assert ls[i] == DropCR(p[i]) && ls[i] in ls;
      assert Trim(ls[i]) == Trim(p[i]) != "";
    }
    if Key(name) in LineKeys(Complete(text)) {
      var l :| l in Complete(text) && Key(Trim(l)) == Key(name);
      var i :| 0 <= i < |p| - 1 && p[i] == l;
    }
  }

  /** The same for what the next start reads: a seen hit on the open last line is not
      written again, and is there as long as nothing is appended to that line. */
  lemma HitIsOnRecordExactly(s: State, base: string, name: string, io: Io, io': Io)
    requires SinkInv(s, base) && ValidUsername(name)
    requires !FlushBucket(Record(s, Available, name, io), Available, io').failed
    ensures var s' := FlushBucket(Record(s, Available, name, io), Available, io');
            var log := s.available.Log();
            Key(name) in OnRecord(s'.available.file) <==>
              || Key(name) in LineKeys(Complete(log))
              || (if (Available, name) in s.seen then Key(name) == Key(Trim(Tail(log)))
                  else Blank(Tail(base)) || News(log, base) != [])
  {
    ValidIsPlain(name);
    hide Complete;
    hide Tail;
    hide LineKeys;
    hide Loaded;
    hide OnRecord;
    hide Key;
    hide Trim;
    hide ValidUsername;
    hide WriteLine;
    hide Flush;
    hide Blank;
    var log := s.available.Log();
    var s1 := Record(s, Available, name, io);
    var s2 := FlushBucket(s1, Available, io');
    HitIsDurableExactly(s, base, name, io, io');
    FlushKeepsPromise(s1, base, Available, io') by { RecordKeepsPromise(s, base, Available, name, io); }
    WriteLogs(s.available, name, io);
    OnRecordIs(s2.available.file, name);
    if (Available, name) !in s.seen {
      LineAppended(log, name);
      NoKeyOfNothing(name);
    }
  }

  lemma NoKeyOfNothing(name: string)
    requires name != ""
    ensures Key(name) != Key(Trim(""))
  {
    TrimEmpty();
  }

  lemma EmptyIsBlank()
    ensures Blank("")
  {
  }

  lemma MergedLine(lines: seq<string>, tail: string, name: string)
    requires name != "" && Trim(name) == name && forall i :: 0 <= i < |name| ==> !IsSpace(name[i])
    ensures Key(name) in LineKeys(lines + [tail + name]) <==> Key(name) in LineKeys(lines) || Blank(tail)
  {
    hide Trim;
    hide IsSpace;
    LineKeysGrow(lines, [tail + name]);
    assert tail + name in [tail + name];
    assert LineKeys([tail + name]) == {Key(Trim(tail + name))};
    if Blank(tail) {
      SpacePrefix(tail, name);
    } else {
      TextPrefix(tail, name);
    }
  }

  /** What is on disk stays there. */
  lemma FileGrows(s: State, b: Bucket, line: string, io: Io)
    ensures s.available.file <= Record(s, b, line, io).available.file
    ensures s.available.file <= FlushBucket(s, b, io).available.file
  {
    WriteLogs(s.available, line, io);
  }

  // ------------------------------------------------------- no line is repeated

  datatype Op = Line(bucket: Bucket, line: string, io: Io) | Push(bucket: Bucket, io: Io)

  function Apply(s: State, op: Op): State {
    match op
    case Line(b, l, io) => Record(s, b, l, io)
    case Push(b, io) => FlushBucket(s, b, io)
  }

  function ApplyAll(s: State, ops: seq<Op>): State
    decreases ops
  {
    if ops == [] then s else ApplyAll(Apply(s, ops[0]), ops[1..])
  }

  /** Names hold no line end. */
  predicate OneLiners(ops: seq<Op>) {
    forall op <- ops :: op.Line? && op.bucket == Available ==> '\n' !in op.line
  }

  /** What a run has appended to available.txt since it was opened holding `base`
      repeats neither itself nor what was loaded. */
  ghost predicate Added(s: State, base: string) {
    && base <= s.available.Log()
    && Tail(s.available.Log()[|base|..]) == ""
    && var news := News(s.available.Log(), base);
       && NoRepeats(news)
       && (forall n <- news :: (Available, n) in s.seen && n !in Loaded(base))
       && (forall l <- Loaded(base) :: (Available, l) in s.seen)
  }

  lemma RecordAddsOnce(s: State, line: string, io: Io, base: string)
    requires Added(s, base) && '\n' !in line
    ensures Added(Record(s, Available, line, io), base)
  {
    hide Tail;
    hide Complete;
    hide Loaded;
    hide WriteLine;
    WriteLogs(s.available, line, io);
    if (Available, line) !in s.seen && !s.available.broken {
      NewsAppended(s.available.Log(), base, line);
    }
  }

  /** In every run, whatever fails, available.txt and its buffer hold what the file
      held at the start followed by lines that repeat neither each other nor it. */
  lemma {:induction false} NothingWrittenTwice(s: State, ops: seq<Op>, base: string)
    requires Added(s, base) && OneLiners(ops)
    ensures Added(ApplyAll(s, ops), base)
    decreases ops
  {
    hide Tail;
    hide Complete;
    hide Loaded;
    if ops != [] {
      var s' := Apply(s, ops[0]);
      if ops[0].Line? && ops[0].bucket == Available {
        RecordAddsOnce(s, ops[0].line, ops[0].io, base);
      } else {
        assert s'.available.Log() == s.available.Log();
      }
      NothingWrittenTwice(s', ops[1..], base);
    }
  }

  lemma RunWritesNothingTwice(existing: string, dedup: bool, ops: seq<Op>)
    requires OneLiners(ops)
    ensures Added(ApplyAll(Opened(existing, dedup), ops), existing)
  {
    hide Loaded;
    assert Opened(existing, dedup).available.Log() == existing;
    assert existing[|existing|..] == "";
    NothingWrittenTwice(Opened(existing, dedup), ops, existing);
  }

  /** Some writer has reported an error. */
  ghost predicate SomeBroken(s: State) {
    s.available.broken || exists b :: b in s.others && s.others[b].broken
  }

  /** The latch is exact: in every run the sink reports a failure if and only if one of
      its writers has failed, and it goes on reporting it. */
  lemma {:induction false} LatchIsExact(s: State, ops: seq<Op>)
    requires s.failed <==> SomeBroken(s)
    ensures ApplyAll(s, ops).failed <==> SomeBroken(ApplyAll(s, ops))
    ensures s.failed ==> ApplyAll(s, ops).failed
    decreases ops
  {
    if ops != [] {
      ApplyLatches(s, ops[0]);
      LatchIsExact(Apply(s, ops[0]), ops[1..]);
    }
  }

  lemma ApplyLatches(s: State, op: Op)
    requires s.failed <==> SomeBroken(s)
    ensures Apply(s, op).failed <==> SomeBroken(Apply(s, op))
    ensures s.failed ==> Apply(s, op).failed
  {
    var s' := Apply(s, op);
    if op.bucket != Available && op.bucket in s.others {
      assert op.bucket in s'.others;
      assert forall b <- s.others :: b != op.bucket ==> s'.others[b] == s.others[b];
      assert s.others[op.bucket].broken ==> s'.others[op.bucket].broken;
    }
  }

  lemma RunLatchIsExact(existing: string, dedup: bool, ops: seq<Op>)
    ensures ApplyAll(Opened(existing, dedup), ops).failed <==> SomeBroken(ApplyAll(Opened(existing, dedup), ops))
  {
    LatchIsExact(Opened(existing, dedup), ops);
  }

  // ------------------------------------------------------------ what the files hold

  predicate FaultFree(ops: seq<Op>) {
    forall op <- ops :: op.io.ok
  }

  function OpLog(s: State, b: Bucket): string {
    match WriterOf(s, b) case None => "" case Some(w) => w.Log()
  }

  function SeenIn(s: State, b: Bucket): set<string> {
    set e | e in s.seen && e.0 == b :: e.1
  }

  /** The lines recorded for a bucket, in order. */
  function LinesFor(ops: seq<Op>, b: Bucket): seq<string> {
    if ops == [] then []
    else (if ops[0].Line? && ops[0].bucket == b then [ops[0].line] else []) + LinesFor(ops[1..], b)
  }

  /** The first of each, other than those seen before. */
  function Firsts(lines: seq<string>, seen: set<string>): seq<string> {
    if lines == [] then []
    else if lines[0] in seen then Firsts(lines[1..], seen)
    else [lines[0]] + Firsts(lines[1..], seen + {lines[0]})
  }

  function Written(lines: seq<string>): string {
    if lines == [] then "" else lines[0] + "\n" + Written(lines[1..])
  }

  /** All four files are open and none has failed. */
  ghost predicate Sound(s: State) {
    && !s.failed && !s.available.broken
    && forall b :: b != Available ==> b in s.others && !s.others[b].broken
  }

  lemma ApplySound(s: State, op: Op)
    requires Sound(s) && op.io.ok
    ensures Sound(Apply(s, op)) && Apply(s, op).dedup == s.dedup
  {
  }

  lemma FlushLogs(w: Writer, io: Io)
    ensures Flush(w, io).Log() == w.Log()
  {
  }

  lemma ApplySees(s: State, op: Op, b: Bucket)
    ensures SeenIn(Apply(s, op), b)
         == SeenIn(s, b) + (if op.Line? && op.bucket == b && (s.dedup || b == Available) then {op.line} else {})
  {
    hide WriteLine;
    hide Flush;
    var s' := Apply(s, op);
    assert s'.seen == if op.Line? && (s.dedup || op.bucket == Available) then s.seen + {(op.bucket, op.line)} else s.seen;
    var added := if op.Line? && op.bucket == b && (s.dedup || b == Available) then {op.line} else {};
    forall l ensures l in SeenIn(s', b) <==> l in SeenIn(s, b) + added {
      assert l in SeenIn(s', b) <==> (b, l) in s'.seen;
      assert l in SeenIn(s, b) <==> (b, l) in s.seen;
    }
  }

  /** What one step does to one bucket. */
  lemma ApplyLogs(s: State, op: Op, b: Bucket)
    requires Sound(s) && op.io.ok
    ensures var added := op.Line? && op.bucket == b && !((s.dedup || b == Available) && op.line in SeenIn(s, b));
            OpLog(Apply(s, op), b) == if added then OpLog(s, b) + (op.line + "\n") else OpLog(s, b)
  {
    hide WriteLine;
    hide Flush;
    assert op.Line? ==> (op.line in SeenIn(s, op.bucket) <==> (op.bucket, op.line) in s.seen);
    var w := WriterOf(s, op.bucket).value;
    if op.Line? {
      WriteLogs(w, op.line, op.io);
    } else {
      FlushLogs(w, op.io);
    }
  }

  lemma WrittenGrows(log: string, line: string, rest: seq<string>)
    ensures log + Written([line] + rest) == log + (line + "\n") + Written(rest)
  {
    assert ([line] + rest)[1..] == rest;
  }

  /** As long as no write fails, no failure is reported, and every file holds what it held
      before and then exactly the lines recorded for it, in order: each line once for
      available.txt, and for all four in a run that loops, and every time otherwise. */
  lemma {:induction false} FilesHoldWhatWasRecorded(s: State, ops: seq<Op>, b: Bucket)
    requires Sound(s) && FaultFree(ops)
    ensures Sound(ApplyAll(s, ops))
    ensures OpLog(ApplyAll(s, ops), b)
         == OpLog(s, b) + Written(if s.dedup || b == Available then Firsts(LinesFor(ops, b), SeenIn(s, b))
                                  else LinesFor(ops, b))
    decreases ops
  {
    hide Apply;
    hide Sound;
    hide OpLog;
    hide SeenIn;
    if ops == [] {
      assert OpLog(s, b) + "" == OpLog(s, b);
    } else {
      var op, rest := ops[0], LinesFor(ops[1..], b);
      assert op in ops && forall o <- ops[1..] :: o in ops;
      ApplySound(s, op);
      ApplyLogs(s, op, b);
      ApplySees(s, op, b);
      assert SeenIn(s, b) + {} == SeenIn(s, b);
      assert op.Line? && op.line in SeenIn(s, b) ==> SeenIn(s, b) + {op.line} == SeenIn(s, b);
      FilesHoldWhatWasRecorded(Apply(s, op), ops[1..], b);
      if op.Line? && op.bucket == b {
        assert LinesFor(ops, b) == [op.line] + rest;
        assert ([op.line] + rest)[1..] == rest;
        WrittenGrows(OpLog(s, b), op.line, rest);
        WrittenGrows(OpLog(s, b), op.line, Firsts(rest, SeenIn(s, b) + {op.line}));
      } else {
        assert LinesFor(ops, b) == rest;
      }
    }
  }

  /** From the start of a run. */
  lemma RunHoldsWhatWasRecorded(existing: string, dedup: bool, ops: seq<Op>, b: Bucket)
    requires FaultFree(ops)
    ensures var s, lines := ApplyAll(Opened(existing, dedup), ops), LinesFor(ops, b);
            && !s.failed
            && OpLog(s, b) == if b == Available then existing + Written(Firsts(lines, Loaded(existing)))
                              else if dedup then Written(Firsts(lines, {})) else Written(lines)
  {
    hide Loaded;
    hide Firsts;
    hide Written;
    hide LinesFor;
    hide ApplyAll;
    var s := Opened(existing, dedup);
    assert forall c :: c != Available ==> c in s.others by { Buckets(); }
    assert Sound(s);
    FilesHoldWhatWasRecorded(s, ops, b);
    LoadedIsSeen(existing, dedup);
    assert b != Available ==> SeenIn(s, b) == {} && OpLog(s, b) == "";
    assert OpLog(s, Available) == existing;
  }

  lemma LoadedIsSeen(existing: string, dedup: bool)
    ensures SeenIn(Opened(existing, dedup), Available) == Loaded(existing)
  {
    hide Loaded;
    var s := Opened(existing, dedup);
    forall l | l in Loaded(existing) ensures l in SeenIn(s, Available) {
      assert (Available, l) in s.seen;
    }
  }

  lemma Buckets()
    ensures forall c :: c != Available ==> c in NewWriters()
  {
    forall c | c != Available ensures c in NewWriters() {
      match c { case Taken => case Unknown => case Errors => }
    }
  }

  /** And a flush puts all of it on disk. */
  lemma FaultFreeFlush(s: State, b: Bucket, io: Io)
    requires Sound(s) && io.ok
    ensures var s' := FlushBucket(s, b, io);
            Sound(s') && WriterOf(s', b).Some? && WriterOf(s', b).value.file == OpLog(s, b)
  {
    var w := WriterOf(s, b).value;
    assert w.file + w.buffer == w.Log();
    assert w.buffer[..|w.buffer|] == w.buffer && w.file + "" == w.file;
  }

  /** Where an open last line comes from: a flush that fails inside the line. The names in
      front of it are safe, the failure is latched, and the next start finds the line
      open. */
  lemma FailedFlushOpensLine(existing: string, name: string, n: nat)
    requires ValidUsername(name) && name !in Loaded(existing) && 1 <= n <= |name|
    ensures var s := FlushBucket(Record(Opened(existing, false), Available, name, Io(0, true)), Available, Io(n, false));
            s.failed && s.available.file == existing + name[..n] && !Blank(Tail(s.available.file))
  {
    hide Loaded;
    hide Key;
    ValidIsPlain(name);
    var line := name + "\n";
    var s1 := Record(Opened(existing, false), Available, name, Io(0, true));
    assert "" + line == line && line[..0] == "" && line[0..] == line && existing + "" == existing;
    assert s1.available == Writer(existing, line, false);
    assert line[..n] == name[..n];
    var part := name[..n];
    assert '\n' !in part;
    SplitNone(part, '\n');
    TailOf(existing, part);
    assert !IsSpace(part[0]);
    var t := Tail(existing) + part;
    assert t[|t| - 1] == part[n - 1] == name[n - 1];
  }

  lemma TailOf(a: string, b: string)
    requires '\n' !in b
    ensures Tail(a + b) == Tail(a) + b
  {
    SplitConcat(a, b, '\n');
    SplitNone(b, '\n');
  }
}
