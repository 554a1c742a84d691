/** The usernames file: reading it, and taking found names out of it. */
module ListFile {
  import opened Text

  const BOM: char := '\U{FEFF}'

  /** A file's text after one optional byte-order mark. */
  function Body(raw: string): string {
    if raw != "" && raw[0] == BOM then raw[1..] else raw
  }

  /** `validUsername` (check.go): what can be asked about, and so be a hit. */
  predicate ValidUsername(s: string) {
    && 1 <= |s| <= 30
    && forall i :: 0 <= i < |s| ==>
         'a' <= s[i] <= 'z' || 'A' <= s[i] <= 'Z' || '0' <= s[i] <= '9' || s[i] == '.' || s[i] == '_'
  }

  /** The loop of `validUsername`. */
  method CheckUsername(s: string) returns (ok: bool)
    ensures ok <==> ValidUsername(s)
  {
    if |s| == 0 || |s| > 30 {
      return false;
    }
    for i := 0 to |s|
      invariant ValidUsername(s[..i]) || i == 0
    {
      var c := s[i];
      assert s[..i + 1] == s[..i] + [c];
      if 'a' <= c <= 'z' || 'A' <= c <= 'Z' || '0' <= c <= '9' || c == '.' || c == '_' {
        continue;
      }
      return false;
    }
    assert s[..|s|] == s;
    return true;
  }

  lemma ValidIsPlain(s: string)
    requires ValidUsername(s)
    ensures s != "" && '\n' !in s && BOM !in s && ':' !in s
    ensures forall i :: 0 <= i < |s| ==> !IsSpace(s[i])
    ensures Trim(s) == s && IsName(s)
  {
    assert !IsSpace(s[0]) && !IsSpace(s[|s| - 1]);
  }

  function Key(name: string): string {
    Lower(name)
  }

  /** Keys ignore the case of ASCII letters, and nothing else. */
  lemma KeyIgnoresCase(a: string, b: string)
    ensures Key(a) == Key(b) <==> |a| == |b| && forall i :: 0 <= i < |a| ==> SameLetter(a[i], b[i])
  {
    if Key(a) == Key(b) {
      assert |a| == |Key(a)| == |b|;
      forall i | 0 <= i < |a| ensures SameLetter(a[i], b[i]) {
        assert Key(a)[i] == Key(b)[i];
      }
    }
  }

  predicate SameLetter(c: char, d: char) {
    || c == d
    || ('A' <= c <= 'Z' && d as int == c as int + 'a' as int - 'A' as int)
    || ('A' <= d <= 'Z' && c as int == d as int + 'a' as int - 'A' as int)
  }

  /** What a trimmed line means: a username, or a comment or blank. */
  predicate IsName(trimmed: string) {
    trimmed != "" && trimmed[0] != '#'
  }

  /** The usernames on some lines, in order, repeats included. */
  function Names(lines: seq<string>): seq<string> {
    if lines == [] then []
    else
      var t := Trim(lines[0]);
      (if IsName(t) then [t] else []) + Names(lines[1..])
  }

  /** First occurrence of every name, ignoring case. */
  function Distinct(names: seq<string>, seen: set<string>): seq<string> {
    if names == [] then []
    else if Key(names[0]) in seen then Distinct(names[1..], seen)
    else [names[0]] + Distinct(names[1..], seen + {Key(names[0])})
  }

  /** What a run starts from when the file holds `raw`. */
  function Load(raw: string): seq<string> {
    Distinct(Names(Split(Body(raw), '\n')), {})
  }

  /** `baseName` (resolve.go): the username part of a `username:id` line. */
  function BaseName(line: string): string {
    var s := Trim(TrimCRs(line));
    match Index(s, ":", 0)
    case Some(i) => Trim(s[..i])
    case None => Trim(s)
  }

  function BaseNames(names: seq<string>): (r: seq<string>)
    ensures |r| == |names|
  {
    seq(|names|, i requires 0 <= i < |names| => BaseName(names[i]))
  }

  /** The names a run starts with: what the file offers, stripped of ids. */
  function StartNames(raw: string): seq<string> {
    BaseNames(Load(raw))
  }

  function Without(names: seq<string>, drop: set<string>): seq<string> {
    if names == [] then []
    else (if Key(names[0]) in drop then [] else [names[0]]) + Without(names[1..], drop)
  }

  function Keys(names: seq<string>): set<string> {
    set n <- names :: Key(n)
  }

  function DropKeys(remove: seq<string>): set<string> {
    set r <- remove :: Key(Trim(r))
  }

  predicate Removable(line: string, drop: set<string>) {
    IsName(Trim(line)) && Key(Trim(line)) in drop
  }

  function Kept(lines: seq<string>, drop: set<string>): seq<string> {
    if lines == [] then []
    else (if Removable(lines[0], drop) then [] else [lines[0]]) + Kept(lines[1..], drop)
  }

  function PopBlanks(lines: seq<string>): seq<string> {
    if lines != [] && Trim(lines[|lines| - 1]) == "" then PopBlanks(lines[..|lines| - 1]) else lines
  }

  /** `strings.ReplaceAll(s, "\r\n", "\n")`. */
  function Unix(s: string): string {
    if s == "" then ""
    else if |s| >= 2 && s[0] == '\r' && s[1] == '\n' then "\n" + Unix(s[2..])
    else [s[0]] + Unix(s[1..])
  }

  function LineEnding(body: string): string {
    if Contains(body, "\r\n") then "\r\n" else "\n"
  }

  /** The lines that survive taking `drop` out of `raw`. */
  function Survivors(raw: string, drop: set<string>): seq<string> {
    PopBlanks(Kept(Split(Unix(Body(raw)), '\n'), drop))
  }

  /** The file's text once the names in `remove` are gone. */
  function Rewrite(raw: string, remove: seq<string>): string {
    if remove == [] then raw
    else
      var nl := LineEnding(Body(raw));
      Join(Survivors(raw, DropKeys(remove)), nl) + nl
  }

  /** Line by line the same, but for white space at line ends. */
  predicate SameButBlanks(a: seq<string>, b: seq<string>) {
    |a| == |b| && forall i :: 0 <= i < |a| ==> TrimRight(a[i]) == TrimRight(b[i])
  }

  // ---------------------------------------------------------------- methods

  /** `bufio.ScanLines`: no final empty line, and one trailing carriage return
      gone from every line. */
  function ScanLines(raw: string): seq<string> {
    var ls := Split(raw, '\n');
    var full := if ls[|ls| - 1] == "" then ls[..|ls| - 1] else ls;
    seq(|full|, i requires 0 <= i < |full| => DropCR(full[i]))
  }

  function DropCR(l: string): string {
    if l != "" && l[|l| - 1] == '\r' then l[..|l| - 1] else l
  }

  /** `strings.TrimRight(l, "\r")`. */
  function TrimCRs(l: string): string {
    if l != "" && l[|l| - 1] == '\r' then TrimCRs(l[..|l| - 1]) else l
  }

  /** Names on scanned lines, the first still carrying its byte-order mark. */
  function ScannedNames(lines: seq<string>, first: bool): seq<string> {
    if lines == [] then []
    else
      var l := if first then Body(lines[0]) else lines[0];
      var t := Trim(TrimCRs(l));
      (if IsName(t) then [t] else []) + ScannedNames(lines[1..], false)
  }

  lemma {:induction false} TrimRightIgnoresCRs(l: string)
    ensures TrimRight(TrimCRs(l)) == TrimRight(l)
    ensures TrimRight(DropCR(l)) == TrimRight(l)
  {
    if l != "" && l[|l| - 1] == '\r' {
      TrimRightIgnoresCRs(l[..|l| - 1]);
    }
  }

  lemma {:induction false} NamesAppend(a: seq<string>, b: seq<string>)
    ensures Names(a + b) == Names(a) + Names(b)
  {
    hide Trim;
    if a == [] {
      assert a + b == b;
    } else {
      assert (a + b)[1..] == a[1..] + b;
      NamesAppend(a[1..], b);
    }
  }

  /** Names do not depend on white space at line ends. */
  lemma {:induction false} SameNames(a: seq<string>, b: seq<string>)
    requires SameButBlanks(a, b)
    ensures Names(a) == Names(b)
  {
    hide TrimLeft;
    hide TrimRight;
    if a != [] {
      SameNames(a[1..], b[1..]);
    }
  }

  lemma TrimEmpty()
    ensures Trim("") == ""
  {
  }

  lemma EmptyBody()
    ensures Body("") == ""
  {
  }

  lemma NothingScanned()
    ensures ScannedNames([], true) == ScannedNames([], false) == []
  {
  }

  /** Only the first line can carry the mark that opens the file. */
  lemma BodyIsFirstLine(raw: string)
    ensures Split(Body(raw), '\n') == [Body(Split(raw, '\n')[0])] + Split(raw, '\n')[1..]
  {
    if raw != "" && raw[0] == BOM {
      var rest := Split(raw[1..], '\n');
      assert Split(raw, '\n') == [[BOM] + rest[0]] + rest[1..];
      assert ([BOM] + rest[0])[1..] == rest[0];
    } else if raw != "" && raw[0] != '\n' {
      assert Split(raw, '\n')[0][0] == raw[0];
    }
  }

  /** The scanner's view of the file and the line split agree on every name. */
  lemma {:induction false} ScannedNamesAgree(raw: string)
    ensures ScannedNames(ScanLines(raw), true) == Names(Split(Body(raw), '\n'))
  {
    hide Trim;
    hide TrimCRs;
    hide DropCR;
    hide ScannedNames;
    hide Split;
    hide Body;
    var ls := Split(raw, '\n');
    var bs := Split(Body(raw), '\n');
    BodyIsFirstLine(raw);
    var full := if ls[|ls| - 1] == "" then ls[..|ls| - 1] else ls;
    TrimEmpty();
    if full == [] {
      assert ls == [""];
      EmptyBody();
      NoNamesOnBlanks([""]);
      NothingScanned();
      assert ScanLines(raw) == [];
      assert bs == [""];
    } else {
      ScannedTail(full, true);
      var fs := [Body(full[0])] + full[1..];
      if ls[|ls| - 1] == "" {
        assert bs == fs + [""];
        NamesAppend(fs, [""]);
        NoNamesOnBlanks([""]);
      } else {
        assert bs == fs;
      }
    }
  }

  lemma {:induction false} ScannedTail(full: seq<string>, first: bool)
    requires full != []
    ensures ScannedNames(seq(|full|, i requires 0 <= i < |full| => DropCR(full[i])), first)
         == Names([if first then Body(full[0]) else full[0]] + full[1..])
  {
    hide TrimLeft;
    hide TrimRight;
    hide TrimCRs;
    hide DropCR;
    hide IsSpace;
    var sc := seq(|full|, i requires 0 <= i < |full| => DropCR(full[i]));
    var head := if first then Body(full[0]) else full[0];
    var l := if first then Body(sc[0]) else sc[0];
    TrimRightIgnoresCRs(l);
    TrimRightIgnoresCRs(head);
    assert TrimRight(l) == TrimRight(head) by {
      BodyDropCR(full[0]);
    }
    assert sc[1..] == seq(|full[1..]|, i requires 0 <= i < |full[1..]| => DropCR(full[1..][i]));
    assert ([head] + full[1..])[1..] == full[1..];
    if full[1..] != [] {
      ScannedTail(full[1..], false);
      assert [full[1..][0]] + full[1..][1..] == full[1..];
    }
  }

  lemma BodyDropCR(l: string)
    ensures Body(DropCR(l)) == DropCR(Body(l))
  {
    if l != "" && l[0] == BOM && l[|l| - 1] == '\r' {
      assert l[..|l| - 1][1..] == l[1..][..|l| - 2];
    }
  }

  lemma ScannedStep(todo: seq<string>, first: bool)
    requires todo != []
    ensures var t := Trim(TrimCRs(if first then Body(todo[0]) else todo[0]));
            ScannedNames(todo, first) == (if IsName(t) then [t] else []) + ScannedNames(todo[1..], false)
  {
    hide Trim;
    hide TrimCRs;
    hide Body;
  }

  /** `loadLines` (main.go): trimmed, non-comment lines, first spelling of each name. */
  method LoadLines(raw: string) returns (out: seq<string>)
    ensures out == Load(raw)
  {
    hide Trim;
    hide TrimCRs;
    hide Lower;
    hide Split;
    hide ScanLines;
    hide Body;
    hide ScannedNames;
    var lines := ScanLines(raw);
    out := [];
    var seen: set<string> := {};
    var first := true;
    var i := 0;
    while i < |lines|
      invariant 0 <= i <= |lines|
      invariant first <==> i == 0
      invariant out + Distinct(ScannedNames(lines[i..], first), seen)
             == Distinct(ScannedNames(lines, true), {})
    {
      var line := lines[i];
      ghost var todo := lines[i..];
      assert todo[0] == line && todo[1..] == lines[i + 1..];
      ghost var later := ScannedNames(lines[i + 1..], false);
      ScannedStep(todo, first);
      if first {
        line := Body(line);
      }
      line := Trim(TrimCRs(line));
      assert ScannedNames(todo, first) == (if IsName(line) then [line] else []) + later;
      first := false;
      i := i + 1;
      if line == "" || line[0] == '#' {
        assert [] + later == later;
        continue;
      }
      assert ([line] + later)[1..] == later;
      var key := Lower(line);
      if key in seen {
        continue;
      }
      seen := seen + {key};
      out := out + [line];
    }
    NothingScanned();
    assert lines[i..] == [] && Distinct([], seen) == [];
    assert out + [] == out;
    ScannedNamesAgree(raw);
  }

  /** What `main` does with the file at the start of a run. */
  method LoadStartNames(raw: string) returns (names: seq<string>)
    ensures names == StartNames(raw)
  {
    hide BaseName;
    hide Load;
    names := LoadLines(raw);
    for i := 0 to |names|
      invariant |names| == |Load(raw)|
      invariant forall j :: 0 <= j < |names| ==> names[j] == if j < i then BaseName(Load(raw)[j]) else Load(raw)[j]
    {
      names := names[i := BaseName(names[i])];
    }
  }

  datatype Removal = Unchanged | Removed(file: string, remaining: nat)

  /** The keys to drop, built as `removeFromList` builds its map. */
  method CollectKeys(remove: seq<string>) returns (drop: set<string>)
    ensures drop == DropKeys(remove)
  {
    drop := {};
    for j := 0 to |remove|
      invariant drop == DropKeys(remove[..j])
    {
      assert remove[..j + 1] == remove[..j] + [remove[j]];
      drop := drop + {Lower(Trim(remove[j]))};
    }
    assert remove[..|remove|] == remove;
  }

  lemma {:induction false} KeptAppend(a: seq<string>, l: string, drop: set<string>)
    ensures Kept(a + [l], drop) == Kept(a, drop) + (if Removable(l, drop) then [] else [l])
  {
    hide Trim;
    hide Key;
    hide IsName;
    hide Removable;
    if a == [] {
      assert a + [l] == [l];
      assert [l][1..] == [];
    } else {
      assert (a + [l])[1..] == a[1..] + [l];
      KeptAppend(a[1..], l, drop);
    }
  }

  /** The filtering loop of `removeFromList`. */
  method KeepLines(lines: seq<string>, drop: set<string>) returns (kept: seq<string>, remaining: nat)
    ensures kept == Kept(lines, drop)
    ensures remaining == |Names(kept)|
  {
    kept, remaining := [], 0;
    for i := 0 to |lines|
      invariant kept == Kept(lines[..i], drop)
      invariant remaining == |Names(kept)|
    {
      var line := lines[i];
      assert lines[..i + 1] == lines[..i] + [line];
      KeptAppend(lines[..i], line, drop);
      NamesAppend(kept, [line]);
      var trimmed := Trim(line);
      if IsName(trimmed) {
        if Lower(trimmed) in drop {
          continue;
        }
        remaining := remaining + 1;
      }
      kept := kept + [line];
    }
    assert lines[..|lines|] == lines;
  }

  /** The loop of `removeFromList` that pops blank lines off the end. */
  method DropTrailingBlanks(lines: seq<string>) returns (kept: seq<string>)
    ensures kept == PopBlanks(lines)
  {
    kept := lines;
    while |kept| > 0 && Trim(kept[|kept| - 1]) == ""
      invariant PopBlanks(kept) == PopBlanks(lines)
    {
      kept := kept[..|kept| - 1];
    }
  }

  /** `removeFromList` (main.go): the rewritten text and how many name lines it holds. */
  method RemoveFromList(raw: string, remove: seq<string>) returns (r: Removal)
    ensures r.Unchanged? <==> remove == []
    ensures r.Removed? ==> r.file == Rewrite(raw, remove)
    ensures r.Removed? ==> r.remaining == |Names(Split(Rewrite(raw, remove), '\n'))|
  {
    if |remove| == 0 {
      return Unchanged;
    }
    var drop := CollectKeys(remove);
    var body := Body(raw);
    var nl := LineEnding(body);
    var kept, remaining := KeepLines(Split(Unix(body), '\n'), drop);
    PopBlanksKeepsNames(kept);
    kept := DropTrailingBlanks(kept);
    SurvivorNames(raw, drop);
    NamesOfOutput(kept, nl);
    r := Removed(Join(kept, nl) + nl, remaining);
  }

  // ------------------------------------------------- rewriting against loading

  lemma SplitCRLF(t: string)
    ensures Split("\r\n" + t, '\n') == ["\r"] + Split(t, '\n')
    ensures Split("\n" + t, '\n') == [""] + Split(t, '\n')
  {
    assert "\r\n" + t == "\r" + ['\n'] + t;
    SplitLine("\r", t, '\n');
    assert "\n" + t == "" + ['\n'] + t;
    SplitLine("", t, '\n');
  }

  /** Line ending style is invisible once lines are trimmed on the right. */
  lemma {:induction false} UnixLines(s: string)
    ensures SameButBlanks(Split(Unix(s), '\n'), Split(s, '\n'))
  {
    hide TrimRight;
    hide Split;
    if s == "" {
    } else if |s| >= 2 && s[0] == '\r' && s[1] == '\n' {
      var t := s[2..];
      UnixLines(t);
      assert s == "\r\n" + t;
      assert Unix(s) == "\n" + Unix(t);
      SplitCRLF(t);
      SplitCRLF(Unix(t));
      ReturnIsBlank("");
      assert "" + "\r" == "\r";
    } else {
      UnixLines(s[1..]);
      assert Unix(s) == [s[0]] + Unix(s[1..]);
      assert s == [s[0]] + s[1..];
      SplitAfter(s[0], Unix(s[1..]), s[1..]);
    }
  }

  lemma SplitCons(c: char, x: string)
    ensures Split([c] + x, '\n') == if c == '\n' then [""] + Split(x, '\n')
                                    else [[c] + Split(x, '\n')[0]] + Split(x, '\n')[1..]
  {
    assert ([c] + x)[1..] == x;
  }

  lemma SplitAfter(c: char, x: string, y: string)
    requires SameButBlanks(Split(x, '\n'), Split(y, '\n'))
    ensures SameButBlanks(Split([c] + x, '\n'), Split([c] + y, '\n'))
  {
    hide TrimRight;
    hide Split;
    SplitCons(c, x);
    SplitCons(c, y);
    TrimRightCons(c, Split(x, '\n')[0]);
    TrimRightCons(c, Split(y, '\n')[0]);
  }

  lemma ReturnIsBlank(l: string)
    ensures TrimRight(l + "\r") == TrimRight(l)
    ensures TrimRight("") == ""
  {
    assert (l + "\r")[..|l|] == l;
  }

  /** The pieces of some lines written out, each terminated: the lines, and the empty
      piece after the last terminator. Writing no lines writes an empty one. */
  function Terminated(lines: seq<string>): seq<string> {
    (if lines == [] then [""] else lines) + [""]
  }

  /** Splitting the joined, terminated lines gives the lines back. */
  lemma {:induction false} OutputLines(kept: seq<string>, nl: string)
    requires nl == "\n" || nl == "\r\n"
    requires forall l <- kept :: '\n' !in l
    ensures SameButBlanks(Split(Join(kept, nl) + nl, '\n'), Terminated(kept))
  {
    hide TrimRight;
    hide Split;
    if |kept| > 1 {
      FirstOutputLine(kept[0], nl, Join(kept[1..], nl) + nl);
      assert Join(kept, nl) + nl == kept[0] + nl + (Join(kept[1..], nl) + nl);
      OutputLines(kept[1..], nl);
      assert Terminated(kept) == [kept[0]] + Terminated(kept[1..]);
    } else {
      var head := if kept == [] then "" else kept[0];
      FirstOutputLine(head, nl, "");
      SplitNone("", '\n');
      assert Join(kept, nl) + nl == head + nl + "";
    }
  }

  lemma FirstOutputLine(head: string, nl: string, tail: string)
    requires (nl == "\n" || nl == "\r\n") && '\n' !in head
    ensures var ls := Split(head + nl + tail, '\n');
            ls[1..] == Split(tail, '\n') && TrimRight(ls[0]) == TrimRight(head)
  {
    hide TrimRight;
    hide Split;
    var cr := if nl == "\n" then "" else "\r";
    assert head + nl + tail == (head + cr) + ['\n'] + tail;
    SplitLine(head + cr, tail, '\n');
    ReturnIsBlank(head);
    assert head + "" == head;
  }

  lemma NamesOfOutput(kept: seq<string>, nl: string)
    requires nl == "\n" || nl == "\r\n"
    requires forall l <- kept :: '\n' !in l
    ensures Names(Split(Join(kept, nl) + nl, '\n')) == Names(kept)
  {
    hide Split;
    hide Join;
    OutputLines(kept, nl);
    SameNames(Split(Join(kept, nl) + nl, '\n'), Terminated(kept));
    NamesAppend(if kept == [] then [""] else kept, [""]);
    NoNamesOnBlanks([""]);
  }

  lemma {:induction false} NoNamesOnBlanks(lines: seq<string>)
    requires forall l <- lines :: Trim(l) == ""
    ensures Names(lines) == []
  {
    if lines != [] {
      NoNamesOnBlanks(lines[1..]);
    }
  }

  lemma NamesCons(l: string, rest: seq<string>)
    ensures Names([l] + rest) == (if IsName(Trim(l)) then [Trim(l)] else []) + Names(rest)
  {
    hide Trim;
    assert ([l] + rest)[1..] == rest;
  }

  lemma WithoutCons(n: string, rest: seq<string>, drop: set<string>)
    ensures Without([n] + rest, drop) == (if Key(n) in drop then [] else [n]) + Without(rest, drop)
  {
    assert ([n] + rest)[1..] == rest;
  }

  lemma {:induction false} KeptNames(lines: seq<string>, drop: set<string>)
    ensures Names(Kept(lines, drop)) == Without(Names(lines), drop)
    ensures forall l <- Kept(lines, drop) :: l in lines
  {
    hide Trim;
    hide Key;
    hide IsName;
    hide Names;
    hide Without;
    if lines == [] {
      NothingKept(drop);
    } else {
      var l, rest := lines[0], lines[1..];
      assert lines == [l] + rest;
      KeptNames(rest, drop);
      NamesCons(l, rest);
      NamesCons(l, Kept(rest, drop));
      WithoutCons(Trim(l), Names(rest), drop);
      assert [] + Kept(rest, drop) == Kept(rest, drop) && [] + Names(rest) == Names(rest);
      assert [] + Without(Names(rest), drop) == Without(Names(rest), drop);
    }
  }

  lemma NothingKept(drop: set<string>)
    ensures Names(Kept([], drop)) == Without(Names([]), drop) == []
  {
  }

  lemma {:induction false} PopBlanksKeepsNames(lines: seq<string>)
    ensures Names(PopBlanks(lines)) == Names(lines)
    ensures PopBlanks(lines) <= lines
  {
    hide Trim;
    if lines != [] && Trim(lines[|lines| - 1]) == "" {
      PopBlanksKeepsNames(lines[..|lines| - 1]);
      assert lines == lines[..|lines| - 1] + [lines[|lines| - 1]];
      NamesAppend(lines[..|lines| - 1], [lines[|lines| - 1]]);
    }
  }

  lemma {:induction false} DistinctWithout(names: seq<string>, drop: set<string>, seen: set<string>, seen': set<string>)
    requires seen - drop == seen' - drop
    ensures Distinct(Without(names, drop), seen) == Without(Distinct(names, seen'), drop)
  {
    if names != [] {
      var n, rest := names[0], names[1..];
      if Key(n) in drop {
        assert [] + Without(rest, drop) == Without(rest, drop);
        DistinctWithout(rest, drop, seen, seen');
        if Key(n) !in seen' {
          DistinctWithout(rest, drop, seen, seen' + {Key(n)});
          assert ([n] + Distinct(rest, seen' + {Key(n)}))[1..] == Distinct(rest, seen' + {Key(n)});
        }
      } else {
        assert (Key(n) in seen) == (Key(n) in seen' - drop);
        assert ([n] + Without(rest, drop))[1..] == Without(rest, drop);
        if Key(n) in seen' {
          DistinctWithout(rest, drop, seen, seen');
        } else {
          assert (seen + {Key(n)}) - drop == (seen - drop) + {Key(n)} == (seen' + {Key(n)}) - drop;
          DistinctWithout(rest, drop, seen + {Key(n)}, seen' + {Key(n)});
          assert ([n] + Distinct(rest, seen' + {Key(n)}))[1..] == Distinct(rest, seen' + {Key(n)});
        }
      }
    }
  }

  /** The names on the rewritten lines are exactly the old ones minus the removed
      ones, whatever mixture of line endings the file used. */
  lemma SurvivorNames(raw: string, drop: set<string>)
    ensures Names(Survivors(raw, drop)) == Without(Names(Split(Body(raw), '\n')), drop)
    ensures forall l <- Survivors(raw, drop) :: '\n' !in l
  {
    var lines := Split(Unix(Body(raw)), '\n');
    UnixLines(Body(raw));
    SameNames(lines, Split(Body(raw), '\n'));
    KeptNames(lines, drop);
    PopBlanksKeepsNames(Kept(lines, drop));
  }

  /** The rewrite moves a byte-order mark to the front of the file exactly when the
      first line that survives starts with one. */
  predicate PromotesBom(raw: string, remove: seq<string>) {
    var ls := Survivors(raw, DropKeys(remove));
    ls != [] && ls[0] != "" && ls[0][0] == BOM
  }

  /** Before repeats are dropped, reading the rewritten file gives the surviving
      names in their order if and only if no mid-file byte-order mark was moved to
      the front. */
  lemma RewriteKeepsNames(raw: string, remove: seq<string>)
    requires remove != []
    ensures Names(Split(Body(Rewrite(raw, remove)), '\n'))
            == Without(Names(Split(Body(raw), '\n')), DropKeys(remove))
       <==> !PromotesBom(raw, remove)
  {
    hide Trim;
    hide Kept;
    hide PopBlanks;
    hide Unix;
    hide Split;
    hide Names;
    var kept := Survivors(raw, DropKeys(remove));
    SurvivorNames(raw, DropKeys(remove));
    if PromotesBom(raw, remove) {
      PromotedNames(kept, LineEnding(Body(raw)));
    } else {
      NamesOfOutput(kept, LineEnding(Body(raw)));
      assert Body(Rewrite(raw, remove)) == Rewrite(raw, remove);
    }
  }

  lemma BodyOfPromoted(kept: seq<string>, nl: string)
    requires kept != [] && kept[0] != "" && kept[0][0] == BOM
    ensures Body(Join(kept, nl) + nl) == Join([kept[0][1..]] + kept[1..], nl) + nl
  {
    var stripped := [kept[0][1..]] + kept[1..];
    assert stripped[1..] == kept[1..];
    assert Join(kept, nl) == [BOM] + Join(stripped, nl);
  }

  lemma PromotedNames(kept: seq<string>, nl: string)
    requires nl == "\n" || nl == "\r\n"
    requires forall l <- kept :: '\n' !in l
    requires kept != [] && kept[0] != "" && kept[0][0] == BOM
    ensures Names(Split(Body(Join(kept, nl) + nl), '\n')) != Names(kept)
  {
    hide Trim;
    hide Split;
    hide Body;
    hide Join;
    var stripped := [kept[0][1..]] + kept[1..];
    BodyOfPromoted(kept, nl);
    assert '\n' !in stripped[0] by { assert '\n' !in kept[0]; }
    NamesOfOutput(stripped, nl);
    BomLineIsName(kept[0]);
    assert stripped[1..] == kept[1..];
    var rest := Names(kept[1..]);
    assert Names(kept) == [Trim(kept[0])] + rest;
    assert IsName(Trim(stripped[0])) ==> Names(stripped)[0] == Trim(stripped[0]);
    assert !IsName(Trim(stripped[0])) ==> Names(stripped) == rest;
  }

  /** A byte-order mark is not white space, so a line that starts with one is a
      name, and a different one without it. */
  lemma BomLineIsName(l: string)
    requires l != "" && l[0] == BOM
    ensures IsName(Trim(l)) && Trim(l)[0] == BOM
    ensures |Trim(l[1..])| < |Trim(l)|
  {
    assert l == [BOM] + l[1..];
    TrimRightCons(BOM, l[1..]);
    assert TrimRight(l) == [BOM] + TrimRight(l[1..]);
    TrimLeftShrinks(TrimRight(l[1..]));
  }

  lemma TrimLeftShrinks(s: string)
    ensures |TrimLeft(s)| <= |s|
  {
  }

  /** A promotion that duplicate removal hides: the line that loses its mark is no name
      without it, and the next name that stays is the one it was with it. */
  predicate HarmlessPromotion(raw: string, remove: seq<string>) {
    PromotesBom(raw, remove)
    && var ls := Survivors(raw, DropKeys(remove));
       var rest := Names(ls[1..]);
       !IsName(Trim(ls[0][1..])) && rest != [] && rest[0] == Trim(ls[0])
  }

  /** Loading what the rewrite wrote gives the originally loaded names, in order,
      minus the removed ones ignoring case, if and only if it moved no mid-file
      byte-order mark to the front, or did so without harm. */
  lemma RewriteCommutesWithLoad(raw: string, remove: seq<string>)
    ensures Load(Rewrite(raw, remove)) == Without(Load(raw), DropKeys(remove))
       <==> remove == [] || !PromotesBom(raw, remove) || HarmlessPromotion(raw, remove)
  {
    hide Trim;
    hide Split;
    hide Body;
    hide Survivors;
    hide Rewrite;
    hide PromotesBom;
    hide HarmlessPromotion;
    if remove == [] {
      assert Rewrite(raw, remove) == raw by { RewriteNothing(raw); }
      assert DropKeys(remove) == {};
      WithoutNothing(Load(raw));
    } else {
      DistinctWithout(Names(Split(Body(raw), '\n')), DropKeys(remove), {}, {});
      if PromotesBom(raw, remove) {
        PromotedLoad(raw, remove);
      } else {
        RewriteKeepsNames(raw, remove);
      }
    }
  }

  lemma RewriteNothing(raw: string)
    ensures Rewrite(raw, []) == raw
  {
  }

  lemma PromotedLoad(raw: string, remove: seq<string>)
    requires remove != [] && PromotesBom(raw, remove)
    ensures Load(Rewrite(raw, remove)) == Distinct(Without(Names(Split(Body(raw), '\n')), DropKeys(remove)), {})
       <==> HarmlessPromotion(raw, remove)
  {
    hide Trim;
    hide Split;
    hide Body;
    hide Join;
    hide Survivors;
    hide Distinct;
    var kept := Survivors(raw, DropKeys(remove));
    var nl := LineEnding(Body(raw));
    SurvivorNames(raw, DropKeys(remove));
    BodyOfPromoted(kept, nl);
    var stripped := [kept[0][1..]] + kept[1..];
    assert '\n' !in stripped[0] by { assert '\n' !in kept[0]; }
    NamesOfOutput(stripped, nl);
    BomLineIsName(kept[0]);
    assert stripped[1..] == kept[1..];
    StrippedHead(Trim(kept[0]), Trim(stripped[0]), Names(kept[1..]));
  }

  lemma StrippedHead(u: string, v: string, rest: seq<string>)
    requires u != v
    ensures Distinct((if IsName(v) then [v] else []) + rest, {}) == Distinct([u] + rest, {})
       <==> !IsName(v) && rest != [] && rest[0] == u
  {
    hide Key;
    assert ([u] + rest)[1..] == rest && [] + rest == rest;
    assert Distinct([u] + rest, {})[0] == u;
    if IsName(v) {
      assert Distinct([v] + rest, {})[0] == v;
    } else if rest != [] {
      assert Distinct(rest, {})[0] == rest[0];
      assert {} + {Key(u)} == {Key(u)};
    }
  }

  lemma {:induction false} WithoutNothing(names: seq<string>)
    ensures Without(names, {}) == names
  {
    if names != [] {
      WithoutNothing(names[1..]);
    }
  }

  /** Comments, blank lines and names that stay keep their order and their indentation:
      up to white space at line ends, the new file is the old lines without the removed
      names and without the blank lines at the end. */
  lemma RewriteKeepsLines(raw: string, remove: seq<string>)
    requires remove != []
    ensures SameButBlanks(
              Split(Rewrite(raw, remove), '\n'),
              Terminated(PopBlanks(Kept(Split(Body(raw), '\n'), DropKeys(remove)))))
  {
    hide TrimLeft;
    hide TrimRight;
    hide Kept;
    hide PopBlanks;
    hide Unix;
    hide Split;
    hide Join;
    var drop := DropKeys(remove);
    SurvivorNames(raw, drop);
    OutputLines(Survivors(raw, drop), LineEnding(Body(raw)));
    UnixLines(Body(raw));
    var unix, lines := Split(Unix(Body(raw)), '\n'), Split(Body(raw), '\n');
    KeptOfSame(unix, lines, drop);
    PopOfSame(Kept(unix, drop), Kept(lines, drop));
  }

  /** What popping leaves: the lines up to the last that is not blank. */
  lemma {:induction false} PoppedAreBlank(lines: seq<string>)
    ensures var p := PopBlanks(lines);
            && p <= lines && (p == [] || Trim(p[|p| - 1]) != "")
            && forall i :: |p| <= i < |lines| ==> Trim(lines[i]) == ""
  {
    hide Trim;
    if lines != [] && Trim(lines[|lines| - 1]) == "" {
      PoppedAreBlank(lines[..|lines| - 1]);
    }
  }

  lemma {:induction false} ExactOutput(kept: seq<string>, nl: string)
    requires nl == "\n" || nl == "\r\n"
    requires forall l <- kept :: '\n' !in l
    ensures var ls := Split(Join(kept, nl) + nl, '\n'); var want := Terminated(kept);
            && |ls| == |want| && ls[|ls| - 1] == ""
            && forall i :: 0 <= i < |ls| - 1 ==> ls[i] == want[i] + (if nl == "\n" then "" else "\r")
  {
    hide Split;
    var cr := if nl == "\n" then "" else "\r";
    if |kept| > 1 {
      var rest := Join(kept[1..], nl) + nl;
      assert Join(kept, nl) + nl == (kept[0] + cr) + ['\n'] + rest;
      SplitLine(kept[0] + cr, rest, '\n');
      ExactOutput(kept[1..], nl);
      assert Terminated(kept) == [kept[0]] + Terminated(kept[1..]);
    } else {
      var head := if kept == [] then "" else kept[0];
      assert Join(kept, nl) + nl == (head + cr) + ['\n'] + "";
      SplitLine(head + cr, "", '\n');
      SplitNone("", '\n');
    }
  }

  predicate PairAt(s: string, i: nat) {
    i + 1 < |s| && s[i] == '\r' && s[i + 1] == '\n'
  }

  lemma {:induction false} UnixWithoutPairs(s: string)
    requires forall i: nat :: !PairAt(s, i)
    ensures Unix(s) == s
  {
    if s != "" {
      assert !PairAt(s, 0);
      forall i: nat ensures !PairAt(s[1..], i) {
        assert !PairAt(s, i + 1);
      }
      UnixWithoutPairs(s[1..]);
    }
  }

  lemma UnixWhenUnix(s: string)
    requires !Contains(s, "\r\n")
    ensures Unix(s) == s
  {
    forall i: nat ensures !PairAt(s, i) {
      if i + 1 < |s| {
        assert !OccursAt(s, "\r\n", i);
        assert s[i..i + 2] == [s[i], s[i + 1]];
      }
    }
    UnixWithoutPairs(s);
  }

  /** The file keeps its line ending style. Without a carriage return and line feed
      together, what is left is exactly the old lines that stay; with one, every line of
      the new file ends in both. */
  lemma RewriteKeepsStyle(raw: string, remove: seq<string>)
    requires remove != []
    ensures var ls := Split(Rewrite(raw, remove), '\n');
            if Contains(Body(raw), "\r\n") then forall i :: 0 <= i < |ls| - 1 ==> ls[i] != "" && ls[i][|ls[i]| - 1] == '\r'
            else ls == Terminated(PopBlanks(Kept(Split(Body(raw), '\n'), DropKeys(remove))))
  {
    hide Trim;
    hide Kept;
    hide PopBlanks;
    hide Unix;
    hide Split;
    hide Join;
    hide Body;
    hide Contains;
    hide DropKeys;
    var drop, body := DropKeys(remove), Body(raw);
    SurvivorNames(raw, drop);
    ExactOutput(Survivors(raw, drop), LineEnding(body));
    var ls, want := Split(Rewrite(raw, remove), '\n'), Terminated(Survivors(raw, drop));
    if !Contains(body, "\r\n") {
      UnixWhenUnix(body);
      NothingAdded(ls, want);
    } else {
      ReturnsAdded(ls, want);
    }
  }

  lemma NothingAdded(ls: seq<string>, want: seq<string>)
    requires |ls| == |want| && ls != [] && ls[|ls| - 1] == want[|ls| - 1]
    requires forall i :: 0 <= i < |ls| - 1 ==> ls[i] == want[i] + ""
    ensures ls == want
  {
    assert forall i :: 0 <= i < |ls| - 1 ==> ls[i] == want[i];
  }

  lemma ReturnsAdded(ls: seq<string>, want: seq<string>)
    requires |ls| == |want|
    requires forall i :: 0 <= i < |ls| - 1 ==> ls[i] == want[i] + "\r"
    ensures forall i :: 0 <= i < |ls| - 1 ==> ls[i] != "" && ls[i][|ls[i]| - 1] == '\r'
  {
  }

  lemma {:induction false} KeptOfSame(a: seq<string>, b: seq<string>, drop: set<string>)
    requires SameButBlanks(a, b)
    ensures SameButBlanks(Kept(a, drop), Kept(b, drop))
  {
    hide TrimLeft;
    hide TrimRight;
    if a != [] {
      KeptOfSame(a[1..], b[1..], drop);
      assert Removable(a[0], drop) <==> Removable(b[0], drop);
    }
  }

  lemma {:induction false} PopOfSame(a: seq<string>, b: seq<string>)
    requires SameButBlanks(a, b)
    ensures SameButBlanks(PopBlanks(a), PopBlanks(b))
  {
    hide TrimLeft;
    hide TrimRight;
    if a != [] && Trim(a[|a| - 1]) == "" {
      PopOfSame(a[..|a| - 1], b[..|b| - 1]);
    }
  }

  /** What a file offers: the key of every line that, trimmed, is neither empty nor starts
      with a number sign, and nothing else. */
  lemma OfferedKeys(raw: string)
    ensures Keys(Load(raw)) == set l | l in Split(Body(raw), '\n') && Trim(l) != "" && Trim(l)[0] != '#' :: Key(Trim(l))
  {
    hide Trim;
    hide Split;
    hide Body;
    hide Key;
    hide Distinct;
    var lines := Split(Body(raw), '\n');
    DistinctKeepsKeys(Names(lines), {});
    NamesAre(lines);
    forall k | k in Keys(Names(lines))
      ensures k in set l | l in lines && Trim(l) != "" && Trim(l)[0] != '#' :: Key(Trim(l))
    {
      var n :| n in Names(lines) && Key(n) == k;
      var l :| l in lines && Trim(l) == n && n != "" && n[0] != '#';
    }
  }

  lemma {:induction false} NamesAre(lines: seq<string>)
    ensures forall n :: n in Names(lines) <==> exists l :: l in lines && Trim(l) == n && n != "" && n[0] != '#'
  {
    hide Trim;
    if lines != [] {
      NamesAre(lines[1..]);
      assert lines == [lines[0]] + lines[1..];
      forall n ensures n in Names(lines) <==> exists l :: l in lines && Trim(l) == n && n != "" && n[0] != '#' {
        if l :| l in lines && Trim(l) == n && n != "" && n[0] != '#' {
          assert l == lines[0] || l in lines[1..];
        }
        if n in Names(lines[1..]) {
          var l :| l in lines[1..] && Trim(l) == n && n != "" && n[0] != '#';
          assert l in lines;
        }
        assert lines[0] in lines;
      }
    }
  }

  lemma {:induction false} DistinctKeepsKeys(names: seq<string>, seen: set<string>)
    ensures Keys(Distinct(names, seen)) == Keys(names) - seen
  {
    hide Key;
    if names != [] {
      var n, rest := names[0], names[1..];
      assert names == [n] + rest;
      assert Keys(names) == {Key(n)} + Keys(rest);
      if Key(n) in seen {
        DistinctKeepsKeys(rest, seen);
      } else {
        DistinctKeepsKeys(rest, seen + {Key(n)});
        var d := Distinct(rest, seen + {Key(n)});
        assert Keys([n] + d) == {Key(n)} + Keys(d);
      }
    }
  }

  /** Order and spelling: one more line adds its name at the end, unless a line above has
      it already. */
  lemma {:induction false} FirstSpellingStays(names: seq<string>, n: string, seen: set<string>)
    ensures Distinct(names + [n], seen)
         == Distinct(names, seen) + (if Key(n) in seen + Keys(names) then [] else [n])
  {
    hide Key;
    if names == [] {
      assert names + [n] == [n] && [n][1..] == [];
    } else {
      var m, rest := names[0], names[1..];
      assert (names + [n])[1..] == rest + [n];
      assert names == [m] + rest;
      assert Keys(names) == {Key(m)} + Keys(rest);
      FirstSpellingStays(rest, n, if Key(m) in seen then seen else seen + {Key(m)});
      assert seen + {Key(m)} + Keys(rest) == seen + Keys(names);
      assert Key(m) in seen ==> seen + Keys(rest) == seen + Keys(names);
    }
  }

  predicate DistinctKeys(names: seq<string>) {
    forall i, j :: 0 <= i < j < |names| ==> Key(names[i]) != Key(names[j])
  }

  /** A loaded list never holds one name twice, ignoring case. */
  lemma {:induction false} LoadIsDistinct(names: seq<string>, seen: set<string>)
    ensures DistinctKeys(Distinct(names, seen))
    ensures forall n <- Distinct(names, seen) :: n in names && Key(n) !in seen
  {
    if names != [] {
      LoadIsDistinct(names[1..], seen);
      LoadIsDistinct(names[1..], seen + {Key(names[0])});
    }
  }

  // ------------------------------------------------ the form the protocol uses

  /** Every name key the file offers to a run. */
  function FileKeys(raw: string): set<string> {
    Keys(Load(raw))
  }

  /** A text file with at most one byte-order mark, at its start. */
  predicate PlainText(raw: string) {
    BOM !in Body(raw)
  }

  lemma {:induction false} WithoutKeys(names: seq<string>, drop: set<string>)
    ensures Keys(Without(names, drop)) == Keys(names) - drop
  {
    if names != [] {
      var rest := names[1..];
      WithoutKeys(rest, drop);
      assert names == [names[0]] + rest;
      assert Keys(names) == {Key(names[0])} + Keys(rest);
      var w := Without(rest, drop);
      assert Keys([names[0]] + w) == {Key(names[0])} + Keys(w);
      assert [] + w == w;
    }
  }

  lemma {:induction false} SplitChars(s: string, sep: char, c: char)
    requires c !in s
    ensures forall l <- Split(s, sep) :: c !in l
  {
    if s != "" {
      SplitChars(s[1..], sep, c);
    }
  }

  lemma {:induction false} UnixChars(s: string, c: char)
    requires c !in s
    ensures c !in Unix(s)
  {
    if s != "" {
      if |s| >= 2 && s[0] == '\r' && s[1] == '\n' {
        UnixChars(s[2..], c);
        assert s[1] in s;
      } else {
        UnixChars(s[1..], c);
      }
    }
  }

  lemma {:induction false} JoinChars(ls: seq<string>, nl: string, c: char)
    requires c !in nl && forall l <- ls :: c !in l
    ensures c !in Join(ls, nl)
  {
    if |ls| > 1 {
      JoinChars(ls[1..], nl, c);
    }
  }

  /** Rewriting a plain text file removes exactly the keys asked for, and leaves a
      plain text file. */
  lemma RewriteKeys(raw: string, remove: seq<string>)
    requires PlainText(raw)
    ensures FileKeys(Rewrite(raw, remove)) == FileKeys(raw) - DropKeys(remove)
    ensures PlainText(Rewrite(raw, remove))
  {
    hide Trim;
    hide Unix;
    hide Split;
    hide Load;
    var drop := DropKeys(remove);
    var lines := Split(Unix(Body(raw)), '\n');
    UnixChars(Body(raw), BOM);
    SplitChars(Unix(Body(raw)), '\n', BOM);
    KeptNames(lines, drop);
    PopBlanksKeepsNames(Kept(lines, drop));
    assert !PromotesBom(raw, remove) by {
      var ls := Survivors(raw, drop);
      if ls != [] {
        assert ls[0] == Kept(lines, drop)[0];
        assert ls[0] in Kept(lines, drop);
        assert BOM !in ls[0];
      }
    }
    RewriteCommutesWithLoad(raw, remove);
    WithoutKeys(Load(raw), drop);
    if remove != [] {
      JoinChars(Survivors(raw, drop), LineEnding(Body(raw)), BOM);
    }
  }

  lemma {:induction false} UnixWithoutCR(s: string)
    requires '\r' !in s
    ensures Unix(s) == s
  {
    if s != "" {
      assert s[0] in s;
      UnixWithoutCR(s[1..]);
    }
  }

  lemma DistinctPair(a: string, b: string)
    requires Key(a) != Key(b)
    ensures Distinct([a, b], {}) == [a, b]
  {
    assert [a, b][1..] == [b] && [b][1..] == [];
    assert Distinct([b], {} + {Key(a)}) == [b] + Distinct([], {} + {Key(a)} + {Key(b)});
  }

  /** A line with an id is never taken out: a run asks about the bare name, and that is
      what it hands to the rewrite, which compares whole lines. */
  lemma LinesWithIdsStay(raw: string, hits: seq<string>, k: string)
    requires PlainText(raw) && k in FileKeys(raw) && ':' in k
    requires forall n <- hits :: ValidUsername(n)
    ensures k in FileKeys(Rewrite(raw, hits))
  {
    hide FileKeys;
    hide PlainText;
    hide Rewrite;
    hide Trim;
    RewriteKeys(raw, hits);
    forall n | n in hits ensures ':' !in Key(Trim(n)) {
      ValidIsPlain(n);
      assert forall i :: 0 <= i < |n| ==> n[i] in n;
    }
  }

  const TWO_IDS: string := "a:1\na:2"

  lemma TwoIdsLines()
    ensures Body(TWO_IDS) == TWO_IDS && Split(TWO_IDS, '\n') == ["a:1", "a:2"]
  {
    assert TWO_IDS == "a:1" + ['\n'] + "a:2";
    SplitLine("a:1", "a:2", '\n');
    SplitNone("a:2", '\n');
  }

  lemma TwoIdsLoad()
    ensures Load(TWO_IDS) == ["a:1", "a:2"]
  {
    TwoIdsLines();
    var ls := ["a:1", "a:2"];
    assert Trim("a:1") == "a:1" && Trim("a:2") == "a:2";
    assert ls[1..] == ["a:2"] && ["a:2"][1..] == [];
    assert Names(["a:2"]) == ["a:2"] + Names([]);
    assert Names(ls) == ["a:1"] + Names(["a:2"]) == ls;
    assert Key("a:1")[2] != Key("a:2")[2];
    DistinctPair("a:1", "a:2");
  }

  lemma BaseOfA(d: char)
    requires !IsSpace(d) && d != '\r'
    ensures BaseName(['a', ':', d]) == "a"
  {
    var l := ['a', ':', d];
    assert TrimCRs(l) == l && Trim(l) == l;
    assert l[0] == 'a' && l[1] == ':' && |l| == 3;
    assert OccursAt(l, ":", 1) && !OccursAt(l, ":", 0);
    assert Index(l, ":", 0) == Index(l, ":", 1) == Some(1);
    assert l[..1] == "a" && Trim("a") == "a";
  }

  /** `a` listed with two ids is two names to load, and one name twice to start with. */
  lemma TwoIdsStart()
    ensures StartNames(TWO_IDS) == ["a", "a"]
  {
    hide Load;
    hide BaseName;
    TwoIdsLoad();
    BaseOfA('1');
    BaseOfA('2');
    assert "a:1" == ['a', ':', '1'] && "a:2" == ['a', ':', '2'];
  }

  const BOM_LINE: string := [BOM, 'b']
  const BOM_FILE: string := "a\n" + BOM_LINE

  lemma BomFileLines()
    ensures Body(BOM_FILE) == Unix(BOM_FILE) == BOM_FILE
    ensures Split(BOM_FILE, '\n') == ["a", BOM_LINE]
  {
    assert BOM_FILE == "a" + ['\n'] + BOM_LINE;
    SplitLine("a", BOM_LINE, '\n');
    SplitNone(BOM_LINE, '\n');
    UnixWithoutCR(BOM_FILE);
  }

  lemma BomFileNames()
    ensures Load(BOM_FILE) == ["a", BOM_LINE]
    ensures Survivors(BOM_FILE, {"a"}) == [BOM_LINE]
    ensures Without(Load(BOM_FILE), {"a"}) == [BOM_LINE]
  {
    BomFileLines();
    var ls := ["a", BOM_LINE];
    assert ls[1..] == [BOM_LINE] && ls[1..][1..] == [];
    assert Trim("a") == "a" && Trim(BOM_LINE) == BOM_LINE;
    assert Key("a") == "a" && Key(BOM_LINE) == BOM_LINE;
    assert Names(ls) == ["a", BOM_LINE] by {
      assert Names([BOM_LINE]) == [BOM_LINE] + Names([]);
    }
    DistinctPair("a", BOM_LINE);
    assert Without([BOM_LINE], {"a"}) == [BOM_LINE] + Without([], {"a"});
    assert Removable("a", {"a"}) && !Removable(BOM_LINE, {"a"});
    assert Kept(ls[1..], {"a"}) == [BOM_LINE] + Kept([], {"a"});
    assert PopBlanks([BOM_LINE]) == [BOM_LINE];
  }

  /** Without that condition the two can disagree: taking `a` out of this file turns
      the second line's name into a different one. */
  lemma MidFileBomChangesName()
    ensures PromotesBom(BOM_FILE, ["a"])
    ensures Load(Rewrite(BOM_FILE, ["a"])) != Without(Load(BOM_FILE), DropKeys(["a"]))
  {
    assert Key(Trim("a")) == "a";
    assert DropKeys(["a"]) == {"a"};
    BomFileNames();
    BomFileLines();
    var nl := LineEnding(BOM_FILE);
    var out := Rewrite(BOM_FILE, ["a"]);
    assert out == BOM_LINE + nl;
    assert Body(out) == Join(["b"], nl) + nl;
    NamesOfOutput(["b"], nl);
    NamesOfB();
  }

  lemma NamesOfB()
    ensures Distinct(Names(["b"]), {}) == ["b"]
  {
    assert Trim("b") == "b" && ["b"][1..] == [];
    assert Names(["b"]) == ["b"] + Names([]);
    assert Distinct(["b"], {}) == ["b"] + Distinct([], {Key("b")});
  }
}
