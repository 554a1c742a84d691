/** String operations of the Go standard library that the program's text
    algorithms are built from, with the facts the proofs need about them.
    A string is a sequence of code points. */
module Text {
  datatype Option<+T> = None | Some(value: T)

  /** `unicode.IsSpace`. */
  predicate IsSpace(c: char) {
    || '\t' <= c <= '\r' || c == ' '
    || c == '\U{85}' || c == '\U{A0}' || c == '\U{1680}'
    || '\U{2000}' <= c <= '\U{200A}'
    || c == '\U{2028}' || c == '\U{2029}' || c == '\U{202F}' || c == '\U{205F}' || c == '\U{3000}'
  }

  /** `strings.ToLower`, restricted to ASCII letters. */
  function LowerChar(c: char): char {
    if 'A' <= c <= 'Z' then (c as int + 32) as char else c
  }

  function Lower(s: string): (r: string)
    ensures |r| == |s|
  {
    seq(|s|, i requires 0 <= i < |s| => LowerChar(s[i]))
  }

  function TrimLeft(s: string): string {
    if s != "" && IsSpace(s[0]) then TrimLeft(s[1..]) else s
  }

  function TrimRight(s: string): string {
    if s != "" && IsSpace(s[|s| - 1]) then TrimRight(s[..|s| - 1]) else s
  }

  /** `strings.TrimSpace`. */
  function Trim(s: string): string {
    TrimLeft(TrimRight(s))
  }

  /** `strings.Split(s, sep)` for a one-character separator. */
  function Split(s: string, sep: char): (r: seq<string>)
    ensures |r| > 0
    ensures forall l <- r :: sep !in l
  {
    if s == "" then [""]
    else
      var rest := Split(s[1..], sep);
      if s[0] == sep then [""] + rest else [[s[0]] + rest[0]] + rest[1..]
  }

  /** `strings.Join`. */
  function Join(parts: seq<string>, sep: string): string {
    if parts == [] then ""
    else if |parts| == 1 then parts[0]
    else parts[0] + sep + Join(parts[1..], sep)
  }

  /** Nothing but white space. */
  predicate Blank(s: string) {
    forall i :: 0 <= i < |s| ==> IsSpace(s[i])
  }

  predicate NoRepeats(s: seq<string>) {
    forall i, j :: 0 <= i < j < |s| ==> s[i] != s[j]
  }

  predicate OccursAt(s: string, sub: string, i: nat) {
    i + |sub| <= |s| && s[i..i + |sub|] == sub
  }

  predicate Contains(s: string, sub: string) {
    exists i: nat :: i <= |s| && OccursAt(s, sub, i)
  }

  /** `strings.Index(s[from:], sub)`, as an offset into `s`: the least occurrence
      at or after `from`. */
  function Index(s: string, sub: string, from: nat): (r: Option<nat>)
    requires from <= |s|
    ensures r.Some? ==> from <= r.value <= |s| && OccursAt(s, sub, r.value)
    decreases |s| - from
  {
    if OccursAt(s, sub, from) then Some(from)
    else if from == |s| then None
    else Index(s, sub, from + 1)
  }

  lemma {:induction false} IndexIsFirst(s: string, sub: string, from: nat)
    requires from <= |s|
    ensures var r := Index(s, sub, from);
            forall k: nat :: from <= k <= |s| && (r.None? || k < r.value) ==> !OccursAt(s, sub, k)
    decreases |s| - from
  {
    if !OccursAt(s, sub, from) && from < |s| {
      IndexIsFirst(s, sub, from + 1);
    }
  }

  /** `strings.LastIndex` of a single character. */
  function LastIndexChar(s: string, c: char): (r: Option<nat>)
    ensures r.Some? ==> r.value < |s| && s[r.value] == c
  {
    if s == "" then None
    else if s[|s| - 1] == c then Some(|s| - 1)
    else LastIndexChar(s[..|s| - 1], c)
  }

  lemma {:induction false} LastIndexIsLast(s: string, c: char)
    ensures var r := LastIndexChar(s, c);
            if r.Some? then forall k :: r.value < k < |s| ==> s[k] != c else c !in s
  {
    if s != "" && s[|s| - 1] != c {
      LastIndexIsLast(s[..|s| - 1], c);
      assert s == s[..|s| - 1] + [s[|s| - 1]];
    }
  }

  /** A prefix character changes the right trim only when everything after it is blank. */
  lemma {:induction false} TrimRightCons(c: char, s: string)
    ensures TrimRight([c] + s) ==
            if TrimRight(s) == "" then (if IsSpace(c) then "" else [c]) else [c] + TrimRight(s)
  {
    if s == "" {
      assert [c] + s == [c];
      assert [c][..0] == "";
    } else if IsSpace(s[|s| - 1]) {
      assert ([c] + s)[..|s|] == [c] + s[..|s| - 1];
      TrimRightCons(c, s[..|s| - 1]);
    } else {
      assert ([c] + s)[|s|] == s[|s| - 1];
    }
  }

  /** White space in front does not survive trimming. */
  lemma {:induction false} SpacePrefix(t: string, s: string)
    requires Blank(t)
    ensures Trim(t + s) == Trim(s)
  {
    if t == "" {
      assert t + s == s;
    } else {
      var y := t[1..] + s;
      assert t + s == [t[0]] + y;
      TrimRightCons(t[0], y);
      SpacePrefix(t[1..], s);
      assert ([t[0]] + TrimRight(y))[1..] == TrimRight(y);
    }
  }

  lemma BlankTrims(t: string)
    requires Blank(t)
    ensures Trim(t) == ""
  {
    SpacePrefix(t, "");
    assert t + "" == t;
  }

  /** Anything else in front of a space-free word stays there. */
  lemma {:induction false} TextPrefix(t: string, w: string)
    requires !Blank(t) && w != "" && forall i :: 0 <= i < |w| ==> !IsSpace(w[i])
    ensures |Trim(t + w)| > |w|
  {
    var s := t + w;
    assert s[|s| - 1] == w[|w| - 1];
    assert TrimRight(s) == s;
    LeftKeepsText(t, w);
  }

  lemma {:induction false} LeftKeepsText(t: string, w: string)
    requires !Blank(t)
    ensures |TrimLeft(t + w)| > |w|
  {
    if IsSpace(t[0]) {
      assert (t + w)[1..] == t[1..] + w;
      LeftKeepsText(t[1..], w);
    }
  }

  /** A line that holds no separator is what `Split` finds in front of one. */
  lemma {:induction false} SplitLine(l: string, t: string, sep: char)
    requires sep !in l
    ensures Split(l + [sep] + t, sep) == [l] + Split(t, sep)
  {
    var s := l + [sep] + t;
    if l == "" {
      assert s[1..] == t;
    } else {
      assert s[1..] == l[1..] + [sep] + t;
      SplitLine(l[1..], t, sep);
      assert [l[0]] + l[1..] == l;
    }
  }

  function Glue(p: seq<string>, q: seq<string>): seq<string>
    requires p != [] && q != []
  {
    p[..|p| - 1] + [p[|p| - 1] + q[0]] + q[1..]
  }

  /** Splitting a concatenation joins the last piece of the one with the first of the
      other. */
  lemma {:induction false} SplitConcat(a: string, b: string, sep: char)
    ensures Split(a + b, sep) == Glue(Split(a, sep), Split(b, sep))
  {
    var q := Split(b, sep);
    if a == "" {
      assert a + b == b;
      assert "" + q[0] == q[0];
    } else {
      assert (a + b)[1..] == a[1..] + b;
      SplitConcat(a[1..], b, sep);
      GlueCons(a[0], Split(a[1..], sep), q);
    }
  }

  lemma GlueCons(c: char, r: seq<string>, q: seq<string>)
    requires r != [] && q != []
    ensures Glue([""] + r, q) == [""] + Glue(r, q)
    ensures Glue([[c] + r[0]] + r[1..], q) == [[c] + Glue(r, q)[0]] + Glue(r, q)[1..]
  {
    if |r| == 1 {
      assert [c] + (r[0] + q[0]) == [c] + r[0] + q[0];
    }
  }

  lemma {:induction false} SplitNone(l: string, sep: char)
    requires sep !in l
    ensures Split(l, sep) == [l]
  {
    if l != "" {
      SplitNone(l[1..], sep);
      assert [l[0]] + l[1..] == l;
    }
  }

  /** An index found with a separator-free prefix in front of the separator. */
  lemma SplitAtUnique<T>(a: seq<T>, r: seq<T>, b: seq<T>, q: seq<T>, sep: T)
    requires sep !in a && sep !in b
    requires a + [sep] + r == b + [sep] + q
    ensures a == b && r == q
  {
    var s := a + [sep] + r;
    assert s == b + [sep] + q;
    assert forall k :: 0 <= k < |a| ==> s[k] == a[k] && s[k] != sep;
    assert forall k :: 0 <= k < |b| ==> s[k] == b[k] && s[k] != sep;
    assert s[|a|] == sep && s[|b|] == sep;
    assert a == s[..|a|] && b == s[..|b|];
    assert r == s[|a| + 1..] && q == s[|b| + 1..];
  }

  // ------------------------------------------------------------------- bytes

  type Byte = b: int | 0 <= b < 256

  /** The bytes of one code point in UTF-8 (section 3 of RFC 3629). */
  function Utf8Char(c: char): (r: seq<Byte>)
    ensures r != []
  {
    var n := c as int;
    if n < 0x80 then [n]
    else if n < 0x800 then [0xC0 + n / 0x40, 0x80 + n % 0x40]
    else if n < 0x10000 then [0xE0 + n / 0x1000, 0x80 + n / 0x40 % 0x40, 0x80 + n % 0x40]
    else [0xF0 + n / 0x40000, 0x80 + n / 0x1000 % 0x40, 0x80 + n / 0x40 % 0x40, 0x80 + n % 0x40]
  }

  function Utf8(s: string): seq<Byte> {
    if s == "" then [] else Utf8Char(s[0]) + Utf8(s[1..])
  }

  /** The code point a text starts with, and how many bytes it takes, by its first byte. */
  function FirstChar(b: seq<Byte>): (int, nat) {
    if |b| >= 1 && b[0] < 0x80 then (b[0] as int, 1)
    else if |b| >= 2 && b[0] < 0xE0 then ((b[0] as int - 0xC0) * 0x40 + (b[1] as int - 0x80), 2)
    else if |b| >= 3 && b[0] < 0xF0 then ((b[0] as int - 0xE0) * 0x1000 + (b[1] as int - 0x80) * 0x40 + (b[2] as int - 0x80), 3)
    else if |b| >= 4 then
      ((b[0] as int - 0xF0) * 0x40000 + (b[1] as int - 0x80) * 0x1000 + (b[2] as int - 0x80) * 0x40 + (b[3] as int - 0x80), 4)
    else (0, 0)
  }

  lemma FirstCharDecodes(c: char, rest: seq<Byte>)
    ensures FirstChar(Utf8Char(c) + rest) == (c as int, |Utf8Char(c)|)
  {
    var n := c as int;
    if n >= 0x10000 {
      assert n / 0x1000 == n / 0x40000 * 0x40 + n / 0x1000 % 0x40;
      assert n / 0x40 == n / 0x1000 * 0x40 + n / 0x40 % 0x40;
    } else if n >= 0x800 {
      assert n / 0x40 == n / 0x1000 * 0x40 + n / 0x40 % 0x40;
    }
  }

  lemma {:induction false} Utf8Injective(a: string, b: string)
    requires Utf8(a) == Utf8(b)
    ensures a == b
  {
    hide Utf8Char;
    hide FirstChar;
    if a != "" && b != "" {
      var x, y := Utf8Char(a[0]), Utf8Char(b[0]);
      FirstCharDecodes(a[0], Utf8(a[1..]));
      FirstCharDecodes(b[0], Utf8(b[1..]));
      assert Utf8(a)[|x|..] == Utf8(a[1..]) && Utf8(b)[|y|..] == Utf8(b[1..]);
      Utf8Injective(a[1..], b[1..]);
      assert a == [a[0]] + a[1..] && b == [b[0]] + b[1..];
    }
  }

  /** An ASCII byte only stands for its own character. */
  lemma {:induction false} Utf8Ascii(s: string, c: char)
    requires c < '\U{80}' && c !in s
    ensures c as int !in Utf8(s)
  {
    if s != "" {
      Utf8Ascii(s[1..], c);
      assert s[0] != c;
    }
  }
}
