/** Parsing a proxy line, and the cache key that tells two proxies apart. */
module ProxyLine {
  import opened Text

  // ----------------------------------------------------------------- numbers

  predicate IsDigit(c: char) {
    '0' <= c <= '9'
  }

  function DigitOf(d: nat): char
    requires d < 10
  {
    ('0' as int + d) as char
  }

  /** `strconv.Itoa` for what is never negative here. */
  function Itoa(n: nat): string {
    if n < 10 then [DigitOf(n)] else Itoa(n / 10) + [DigitOf(n % 10)]
  }

  predicate AllDigits(s: string) {
    forall i :: 0 <= i < |s| ==> IsDigit(s[i])
  }

  function Value(s: string): nat
    requires AllDigits(s)
  {
    if s == "" then 0 else Value(s[..|s| - 1]) * 10 + (s[|s| - 1] as int - '0' as int)
  }

  /** `strconv.Atoi` on a 64-bit machine: an optional sign, then digits, in range. */
  function Atoi(s: string): Option<int> {
    var signed := s != "" && (s[0] == '+' || s[0] == '-');
    var body := if signed then s[1..] else s;
    if body == "" || !AllDigits(body) then None
    else
      var v := if signed && s[0] == '-' then -(Value(body) as int) else Value(body);
      if -0x8000_0000_0000_0000 <= v < 0x8000_0000_0000_0000 then Some(v) else None
  }

  lemma {:induction false} ItoaValue(n: nat)
    ensures AllDigits(Itoa(n)) && Itoa(n) != "" && Value(Itoa(n)) == n
  {
    var s := Itoa(n);
    if n < 10 {
      assert s[..0] == "" && Value("") == 0;
    } else {
      ItoaValue(n / 10);
      assert s[..|s| - 1] == Itoa(n / 10);
    }
  }

  lemma ItoaInjective(m: nat, n: nat)
    requires Itoa(m) == Itoa(n)
    ensures m == n
  {
    ItoaValue(m);
    ItoaValue(n);
  }

  lemma AtoiItoa(n: nat)
    requires n < 0x8000_0000_0000_0000
    ensures Atoi(Itoa(n)) == Some(n)
  {
    ItoaValue(n);
    assert IsDigit(Itoa(n)[0]);
  }

  predicate InRange(v: int) {
    -0x8000_0000_0000_0000 <= v < 0x8000_0000_0000_0000
  }

  /** What reads as a number: digits, with one sign in front or none, as long as the value
      fits into 64 bits; and nothing else does. */
  lemma AtoiReads(digits: string)
    requires AllDigits(digits) && digits != ""
    ensures Atoi(digits) == if InRange(Value(digits)) then Some(Value(digits)) else None
    ensures Atoi("+" + digits) == if InRange(Value(digits)) then Some(Value(digits)) else None
    ensures Atoi("-" + digits) == if InRange(-(Value(digits) as int)) then Some(-(Value(digits) as int)) else None
  {
    assert IsDigit(digits[0]);
    assert ("+" + digits)[1..] == digits && ("-" + digits)[1..] == digits;
  }

  lemma OnlyNumbersRead(s: string)
    requires Atoi(s).Some?
    ensures exists digits: string :: digits != "" && AllDigits(digits) && s in {digits, "+" + digits, "-" + digits}
  {
    var signed := s[0] == '+' || s[0] == '-';
    var body := if signed then s[1..] else s;
    assert signed ==> s == [s[0]] + body;
    assert body != "" && AllDigits(body) && s in {body, "+" + body, "-" + body};
  }

  // --------------------------------------------------------- host and port

  /** `net.SplitHostPort`. */
  function SplitHostPort(hp: string): Option<(string, string)> {
    match LastIndexChar(hp, ':')
    case None => None
    case Some(i) =>
      if hp[0] == '[' then
        match Index(hp, "]", 0)
        case None => None
        case Some(end) =>
          if end + 1 != i || '[' in hp[1..] || ']' in hp[end + 1..] then None
          else Some((hp[1..end], hp[i + 1..]))
      else if ':' in hp[..i] || '[' in hp || ']' in hp then None
      else Some((hp[..i], hp[i + 1..]))
  }

  /** `net.JoinHostPort`. */
  function JoinHostPort(host: string, port: string): string {
    if ':' in host then "[" + host + "]:" + port else host + ":" + port
  }

  predicate Bracketless(s: string) {
    '[' !in s && ']' !in s
  }

  lemma CharIndex(s: string, c: char, from: nat, k: nat)
    requires from <= k < |s| && s[k] == c
    requires forall j :: from <= j < k ==> s[j] != c
    ensures Index(s, [c], from) == Some(k)
  {
    IndexIsFirst(s, [c], from);
    assert OccursAt(s, [c], k);
    forall j | from <= j < k ensures !OccursAt(s, [c], j) {
      assert s[j..j + 1] == [s[j]];
    }
  }

  lemma {:induction false} NoCharIndex(s: string, c: char, from: nat)
    requires from <= |s| && c !in s[from..]
    ensures Index(s, [c], from) == None
    decreases |s| - from
  {
    if from < |s| {
      assert s[from..from + 1] == [s[from]] && s[from] == s[from..][0];
      assert s[from + 1..] == s[from..][1..];
      NoCharIndex(s, c, from + 1);
    }
  }

  lemma LastCharIndex(s: string, c: char, i: nat)
    requires i < |s| && s[i] == c && c !in s[i + 1..]
    ensures LastIndexChar(s, c) == Some(i)
  {
    LastIndexIsLast(s, c);
    assert forall k :: i < k < |s| ==> s[k] == s[i + 1..][k - i - 1];
  }

  lemma SplitBracketed(host: string, port: string)
    requires Bracketless(host) && ':' !in port && Bracketless(port)
    ensures SplitHostPort("[" + host + "]:" + port) == Some((host, port))
  {
    var hp := "[" + host + "]:" + port;
    assert hp[|host| + 3..] == port;
    LastCharIndex(hp, ':', |host| + 2);
    assert hp[1..|host| + 1] == host;
    assert forall k :: 1 <= k <= |host| ==> hp[k] == host[k - 1];
    CharIndex(hp, ']', 0, |host| + 1);
    assert hp[1..] == host + "]:" + port;
    assert hp[|host| + 2..] == ":" + port;
  }

  lemma SplitPlain(host: string, port: string)
    requires host != "" && Bracketless(host) && ':' !in host && ':' !in port && Bracketless(port)
    ensures SplitHostPort(host + ":" + port) == Some((host, port))
  {
    var hp := host + ":" + port;
    assert hp[|host| + 1..] == port;
    LastCharIndex(hp, ':', |host|);
    assert hp[..|host|] == host;
    assert hp[0] == host[0] && host[0] in host;
  }

  lemma SplitOfJoin(host: string, port: string)
    requires host != "" && Bracketless(host) && AllDigits(port)
    ensures SplitHostPort(JoinHostPort(host, port)) == Some((host, port))
  {
    if ':' in host {
      SplitBracketed(host, port);
    } else {
      SplitPlain(host, port);
    }
  }

  /** What a split yields holds no brackets. */
  lemma SplitIsBracketless(hp: string)
    requires SplitHostPort(hp).Some?
    ensures Bracketless(SplitHostPort(hp).value.0)
  {
    var i := LastIndexChar(hp, ':').value;
    if hp[0] == '[' {
      var end := Index(hp, "]", 0).value;
      IndexIsFirst(hp, "]", 0);
      assert forall j :: 1 <= j < end ==> hp[j] in hp[1..];
      forall j | 1 <= j < end ensures hp[j] != ']' {
        assert !OccursAt(hp, "]", j);
        assert hp[j..j + 1] == [hp[j]];
      }
      assert forall j :: 0 <= j < end - 1 ==> hp[1..end][j] == hp[j + 1];
    }
  }

  // ------------------------------------------------------------- the parser

  datatype Kind = HTTP | SOCKS4 | SOCKS5

  datatype Spec = Spec(
    kind: Kind, scheme: string, host: string, port: nat, user: seq<Byte>, pass: seq<Byte>, resolveLocally: bool)

  /** Host and port, user, password. Credentials are bytes: percent-decoding can yield
      any. */
  datatype Parts = Parts(hostport: string, user: seq<Byte>, pass: seq<Byte>)

  datatype Cuts = Cuts(first: nat, second: nat, third: nat)

  /** The next three colons from a place on. */
  function ThreeColons(rest: string, from: nat): (r: Option<Cuts>)
    requires from <= |rest|
    ensures r.Some? ==> r.value.first < r.value.second < r.value.third < |rest|
  {
    match Index(rest, ":", from)
    case None => None
    case Some(first) =>
      match Index(rest, ":", first + 1)
      case None => None
      case Some(second) =>
        match Index(rest, ":", second + 1)
        case None => None
        case Some(third) => Some(Cuts(first, second, third))
  }

  /** Where an IPv6 literal's brackets end, if there are any. */
  function PastBrackets(rest: string): (r: Option<nat>)
    ensures r.Some? ==> r.value <= |rest|
  {
    if rest != "" && rest[0] == '[' then Index(rest, "]", 0) else Some(0)
  }

  predicate IsHostPort(hp: string) {
    SplitHostPort(hp).Some? && Atoi(SplitHostPort(hp).value.1).Some?
  }

  /** `splitBareFour`. */
  function SplitBareFour(rest: string): Option<Parts> {
    match PastBrackets(rest)
    case None => None
    case Some(end) =>
      match ThreeColons(rest, end)
      case None => None
      case Some(c) => CutBareFour(rest, c)
  }

  function CutBareFour(rest: string, c: Cuts): Option<Parts>
    requires c.first < c.second < c.third < |rest|
  {
    if !IsHostPort(rest[..c.second]) then None
    else Some(Parts(rest[..c.second], Utf8(rest[c.second + 1..c.third]), Utf8(rest[c.third + 1..])))
  }

  function HexValue(c: char): (r: Option<nat>)
    ensures r.Some? ==> r.value < 16
  {
    if IsDigit(c) then Some(c as int - '0' as int)
    else if 'a' <= c <= 'f' then Some(c as int - 'a' as int + 10)
    else if 'A' <= c <= 'F' then Some(c as int - 'A' as int + 10)
    else None
  }

  /** `url.PathUnescape`: an escape is one byte, anything else stands for itself. */
  function PathUnescape(s: string): Option<seq<Byte>> {
    if s == "" then Some([])
    else if s[0] != '%' then
      match PathUnescape(s[1..])
      case None => None
      case Some(r) => Some(Utf8Char(s[0]) + r)
    else if |s| < 3 || HexValue(s[1]).None? || HexValue(s[2]).None? then None
    else
      match PathUnescape(s[3..])
      case None => None
      case Some(r) => Some([HexValue(s[1]).value * 16 + HexValue(s[2]).value] + r)
  }

  /** An escape can put a zero byte into a credential. */
  lemma EscapedZero()
    ensures var bytes: seq<Byte> := [0x61, 0, 0x62]; PathUnescape("a%00b") == Some(bytes)
  {
    var b, c: seq<Byte> := Utf8Char('b'), [0x62];
    assert "b"[1..] == "" && "%00b"[3..] == "b" && "a%00b"[1..] == "%00b";
    assert PathUnescape("b") == Some(b + []) && b + [] == c;
    assert "%00b"[0] == '%' && "%00b"[1] == '0' && "%00b"[2] == '0' && HexValue('0') == Some(0);
    assert PathUnescape("%00b") == Some([0] + c);
    assert PathUnescape("a%00b") == Some(Utf8Char('a') + ([0] + c));
    var r: seq<Byte> := [0x61, 0, 0x62];
    assert Utf8Char('a') + ([0] + c) == r;
  }

  /** Decoded, or left alone when it does not decode. */
  function Unescaped(s: string): seq<Byte> {
    match PathUnescape(s) case None => Utf8(s) case Some(u) => u
  }

  /** Credentials in front of the last '@', percent-decoded. */
  function SplitUrlAuth(rest: string): Parts {
    match LastIndexChar(rest, '@')
    case None => Parts(rest, [], [])
    case Some(at) =>
      var auth := rest[..at];
      match Index(auth, ":", 0)
      case Some(c) => Parts(rest[at + 1..], Unescaped(auth[..c]), Unescaped(auth[c + 1..]))
      case None => Parts(rest[at + 1..], Unescaped(auth), Unescaped(""))
  }

  function WithScheme(scheme: string, host: string, port: nat, user: seq<Byte>, pass: seq<Byte>): Option<Spec> {
    if scheme == "http" || scheme == "https" then Some(Spec(HTTP, scheme, host, port, user, pass, false))
    else if scheme == "socks4" || scheme == "socks4a" then
      Some(Spec(SOCKS4, scheme, host, port, user, [], scheme == "socks4"))
    else if scheme == "socks5" || scheme == "socks5h" then
      Some(Spec(SOCKS5, "socks5h", host, port, user, pass, false))
    else None
  }

  function FromParts(scheme: string, p: Parts): Option<Spec> {
    match SplitHostPort(p.hostport)
    case None => None
    case Some((h, portStr)) =>
      var host := Trim(h);
      var port := Atoi(Trim(portStr));
      if host == "" || port.None? || port.value < 1 || port.value > 65535 then None
      else WithScheme(if scheme == "" then "http" else scheme, host, port.value, p.user, p.pass)
  }

  /** `parseProxy`. */
  function Parse(line: string): Option<Spec> {
    var raw := Trim(line);
    if raw == "" then None
    else
      var i := Index(raw, "://", 0);
      var scheme := if i.Some? then Lower(Trim(raw[..i.value])) else "";
      var rest := if i.Some? then raw[i.value + 3..] else raw;
      var bare := if scheme == "" then SplitBareFour(rest) else None;
      FromParts(scheme, if bare.Some? then bare.value else SplitUrlAuth(rest))
  }

  // ------------------------------------------------------------ the cache key

  function Addr(p: Spec): string {
    JoinHostPort(p.host, Itoa(p.port))
  }

  const BAR: Byte := 0x7C

  function Bar(field: seq<Byte>, rest: seq<Byte>): seq<Byte> {
    field + [BAR] + rest
  }

  function Prefixed(field: seq<Byte>, rest: seq<Byte>): seq<Byte> {
    Bar(Utf8(Itoa(|field|)), Bar(field, rest))
  }

  /** The `cached` string of `finish`: scheme, both credentials with their lengths in
      front, and the address, bars between them. */
  function CacheKey(p: Spec): seq<Byte> {
    Bar(Utf8(p.scheme), Prefixed(p.user, Prefixed(p.pass, Utf8(Addr(p)))))
  }

  lemma BarlessNumber(n: nat)
    ensures '|' !in Itoa(n) && ':' !in Itoa(n)
    ensures BAR !in Utf8(Itoa(n))
  {
    ItoaValue(n);
    Utf8Ascii(Itoa(n), '|');
  }

  /** A length prefix makes the field after it readable whatever it holds. */
  lemma FieldUnique(a: seq<Byte>, r: seq<Byte>, b: seq<Byte>, q: seq<Byte>)
    requires Prefixed(a, r) == Prefixed(b, q)
    ensures a == b && r == q
  {
    hide Utf8;
    hide Itoa;
    BarlessNumber(|a|);
    BarlessNumber(|b|);
    SplitAtUnique(Utf8(Itoa(|a|)), Bar(a, r), Utf8(Itoa(|b|)), Bar(b, q), BAR);
    Utf8Injective(Itoa(|a|), Itoa(|b|));
    ItoaInjective(|a|, |b|);
    BarPieces(a, r);
    BarPieces(b, q);
  }

  lemma BarPieces(a: seq<Byte>, r: seq<Byte>)
    ensures Bar(a, r)[..|a|] == a && Bar(a, r)[|a| + 1..] == r
  {
  }

  /** Equal keys mean equal scheme, user, password and address, whatever bytes the
      credentials hold. */
  lemma KeyIsInjective(p: Spec, q: Spec)
    requires '|' !in p.scheme && '|' !in q.scheme
    requires CacheKey(p) == CacheKey(q)
    ensures p.scheme == q.scheme && p.user == q.user && p.pass == q.pass && Addr(p) == Addr(q)
  {
    hide Utf8;
    hide Prefixed;
    hide Addr;
    var pa, qa := Utf8(Addr(p)), Utf8(Addr(q));
    var ps, qs := Prefixed(p.pass, pa), Prefixed(q.pass, qa);
    Utf8Ascii(p.scheme, '|');
    Utf8Ascii(q.scheme, '|');
    SplitAtUnique(Utf8(p.scheme), Prefixed(p.user, ps), Utf8(q.scheme), Prefixed(q.user, qs), BAR);
    Utf8Injective(p.scheme, q.scheme);
    FieldUnique(p.user, ps, q.user, qs);
    FieldUnique(p.pass, pa, q.pass, qa);
    Utf8Injective(Addr(p), Addr(q));
  }

  lemma AddrIsInjective(p: Spec, q: Spec)
    requires Bracketless(p.host) && Bracketless(q.host)
    requires p.host != "" && q.host != "" && Addr(p) == Addr(q)
    ensures p.host == q.host && p.port == q.port
  {
    BarlessNumber(p.port);
    BarlessNumber(q.port);
    assert ':' in p.host <==> Addr(p)[0] == '[' by { assert p.host[0] in p.host; }
    assert ':' in q.host <==> Addr(q)[0] == '[' by { assert q.host[0] in q.host; }
    if ':' in p.host {
      var x, y := ":" + Itoa(p.port), ":" + Itoa(q.port);
      assert Addr(p)[1..] == p.host + [']'] + x;
      assert Addr(q)[1..] == q.host + [']'] + y;
      SplitAtUnique(p.host, x, q.host, y, ']');
      assert Itoa(p.port) == x[1..] && Itoa(q.port) == y[1..];
    } else {
      assert Addr(p) == p.host + [':'] + Itoa(p.port);
      assert Addr(q) == q.host + [':'] + Itoa(q.port);
      SplitAtUnique(p.host, Itoa(p.port), q.host, Itoa(q.port), ':');
    }
    ItoaInjective(p.port, q.port);
  }

  lemma {:induction false} TrimKeeps(s: string, c: char)
    requires c !in s
    ensures c !in Trim(s)
  {
    TrimRightKeeps(s, c);
    TrimLeftKeeps(TrimRight(s), c);
  }

  lemma TrimRightKeeps(s: string, c: char)
    requires c !in s
    ensures c !in TrimRight(s)
  {
  }

  lemma TrimLeftKeeps(s: string, c: char)
    requires c !in s
    ensures c !in TrimLeft(s)
  {
  }

  /** What the parser lets through. */
  ghost predicate Sound(p: Spec) {
    && 1 <= p.port <= 65535
    && p.host != "" && Bracketless(p.host)
    && '|' !in p.scheme
    && p.kind == KindOf(p.scheme)
    && (p.resolveLocally <==> p.scheme == "socks4")
    && (p.kind == SOCKS4 ==> p.pass == [])
  }

  function KindOf(scheme: string): Kind {
    if scheme == "http" || scheme == "https" then HTTP
    else if scheme == "socks4" || scheme == "socks4a" then SOCKS4
    else SOCKS5
  }

  lemma ParsedIsSound(line: string)
    requires Parse(line).Some?
    ensures Sound(Parse(line).value)
  {
    var raw := Trim(line);
    var i := Index(raw, "://", 0);
    var scheme := if i.Some? then Lower(Trim(raw[..i.value])) else "";
    var rest := if i.Some? then raw[i.value + 3..] else raw;
    var bare := if scheme == "" then SplitBareFour(rest) else None;
    PartsAreSound(scheme, if bare.Some? then bare.value else SplitUrlAuth(rest));
  }

  lemma PartsAreSound(scheme: string, p: Parts)
    requires FromParts(scheme, p).Some?
    ensures Sound(FromParts(scheme, p).value)
  {
    var h := SplitHostPort(p.hostport).value.0;
    SplitIsBracketless(p.hostport);
    TrimKeeps(h, '[');
    TrimKeeps(h, ']');
    var q := FromParts(scheme, p).value;
    SchemeIsSound(if scheme == "" then "http" else scheme, Trim(h), q.port, p.user, p.pass);
  }

  lemma SchemeIsSound(scheme: string, host: string, port: nat, user: seq<Byte>, pass: seq<Byte>)
    requires WithScheme(scheme, host, port, user, pass).Some?
    ensures var q := WithScheme(scheme, host, port, user, pass).value;
            && q.host == host && q.port == port
            && '|' !in q.scheme && q.kind == KindOf(q.scheme)
            && (q.resolveLocally <==> q.scheme == "socks4")
            && (q.kind == SOCKS4 ==> q.pass == [])
  {
  }

  /** Duplicate removal by key is exact: two lines that parse to the same key parse
      to the same proxy, in every field. */
  lemma KeyIdentifiesProxy(line: string, line': string)
    requires Parse(line).Some? && Parse(line').Some?
    requires CacheKey(Parse(line).value) == CacheKey(Parse(line').value)
    ensures Parse(line) == Parse(line')
  {
    ParsedIsSound(line);
    ParsedIsSound(line');
    SoundKeysIdentify(Parse(line).value, Parse(line').value);
  }

  lemma SoundKeysIdentify(p: Spec, q: Spec)
    requires Sound(p) && Sound(q) && CacheKey(p) == CacheKey(q)
    ensures p == q
  {
    KeyIsInjective(p, q);
    AddrIsInjective(p, q);
  }

  // --------------------------------------------------------- the bare line

  /** The documented `host:port:user:pass` form; an IPv6 host goes in brackets. */
  function BareLine(host: string, port: nat, user: string, pass: string): string {
    JoinHostPort(host, Itoa(port)) + ":" + user + ":" + pass
  }

  /** Where the colon between host and port is. */
  function PortColon(host: string): nat {
    if ':' in host then |host| + 2 else |host|
  }

  lemma HostPortColon(host: string, port: string, rest: string)
    requires host != "" && Bracketless(host) && JoinHostPort(host, port) <= rest
    ensures var end := PastBrackets(rest);
            end.Some? && Index(rest, ":", end.value) == Some(PortColon(host))
  {
    var hp := JoinHostPort(host, port);
    assert forall k :: 0 <= k < |hp| ==> rest[k] == hp[k];
    if ':' in host {
      assert forall k :: 1 <= k <= |host| ==> hp[k] == host[k - 1];
      CharIndex(rest, ']', 0, |host| + 1);
      CharIndex(rest, ':', |host| + 1, |host| + 2);
    } else {
      assert forall k :: 0 <= k < |host| ==> hp[k] == host[k] && host[k] in host;
      CharIndex(rest, ':', 0, |host|);
    }
  }

  lemma NextColon(a: string, b: string, c: string)
    requires ':' !in b
    ensures Index(a + b + ":" + c, ":", |a|) == Some(|a| + |b|)
  {
    var s := a + b + ":" + c;
    assert forall k :: |a| <= k < |a| + |b| ==> s[k] == b[k - |a|];
    CharIndex(s, ':', |a|, |a| + |b|);
  }

  lemma SecondColon(host: string, digits: string, user: string, pass: string)
    requires ':' !in digits
    ensures var hp := JoinHostPort(host, digits);
            Index(hp + ":" + user + ":" + pass, ":", PortColon(host) + 1) == Some(|hp|)
  {
    HostPortPieces(host, digits);
    var hp := JoinHostPort(host, digits);
    var front := hp[..PortColon(host) + 1];
    var tail := user + ":" + pass;
    NextColon(front, digits, tail);
    assert hp + ":" + user + ":" + pass == hp + ":" + tail;
    assert front + digits + ":" + tail == hp + ":" + tail;
  }

  lemma ThirdColon(hp: string, user: string, pass: string)
    requires ':' !in user
    ensures Index(hp + ":" + user + ":" + pass, ":", |hp| + 1) == Some(|hp| + 1 + |user|)
  {
    NextColon(hp + ":", user, pass);
  }

  lemma ThreeColonsAre(rest: string, from: nat, c: Cuts)
    requires from <= |rest| && c.first < c.second < c.third < |rest|
    requires Index(rest, ":", from) == Some(c.first)
    requires Index(rest, ":", c.first + 1) == Some(c.second)
    requires Index(rest, ":", c.second + 1) == Some(c.third)
    ensures ThreeColons(rest, from) == Some(c)
  {
    hide Index;
    hide OccursAt;
  }

  lemma ColonsOfLine(host: string, digits: string, user: string, pass: string)
    requires host != "" && Bracketless(host) && ':' !in digits && ':' !in user
    ensures var hp := JoinHostPort(host, digits); var rest := hp + ":" + user + ":" + pass;
            && PastBrackets(rest).Some?
            && ThreeColons(rest, PastBrackets(rest).value) == Some(Cuts(PortColon(host), |hp|, |hp| + 1 + |user|))
  {
    hide ThreeColons;
    hide PastBrackets;
    hide Index;
    hide OccursAt;
    var hp := JoinHostPort(host, digits);
    var rest := hp + ":" + user + ":" + pass;
    HostPortColon(host, digits, rest);
    SecondColon(host, digits, user, pass);
    ThirdColon(hp, user, pass);
    HostPortPieces(host, digits);
    ThreeColonsAre(rest, PastBrackets(rest).value, Cuts(PortColon(host), |hp|, |hp| + 1 + |user|));
  }

  lemma CutLine(hp: string, user: string, pass: string, first: nat)
    requires IsHostPort(hp) && first < |hp|
    ensures CutBareFour(hp + ":" + user + ":" + pass, Cuts(first, |hp|, |hp| + 1 + |user|))
         == Some(Parts(hp, Utf8(user), Utf8(pass)))
  {
    hide Utf8;
    hide IsHostPort;
    LinePieces(hp, user, pass);
  }

  lemma BareFourSplits(host: string, port: nat, user: string, pass: string)
    requires host != "" && Bracketless(host) && ':' !in user && port <= 65535
    ensures SplitBareFour(BareLine(host, port, user, pass))
         == Some(Parts(JoinHostPort(host, Itoa(port)), Utf8(user), Utf8(pass)))
  {
    hide ThreeColons;
    hide PastBrackets;
    hide CutBareFour;
    hide SplitHostPort;
    hide Atoi;
    ItoaValue(port);
    BarlessNumber(port);
    SplitOfJoin(host, Itoa(port));
    AtoiItoa(port);
    HostPortPieces(host, Itoa(port));
    ColonsOfLine(host, Itoa(port), user, pass);
    CutLine(JoinHostPort(host, Itoa(port)), user, pass, PortColon(host));
  }

  lemma HostPortPieces(host: string, digits: string)
    ensures var hp, first := JoinHostPort(host, digits), PortColon(host);
            first < |hp| && hp == hp[..first + 1] + digits
  {
  }

  lemma LinePieces(hp: string, user: string, pass: string)
    ensures var rest := hp + ":" + user + ":" + pass;
            && rest[..|hp|] == hp
            && rest[|hp| + 1..|hp| + 1 + |user|] == user
            && rest[|hp| + 1 + |user| + 1..] == pass
  {
  }

  lemma FrontOfLine(hp: string, user: string, pass: string)
    ensures hp + ":" + user + ":" + pass == (hp + ":" + user + ":") + pass
  {
  }

  /** A text that neither starts nor ends in white space keeps its front under trimming. */
  lemma {:induction false} TrimRightOf(front: string, s: string)
    requires front != "" && !IsSpace(front[|front| - 1])
    ensures TrimRight(front + s) == front + TrimRight(s)
  {
    if s == "" {
      assert front + s == front;
    } else if IsSpace(s[|s| - 1]) {
      assert (front + s)[..|front + s| - 1] == front + s[..|s| - 1];
      TrimRightOf(front, s[..|s| - 1]);
    }
  }

  lemma TrimmedEnds(s: string)
    requires s != "" && Trim(s) == s
    ensures !IsSpace(s[0])
  {
    TrimLeftIsShorter(TrimRight(s));
    TrimRightIsPrefix(s);
  }

  lemma TrimLeftIsShorter(s: string)
    ensures |TrimLeft(s)| <= |s| && (|TrimLeft(s)| == |s| ==> s == "" || !IsSpace(s[0]))
  {
  }

  lemma TrimRightIsPrefix(s: string)
    ensures TrimRight(s) <= s
  {
  }

  /** Trimming a bare line trims its password on the right, and nothing else. */
  lemma TrimBareLine(host: string, port: nat, user: string, pass: string)
    requires host != "" && Trim(host) == host
    ensures Trim(BareLine(host, port, user, pass)) == BareLine(host, port, user, TrimRight(pass))
  {
    hide Itoa;
    hide TrimRight;
    var hp := JoinHostPort(host, Itoa(port));
    var front := hp + ":" + user + ":";
    FrontOfLine(hp, user, pass);
    FrontOfLine(hp, user, TrimRight(pass));
    TrimRightOf(front, pass);
    TrimmedEnds(host);
    assert front[0] == (if ':' in host then '[' else host[0]);
    assert (front + TrimRight(pass))[0] == front[0];
  }

  /** Whatever stands in front of the first scheme mark of a bare line is no scheme: it
      holds a colon or opens a bracket. */
  lemma NoSchemeInFront(host: string, port: nat, user: string, pass: string, i: nat)
    requires host != "" && Bracketless(host)
    requires i <= |BareLine(host, port, user, pass)| && OccursAt(BareLine(host, port, user, pass), "://", i)
    ensures var front := BareLine(host, port, user, pass)[..i];
            ':' in front || (front != "" && front[0] == '[')
  {
    var digits := Itoa(port);
    var line := BareLine(host, port, user, pass);
    ItoaValue(port);
    assert line[i..i + 3] == "://";
    assert line[i] == line[i..i + 3][0] == ':' && line[i + 1] == line[i..i + 3][1] == '/';
    if ':' in host {
      assert line[0] == '[';
    } else {
      assert forall k :: 0 <= k < |host| ==> line[k] == host[k];
      assert line[|host|] == ':' && line[|host| + 1] == digits[0];
      assert i > |host| && line[..i][|host|] == ':';
    }
  }

  /** So it reads as an unknown scheme. */
  lemma UnknownScheme(front: string)
    requires ':' in front || (front != "" && front[0] == '[')
    ensures var scheme := Lower(Trim(front));
            scheme != "" && forall p :: FromParts(scheme, p) == None
  {
    hide Trim;
    hide SplitHostPort;
    hide Atoi;
    var c := if ':' in front then ':' else '[';
    TrimKeepsText(front, c);
    var i :| 0 <= i < |Trim(front)| && Trim(front)[i] == c;
    var scheme := Lower(Trim(front));
    assert scheme[i] == c;
    assert forall w: string :: c !in w ==> scheme != w;
  }

  /** A character that is no white space survives trimming. */
  lemma TrimKeepsText(s: string, c: char)
    requires c in s && !IsSpace(c)
    ensures c in Trim(s)
  {
    TrimRightKeepsText(s, c);
    TrimLeftKeepsText(TrimRight(s), c);
  }

  lemma {:induction false} TrimRightKeepsText(s: string, c: char)
    requires c in s && !IsSpace(c)
    ensures c in TrimRight(s)
  {
    if IsSpace(s[|s| - 1]) {
      assert s == s[..|s| - 1] + [s[|s| - 1]];
      TrimRightKeepsText(s[..|s| - 1], c);
    }
  }

  lemma {:induction false} TrimLeftKeepsText(s: string, c: char)
    requires c in s && !IsSpace(c)
    ensures c in TrimLeft(s)
  {
    if IsSpace(s[0]) {
      assert s == [s[0]] + s[1..];
      TrimLeftKeepsText(s[1..], c);
    }
  }

  /** What a bare line parses to, whatever the password: nothing, as soon as the line
      holds a scheme mark; otherwise every field, the password literally, colons,
      at-signs and percent signs included, but for white space at its end. */
  lemma BareLineParses(host: string, port: nat, user: string, pass: string)
    requires host != "" && Bracketless(host) && Trim(host) == host && ':' !in user && 1 <= port <= 65535
    ensures Parse(BareLine(host, port, user, pass))
         == if Contains(BareLine(host, port, user, TrimRight(pass)), "://") then None
            else Some(Spec(HTTP, "http", host, port, Utf8(user), Utf8(TrimRight(pass)), false))
  {
    hide Trim;
    hide TrimRight;
    hide Utf8;
    hide SplitHostPort;
    hide JoinHostPort;
    hide SplitBareFour;
    hide SplitUrlAuth;
    hide Atoi;
    hide Itoa;
    hide OccursAt;
    var kept := TrimRight(pass);
    var raw := BareLine(host, port, user, kept);
    TrimBareLine(host, port, user, pass);
    IndexIsFirst(raw, "://", 0);
    var i := Index(raw, "://", 0);
    if i.Some? {
      assert Contains(raw, "://");
      NoSchemeInFront(host, port, user, kept, i.value);
      UnknownScheme(raw[..i.value]);
    } else {
      BareFourSplits(host, port, user, kept);
      ItoaValue(port);
      SplitOfJoin(host, Itoa(port));
      AtoiItoa(port);
      DigitsAreTrimmed(Itoa(port));
    }
  }

  /** The bare line round-trips if and only if its password does not end in white space
      and no scheme mark is anywhere in it. */
  lemma BareLineRoundTrips(host: string, port: nat, user: string, pass: string)
    requires host != "" && Bracketless(host) && Trim(host) == host && ':' !in user && 1 <= port <= 65535
    ensures Parse(BareLine(host, port, user, pass))
            == Some(Spec(HTTP, "http", host, port, Utf8(user), Utf8(pass), false))
       <==> TrimRight(pass) == pass && !Contains(BareLine(host, port, user, pass), "://")
  {
    hide Parse;
    hide BareLine;
    hide Contains;
    hide Trim;
    hide TrimRight;
    hide Utf8;
    BareLineParses(host, port, user, pass);
    if Utf8(TrimRight(pass)) == Utf8(pass) {
      Utf8Injective(TrimRight(pass), pass);
    }
  }

  /** A password the documentation allows and the parser does not: the line is rejected,
      for a scheme `1.2.3.4:8080:user:a` that nobody meant. */
  lemma PasswordWithSchemeMark()
    ensures BareLine("1.2.3.4", 8080, "user", "a://b") == "1.2.3.4:8080:user:a://b"
    ensures Parse("1.2.3.4:8080:user:a://b") == None
  {
    hide Parse;
    hide BareLine;
    hide Trim;
    hide TrimRight;
    ExampleLine();
    assert OccursAt("1.2.3.4:8080:user:a://b", "://", 19);
    assert Trim("1.2.3.4") == "1.2.3.4" by { TextTrims("1.2.3.4"); }
    assert TrimRight("a://b") == "a://b" by { TextTrims("a://b"); }
    BareLineParses("1.2.3.4", 8080, "user", "a://b");
  }

  lemma ExampleLine()
    ensures BareLine("1.2.3.4", 8080, "user", "a://b") == "1.2.3.4:8080:user:a://b"
  {
    ExamplePort();
    assert JoinHostPort("1.2.3.4", "8080") == "1.2.3.4:8080";
  }

  lemma ExamplePort()
    ensures Itoa(8080) == "8080"
  {
    assert Itoa(8) == "8" && Itoa(80) == "80" && Itoa(808) == "808";
  }

  lemma TextTrims(s: string)
    requires s != "" && !IsSpace(s[0]) && !IsSpace(s[|s| - 1])
    ensures TrimRight(s) == s && Trim(s) == s
  {
  }

  lemma DigitsAreTrimmed(s: string)
    requires AllDigits(s)
    ensures Trim(s) == s
  {
    if s != "" {
      assert IsDigit(s[0]) && IsDigit(s[|s| - 1]);
    }
  }

  // ------------------------------------------------------------ percent-encoding

  /** The digits of section 2.1 of RFC 3986, in either case. */
  function HexDigit(n: nat, upper: bool): char
    requires n < 16
  {
    if n < 10 then DigitOf(n) else ((if upper then 'A' else 'a') as int + n - 10) as char
  }

  /** Section 2.3 of RFC 3986. */
  predicate Unreserved(b: Byte) {
    || 'a' as int <= b <= 'z' as int || 'A' as int <= b <= 'Z' as int || '0' as int <= b <= '9' as int
    || b == '-' as int || b == '.' as int || b == '_' as int || b == '~' as int
  }

  function Encoded(b: Byte, upper: bool): string {
    if Unreserved(b) then [b as char] else ['%', HexDigit(b / 16, upper), HexDigit(b % 16, upper)]
  }

  /** Credentials as a URL carries them: unreserved bytes as they are, all others as
      escapes. */
  function Encode(bytes: seq<Byte>, upper: bool): string {
    if bytes == [] then "" else Encoded(bytes[0], upper) + Encode(bytes[1..], upper)
  }

  lemma HexReadsBack(n: nat, upper: bool)
    requires n < 16
    ensures HexValue(HexDigit(n, upper)) == Some(n)
  {
  }

  lemma EncodedReadsBack(b: Byte, upper: bool, rest: string)
    ensures PathUnescape(Encoded(b, upper) + rest)
         == match PathUnescape(rest) case None => None case Some(r) => Some([b] + r)
  {
    var s := Encoded(b, upper) + rest;
    if Unreserved(b) {
      assert s[1..] == rest;
    } else {
      HexReadsBack(b / 16, upper);
      HexReadsBack(b % 16, upper);
      assert s[0] == '%' && s[1] == HexDigit(b / 16, upper) && s[2] == HexDigit(b % 16, upper);
      assert s[3..] == rest;
    }
  }

  /** Decoding undoes encoding, for any bytes. */
  lemma {:induction false} EncodingReadsBack(bytes: seq<Byte>, upper: bool)
    ensures PathUnescape(Encode(bytes, upper)) == Some(bytes)
  {
    hide Encoded;
    if bytes != [] {
      EncodingReadsBack(bytes[1..], upper);
      EncodedReadsBack(bytes[0], upper, Encode(bytes[1..], upper));
      assert bytes == [bytes[0]] + bytes[1..];
    }
  }

  predicate EscapeAt(s: string, i: nat) {
    i + 2 < |s| && s[i] == '%' && HexValue(s[i + 1]).Some? && HexValue(s[i + 2]).Some?
  }

  predicate WellEscaped(s: string) {
    forall i :: 0 <= i < |s| && s[i] == '%' ==> EscapeAt(s, i)
  }

  lemma EscapesShift(s: string, n: nat)
    requires n <= |s| && ((n == 1 && s[0] != '%') || (n == 3 && EscapeAt(s, 0)))
    ensures WellEscaped(s) <==> WellEscaped(s[n..])
  {
    hide HexValue;
    var t := s[n..];
    assert forall i :: n <= i < |s| ==> s[i] == t[i - n];
    assert HexValue('%').None? by { PercentIsNoDigit(); }
    forall i: nat | n <= i < |s| ensures EscapeAt(s, i) <==> EscapeAt(t, i - n) {
    }
    assert forall i: nat :: i < |t| ==> t[i] == s[i + n] && (EscapeAt(s, i + n) <==> EscapeAt(t, i));
  }

  lemma PercentIsNoDigit()
    ensures HexValue('%').None?
  {
  }

  /** A text decodes if and only if every percent sign in it starts an escape. */
  lemma {:induction false} DecodesWhen(s: string)
    ensures PathUnescape(s).Some? <==> WellEscaped(s)
  {
    hide HexValue;
    hide WellEscaped;
    if s == "" {
      assert WellEscaped(s) by { NothingIsWellEscaped(); }
    } else if s[0] != '%' {
      DecodesWhen(s[1..]);
      EscapesShift(s, 1);
    } else if EscapeAt(s, 0) {
      DecodesWhen(s[3..]);
      EscapesShift(s, 3);
    } else {
      assert !WellEscaped(s) by { StrayPercent(s); }
    }
  }

  lemma NothingIsWellEscaped()
    ensures WellEscaped("")
  {
  }

  lemma StrayPercent(s: string)
    requires s != "" && s[0] == '%' && !EscapeAt(s, 0)
    ensures !WellEscaped(s)
  {
  }

  /** A text that holds no percent sign, or a stray one, is taken as it stands. */
  lemma {:induction false} LiteralUnlessEscaped(s: string)
    requires '%' !in s || !WellEscaped(s)
    ensures Unescaped(s) == Utf8(s)
  {
    DecodesWhen(s);
    if '%' !in s {
      PlainDecodes(s);
    }
  }

  lemma {:induction false} PlainDecodes(s: string)
    requires '%' !in s
    ensures PathUnescape(s) == Some(Utf8(s))
  {
    if s != "" {
      PlainDecodes(s[1..]);
    }
  }

  // -------------------------------------------------------------- the URL forms

  /** The known schemes, and what each stands for. */
  predicate Known(scheme: string) {
    scheme in {"http", "https", "socks4", "socks4a", "socks5", "socks5h"}
  }

  /** What a line with these parts means. */
  function Meant(scheme: string, host: string, port: nat, user: seq<Byte>, pass: seq<Byte>): Spec
    requires Known(scheme)
  {
    match scheme
    case "http" => Spec(HTTP, "http", host, port, user, pass, false)
    case "https" => Spec(HTTP, "https", host, port, user, pass, false)
    case "socks4" => Spec(SOCKS4, "socks4", host, port, user, [], true)
    case "socks4a" => Spec(SOCKS4, "socks4a", host, port, user, [], false)
    case _ => Spec(SOCKS5, "socks5h", host, port, user, pass, false)
  }

  predicate GoodAddress(host: string, port: nat) {
    host != "" && Bracketless(host) && Trim(host) == host && '@' !in host && 1 <= port <= 65535
  }

  lemma GoodPartsParse(scheme: string, host: string, port: nat, user: seq<Byte>, pass: seq<Byte>)
    requires GoodAddress(host, port) && (scheme == "" || Known(scheme))
    ensures FromParts(scheme, Parts(JoinHostPort(host, Itoa(port)), user, pass))
         == Some(Meant(if scheme == "" then "http" else scheme, host, port, user, pass))
  {
    hide SplitHostPort;
    hide JoinHostPort;
    hide Atoi;
    hide Itoa;
    ItoaValue(port);
    SplitOfJoin(host, Itoa(port));
    AtoiItoa(port);
    DigitsAreTrimmed(Itoa(port));
  }

  /** Everything in front of the last at-sign is credentials, and the user ends at the
      first colon. */
  lemma AuthSplits(user: string, pass: string, hp: string)
    requires ':' !in user && '@' !in hp
    ensures SplitUrlAuth(user + ":" + pass + "@" + hp) == Parts(hp, Unescaped(user), Unescaped(pass))
  {
    hide Unescaped;
    var auth := user + ":" + pass;
    var rest := auth + "@" + hp;
    LastCharIndex(rest, '@', |auth|) by { assert rest[|auth| + 1..] == hp; }
    assert rest[..|auth|] == auth && rest[|auth| + 1..] == hp;
    CharIndex(auth, ':', 0, |user|);
    assert auth[..|user|] == user && auth[|user| + 1..] == pass;
  }

  lemma UserAloneSplits(user: string, hp: string)
    requires ':' !in user && '@' !in hp
    ensures SplitUrlAuth(user + "@" + hp) == Parts(hp, Unescaped(user), [])
  {
    hide Unescaped;
    var rest := user + "@" + hp;
    LastCharIndex(rest, '@', |user|) by { assert rest[|user| + 1..] == hp; }
    assert rest[..|user|] == user && rest[|user| + 1..] == hp;
    NoCharIndex(user, ':', 0);
    assert Unescaped("") == [] by { NothingDecodes(); }
  }

  lemma NothingDecodes()
    ensures Unescaped("") == []
  {
  }

  lemma NoAuthSplits(hp: string)
    requires '@' !in hp
    ensures SplitUrlAuth(hp) == Parts(hp, [], [])
  {
    LastIndexIsLast(hp, '@');
  }

  lemma AddressEnds(host: string, port: nat)
    requires GoodAddress(host, port)
    ensures var hp := JoinHostPort(host, Itoa(port));
            && '@' !in hp && hp != "" && !IsSpace(hp[0]) && !IsSpace(hp[|hp| - 1])
  {
    var digits := Itoa(port);
    ItoaValue(port);
    TrimmedEnds(host);
    var hp := JoinHostPort(host, digits);
    assert hp[|hp| - 1] == digits[|digits| - 1];
    assert IsDigit(digits[|digits| - 1]);
  }

  /** How a known scheme may be spelt: in any letter case. */
  lemma SpeltScheme(word: string)
    requires Known(Lower(word))
    ensures word != "" && ':' !in word && !IsSpace(word[0]) && Trim(word) == word
  {
    forall i | 0 <= i < |word| ensures word[i] != ':' && !IsSpace(word[i]) {
      var d := Lower(word)[i];
      assert d == LowerChar(word[i]);
      assert 'a' <= d <= 'z' || '0' <= d <= '9';
    }
    TextTrims(word);
  }

  /** A line with a known scheme is read as that scheme and what follows the mark. */
  lemma SchemeSplits(word: string, rest: string)
    requires Known(Lower(word)) && rest != "" && !IsSpace(rest[|rest| - 1])
    ensures Parse(word + "://" + rest) == FromParts(Lower(word), SplitUrlAuth(rest))
  {
    hide FromParts;
    hide SplitUrlAuth;
    hide TrimRight;
    hide TrimLeft;
    var line := word + "://" + rest;
    SpeltScheme(word);
    assert line[0] == word[0] && line[|line| - 1] == rest[|rest| - 1];
    TextTrims(line);
    IndexIsFirst(line, "://", 0);
    assert line[|word|..|word| + 3] == "://";
    assert OccursAt(line, "://", |word|);
    forall k | 0 <= k < |word| ensures !OccursAt(line, "://", k) {
      if k + 3 <= |line| {
        assert line[k..k + 3][0] == line[k] == word[k];
        assert word[k] in word;
      }
    }
    assert Index(line, "://", 0) == Some(|word|);
    assert line[..|word|] == word && line[|word| + 3..] == rest;
  }

  /** The URL form with a scheme, for any text as user and password: the user ends at the
      first colon, the password at the last at-sign, and each is decoded, or taken as it
      stands when it does not decode. */
  lemma UrlLineParses(word: string, user: string, pass: string, host: string, port: nat)
    requires Known(Lower(word)) && ':' !in user && GoodAddress(host, port)
    ensures Parse(word + "://" + (user + ":" + pass + "@" + JoinHostPort(host, Itoa(port))))
         == Some(Meant(Lower(word), host, port, Unescaped(user), Unescaped(pass)))
  {
    hide Parse;
    hide FromParts;
    hide SplitUrlAuth;
    hide JoinHostPort;
    hide Itoa;
    hide Unescaped;
    hide Meant;
    hide GoodAddress;
    hide Lower;
    hide Known;
    var hp := JoinHostPort(host, Itoa(port));
    AddressEnds(host, port);
    var rest := user + ":" + pass + "@" + hp;
    assert rest[|rest| - 1] == hp[|hp| - 1];
    SchemeSplits(word, rest);
    AuthSplits(user, pass, hp);
    GoodPartsParse(Lower(word), host, port, Unescaped(user), Unescaped(pass));
    assert Lower(word) != "" by { SpeltScheme(word); }
  }

  /** With a user alone, and without credentials. */
  lemma ShortUrlLinesParse(word: string, user: string, host: string, port: nat)
    requires Known(Lower(word)) && ':' !in user && GoodAddress(host, port)
    ensures Parse(word + "://" + (user + "@" + JoinHostPort(host, Itoa(port))))
         == Some(Meant(Lower(word), host, port, Unescaped(user), []))
    ensures Parse(word + "://" + JoinHostPort(host, Itoa(port)))
         == Some(Meant(Lower(word), host, port, [], []))
  {
    hide Parse;
    hide FromParts;
    hide SplitUrlAuth;
    hide JoinHostPort;
    hide Itoa;
    hide Unescaped;
    hide Meant;
    hide GoodAddress;
    hide Lower;
    hide Known;
    var hp := JoinHostPort(host, Itoa(port));
    AddressEnds(host, port);
    var rest := user + "@" + hp;
    assert rest[|rest| - 1] == hp[|hp| - 1];
    assert Lower(word) != "" by { SpeltScheme(word); }
    SchemeSplits(word, rest);
    UserAloneSplits(user, hp);
    GoodPartsParse(Lower(word), host, port, Unescaped(user), []);
    SchemeSplits(word, hp);
    NoAuthSplits(hp);
    GoodPartsParse(Lower(word), host, port, [], []);
  }

  /** What encoding leaves: nothing that means anything in a line. */
  predicate Inert(c: char) {
    c == '%' || '0' <= c <= '9' || 'a' <= c <= 'z' || 'A' <= c <= 'Z' || c in {'-', '.', '_', '~'}
  }

  lemma {:induction false} EncodingIsInert(bytes: seq<Byte>, upper: bool)
    ensures forall i :: 0 <= i < |Encode(bytes, upper)| ==> Inert(Encode(bytes, upper)[i])
  {
    if bytes != [] {
      EncodingIsInert(bytes[1..], upper);
    }
  }

  /** The URL form round-trips: whatever bytes user and password hold, printing them
      percent-encoded and parsing the line gives every part back. */
  lemma UrlLineRoundTrips(
    word: string, user: seq<Byte>, pass: seq<Byte>, host: string, port: nat, upper: bool)
    requires Known(Lower(word)) && GoodAddress(host, port)
    ensures Parse(word + "://" + (Encode(user, upper) + ":" + Encode(pass, upper) + "@" + JoinHostPort(host, Itoa(port))))
         == Some(Meant(Lower(word), host, port, user, pass))
  {
    hide Parse;
    hide JoinHostPort;
    hide Itoa;
    hide Meant;
    hide GoodAddress;
    hide Lower;
    hide Known;
    EncodingReadsBack(user, upper);
    EncodingReadsBack(pass, upper);
    EncodingIsInert(user, upper);
    UrlLineParses(word, Encode(user, upper), Encode(pass, upper), host, port);
  }

  // ------------------------------------------------- the forms without a scheme

  /** A text that fits no scheme and not the bare form is an address with credentials or
      without, over HTTP. */
  lemma NoSchemeSplits(rest: string)
    requires rest != "" && !IsSpace(rest[0]) && !IsSpace(rest[|rest| - 1])
    requires !Contains(rest, "://") && SplitBareFour(rest) == None
    ensures Parse(rest) == FromParts("", SplitUrlAuth(rest))
  {
    hide FromParts;
    hide SplitUrlAuth;
    hide SplitBareFour;
    TextTrims(rest);
    IndexIsFirst(rest, "://", 0);
    assert Index(rest, "://", 0).None?;
  }

  lemma AddressIsNotBare(host: string, port: nat)
    requires GoodAddress(host, port)
    ensures SplitBareFour(JoinHostPort(host, Itoa(port))) == None
  {
    hide Itoa;
    hide IsHostPort;
    var digits := Itoa(port);
    var hp := JoinHostPort(host, digits);
    BarlessNumber(port);
    HostPortColon(host, digits, hp);
    HostPortPieces(host, digits);
    assert hp[PortColon(host) + 1..] == digits;
    NoCharIndex(hp, ':', PortColon(host) + 1);
  }

  /** Plain `host:port`. */
  lemma PlainLineParses(host: string, port: nat)
    requires GoodAddress(host, port) && !Contains(JoinHostPort(host, Itoa(port)), "://")
    ensures Parse(JoinHostPort(host, Itoa(port))) == Some(Meant("http", host, port, [], []))
  {
    hide Parse;
    hide FromParts;
    hide SplitUrlAuth;
    hide SplitBareFour;
    hide JoinHostPort;
    hide Itoa;
    hide Contains;
    hide Meant;
    hide GoodAddress;
    AddressEnds(host, port);
    AddressIsNotBare(host, port);
    NoSchemeSplits(JoinHostPort(host, Itoa(port)));
    NoAuthSplits(JoinHostPort(host, Itoa(port)));
    GoodPartsParse("", host, port, [], []);
  }

  predicate InertText(s: string) {
    forall i :: 0 <= i < |s| ==> Inert(s[i])
  }

  lemma OccursShift(front: string, s: string, sub: string, k: nat)
    ensures OccursAt(front + s, sub, |front| + k) <==> OccursAt(s, sub, k)
  {
    if k + |sub| <= |s| {
      assert (front + s)[|front| + k..|front| + k + |sub|] == s[k..k + |sub|];
    }
  }

  lemma NoMarkInside(user: string, pass: string, hp: string)
    requires InertText(user) && InertText(pass) && !Contains(hp, "://")
    ensures !Contains(user + ":" + pass + "@" + hp, "://")
  {
    var front := user + ":" + pass + "@";
    var rest := front + hp;
    forall k: nat | k <= |rest| ensures !OccursAt(rest, "://", k) {
      if k + 3 <= |rest| {
        if k < |front| {
          assert rest[k..k + 3][0] == rest[k] && rest[k..k + 3][1] == rest[k + 1];
          assert rest[|user|] == ':';
          assert k == |user| ==> rest[k + 1] == (if pass == "" then '@' else pass[0]);
        } else {
          OccursShift(front, hp, "://", k - |front|);
          assert !OccursAt(hp, "://", k - |front|);
        }
      }
    }
  }

  lemma FirstColonOfUrl(user: string, pass: string, hp: string)
    requires InertText(user) && InertText(pass)
    ensures var front := user + ":" + pass + "@"; var rest := front + hp;
            && Index(rest, ":", 0) == Some(|user|)
            && forall k :: |user| < k < |front| ==> rest[k] != ':'
  {
    var front := user + ":" + pass + "@";
    var rest := front + hp;
    assert forall k :: 0 <= k < |user| ==> rest[k] == user[k];
    CharIndex(rest, ':', 0, |user|);
    assert forall k :: 0 <= k < |pass| ==> rest[|user| + 1 + k] == pass[k];
    forall k | |user| < k < |front| ensures rest[k] != ':' {
      assert k < |front| - 1 ==> rest[k] == pass[k - |user| - 1];
      assert k == |front| - 1 ==> rest[k] == '@';
    }
  }

  lemma ColonInHost(front: string, from: nat, host: string, tail: string, c: nat)
    requires from <= |front| && forall k :: from <= k < |front| ==> front[k] != ':'
    requires c < |host| && host[c] == ':' && ':' !in host[..c]
    ensures var rest := front + ("[" + host + tail); var second := |front| + 1 + c;
            second < |rest| && Index(rest, ":", from) == Some(second) && '[' in rest[..second]
  {
    var rest, second := front + ("[" + host + tail), |front| + 1 + c;
    assert rest[|front|] == '[' && rest[second] == ':';
    assert forall k :: 0 <= k < c ==> rest[|front| + 1 + k] == host[..c][k];
    CharIndex(rest, ':', from, second);
    assert rest[..second][|front|] == '[';
  }

  lemma ColonAfterHost(front: string, from: nat, host: string, digits: string)
    requires from <= |front| && forall k :: from <= k < |front| ==> front[k] != ':'
    requires ':' !in host
    ensures var rest := front + (host + ":" + digits); var second := |front| + |host|;
            second < |rest| && Index(rest, ":", from) == Some(second) && rest[second + 1..] == digits
  {
    var rest, second := front + (host + ":" + digits), |front| + |host|;
    assert forall k :: 0 <= k < |host| ==> rest[|front| + k] == host[k];
    CharIndex(rest, ':', from, second);
  }

  /** The second colon of `user:pass@host:port`: the host's first, or the port's. */
  lemma SecondColonOfUrl(user: string, pass: string, host: string, digits: string) returns (second: nat)
    requires InertText(user) && InertText(pass) && host != "" && Bracketless(host)
    ensures var rest := user + ":" + pass + "@" + JoinHostPort(host, digits);
            && Index(rest, ":", 0) == Some(|user|)
            && |user| < second < |rest| && Index(rest, ":", |user| + 1) == Some(second)
            && (if ':' in host then '[' in rest[..second] else rest[second + 1..] == digits)
  {
    hide InertText;
    hide Index;
    var hp := JoinHostPort(host, digits);
    var front := user + ":" + pass + "@";
    var rest := front + hp;
    FirstColonOfUrl(user, pass, hp);
    assert forall k :: 0 <= k < |front| ==> front[k] == rest[k];
    if ':' in host {
      var c := FirstOf(host, ':');
      second := |front| + 1 + c;
      ColonInHost(front, |user| + 1, host, "]:" + digits, c);
      assert "[" + host + ("]:" + digits) == hp;
    } else {
      second := |front| + |host|;
      ColonAfterHost(front, |user| + 1, host, digits);
    }
  }

  lemma FirstOf(s: string, c: char) returns (i: nat)
    requires c in s
    ensures i < |s| && s[i] == c && c !in s[..i]
  {
    i := 0;
    while s[i] != c
      invariant i < |s| && c !in s[..i]
      invariant c in s[i..]
      decreases |s| - i
    {
      i := i + 1;
    }
  }

  lemma FirstIsNoBracket(user: string, rest: string)
    requires InertText(user) && user + ":" <= rest
    ensures rest[0] != '[' && PastBrackets(rest) == Some(0)
  {
    assert rest[0] == (user + ":")[0];
  }

  lemma UrlIsNotBare(user: string, pass: string, host: string, port: nat)
    requires InertText(user) && InertText(pass) && GoodAddress(host, port)
    ensures SplitBareFour(user + ":" + pass + "@" + JoinHostPort(host, Itoa(port))) == None
  {
    hide Itoa;
    hide JoinHostPort;
    hide Index;
    hide IsHostPort;
    hide Trim;
    hide OccursAt;
    hide Inert;
    var rest := user + ":" + pass + "@" + JoinHostPort(host, Itoa(port));
    BarlessNumber(port);
    var second := SecondColonOfUrl(user, pass, host, Itoa(port));
    FirstIsNoBracket(user, rest);
    if ':' in host {
      BracketIsNoHostPort(rest[..second]);
    } else {
      NoCharIndex(rest, ':', second + 1);
    }
  }

  lemma BracketIsNoHostPort(hp: string)
    requires hp != "" && hp[0] != '[' && '[' in hp
    ensures !IsHostPort(hp)
  {
  }

  /** `user:pass@host:port` without a scheme round-trips as well, percent-encoded. */
  lemma PlainAuthLineRoundTrips(user: seq<Byte>, pass: seq<Byte>, host: string, port: nat, upper: bool)
    requires GoodAddress(host, port) && !Contains(JoinHostPort(host, Itoa(port)), "://")
    ensures Parse(Encode(user, upper) + ":" + Encode(pass, upper) + "@" + JoinHostPort(host, Itoa(port)))
         == Some(Meant("http", host, port, user, pass))
  {
    hide Parse;
    hide FromParts;
    hide SplitUrlAuth;
    hide SplitBareFour;
    hide JoinHostPort;
    hide Itoa;
    hide Contains;
    hide Meant;
    hide GoodAddress;
    hide Encode;
    EncodingReadsBack(user, upper);
    EncodingReadsBack(pass, upper);
    EncodingIsInert(user, upper);
    EncodingIsInert(pass, upper);
    var u, p, hp := Encode(user, upper), Encode(pass, upper), JoinHostPort(host, Itoa(port));
    var rest := u + ":" + p + "@" + hp;
    AddressEnds(host, port);
    NoMarkInside(u, p, hp);
    UrlIsNotBare(u, p, host, port);
    assert rest[0] == (if u == "" then ':' else u[0]) && rest[|rest| - 1] == hp[|hp| - 1];
    NoSchemeSplits(rest);
    AuthSplits(u, p, hp);
    GoodPartsParse("", host, port, user, pass);
  }
}
