/** The SOCKS client handshakes over a byte stream. */
module Socks {
  import opened Text

  const VERSION5: Byte := 5
  const CONNECT: Byte := 1
  const AUTH_NONE: Byte := 0
  const AUTH_USER_PASS: Byte := 2
  const AUTH_VERSION: Byte := 1
  const ATYP_IPV4: Byte := 1
  const ATYP_DOMAIN: Byte := 3
  const ATYP_IPV6: Byte := 4
  const VERSION4: Byte := 4
  const GRANTED4: Byte := 0x5A

  /** A destination as the protocols can carry it. */
  datatype Address = IPv4(ip: seq<Byte>) | IPv6(ip: seq<Byte>) | Domain(name: seq<Byte>)

  predicate WellFormed(a: Address) {
    match a
    case IPv4(ip) => |ip| == 4
    case IPv6(ip) => |ip| == 16
    case Domain(_) => true
  }

  /** A connection: bytes the proxy has sent and we have not read, and bytes we sent. */
  class Conn {
    var inbox: seq<Byte>
    var outbox: seq<Byte>

    constructor (inbox: seq<Byte>)
      ensures this.inbox == inbox && outbox == []
    {
      this.inbox, outbox := inbox, [];
    }

    method Write(data: seq<Byte>)
      modifies this`outbox
      ensures outbox == old(outbox) + data
    {
      outbox := outbox + data;
    }

    /** `io.ReadFull` for `n` bytes. */
    method ReadFull(n: nat) returns (ok: bool, data: seq<Byte>)
      modifies this`inbox
      ensures ok <==> |old(inbox)| >= n
      ensures ok ==> data == old(inbox)[..n] && inbox == old(inbox)[n..]
    {
      if |inbox| < n {
        inbox := [];
        return false, [];
      }
      data := inbox[..n];
      inbox := inbox[n..];
      ok := true;
    }
  }

  /** How a handshake ends: a tunnel with `rest` still unread, or a failure. `sent` is
      what went out either way. */
  datatype Outcome = Open(sent: seq<Byte>, rest: seq<Byte>) | Broken(sent: seq<Byte>)

  function PortBytes(port: int): seq<Byte>
    requires 1 <= port <= 65535
  {
    [port / 256, port % 256]
  }

  // -------------------------------------------------------------------- SOCKS5

  /** What `dialSOCKS5` is asked for. `target` is the host after any local resolution,
      or none when that failed. */
  datatype Client = Client(user: seq<Byte>, pass: seq<Byte>, target: Option<Address>, port: int)

  predicate HasCredentials(c: Client) {
    c.user != [] || c.pass != []
  }

  function Methods(c: Client): seq<Byte> {
    if HasCredentials(c) then [AUTH_NONE, AUTH_USER_PASS] else [AUTH_NONE]
  }

  function Greeting(c: Client): seq<Byte> {
    [VERSION5, |Methods(c)|] + Methods(c)
  }

  predicate CredentialsFit(c: Client) {
    |c.user| <= 255 && |c.pass| <= 255
  }

  function AuthRequest(c: Client): seq<Byte>
    requires CredentialsFit(c)
  {
    [AUTH_VERSION, |c.user|] + c.user + [|c.pass|] + c.pass
  }

  predicate AddressFits(a: Address) {
    WellFormed(a) && (a.Domain? ==> |a.name| <= 255)
  }

  function AddressBytes(a: Address): seq<Byte>
    requires AddressFits(a)
  {
    match a
    case IPv4(ip) => [ATYP_IPV4] + ip
    case IPv6(ip) => [ATYP_IPV6] + ip
    case Domain(n) => [ATYP_DOMAIN, |n|] + n
  }

  /** The target can be asked for at all. */
  predicate Askable(c: Client) {
    1 <= c.port <= 65535 && c.target.Some? && AddressFits(c.target.value)
  }

  function ConnectRequest(c: Client): seq<Byte>
    requires Askable(c)
  {
    [VERSION5, CONNECT, 0] + AddressBytes(c.target.value) + PortBytes(c.port)
  }

  /** Where the bound address of a reply ends, counted from the reply's start. */
  function ReplyLength(s: seq<Byte>): Option<nat> {
    if |s| < 4 || s[0] != VERSION5 || s[1] != 0 then None
    else if s[3] == ATYP_IPV4 then Some(10)
    else if s[3] == ATYP_IPV6 then Some(22)
    else if s[3] == ATYP_DOMAIN && |s| >= 5 then Some(7 + s[4] as int)
    else None
  }

  function AfterAuth(c: Client, s: seq<Byte>, sent: seq<Byte>): Outcome {
    if !Askable(c) then Broken(sent)
    else
      var sent' := sent + ConnectRequest(c);
      match ReplyLength(s)
      case None => Broken(sent')
      case Some(n) => if |s| >= n then Open(sent', s[n..]) else Broken(sent')
  }

  function Handshake5(c: Client, s: seq<Byte>): Outcome {
    var sent := Greeting(c);
    if |s| < 2 || s[0] != VERSION5 then Broken(sent)
    else if s[1] == AUTH_NONE then AfterAuth(c, s[2..], sent)
    else if s[1] == AUTH_USER_PASS && HasCredentials(c) && CredentialsFit(c) then
      var sent' := sent + AuthRequest(c);
      if |s| < 4 || s[2] != AUTH_VERSION || s[3] != 0 then Broken(sent')
      else AfterAuth(c, s[4..], sent')
    else Broken(sent)
  }

  /** `dialSOCKS5` on an established connection. */
  method DialSOCKS5(conn: Conn, c: Client) returns (ok: bool)
    requires c.target.Some? ==> WellFormed(c.target.value)
    modifies conn
    ensures var o := Handshake5(c, old(conn.inbox));
            && conn.outbox == old(conn.outbox) + o.sent
            && (ok <==> o.Open?)
            && (ok ==> conn.inbox == o.rest)
  {
    var methods: seq<Byte> := [AUTH_NONE];
    if c.user != [] || c.pass != [] {
      methods := [AUTH_NONE, AUTH_USER_PASS];
    }
    ghost var before, s := conn.outbox, conn.inbox;
    conn.Write([VERSION5, |methods|] + methods);
    var got, sel := conn.ReadFull(2);
    if !got || sel[0] != VERSION5 {
      return false;
    }
    if sel[1] == AUTH_NONE {
      AfterAuthPrefix(c, s[2..], before, Greeting(c));
      ok := Connect(conn, c);
    } else if sel[1] == AUTH_USER_PASS {
      if (c.user == [] && c.pass == []) || |c.user| > 255 || |c.pass| > 255 {
        return false;
      }
      var accepted := Authenticate(conn, c);
      assert conn.outbox == before + (Greeting(c) + AuthRequest(c));
      if !accepted {
        return false;
      }
      assert s[2..][2..] == s[4..];
      AfterAuthPrefix(c, s[4..], before, Greeting(c) + AuthRequest(c));
      ok := Connect(conn, c);
    } else {
      return false;
    }
  }

  /** The username/password sub-negotiation of `dialSOCKS5`. */
  method Authenticate(conn: Conn, c: Client) returns (ok: bool)
    requires CredentialsFit(c)
    modifies conn
    ensures conn.outbox == old(conn.outbox) + AuthRequest(c)
    ensures ok <==> |old(conn.inbox)| >= 2 && old(conn.inbox)[0] == AUTH_VERSION && old(conn.inbox)[1] == 0
    ensures ok ==> conn.inbox == old(conn.inbox)[2..]
  {
    conn.Write([AUTH_VERSION, |c.user|] + c.user + [|c.pass|] + c.pass);
    var had, ar := conn.ReadFull(2);
    ok := had && ar[0] == AUTH_VERSION && ar[1] == 0;
  }

  lemma AfterAuthPrefix(c: Client, s: seq<Byte>, before: seq<Byte>, sent: seq<Byte>)
    ensures var o, o' := AfterAuth(c, s, sent), AfterAuth(c, s, before + sent);
            && o'.sent == before + o.sent
            && (o.Open? <==> o'.Open?)
            && (o.Open? ==> o.rest == o'.rest)
  {
    if Askable(c) {
      assert before + sent + ConnectRequest(c) == before + (sent + ConnectRequest(c));
    }
  }

  /** The CONNECT half of `dialSOCKS5`. */
  method Connect(conn: Conn, c: Client) returns (ok: bool)
    requires c.target.Some? ==> WellFormed(c.target.value)
    modifies conn
    ensures var o := AfterAuth(c, old(conn.inbox), old(conn.outbox));
            && conn.outbox == o.sent
            && (ok <==> o.Open?)
            && (ok ==> conn.inbox == o.rest)
  {
    if c.port < 1 || c.port > 65535 || c.target.None? {
      return false;
    }
    if c.target.value.Domain? && |c.target.value.name| > 255 {
      return false;
    }
    conn.Write([VERSION5, CONNECT, 0] + AddressBytes(c.target.value) + PortBytes(c.port));
    var got, head := conn.ReadFull(4);
    if !got || head[0] != VERSION5 || head[1] != 0 {
      return false;
    }
    var boundLen: nat;
    if head[3] == ATYP_IPV4 {
      boundLen := 4;
    } else if head[3] == ATYP_IPV6 {
      boundLen := 16;
    } else if head[3] == ATYP_DOMAIN {
      var had, l := conn.ReadFull(1);
      if !had {
        return false;
      }
      boundLen := l[0];
    } else {
      return false;
    }
    var all, _ := conn.ReadFull(boundLen + 2);
    return all;
  }

  // --------------------------------------------------- what a proxy may answer

  /** A proxy's side of a successful negotiation, RFC 1928 sections 3, 4 and 6 and
      RFC 1929 section 2: the method it selects, the reserved byte, and the address
      and port it says it bound. */
  datatype Server = Server(method_: Byte, reserved: Byte, bound: Address, boundPort: seq<Byte>)

  predicate Accepts(v: Server, c: Client) {
    && (v.method_ == AUTH_NONE || (v.method_ == AUTH_USER_PASS && HasCredentials(c) && CredentialsFit(c)))
    && AddressFits(v.bound) && |v.boundPort| == 2
  }

  function ReplyBytes(v: Server): seq<Byte>
    requires AddressFits(v.bound)
  {
    [5, 0, v.reserved] + AddressBytes(v.bound) + v.boundPort
  }

  function ServerBytes(v: Server): seq<Byte>
    requires AddressFits(v.bound)
  {
    [5, v.method_]
    + (if v.method_ == 2 then [1, 0] else [])
    + ReplyBytes(v)
  }

  lemma ReplyIsConsumed(v: Server, tunnel: seq<Byte>)
    requires AddressFits(v.bound) && |v.boundPort| == 2
    ensures ReplyLength(ReplyBytes(v) + tunnel) == Some(|ReplyBytes(v)|)
    ensures (ReplyBytes(v) + tunnel)[|ReplyBytes(v)|..] == tunnel
  {
    var s := ReplyBytes(v) + tunnel;
    assert s[0] == VERSION5 && s[1] == 0 && s[3] == AddressBytes(v.bound)[0];
    if v.bound.Domain? {
      assert s[4] == AddressBytes(v.bound)[1];
    }
  }

  lemma ServerBytesAre(v: Server, rest: seq<Byte>)
    requires AddressFits(v.bound)
    ensures var front := if v.method_ == AUTH_USER_PASS then [VERSION5, v.method_, AUTH_VERSION, 0]
                         else [VERSION5, v.method_];
            ServerBytes(v) + rest == front + (ReplyBytes(v) + rest)
  {
    hide ReplyBytes;
    hide AddressFits;
    var front := if v.method_ == AUTH_USER_PASS then [VERSION5, v.method_, AUTH_VERSION, 0]
                 else [VERSION5, v.method_];
    assert ServerBytes(v) == front + ReplyBytes(v);
  }

  lemma ReplyOpens(c: Client, v: Server, tunnel: seq<Byte>, sent: seq<Byte>)
    requires Askable(c) && AddressFits(v.bound) && |v.boundPort| == 2
    ensures var o := AfterAuth(c, ReplyBytes(v) + tunnel, sent); o.Open? && o.rest == tunnel
  {
    hide ReplyLength;
    hide ReplyBytes;
    hide ConnectRequest;
    ReplyIsConsumed(v, tunnel);
  }

  /** Stream alignment. Whatever a valid proxy answers and whatever tunnel bytes
      follow at once, the handshake succeeds and leaves exactly the tunnel bytes. */
  lemma ValidServerOpensTunnel(c: Client, v: Server, tunnel: seq<Byte>)
    requires Askable(c) && Accepts(v, c)
    ensures var o := Handshake5(c, ServerBytes(v) + tunnel);
            o.Open? && o.rest == tunnel
  {
    hide ServerBytes;
    hide ReplyBytes;
    hide AfterAuth;
    hide Greeting;
    hide AuthRequest;
    ServerBytesAre(v, tunnel);
    var s := ServerBytes(v) + tunnel;
    var r := ReplyBytes(v) + tunnel;
    if v.method_ == AUTH_USER_PASS {
      assert s[4..] == r;
      ReplyOpens(c, v, tunnel, Greeting(c) + AuthRequest(c));
    } else {
      assert s[2..] == r;
      ReplyOpens(c, v, tunnel, Greeting(c));
    }
  }

  /** What a complete reply was made of. */
  lemma ReplyPieces(r: seq<Byte>, m: Byte) returns (v: Server)
    requires ReplyLength(r).Some? && |r| >= ReplyLength(r).value
    ensures v.method_ == m && AddressFits(v.bound) && |v.boundPort| == 2
    ensures ReplyBytes(v) == r[..ReplyLength(r).value]
  {
    var n := ReplyLength(r).value;
    var bound := if r[3] == ATYP_IPV4 then IPv4(r[4..8])
                 else if r[3] == ATYP_IPV6 then IPv6(r[4..20])
                 else Domain(r[5..n - 2]);
    v := Server(m, r[2], bound, r[n - 2..n]);
    assert AddressBytes(bound) == r[3..n - 2];
  }

  /** Where the connect reply starts. */
  function ReplyStart(s: seq<Byte>): seq<Byte>
    requires |s| >= 2 && (s[1] == AUTH_USER_PASS ==> |s| >= 4)
  {
    if s[1] == AUTH_USER_PASS then s[4..] else s[2..]
  }

  lemma OpenShape(c: Client, s: seq<Byte>)
    requires Handshake5(c, s).Open?
    ensures |s| >= 2 && s[0] == VERSION5
    ensures s[1] == AUTH_NONE
            || (s[1] == AUTH_USER_PASS && HasCredentials(c) && CredentialsFit(c)
                && |s| >= 4 && s[2] == AUTH_VERSION && s[3] == 0)
    ensures var r := ReplyStart(s);
            && Askable(c) && ReplyLength(r).Some? && |r| >= ReplyLength(r).value
            && Handshake5(c, s).rest == r[ReplyLength(r).value..]
  {
    hide ReplyLength;
    hide Askable;
    hide ConnectRequest;
    hide AuthRequest;
    hide Greeting;
  }

  lemma StreamFront(s: seq<Byte>)
    requires |s| >= 2 && (s[1] == AUTH_USER_PASS ==> |s| >= 4)
    ensures s == (if s[1] == AUTH_USER_PASS then [s[0], s[1], s[2], s[3]] else [s[0], s[1]]) + ReplyStart(s)
  {
  }

  /** The converse: a handshake opens only on such a stream. */
  lemma OnlyValidServersOpen(c: Client, s: seq<Byte>) returns (v: Server)
    requires Handshake5(c, s).Open?
    ensures Askable(c) && Accepts(v, c)
    ensures s == ServerBytes(v) + Handshake5(c, s).rest
  {
    hide Handshake5;
    hide Askable;
    hide ReplyLength;
    hide ReplyBytes;
    hide ServerBytes;
    hide AddressFits;
    OpenShape(c, s);
    var r := ReplyStart(s);
    v := ReplyPieces(r, s[1]);
    var rest := r[ReplyLength(r).value..];
    assert r == ReplyBytes(v) + rest;
    StreamFront(s);
    ServerBytesAre(v, rest);
  }

  /** Both together, over every stream: the tunnel opens with `tunnel` unread if and only
      if the target can be asked for and the stream is a valid server's, followed by exactly
      those bytes. A server may select the user/password method when there is a user or a
      password, both of at most 255 octets. */
  lemma OpensExactly5(c: Client, s: seq<Byte>, tunnel: seq<Byte>)
    ensures (Handshake5(c, s).Open? && Handshake5(c, s).rest == tunnel)
       <==> && 1 <= c.port <= 65535 && c.target.Some? && WellFormed(c.target.value)
            && (c.target.value.Domain? ==> |c.target.value.name| <= 255)
            && exists v: Server ::
                 && AddressFits(v.bound) && |v.boundPort| == 2
                 && (v.method_ == 0
                     || (v.method_ == 2 && (c.user != [] || c.pass != []) && |c.user| <= 255 && |c.pass| <= 255))
                 && s == ServerBytes(v) + tunnel
  {
    hide Handshake5;
    hide ServerBytes;
    if Handshake5(c, s).Open? {
      var v := OnlyValidServersOpen(c, s);
    }
    if Askable(c) {
      forall v: Server | Accepts(v, c) && s == ServerBytes(v) + tunnel
        ensures Handshake5(c, s).Open? && Handshake5(c, s).rest == tunnel
      {
        ValidServerOpensTunnel(c, v, tunnel);
      }
    }
  }

  // --------------------------------------------------- what the proxy reads

  datatype Parsed<T> = Parsed(value: T, rest: seq<Byte>) | Bad

  /** RFC 1928 section 3. */
  function ReadGreeting(s: seq<Byte>): Parsed<seq<Byte>> {
    if |s| >= 2 && s[0] == 5 && |s| >= 2 + s[1] as int then
      Parsed(s[2..2 + s[1] as int], s[2 + s[1] as int..])
    else Bad
  }

  /** RFC 1929 section 2: both fields are 1 to 255 octets long. */
  function ReadAuth(s: seq<Byte>): Parsed<(seq<Byte>, seq<Byte>)> {
    if |s| < 2 || s[0] != 1 || s[1] == 0 || |s| < 3 + s[1] as int then Bad
    else
      var u := 2 + s[1] as int;
      var p := s[u] as int;
      if p == 0 || |s| < u + 1 + p then Bad else Parsed((s[2..u], s[u + 1..u + 1 + p]), s[u + 1 + p..])
  }

  /** RFC 1928 sections 4 and 5. */
  function ReadAddress(s: seq<Byte>): Parsed<Address> {
    if |s| < 1 then Bad
    else if s[0] == 1 then if |s| >= 5 then Parsed(IPv4(s[1..5]), s[5..]) else Bad
    else if s[0] == 4 then if |s| >= 17 then Parsed(IPv6(s[1..17]), s[17..]) else Bad
    else if s[0] == 3 && |s| >= 2 && |s| >= 2 + s[1] as int then
      Parsed(Domain(s[2..2 + s[1] as int]), s[2 + s[1] as int..])
    else Bad
  }

  function ReadConnect(s: seq<Byte>): Parsed<(Address, int)> {
    if |s| < 3 || s[0] != 5 || s[1] != 1 || s[2] != 0 then Bad
    else match ReadAddress(s[3..])
      case Bad => Bad
      case Parsed(a, r) => if |r| < 2 then Bad else Parsed((a, r[0] as int * 256 + r[1] as int), r[2..])
  }

  lemma GreetingReadsBack(c: Client, more: seq<Byte>)
    ensures ReadGreeting(Greeting(c) + more) == Parsed(Methods(c), more)
  {
    var s := Greeting(c) + more;
    assert s[2..2 + |Methods(c)|] == Methods(c) && s[2 + |Methods(c)|..] == more;
  }

  lemma AuthReadsBack(c: Client, more: seq<Byte>)
    requires CredentialsFit(c)
    ensures ReadAuth(AuthRequest(c) + more)
         == if c.user != [] && c.pass != [] then Parsed((c.user, c.pass), more) else Bad
  {
    var s := AuthRequest(c) + more;
    var u := 2 + |c.user|;
    assert s[1] == |c.user| && s[u] == |c.pass|;
    assert s[2..u] == c.user;
    assert s[u + 1..u + 1 + |c.pass|] == c.pass;
    assert s[u + 1 + |c.pass|..] == more;
  }

  lemma AddressReadsBack(a: Address, more: seq<Byte>)
    requires AddressFits(a)
    ensures ReadAddress(AddressBytes(a) + more) == Parsed(a, more)
  {
    var s := AddressBytes(a) + more;
    match a {
      case IPv4(ip) => assert s[1..5] == ip && s[5..] == more;
      case IPv6(ip) => assert s[1..17] == ip && s[17..] == more;
      case Domain(n) => assert s[1] == |n|; assert s[2..2 + |n|] == n && s[2 + |n|..] == more;
    }
  }

  lemma ConnectReadsBack(c: Client)
    requires Askable(c)
    ensures ReadConnect(ConnectRequest(c)) == Parsed((c.target.value, c.port), [])
  {
    var s := ConnectRequest(c);
    AddressReadsBack(c.target.value, PortBytes(c.port));
    assert s[3..] == AddressBytes(c.target.value) + PortBytes(c.port);
  }

  /** A proxy reading what was sent recovers the offered methods, the credentials if
      it asked for them, the target and the port, with nothing left over; except that
      it cannot read credentials of which one is empty, and nothing else. */
  lemma ProxyReadsRequest(c: Client, s: seq<Byte>)
    requires Handshake5(c, s).Open?
    ensures var g := ReadGreeting(Handshake5(c, s).sent);
            && g.Parsed? && s[1] in g.value
            && g.value == (if c.user != [] || c.pass != [] then [0, 2] else [0])
            && (if s[1] == 2 then
                  var a := ReadAuth(g.rest);
                  && (a.Parsed? <==> c.user != [] && c.pass != [])
                  && (a.Parsed? ==> a.value == (c.user, c.pass)
                                    && ReadConnect(a.rest) == Parsed((c.target.value, c.port), []))
                else ReadConnect(g.rest) == Parsed((c.target.value, c.port), []))
  {
    hide ReadGreeting;
    hide ReadAuth;
    hide ReadConnect;
    hide ConnectRequest;
    hide AuthRequest;
    hide ReplyLength;
    ConnectReadsBack(c);
    var sent := Handshake5(c, s).sent;
    if s[1] == AUTH_USER_PASS {
      assert sent == Greeting(c) + (AuthRequest(c) + ConnectRequest(c));
      GreetingReadsBack(c, AuthRequest(c) + ConnectRequest(c));
      AuthReadsBack(c, ConnectRequest(c));
      assert Methods(c)[1] == AUTH_USER_PASS;
    } else {
      assert sent == Greeting(c) + ConnectRequest(c);
      GreetingReadsBack(c, ConnectRequest(c));
      assert Methods(c)[0] == AUTH_NONE;
    }
  }

  /** Such a request: for the user `u` without a password the client goes through with
      a proxy that asks for one, having sent it a password of no octets. */
  lemma EmptyPasswordIsSent(target: Address, tunnel: seq<Byte>)
    requires AddressFits(target)
    ensures var c := Client([0x75], [], Some(target), 443);
            var o := Handshake5(c, ServerBytes(Server(AUTH_USER_PASS, 0, IPv4([0, 0, 0, 0]), [0, 0])) + tunnel);
            && o.Open? && o.rest == tunnel
            && ReadGreeting(o.sent).Parsed? && ReadAuth(ReadGreeting(o.sent).rest) == Bad
  {
    hide ReadGreeting;
    hide ReadAuth;
    hide Handshake5;
    hide ServerBytes;
    var c := Client([0x75], [], Some(target), 443);
    var v := Server(AUTH_USER_PASS, 0, IPv4([0, 0, 0, 0]), [0, 0]);
    ValidServerOpensTunnel(c, v, tunnel);
    ServerBytesAre(v, tunnel);
    ProxyReadsRequest(c, ServerBytes(v) + tunnel);
  }

  // -------------------------------------------------------------------- SOCKS4

  /** What `dialSOCKS4` is asked for. `resolved` is what a local lookup would give. */
  datatype Client4 = Client4(userID: seq<Byte>, target: Address, port: int, use4a: bool, resolved: seq<Address>)

  function FirstIPv4(ips: seq<Address>): Option<seq<Byte>> {
    if ips == [] then None
    else if ips[0].IPv4? then Some(ips[0].ip)
    else FirstIPv4(ips[1..])
  }

  /** Where the proxy is asked to connect: an address, or a name it resolves. */
  datatype Dest = ToIP(ip: seq<Byte>) | ToName(name: seq<Byte>)

  function Destination(c: Client4): Option<Dest> {
    match c.target
    case IPv4(ip) => Some(ToIP(ip))
    case IPv6(_) => None
    case Domain(n) =>
      if c.use4a then Some(ToName(n))
      else match FirstIPv4(c.resolved)
        case None => None
        case Some(ip) => Some(ToIP(ip))
  }

  function Request4(userID: seq<Byte>, d: Dest, port: int): seq<Byte>
    requires 1 <= port <= 65535
  {
    [VERSION4, CONNECT] + PortBytes(port)
    + (if d.ToIP? then d.ip else [0, 0, 0, 1])
    + userID + [0]
    + (if d.ToName? then d.name + [0] else [])
  }

  predicate Askable4(c: Client4) {
    && 1 <= c.port <= 65535 && Destination(c).Some?
    && (Destination(c).value.ToName? ==> |Destination(c).value.name| <= 255)
  }

  function Handshake4(c: Client4, s: seq<Byte>): Outcome {
    if !Askable4(c) then Broken([])
    else
      var sent := Request4(c.userID, Destination(c).value, c.port);
      if |s| >= 8 && s[0] == 0 && s[1] == GRANTED4 then Open(sent, s[8..]) else Broken(sent)
  }

  /** `dialSOCKS4` on an established connection. */
  method DialSOCKS4(conn: Conn, c: Client4) returns (ok: bool)
    modifies conn
    ensures var o := Handshake4(c, old(conn.inbox));
            && conn.outbox == old(conn.outbox) + o.sent
            && (ok <==> o.Open?)
            && (ok ==> conn.inbox == o.rest)
  {
    if c.port < 1 || c.port > 65535 {
      return false;
    }
    var dstIP: seq<Byte> := [];
    var sendHostname := false;
    match c.target {
      case IPv4(ip) => dstIP := ip;
      case IPv6(_) => return false;
      case Domain(n) =>
        if c.use4a {
          dstIP := [0, 0, 0, 1];
          sendHostname := true;
        } else {
          var found := PickIPv4(c.resolved);
          if found.None? {
            return false;
          }
          dstIP := found.value;
        }
    }
    var req := [VERSION4, CONNECT] + PortBytes(c.port) + dstIP + c.userID + [0];
    if sendHostname {
      if |c.target.name| > 255 {
        return false;
      }
      req := req + c.target.name + [0];
    }
    conn.Write(req);
    assert req == Request4(c.userID, Destination(c).value, c.port);
    var got, reply := conn.ReadFull(8);
    ok := got && reply[0] == 0 && reply[1] == GRANTED4;
  }

  /** The lookup loop of `dialSOCKS4`. */
  method PickIPv4(ips: seq<Address>) returns (found: Option<seq<Byte>>)
    ensures found == FirstIPv4(ips)
  {
    for i := 0 to |ips|
      invariant FirstIPv4(ips) == FirstIPv4(ips[i..])
    {
      if ips[i].IPv4? {
        return Some(ips[i].ip);
      }
    }
    return None;
  }

  /** A field ended by a zero byte. */
  function UntilNul(s: seq<Byte>): Parsed<seq<Byte>> {
    if s == [] then Bad
    else if s[0] == 0 then Parsed([], s[1..])
    else match UntilNul(s[1..])
      case Bad => Bad
      case Parsed(v, r) => Parsed([s[0]] + v, r)
  }

  /** The SOCKS4a marker: 0.0.0.x with x nonzero says a host name follows. */
  predicate IsMarker(ip: seq<Byte>) {
    |ip| == 4 && ip[0] == 0 && ip[1] == 0 && ip[2] == 0 && ip[3] != 0
  }

  /** How a SOCKS4a proxy reads a request. */
  function ReadRequest4(s: seq<Byte>): Parsed<(seq<Byte>, Dest, int)> {
    if |s| < 8 || s[0] != 4 || s[1] != 1 then Bad
    else
      var port, ip := s[2] as int * 256 + s[3] as int, s[4..8];
      match UntilNul(s[8..])
      case Bad => Bad
      case Parsed(user, r) =>
        if IsMarker(ip) then
          match UntilNul(r)
          case Bad => Bad
          case Parsed(name, r') => Parsed((user, ToName(name), port), r')
        else Parsed((user, ToIP(ip), port), r)
  }

  lemma {:induction false} NulEndsField(f: seq<Byte>, r: seq<Byte>)
    ensures var p := UntilNul(f + [0] + r);
            p.Parsed? && (p == Parsed(f, r) <==> 0 !in f) && (0 in f ==> p.value != f)
  {
    var s := f + [0] + r;
    if f != [] && f[0] != 0 {
      assert s[1..] == f[1..] + [0] + r;
      NulEndsField(f[1..], r);
      assert f == [f[0]] + f[1..];
    } else if f == [] {
      assert s[1..] == r;
    }
  }

  /** Where a SOCKS4 request goes. A literal IPv4 address goes as it is and an IPv6 one not
      at all; a name goes to the proxy to resolve if it can, and otherwise as the first IPv4
      address the local lookup gave, or not at all. */
  lemma DestinationIsMeant(c: Client4)
    ensures c.target.IPv4? ==> Destination(c) == Some(ToIP(c.target.ip))
    ensures c.target.IPv6? ==> Destination(c) == None
    ensures c.target.Domain? && c.use4a ==> Destination(c) == Some(ToName(c.target.name))
    ensures c.target.Domain? && !c.use4a ==>
              match Destination(c)
              case None => forall a <- c.resolved :: !a.IPv4?
              case Some(d) => exists i :: 0 <= i < |c.resolved| && c.resolved[i].IPv4? && d == ToIP(c.resolved[i].ip)
                                          && forall j :: 0 <= j < i ==> !c.resolved[j].IPv4?
  {
    FirstIPv4IsFirst(c.resolved);
  }

  lemma {:induction false} FirstIPv4IsFirst(ips: seq<Address>)
    ensures match FirstIPv4(ips)
            case None => forall a <- ips :: !a.IPv4?
            case Some(ip) => exists i :: 0 <= i < |ips| && ips[i].IPv4? && ip == ips[i].ip
                                         && forall j :: 0 <= j < i ==> !ips[j].IPv4?
  {
    if ips != [] && !ips[0].IPv4? {
      FirstIPv4IsFirst(ips[1..]);
      if FirstIPv4(ips[1..]).Some? {
        var i :| 0 <= i < |ips[1..]| && ips[1..][i].IPv4? && FirstIPv4(ips[1..]).value == ips[1..][i].ip
                 && forall j :: 0 <= j < i ==> !ips[1..][j].IPv4?;
        assert ips[i + 1] == ips[1..][i];
        assert forall j :: 1 <= j < i + 1 ==> ips[j] == ips[1..][j - 1];
      } else {
        assert forall a :: a in ips ==> a == ips[0] || a in ips[1..];
      }
    }
  }

  /** A proxy reads the request back as it was meant if and only if neither text field
      holds a zero byte and a literal address is not one the 4a extension reserves. */
  lemma Request4ReadsBack(userID: seq<Byte>, d: Dest, port: int)
    requires 1 <= port <= 65535 && (d.ToIP? ==> |d.ip| == 4)
    ensures ReadRequest4(Request4(userID, d, port)) == Parsed((userID, d, port), [])
       <==> 0 !in userID && (if d.ToIP? then !IsMarker(d.ip) else 0 !in d.name)
  {
    hide UntilNul;
    var s := Request4(userID, d, port);
    var ip: seq<Byte> := if d.ToIP? then d.ip else [0, 0, 0, 1];
    var tail := if d.ToName? then d.name + [0] else [];
    assert s[4..8] == ip;
    assert s[8..] == userID + [0] + tail;
    assert s[2] as int * 256 + s[3] as int == port;
    NulEndsField(userID, tail);
    if d.ToName? {
      assert tail == d.name + [0] + [];
      NulEndsField(d.name, []);
    }
  }

  /** A literal address the extension reserves: the request ends where the proxy starts
      to look for a name. */
  lemma MarkerAddressIsNoRequest(userID: seq<Byte>, x: Byte, port: int)
    requires 1 <= port <= 65535 && 0 !in userID && x != 0
    ensures ReadRequest4(Request4(userID, ToIP([0, 0, 0, x]), port)) == Bad
  {
    hide UntilNul;
    var s := Request4(userID, ToIP([0, 0, 0, x]), port);
    assert s[4..8] == [0, 0, 0, x];
    assert s[8..] == userID + [0] + [];
    NulEndsField(userID, []);
    assert UntilNul([]) == Bad by { EmptyIsNoField(); }
  }

  lemma EmptyIsNoField()
    ensures UntilNul([]) == Bad
  {
  }

  /** A user of three bytes, the middle one zero, which percent-decoding `a%00b` gives:
      the proxy reads the user `a`, and the rest of it is in the tunnel. */
  lemma ZeroByteCutsUser(ip: seq<Byte>, port: int)
    requires 1 <= port <= 65535 && |ip| == 4 && !IsMarker(ip)
    ensures ReadRequest4(Request4([0x61, 0, 0x62], ToIP(ip), port)) == Parsed(([0x61], ToIP(ip), port), [0x62, 0])
  {
    var s := Request4([0x61, 0, 0x62], ToIP(ip), port);
    assert s[4..8] == ip;
    assert s[2] as int * 256 + s[3] as int == port;
    var r: seq<Byte> := [0x62, 0];
    assert s[8..] == [0x61] + [0] + r;
    NulEndsField([0x61], r);
  }

  /** A proxy's granting reply: its code, and a port and an address nobody reads. */
  datatype Grant4 = Grant4(port: seq<Byte>, ip: seq<Byte>)

  predicate WellFormed4(g: Grant4) {
    |g.port| == 2 && |g.ip| == 4
  }

  function Grant4Bytes(g: Grant4): seq<Byte> {
    [0, 90] + g.port + g.ip
  }

  /** Stream alignment, both ways and over every stream: the tunnel opens with `tunnel`
      unread if and only if the request can be made and the stream is a granting reply
      followed by exactly those bytes. */
  lemma OnlyGrantsOpen4(c: Client4, s: seq<Byte>, tunnel: seq<Byte>)
    ensures (Handshake4(c, s).Open? && Handshake4(c, s).rest == tunnel)
       <==> && 1 <= c.port <= 65535 && Destination(c).Some?
            && (Destination(c).value.ToName? ==> |Destination(c).value.name| <= 255)
            && exists g: Grant4 :: WellFormed4(g) && s == Grant4Bytes(g) + tunnel
  {
    hide Request4;
    hide Destination;
    if Handshake4(c, s).Open? {
      var g := Grant4(s[2..4], s[4..8]);
      assert WellFormed4(g) && s == Grant4Bytes(g) + s[8..];
    }
    forall g: Grant4 | WellFormed4(g) && s == Grant4Bytes(g) + tunnel
      ensures |s| >= 8 && s[0] == 0 && s[1] == GRANTED4 && s[8..] == tunnel
    {
    }
  }
}
