// What the parser and the printer of common/URI.cpp compute, on values.  The parser functions take
// the fields before the call and return the fields after it, also when the call throws half-way.
// The table of well-known ports (common/URI.cpp:11-56) is a parameter throughout.
module UriSpec {
  import opened Bytes
  import opened PercentCodec
  import opened Decimal

  type Port = p: int | 0 <= p < 0x10000
  type PortTable = map<Text, Port>

  datatype Parts = Parts(
    scheme: Text,
    userInfo: Text,
    host: Text,
    port: Port,
    path: Text,
    query: Text,
    fragment: Text)

  const EMPTY: Parts := Parts([], [], [], 0, [], [], [])
  const FILE: Text := [0x66, 0x69, 0x6C, 0x65]  // file

  const PATH_STOPS: set<byte> := {QUESTION, HASH}
  const AUTHORITY_STOPS: set<byte> := {SLASH, QUESTION, HASH}
  const SCHEME_STOPS: set<byte> := {COLON, QUESTION, HASH, SLASH}

  lemma AuthorityStopsAre(c: byte)
    ensures c in AUTHORITY_STOPS <==> c == SLASH || c == QUESTION || c == HASH
  {
  }

  datatype Parsed = Parsed(parts: Parts, status: Status)

  function WellKnownPort(ports: PortTable, scheme: Text): Port {
    if scheme in ports then ports[scheme] else 0
  }

  function GetPort(ports: PortTable, u: Parts): Port {
    if u.port == 0 then WellKnownPort(ports, u.scheme) else u.port
  }

  // ---- Printing

  function Authority(ports: PortTable, u: Parts): Text {
    (if u.userInfo != [] then u.userInfo + [AT] else [])
    + PrintedHost(u.host)
    + PrintedPort(ports, u)
  }

  function PrintedHost(host: Text): Text {
    if COLON in host then [LBRACKET] + host + [RBRACKET] else host
  }

  function PrintedPort(ports: PortTable, u: Parts): Text {
    if u.port != 0 && u.port != WellKnownPort(ports, u.scheme) then [COLON] + ToDecimal(u.port) else []
  }

  function QueryAndFragment(query: Text, fragment: Text): Text {
    (if query != [] then [QUESTION] + query else []) + PrintedFragment(fragment)
  }

  function PrintedFragment(fragment: Text): Text {
    if fragment != [] then [HASH] + Encode(fragment, RESERVED_FRAGMENT) else []
  }

  function PathEtc(u: Parts): Text {
    Encode(u.path, RESERVED_PATH) + QueryAndFragment(u.query, u.fragment)
  }

  /** What toString puts in front of the encoded path: "//", the authority, a missing slash. */
  function HierarchyPrefix(ports: PortTable, u: Parts): Text {
    var auth := Authority(ports, u);
    (if auth != [] || u.scheme == FILE then [SLASH, SLASH] + auth else [])
    + MissingSlash(ports, u)
  }

  function MissingSlash(ports: PortTable, u: Parts): Text {
    if u.path != []
    then (if Authority(ports, u) != [] && u.path[0] != SLASH then [SLASH] else [])
    else (if u.query != [] || u.fragment != [] then [SLASH] else [])
  }

  function Print(ports: PortTable, u: Parts): Text {
    if u.scheme == [] then PathEtc(u)
    else u.scheme + [COLON] + (HierarchyPrefix(ports, u) + PathEtc(u))
  }

  // ---- Parsing

  function ParseFragment(u: Parts, s: Text): Parsed {
    var d := Decode(s);
    Parsed(u.(fragment := u.fragment + d.text), d.status)
  }

  function ParsePath(u: Parts, s: Text): Parsed {
    var d := Decode(s[..Span(s, PATH_STOPS)]);
    Parsed(u.(path := u.path + d.text), d.status)
  }

  function ParseQuery(u: Parts, s: Text): Parts {
    u.(query := s[..Span(s, {HASH})])
  }

  function ParseAfterQuery(u: Parts, s: Text): Parsed {
    if s != [] && s[0] == HASH then ParseFragment(u, s[1..]) else Parsed(u, Fine)
  }

  function ParseAfterPath(u: Parts, s: Text): Parsed {
    if s != [] && s[0] == QUESTION then
      ParseAfterQuery(ParseQuery(u, s[1..]), s[1..][Span(s[1..], {HASH})..])
    else ParseAfterQuery(u, s)
  }

  function ParsePathEtc(u: Parts, s: Text): Parsed {
    var p := ParsePath(u, s);
    if p.status != Fine then p else ParseAfterPath(p.parts, s[Span(s, PATH_STOPS)..])
  }

  /** The piece before the last '@', if there is one, and the piece after it. */
  function SplitAtAt(s: Text, userInfo: Text): (r: (Text, Text)) {
    if s == [] then (userInfo, [])
    else
      var before := SplitAtAt(s[..|s| - 1], userInfo);
      if s[|s| - 1] == AT then (before.1, []) else (before.0, before.1 + [s[|s| - 1]])
  }

  function ParsePort(ports: PortTable, u: Parts, s: Text): Parsed {
    if s != [] && s[0] == COLON && |s| > 1 then
      var n := FromChars(s[1..]);
      if 0 < n < 65536 then Parsed(u.(port := n), Fine) else Parsed(u, BadPort)
    else Parsed(u.(port := WellKnownPort(ports, u.scheme)), Fine)
  }

  /** The host text, how many bytes it takes with its brackets, and whether a bracket is missing. */
  function ScanHost(s: Text): (r: (Text, nat, Status))
    ensures r.1 <= |s|
  {
    if s != [] && s[0] == LBRACKET then
      var n := Span(s[1..], {RBRACKET});
      if n == |s| - 1 then (s[1..], |s|, UnterminatedAddress) else (s[1..][..n], n + 2, Fine)
    else
      var n := Span(s, {COLON});
      (s[..n], n, Fine)
  }

  function ParseHostAndPort(ports: PortTable, u: Parts, s: Text): Parsed {
    if s == [] then Parsed(u, Fine)
    else
      var (host, n, status) := ScanHost(s);
      if status != Fine then Parsed(u, status)
      else
        var p := ParsePort(ports, u, s[n..]);
        if p.status != Fine then p else Parsed(p.parts.(host := ToLower(host)), Fine)
  }

  function ParseAuthority(ports: PortTable, u: Parts, s: Text): Parsed {
    var (info, part) := SplitAtAt(s[..Span(s, AUTHORITY_STOPS)], u.userInfo);
    var p := ParseHostAndPort(ports, u.(userInfo := info), part);
    if p.status != Fine then p else Parsed(p.parts.(userInfo := []), Fine)
  }

  function SetScheme(ports: PortTable, u: Parts, scheme: Text): Parts {
    var lower := ToLower(scheme);
    u.(scheme := lower, port := if u.port == 0 then WellKnownPort(ports, lower) else u.port)
  }

  /** What follows "scheme:". */
  function ParseHierarchy(ports: PortTable, u: Parts, s: Text): Parsed {
    if |s| > 1 && s[0] == SLASH && s[1] == SLASH then
      var p := ParseAuthority(ports, u, s[2..]);
      if p.status != Fine then p else ParsePathEtc(p.parts, s[2..][Span(s[2..], AUTHORITY_STOPS)..])
    else ParsePathEtc(u, s)
  }

  predicate MayStartScheme(s: Text) {
    s != [] && s[0] !in {SLASH, DOT, QUESTION, HASH}
  }

  predicate HasScheme(s: Text) {
    MayStartScheme(s) && Span(s, SCHEME_STOPS) < |s| && s[Span(s, SCHEME_STOPS)] == COLON
  }

  function Parse(ports: PortTable, u: Parts, s: Text): Parsed {
    if HasScheme(s) then
      var n := Span(s, SCHEME_STOPS);
      if n + 1 == |s| then Parsed(u, MissingSchemePart)
      else ParseHierarchy(ports, SetScheme(ports, u, s[..n]), s[n + 1..])
    else ParsePathEtc(u, s)
  }

  // ---- Comparison

  predicate Equals(ports: PortTable, u: Parts, v: Parts) {
    && u.scheme == v.scheme
    && u.userInfo == v.userInfo
    && u.host == v.host
    && GetPort(ports, u) == GetPort(ports, v)
    && u.path == v.path
    && u.query == v.query
    && u.fragment == v.fragment
  }

  /** Printing u and parsing the result into a fresh object gives back an equal URI. */
  predicate Survives(ports: PortTable, u: Parts) {
    var p := Parse(ports, EMPTY, Print(ports, u));
    p.status == Fine && Equals(ports, p.parts, u)
  }
}
