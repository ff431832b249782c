// The parser of common/URI.cpp against the generic syntax (section 3 of RFC 3986): a text put together from
// its components is read as those components, and what toString prints is such a text.
module UriGrammar {
  import opened Bytes
  import opened PercentCodec
  import opened Decimal
  import opened UriSpec
  import opened UriRoundTrip
  import opened Options
  import opened WellKnownPorts

  // ---- Texts put together from components

  datatype HostText = Name(text: Text) | Address(text: Text)

  datatype AuthorityText = AuthorityText(info: Option<Text>, host: HostText, port: Option<Text>)

  function Behind(mark: byte, text: Option<Text>): Text {
    match text
    case None => []
    case Some(t) => [mark] + t
  }

  function HostPiece(host: HostText): Text {
    match host
    case Name(t) => t
    case Address(t) => Ascii("[") + t + Ascii("]")
  }

  function InfoPiece(info: Option<Text>): Text {
    match info
    case None => []
    case Some(t) => t + Ascii("@")
  }

  function AuthorityPiece(a: AuthorityText): Text {
    InfoPiece(a.info) + (HostPiece(a.host) + Behind(COLON, a.port))
  }

  /** path [ "?" query ] [ "#" fragment ] */
  function PathText(path: Text, query: Option<Text>, fragment: Option<Text>): Text {
    path + (Behind(QUESTION, query) + Behind(HASH, fragment))
  }

  /** scheme ":" [ "//" authority ] and what follows. */
  function AbsoluteText(scheme: Text, a: Option<AuthorityText>, rest: Text): Text {
    scheme + [COLON] +
    match a
    case None => rest
    case Some(authority) => Ascii("//") + (AuthorityPiece(authority) + rest)
  }

  function OrEmpty(text: Option<Text>): Text {
    match text
    case None => []
    case Some(t) => t
  }

  // ---- Which components go together

  ghost predicate GoodHost(host: HostText) {
    match host
    case Name(t) => Avoids(t, {SLASH, QUESTION, HASH, AT, COLON}) && !StartsWith(t, LBRACKET)
    case Address(t) => Avoids(t, {SLASH, QUESTION, HASH, AT, RBRACKET})
  }

  ghost predicate GoodAuthority(a: AuthorityText) {
    && Avoids(OrEmpty(a.info), {SLASH, QUESTION, HASH})
    && GoodHost(a.host)
    && Avoids(OrEmpty(a.port), {SLASH, QUESTION, HASH, AT})
  }

  ghost predicate GoodScheme(scheme: Text) {
    scheme != [] && scheme[0] != DOT && Avoids(scheme, {COLON, QUESTION, HASH, SLASH})
  }

  /** The port a text asks for: its own number, or the one that the table has for the scheme, or none. */
  function PortAsked(ports: PortTable, scheme: Text, port: Option<Text>): int {
    if OrEmpty(port) != [] then FromChars(OrEmpty(port)) else if scheme in ports then ports[scheme] else 0
  }

  predicate PortOk(port: Option<Text>) {
    OrEmpty(port) == [] || 0 < FromChars(OrEmpty(port)) < 65536
  }

  // ---- Reading the authority

  lemma MarksAre()
    ensures Ascii("[") == [LBRACKET] && Ascii("]") == [RBRACKET] && Ascii("@") == [AT]
    ensures Ascii("//") == [SLASH, SLASH] && Ascii("/") == [SLASH]
  {
  }

  lemma {:induction false} SplitBehindAt(before: Text, part: Text, info: Text)
    requires AT !in part
    ensures SplitAtAt(before + [AT] + part, info) == (SplitAtAt(before, info).1, part)
  {
    var s := before + [AT] + part;
    if part == [] {
      assert s[..|s| - 1] == before;
    } else {
      var init := part[..|part| - 1];
      assert s[..|s| - 1] == before + [AT] + init && part == init + [part[|part| - 1]];
      SplitBehindAt(before, init, info);
    }
  }

  /** The two pieces around the last '@': what stands behind it, and what stands between it and the '@'
      before, if there is one. */
  lemma SplitAroundLastAt(before: Text, between: Text, part: Text, info: Text)
    requires AT !in between && AT !in part
    ensures SplitAtAt(part, info) == (info, part)
    ensures SplitAtAt(between + [AT] + part, info) == (between, part)
    ensures SplitAtAt(before + [AT] + between + [AT] + part, info) == (between, part)
  {
    SplitAtAtPlain(part, info);
    SplitAtAtPlain(between, info);
    SplitBehindAt(between, part, info);
    SplitBehindAt(before, between, info);
    SplitBehindAt(before + [AT] + between, part, info);
  }

  lemma ReadPort(ports: PortTable, v: Parts, port: Option<Text>)
    ensures var p := ParsePort(ports, v, Behind(COLON, port));
            if PortOk(port) then p.status == Fine && p.parts == v.(port := p.parts.port)
                                 && p.parts.port == PortAsked(ports, v.scheme, port)
            else p == Parsed(v, BadPort)
  {
    if port.Some? {
      assert ([COLON] + port.value)[1..] == port.value;
    }
  }

  lemma ReadHost(host: HostText, rest: Text)
    requires GoodHost(host) && (rest == [] || rest[0] == COLON)
    ensures ScanHost(HostPiece(host) + rest) == (host.text, |HostPiece(host)|, Fine)
    ensures (HostPiece(host) + rest)[|HostPiece(host)|..] == rest
  {
    MarksAre();
    hide ScanHost;
    match host {
      case Name(t) => ScanPlainHost(t, rest);
      case Address(t) => ScanBracketedHost(t, rest);
    }
  }

  lemma AuthorityPieceAvoids(a: AuthorityText)
    requires GoodAuthority(a)
    ensures Avoids(AuthorityPiece(a), AUTHORITY_STOPS)
    ensures AT !in HostPiece(a.host) + Behind(COLON, a.port)
  {
    MarksAre();
  }

  /** Where the authority ends, and its last part. */
  lemma ReadAuthorityEnd(a: AuthorityText, rest: Text, info: Text)
    requires GoodAuthority(a) && (rest == [] || rest[0] in AUTHORITY_STOPS)
    ensures var t, n := AuthorityPiece(a) + rest, |AuthorityPiece(a)|;
            Span(t, AUTHORITY_STOPS) == n && t[..n] == AuthorityPiece(a) && t[n..] == rest
    ensures SplitAtAt(AuthorityPiece(a), info).1 == HostPiece(a.host) + Behind(COLON, a.port)
    ensures AT !in OrEmpty(a.info) ==>
              SplitAtAt(AuthorityPiece(a), info).0 == if a.info.Some? then a.info.value else info
  {
    AuthorityPieceAvoids(a);
    SpanOfConcat(AuthorityPiece(a), rest, AUTHORITY_STOPS);
    var part := HostPiece(a.host) + Behind(COLON, a.port);
    hide HostPiece, Behind, SplitAtAt, Span;
    MarksAre();
    match a.info {
      case None =>
        assert AuthorityPiece(a) == part;
        SplitAtAtPlain(part, info);
      case Some(t) =>
        SplitBehindAt(t, part, info);
        if AT !in t {
          SplitAtAtPlain(t, info);
        }
    }
  }

  /** User info is read and dropped, the host is read without its brackets and in lower case, and the port is
      the one that is asked for. */
  lemma ReadAuthority(ports: PortTable, v: Parts, a: AuthorityText, rest: Text)
    requires GoodAuthority(a) && (rest == [] || rest[0] in AUTHORITY_STOPS)
    requires v.host == [] && v.port == PortAsked(ports, v.scheme, None)
    ensures var p := ParseAuthority(ports, v, AuthorityPiece(a) + rest);
            if PortOk(a.port)
            then p.status == Fine && p.parts.port == PortAsked(ports, v.scheme, a.port)
                 && p.parts == v.(userInfo := [], host := ToLower(a.host.text), port := p.parts.port)
            else p.status == BadPort
                 && (AT !in OrEmpty(a.info) ==>
                       p.parts == v.(userInfo := if a.info.Some? then a.info.value else v.userInfo))
  {
    hide SplitAtAt, ScanHost, Span, AuthorityPiece, FromChars;
    var info := SplitAtAt(AuthorityPiece(a), v.userInfo).0;
    var u := v.(userInfo := info);
    ReadAuthorityEnd(a, rest, v.userInfo);
    var host, port := HostPiece(a.host), Behind(COLON, a.port);
    assert port == [] || port[0] == COLON;
    ReadHost(a.host, port);
    ReadPort(ports, u, a.port);
    if host + port == [] {
      assert host == [] && port == [];
      assert a.host.text == [] by {
        MarksAre();
      }
    }
  }

  // ---- Reading path, query and fragment

  lemma ReadFragment(v: Parts, fragment: Option<Text>)
    requires v.fragment == []
    ensures var d := Decode(OrEmpty(fragment));
            ParseAfterQuery(v, Behind(HASH, fragment)) == Parsed(v.(fragment := d.text), d.status)
  {
    assert Decode([]) == Decoding([], Fine);
    hide Decode;
    if fragment.Some? {
      assert ([HASH] + fragment.value)[1..] == fragment.value;
    }
  }

  lemma ReadQuery(v: Parts, query: Option<Text>, fragment: Option<Text>)
    requires v.query == [] && v.fragment == [] && Avoids(OrEmpty(query), {HASH})
    ensures var d := Decode(OrEmpty(fragment));
            ParseAfterPath(v, Behind(QUESTION, query) + Behind(HASH, fragment)) ==
            Parsed(v.(query := OrEmpty(query), fragment := d.text), d.status)
  {
    hide Decode, ParseAfterQuery;
    var f := Behind(HASH, fragment);
    ReadFragment(v.(query := OrEmpty(query)), fragment);
    match query {
      case None => assert [] + f == f;
      case Some(t) =>
        var s := [QUESTION] + t + f;
        assert s[1..] == t + f;
        SpanOfConcat(t, f, {HASH});
    }
  }

  /** The path is read up to the first '?' or '#' and decoded, the query is kept as it is, the fragment is
      decoded; a bad escape in the path ends the reading there. */
  lemma ReadPathText(v: Parts, path: Text, query: Option<Text>, fragment: Option<Text>)
    requires NoPathEtc(v) && Avoids(path, {QUESTION, HASH}) && Avoids(OrEmpty(query), {HASH})
    ensures var p, d, f := ParsePathEtc(v, PathText(path, query, fragment)), Decode(path), Decode(OrEmpty(fragment));
            p == if d.status != Fine then Parsed(v.(path := d.text), d.status)
                 else Parsed(v.(path := d.text, query := OrEmpty(query), fragment := f.text), f.status)
  {
    hide Decode, Span, ParseAfterPath;
    var rest := Behind(QUESTION, query) + Behind(HASH, fragment);
    SpanOfConcat(path, rest, PATH_STOPS);
    var d := Decode(path);
    assert [] + d.text == d.text;
    ReadQuery(v.(path := d.text), query, fragment);
  }

  // ---- Reading a whole URI

  lemma ReadScheme(ports: PortTable, scheme: Text, rest: Text)
    requires GoodScheme(scheme)
    ensures Parse(ports, EMPTY, scheme + [COLON] + rest) ==
            if rest == [] then Parsed(EMPTY, MissingSchemePart)
            else
              var lower := ToLower(scheme);
              var port := if lower in ports then ports[lower] else 0;
              ParseHierarchy(ports, EMPTY.(scheme := lower, port := port), rest)
  {
    hide ToLower;
    var s := scheme + [COLON] + rest;
    assert s == scheme + ([COLON] + rest);
    SpanOfConcat(scheme, [COLON] + rest, SCHEME_STOPS);
    assert s[0] == scheme[0];
    assert s[|scheme| + 1..] == rest;
  }

  /** What is read from the text of an absolute URI, and which error comes first if there is one. */
  ghost predicate ReadsAs(p: Parsed, ports: PortTable, scheme: Text, a: Option<AuthorityText>,
                          path: Text, query: Option<Text>, fragment: Option<Text>) {
    var lower, port := ToLower(scheme), if a.Some? then a.value.port else None;
    if !PortOk(port) then p.status == BadPort
    else if Decode(path).status != Fine then p.status == Decode(path).status
    else
      && p.status == Decode(OrEmpty(fragment)).status
      && p.parts.scheme == lower
      && p.parts.userInfo == []
      && p.parts.host == (if a.Some? then ToLower(a.value.host.text) else [])
      && p.parts.port == PortAsked(ports, lower, port)
      && p.parts.path == Decode(path).text
      && p.parts.query == OrEmpty(query)
      && p.parts.fragment == Decode(OrEmpty(fragment)).text
  }

  /** Every text of the generic syntax is read as its components: the scheme in lower case, no user info, the
      host in lower case, the port that is asked for or the one the table has for the scheme, path and
      fragment decoded, the query as it is. */
  lemma ParseReadsAbsolute(ports: PortTable, scheme: Text, a: Option<AuthorityText>,
                           path: Text, query: Option<Text>, fragment: Option<Text>)
    requires GoodScheme(scheme) && (a.Some? ==> GoodAuthority(a.value))
    requires Avoids(path, {QUESTION, HASH}) && Avoids(OrEmpty(query), {HASH})
    requires if a.Some? then path == [] || path[0] == SLASH
             else !StartsWithTwoSlashes(path) && PathText(path, query, fragment) != []
    ensures ReadsAs(Parse(ports, EMPTY, AbsoluteText(scheme, a, PathText(path, query, fragment))),
                    ports, scheme, a, path, query, fragment)
  {
    hide ToLower, Decode, FromChars, AuthorityPiece, ParseAuthority, ParsePathEtc, Span;
    var rest, lower := PathText(path, query, fragment), ToLower(scheme);
    var v := EMPTY.(scheme := lower, port := PortAsked(ports, lower, None));
    match a {
      case None =>
        ReadScheme(ports, scheme, rest);
        assert !StartsWithTwoSlashes(rest) by {
          PathTextStart(path, query, fragment);
        }
        ReadPathText(v, path, query, fragment);
      case Some(authority) =>
        var t := AuthorityPiece(authority) + rest;
        MarksAre();
        ReadScheme(ports, scheme, [SLASH, SLASH] + t);
        assert ([SLASH, SLASH] + t)[2..] == t;
        PathTextStart(path, query, fragment);
        ReadAuthorityEnd(authority, rest, []);
        ReadAuthority(ports, v, authority, rest);
        var p := ParseAuthority(ports, v, t);
        if p.status == Fine {
          ReadPathText(p.parts, path, query, fragment);
        }
    }
  }

  lemma PathTextStart(path: Text, query: Option<Text>, fragment: Option<Text>)
    ensures var rest := PathText(path, query, fragment);
            && (path == [] || path[0] == SLASH ==> rest == [] || rest[0] in AUTHORITY_STOPS)
            && (!StartsWithTwoSlashes(path) ==> !StartsWithTwoSlashes(rest))
  {
  }

  /** Without a scheme in front it is all path, query and fragment. */
  lemma ParseReadsRelative(ports: PortTable, path: Text, query: Option<Text>, fragment: Option<Text>)
    requires Avoids(path, {QUESTION, HASH}) && Avoids(OrEmpty(query), {HASH})
    requires path == [] || path[0] == SLASH || path[0] == DOT || COLON !in path
    ensures Parse(ports, EMPTY, PathText(path, query, fragment)) ==
            ParsePathEtc(EMPTY, PathText(path, query, fragment))
    ensures var p := Parse(ports, EMPTY, PathText(path, query, fragment));
            var d, f := Decode(path), Decode(OrEmpty(fragment));
            p == if d.status != Fine then Parsed(EMPTY.(path := d.text), d.status)
                 else Parsed(EMPTY.(path := d.text, query := OrEmpty(query), fragment := f.text), f.status)
  {
    hide Decode, Span, ParsePathEtc;
    ReadPathText(EMPTY, path, query, fragment);
    var s := PathText(path, query, fragment);
    var n := Span(s, SCHEME_STOPS);
    assert n < |path| ==> s[n] == path[n];
    assert |path| < |s| ==> s[|path|] == QUESTION || s[|path|] == HASH;
  }

  lemma ReadOpenBracket(ports: PortTable, v: Parts, address: Text, rest: Text)
    requires Avoids(address, {SLASH, QUESTION, HASH, AT, RBRACKET})
    requires rest == [] || rest[0] in AUTHORITY_STOPS
    ensures ParseAuthority(ports, v, [LBRACKET] + address + rest).status == UnterminatedAddress
  {
    var part := [LBRACKET] + address;
    SpanOfConcat(part, rest, AUTHORITY_STOPS);
    SplitAtAtPlain(part, v.userInfo);
    assert part[1..] == address && address + [] == address;
    SpanOfConcat(address, [], {RBRACKET});
    hide Span, SplitAtAt;
  }

  /** The remaining errors: nothing behind the scheme, and a bracket that is not closed. */
  lemma ParseErrors(ports: PortTable, scheme: Text, address: Text, rest: Text)
    requires GoodScheme(scheme) && Avoids(address, {SLASH, QUESTION, HASH, AT, RBRACKET})
    requires rest == [] || rest[0] in AUTHORITY_STOPS
    ensures Parse(ports, EMPTY, scheme + [COLON]) == Parsed(EMPTY, MissingSchemePart)
    ensures Parse(ports, EMPTY, scheme + Ascii("://[") + address + rest).status == UnterminatedAddress
  {
    hide ToLower, ParseAuthority, Parse;
    ReadScheme(ports, scheme, []);
    assert scheme + [COLON] + [] == scheme + [COLON];
    var t := [LBRACKET] + address + rest;
    assert Ascii("://[") == [COLON, SLASH, SLASH, LBRACKET];
    assert scheme + Ascii("://[") + address + rest == scheme + [COLON] + ([SLASH, SLASH] + t);
    ReadScheme(ports, scheme, [SLASH, SLASH] + t);
    assert ([SLASH, SLASH] + t)[2..] == t;
    var lower := ToLower(scheme);
    ReadOpenBracket(ports, EMPTY.(scheme := lower, port := if lower in ports then ports[lower] else 0), address, rest);
  }

  // ---- What is printed

  function NoneIfEmpty(text: Text): Option<Text> {
    if text == [] then None else Some(text)
  }

  /** The authority of a URI as a text: a host with a ':' in brackets, and the port only if it is neither
      missing nor the one that the table has for the scheme. */
  function AuthorityOf(ports: PortTable, u: Parts): AuthorityText {
    AuthorityText(
      NoneIfEmpty(u.userInfo),
      if COLON in u.host then Address(u.host) else Name(u.host),
      if u.port == 0 || (u.scheme in ports && u.port == ports[u.scheme]) then None else Some(ToDecimal(u.port)))
  }

  /** What is printed of a query, and of a fragment, if it is not empty. */
  function PrintedTail(path: Text, query: Text, fragment: Text): Text {
    PathText(path, NoneIfEmpty(query), if fragment == [] then None else Some(Encode(fragment, {})))
  }

  lemma PathEtcIsTail(u: Parts, slash: Text)
    ensures slash + PathEtc(u) == PrintedTail(slash + Encode(u.path, {QUESTION, HASH}), u.query, u.fragment)
  {
    hide Encode;
    var e, q := Encode(u.path, RESERVED_PATH), QueryAndFragment(u.query, u.fragment);
    assert q == Behind(QUESTION, NoneIfEmpty(u.query)) +
                Behind(HASH, if u.fragment == [] then None else Some(Encode(u.fragment, {})));
    assert slash + (e + q) == (slash + e) + q;
  }

  /** toString prints a text of the syntax: for a relative reference path, query and fragment; for an absolute
      URI also the scheme and, if it is not empty or the scheme is "file", the authority.  A slash is put in
      front of a path that needs one behind an authority, or that is empty before a query or a fragment. */
  lemma PrintIsText(ports: PortTable, u: Parts)
    ensures var a := AuthorityOf(ports, u);
            var bare := AuthorityPiece(a) == [];
            var slash := if u.path != [] then !bare && u.path[0] != SLASH else u.query != [] || u.fragment != [];
            var path := Encode(u.path, {QUESTION, HASH});
            Print(ports, u) ==
            if u.scheme == [] then PrintedTail(path, u.query, u.fragment)
            else AbsoluteText(u.scheme, if bare && u.scheme != Ascii("file") then None else Some(a),
                              PrintedTail((if slash then Ascii("/") else []) + path, u.query, u.fragment))
  {
    MarksAre();
    assert Ascii("file") == FILE;
    PrintedAuthorityIsPiece(ports, u);
    PathEtcIsTail(u, []);
    PathEtcIsTail(u, MissingSlash(ports, u));
    PrefixInFront(ports, u, PathEtc(u));
    hide PathEtc, PrintedTail, AuthorityPiece, Authority, Encode, AuthorityOf, HierarchyPrefix;
    assert [] + PathEtc(u) == PathEtc(u) && [] + Encode(u.path, {QUESTION, HASH}) == Encode(u.path, {QUESTION, HASH});
  }

  lemma PrefixInFront(ports: PortTable, u: Parts, rest: Text)
    ensures HierarchyPrefix(ports, u) + rest ==
            if Authority(ports, u) == [] && u.scheme != FILE then MissingSlash(ports, u) + rest
            else [SLASH, SLASH] + (Authority(ports, u) + (MissingSlash(ports, u) + rest))
  {
    hide MissingSlash, Authority;
    var auth, slash := Authority(ports, u), MissingSlash(ports, u);
    if auth == [] && u.scheme != FILE {
      assert [] + slash == slash;
    } else {
      Associates([SLASH, SLASH] + auth, slash, rest);
      Associates([SLASH, SLASH], auth, slash + rest);
    }
  }

  lemma PrintedAuthorityIsPiece(ports: PortTable, u: Parts)
    ensures AuthorityPiece(AuthorityOf(ports, u)) == Authority(ports, u)
  {
    MarksAre();
    hide ToDecimal;
    var i := InfoPiece(NoneIfEmpty(u.userInfo));
    assert i + (PrintedHost(u.host) + PrintedPort(ports, u)) == i + PrintedHost(u.host) + PrintedPort(ports, u);
  }

  /** Equal URIs print the same, and of well-formed ones only equal URIs do. */
  lemma EqualExactlyIfPrintedAlike(ports: PortTable, u: Parts, v: Parts)
    ensures Equals(ports, u, v) ==> Print(ports, u) == Print(ports, v)
    ensures WellFormed(ports, u) && WellFormed(ports, v) ==>
              (Equals(ports, u, v) <==> Print(ports, u) == Print(ports, v))
  {
    if Equals(ports, u, v) {
      assert PrintedPort(ports, u) == PrintedPort(ports, v);
      assert Authority(ports, u) == Authority(ports, v);
    }
    if WellFormed(ports, u) && WellFormed(ports, v) {
      hide WellFormed, Print, Parse;
      RoundTripExactly(ports, u);
      RoundTripExactly(ports, v);
    }
  }

  // ---- The table of well-known ports

  /** "scheme://host" without a port, in any capitals, has the port of the table. */
  lemma DefaultPortIsRead(ports: PortTable, scheme: Text, host: Text)
    requires GoodScheme(scheme) && GoodHost(Name(host))
    ensures var p, lower := Parse(ports, EMPTY, scheme + Ascii("://") + host), ToLower(scheme);
            p.status == Fine && p.parts.port == if lower in ports then ports[lower] else 0
  {
    DecodeNothing();
    var a := AuthorityText(None, Name(host), None);
    HostAloneText(scheme, host);
    ParseReadsAbsolute(ports, scheme, Some(a), [], None, None);
    hide Parse, AbsoluteText, PathText, Decode;
  }

  lemma HostAloneText(scheme: Text, host: Text)
    ensures AbsoluteText(scheme, Some(AuthorityText(None, Name(host), None)), PathText([], None, None)) ==
            scheme + Ascii("://") + host
  {
    var marks := Ascii("://");
    assert marks == [COLON] + [SLASH, SLASH];
    MarksAre();
    assert AuthorityPiece(AuthorityText(None, Name(host), None)) == host by {
      assert [] + (host + []) == host;
    }
    assert PathText([], None, None) == [];
    assert host + [] == host;
    Associates(scheme, [COLON], [SLASH, SLASH]);
    Associates(scheme + [COLON], [SLASH, SLASH], host);
  }

  lemma FirstIs(s: string)
    requires s != "" && s[0] < 128 as char
    ensures Ascii(s)[0] as int == s[0] as int && |Ascii(s)| == |s|
  {
  }

  /** The web schemes in the table that the class uses. */
  lemma WebPortsAre()
    ensures Ascii("http") in SCHEME_TO_PORT && SCHEME_TO_PORT[Ascii("http")] == 80
    ensures Ascii("https") in SCHEME_TO_PORT && SCHEME_TO_PORT[Ascii("https")] == 443
    ensures Ascii("ws") in SCHEME_TO_PORT && SCHEME_TO_PORT[Ascii("ws")] == 80
    ensures Ascii("wss") in SCHEME_TO_PORT && SCHEME_TO_PORT[Ascii("wss")] == 443
  {
    // no key of the same length behind them starts with the same letter
    FirstIs("http"); FirstIs("https"); FirstIs("imap"); FirstIs("ipps"); FirstIs("ircs"); FirstIs("ldap");
    FirstIs("msrp"); FirstIs("mtqp"); FirstIs("nntp"); FirstIs("rtmp"); FirstIs("rtsp"); FirstIs("sftp");
    FirstIs("snmp"); FirstIs("sips"); FirstIs("wais"); FirstIs("xmpp"); FirstIs("ldaps"); FirstIs("nntps");
    FirstIs("redis"); FirstIs("rsync"); FirstIs("rtsps"); FirstIs("rtspu");
  }
}
