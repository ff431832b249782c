// When printing a URI and parsing the text gives the URI back: exactly when it is well formed.
module UriRoundTrip {
  import opened Bytes
  import opened PercentCodec
  import opened Decimal
  import opened UriSpec

  const HOST_STOPS: set<byte> := {SLASH, QUESTION, HASH, AT}

  // ---- The conditions

  /** Section 3.1 of RFC 3986 asks for more than this: the parser only needs the delimiters absent. */
  predicate SchemeOk(scheme: Text) {
    ToLower(scheme) == scheme && !StartsWith(scheme, DOT) && Span(scheme, SCHEME_STOPS) == |scheme|
  }

  predicate HostOk(host: Text) {
    && ToLower(host) == host
    && Span(host, HOST_STOPS) == |host|
    && (if COLON in host then RBRACKET !in host else !StartsWith(host, LBRACKET))
  }

  /** A relative path must not read as "scheme:...". */
  predicate RelativePathOk(path: Text) {
    || path == []
    || path[0] in {SLASH, DOT}
    || Span(path, {COLON, SLASH}) == |path|
    || path[Span(path, {COLON, SLASH})] == SLASH
  }

  predicate PrintsAuthority(ports: PortTable, u: Parts) {
    Authority(ports, u) != [] || u.scheme == FILE
  }

  predicate StartsWithTwoSlashes(s: Text) {
    |s| > 1 && s[0] == SLASH && s[1] == SLASH
  }

  predicate AbsolutePathOk(ports: PortTable, u: Parts) {
    if PrintsAuthority(ports, u)
    then (if u.path == [] then u.query == [] && u.fragment == [] else u.path[0] == SLASH)
    else u.path != [] && !StartsWithTwoSlashes(u.path)
  }

  predicate WellFormed(ports: PortTable, u: Parts) {
    && u.userInfo == []
    && HASH !in u.query
    && if u.scheme == []
       then u.host == [] && GetPort(ports, u) == WellKnownPort(ports, []) && RelativePathOk(u.path)
       else SchemeOk(u.scheme) && HostOk(u.host) && AbsolutePathOk(ports, u)
  }

  // ---- Path, query and fragment

  function WithPathEtc(v: Parts, u: Parts): Parts {
    v.(path := u.path, query := u.query, fragment := u.fragment)
  }

  predicate NoPathEtc(v: Parts) {
    v.path == [] && v.query == [] && v.fragment == []
  }

  lemma ParseAfterQueryOfPrinted(v: Parts, fragment: Text)
    requires v.fragment == []
    ensures ParseAfterQuery(v, PrintedFragment(fragment)) == Parsed(v.(fragment := fragment), Fine)
  {
    DecodeEncode(fragment, RESERVED_FRAGMENT);
    if fragment != [] {
      assert PrintedFragment(fragment)[1..] == Encode(fragment, RESERVED_FRAGMENT);
    }
  }

  lemma ParseAfterPathOfPrinted(v: Parts, query: Text, fragment: Text)
    requires HASH !in query && v.query == [] && v.fragment == []
    ensures ParseAfterPath(v, QueryAndFragment(query, fragment)) ==
            Parsed(v.(query := query, fragment := fragment), Fine)
  {
    var f := PrintedFragment(fragment);
    var s := QueryAndFragment(query, fragment);
    ParseAfterQueryOfPrinted(v.(query := query), fragment);
    if query != [] {
      assert s[1..] == query + f;
      SpanOfConcat(query, f, {HASH});
    } else {
      assert s == f;
    }
  }

  /** Path, query and fragment come back, whatever bytes the path and the fragment hold. */
  lemma PathEtcRoundTrip(v: Parts, u: Parts)
    requires NoPathEtc(v) && HASH !in u.query
    ensures ParsePathEtc(v, PathEtc(u)) == Parsed(WithPathEtc(v, u), Fine)
  {
    hide Encode, Decode, Span, ParseAfterPath;
    var e, q := Encode(u.path, RESERVED_PATH), QueryAndFragment(u.query, u.fragment);
    EncodedPathAvoidsDelimiters(u.path);
    SpanOfConcat(e, q, PATH_STOPS);
    DecodeEncode(u.path, RESERVED_PATH);
    assert [] + u.path == u.path;
    ParseAfterPathOfPrinted(v.(path := u.path), u.query, u.fragment);
  }

  lemma ParsedQueryAvoidsHash(v: Parts, s: Text)
    requires HASH !in v.query
    ensures HASH !in ParsePathEtc(v, s).parts.query
  {
  }

  /** setPathEtc(getPathEtc()) restores path, query and fragment if and only if the raw query is free
      of '#'. */
  lemma PathEtcRestoredExactly(v: Parts, u: Parts)
    requires NoPathEtc(v)
    ensures ParsePathEtc(v, PathEtc(u)) == Parsed(WithPathEtc(v, u), Fine) <==> HASH !in u.query
  {
    if HASH !in u.query {
      PathEtcRoundTrip(v, u);
    } else {
      ParsedQueryAvoidsHash(v, PathEtc(u));
    }
  }

  lemma ParsePathEtcKeepsAuthority(v: Parts, s: Text)
    ensures var p := ParsePathEtc(v, s).parts;
            p == v.(path := p.path, query := p.query, fragment := p.fragment)
  {
  }

  lemma CutsStayPlain()
    ensures !MustEscape(SLASH, RESERVED_PATH) && !MustEscape(COLON, RESERVED_PATH)
    ensures MustEscape(QUESTION, RESERVED_PATH) && MustEscape(HASH, RESERVED_PATH)
  {
  }

  /** The encoded path starts with the path's own first byte when that is a cut, and with neither '/'
      nor ':' nor a delimiter otherwise. */
  lemma EncodedPathStart(path: Text)
    requires path != []
    ensures Encode(path, RESERVED_PATH) != []
    ensures Encode(path, RESERVED_PATH)[0] == path[0]
         || (MustEscape(path[0], RESERVED_PATH) && Encode(path, RESERVED_PATH)[0] == PERCENT)
  {
  }

  lemma PathEtcStart(u: Parts, cuts: set<byte>)
    requires cuts <= {SLASH, COLON}
    requires u.path == [] || u.path[0] in cuts
    ensures PathEtc(u) == [] || PathEtc(u)[0] in cuts + {QUESTION, HASH}
  {
    if u.path != [] {
      CutsStayPlain();
      EncodedPathStart(u.path);
    }
  }

  lemma PathEtcOfConcat(u: Parts, a: Text, b: Text)
    requires u.path == a + b
    ensures PathEtc(u) == Encode(a, RESERVED_PATH) + PathEtc(u.(path := b))
  {
    EncodeConcat(a, b, RESERVED_PATH);
  }

  /** A leading '/' or ':' of the path is printed as itself. */
  lemma PathEtcCut(u: Parts)
    requires u.path != [] && u.path[0] in {SLASH, COLON}
    ensures PathEtc(u) == [u.path[0]] + PathEtc(u.(path := u.path[1..]))
  {
    CutsStayPlain();
  }

  lemma EncodedPieceAvoids(a: Text, cuts: set<byte>)
    requires cuts <= {SLASH, COLON} && Avoids(a, cuts)
    ensures Avoids(Encode(a, RESERVED_PATH), cuts + {QUESTION, HASH})
  {
    CutsStayPlain();
    EncodeAvoids(a, RESERVED_PATH, cuts + {QUESTION, HASH});
  }

  /** How a scan for the end of a first segment, an authority or a scheme cuts a printed path. */
  lemma SplitPrintedPath(u: Parts, k: nat, cuts: set<byte>)
    requires cuts <= {SLASH, COLON}
    requires k == Span(u.path, cuts)
    ensures var n := Span(PathEtc(u), cuts + {QUESTION, HASH});
            && n == |Encode(u.path[..k], RESERVED_PATH)|
            && PathEtc(u)[..n] == Encode(u.path[..k], RESERVED_PATH)
            && PathEtc(u)[n..] == PathEtc(u.(path := u.path[k..]))
  {
    var a, b := u.path[..k], u.path[k..];
    PathEtcOfConcat(u, a, b);
    EncodedPieceAvoids(a, cuts);
    PathEtcStart(u.(path := b), cuts);
    SpanOfConcat(Encode(a, RESERVED_PATH), PathEtc(u.(path := b)), cuts + {QUESTION, HASH});
  }

  // ---- Authority

  lemma {:induction false} SplitAtAtPlain(s: Text, info: Text)
    requires AT !in s
    ensures SplitAtAt(s, info) == (info, s)
  {
    if s != [] {
      SplitAtAtPlain(s[..|s| - 1], info);
      assert s == s[..|s| - 1] + [s[|s| - 1]];
    }
  }

  lemma {:induction false} SplitAtAtPiece(s: Text, info: Text, stops: set<byte>)
    requires Avoids(s, stops)
    ensures Avoids(SplitAtAt(s, info).1, stops + {AT})
  {
    if s != [] {
      SplitAtAtPiece(s[..|s| - 1], info, stops);
    }
  }

  /** The port that parsing a printed authority leaves behind. */
  function PortReadBack(ports: PortTable, u: Parts): Port {
    if PrintedPort(ports, u) != [] then u.port else WellKnownPort(ports, u.scheme)
  }

  lemma ParsePrintedPort(ports: PortTable, u: Parts, v: Parts)
    requires v.scheme == u.scheme
    ensures ParsePort(ports, v, PrintedPort(ports, u)) == Parsed(v.(port := PortReadBack(ports, u)), Fine)
  {
    if PrintedPort(ports, u) != [] {
      ToDecimalIsDigits(u.port);
      FromCharsOfToDecimal(u.port);
      assert PrintedPort(ports, u)[1..] == ToDecimal(u.port);
    }
  }

  lemma PortReadBackIsPort(ports: PortTable, u: Parts, v: Parts)
    requires v.scheme == u.scheme && v.port == PortReadBack(ports, u)
    ensures GetPort(ports, v) == GetPort(ports, u)
  {
  }

  lemma ScanBracketedHost(host: Text, rest: Text)
    requires RBRACKET !in host
    ensures ScanHost([LBRACKET] + host + [RBRACKET] + rest) == (host, |host| + 2, Fine)
  {
    hide Span;
    var s := [LBRACKET] + host + [RBRACKET] + rest;
    assert s[1..] == host + ([RBRACKET] + rest);
    SpanOfConcat(host, [RBRACKET] + rest, {RBRACKET});
  }

  lemma ScanPlainHost(host: Text, rest: Text)
    requires COLON !in host && !StartsWith(host, LBRACKET)
    requires rest == [] || rest[0] == COLON
    ensures ScanHost(host + rest) == (host, |host|, Fine)
  {
    hide Span;
    SpanOfConcat(host, rest, {COLON});
  }

  lemma ScanPrintedHost(host: Text, rest: Text)
    requires HostOk(host)
    requires rest == [] || rest[0] == COLON
    ensures ScanHost(PrintedHost(host) + rest) == (host, |PrintedHost(host)|, Fine)
    ensures (PrintedHost(host) + rest)[|PrintedHost(host)|..] == rest
  {
    hide Span, ToLower, ScanHost;
    if COLON in host {
      ScanBracketedHost(host, rest);
    } else {
      ScanPlainHost(host, rest);
    }
  }

  lemma PrintedPortAvoids(ports: PortTable, u: Parts)
    ensures Avoids(PrintedPort(ports, u), HOST_STOPS + {LBRACKET, RBRACKET})
    ensures PrintedPort(ports, u) == [] || PrintedPort(ports, u)[0] == COLON
  {
    ToDecimalIsDigits(u.port);
  }

  lemma AuthorityAvoids(ports: PortTable, u: Parts)
    requires u.userInfo == [] && Avoids(u.host, HOST_STOPS)
    ensures Authority(ports, u) == PrintedHost(u.host) + PrintedPort(ports, u)
    ensures Avoids(Authority(ports, u), HOST_STOPS)
  {
    PrintedPortAvoids(ports, u);
  }

  lemma ParsePrintedHostAndPort(ports: PortTable, u: Parts, v: Parts)
    requires v.scheme == u.scheme && v.host == [] && v.port == WellKnownPort(ports, u.scheme)
    requires u.userInfo == [] && HostOk(u.host)
    ensures ParseHostAndPort(ports, v, Authority(ports, u)) ==
            Parsed(v.(host := u.host, port := PortReadBack(ports, u)), Fine)
  {
    AuthorityAvoids(ports, u);
    PrintedPortAvoids(ports, u);
    ScanPrintedHost(u.host, PrintedPort(ports, u));
    ParsePrintedPort(ports, u, v);
  }

  /** The authority scan of a printed "//authority..." stops at its end and sees no '@'. */
  lemma ScanPrintedAuthority(ports: PortTable, u: Parts, info: Text, rest: Text)
    requires u.userInfo == [] && Avoids(u.host, HOST_STOPS)
    requires rest == [] || rest[0] in AUTHORITY_STOPS
    ensures var s, auth := Authority(ports, u) + rest, Authority(ports, u);
            && Span(s, AUTHORITY_STOPS) == |auth|
            && s[..|auth|] == auth
            && s[|auth|..] == rest
            && SplitAtAt(auth, info) == (info, auth)
  {
    AuthorityAvoids(ports, u);
    SpanOfConcat(Authority(ports, u), rest, AUTHORITY_STOPS);
    SplitAtAtPlain(Authority(ports, u), info);
  }

  /** What parsing "scheme:" leaves behind before the rest is read. */
  function AfterScheme(ports: PortTable, scheme: Text): Parts {
    EMPTY.(scheme := scheme, port := WellKnownPort(ports, scheme))
  }

  lemma AuthorityRoundTrip(ports: PortTable, u: Parts)
    requires u.scheme != [] && u.userInfo == [] && HASH !in u.query
    requires HostOk(u.host) && AbsolutePathOk(ports, u) && PrintsAuthority(ports, u)
    ensures ParseHierarchy(ports, AfterScheme(ports, u.scheme), HierarchyPrefix(ports, u) + PathEtc(u)) ==
            Parsed(u.(port := PortReadBack(ports, u)), Fine)
  {
    hide Encode, Decode, SplitAtAt, ToDecimal, Span, FromChars, Authority, ParsePathEtc, ParseHostAndPort, PathEtc;
    var v, auth, rest := AfterScheme(ports, u.scheme), Authority(ports, u), PathEtc(u);
    var s := HierarchyPrefix(ports, u) + PathEtc(u);
    assert s[2..] == auth + rest;
    assert rest == [] || rest[0] in AUTHORITY_STOPS by {
      PathEtcStart(u, {SLASH});
    }
    ScanPrintedAuthority(ports, u, [], rest);
    ParsePrintedHostAndPort(ports, u, v);
    PathEtcRoundTrip(v.(host := u.host, port := PortReadBack(ports, u)), u);
  }

  lemma PrintedPathSlashes(u: Parts)
    requires u.path != []
    ensures StartsWithTwoSlashes(PathEtc(u)) <==> StartsWithTwoSlashes(u.path)
  {
    EncodedPathStart(u.path);
    CutsStayPlain();
    if u.path[0] == SLASH {
      PathEtcCut(u);
      if u.path[1..] != [] {
        EncodedPathStart(u.path[1..]);
      }
    }
  }

  lemma NoAuthorityRoundTrip(ports: PortTable, u: Parts)
    requires u.scheme != [] && u.userInfo == [] && HASH !in u.query
    requires HostOk(u.host) && AbsolutePathOk(ports, u) && !PrintsAuthority(ports, u)
    ensures ParseHierarchy(ports, AfterScheme(ports, u.scheme), HierarchyPrefix(ports, u) + PathEtc(u)) ==
            Parsed(u.(port := PortReadBack(ports, u)), Fine)
    ensures HierarchyPrefix(ports, u) + PathEtc(u) != []
  {
    assert HierarchyPrefix(ports, u) + PathEtc(u) == PathEtc(u);
    assert u.host == [] && PrintedPort(ports, u) == [];
    PrintedPathSlashes(u);
    EncodedPathStart(u.path);
    PathEtcRoundTrip(AfterScheme(ports, u.scheme), u);
  }

  /** Reading the text printed for an absolute URI first takes the scheme back off. */
  lemma ParsePrintedScheme(ports: PortTable, scheme: Text, rest: Text)
    requires scheme != [] && SchemeOk(scheme)
    ensures Parse(ports, EMPTY, scheme + [COLON] + rest) ==
            if rest == [] then Parsed(EMPTY, MissingSchemePart)
            else ParseHierarchy(ports, AfterScheme(ports, scheme), rest)
  {
    var s := scheme + [COLON] + rest;
    assert s == scheme + ([COLON] + rest);
    SpanOfConcat(scheme, [COLON] + rest, SCHEME_STOPS);
    assert s[0] == scheme[0] && scheme[0] !in SCHEME_STOPS;
    assert s[|scheme| + 1..] == rest;
  }

  lemma AbsoluteSurvives(ports: PortTable, u: Parts)
    requires u.scheme != [] && WellFormed(ports, u)
    ensures Survives(ports, u)
  {
    var rest := HierarchyPrefix(ports, u) + PathEtc(u);
    ParsePrintedScheme(ports, u.scheme, rest);
    if PrintsAuthority(ports, u) {
      AuthorityRoundTrip(ports, u);
    } else {
      NoAuthorityRoundTrip(ports, u);
    }
    PortReadBackIsPort(ports, u, u.(port := PortReadBack(ports, u)));
  }

  // ---- Relative references

  /** A printed relative reference reads as "scheme:..." exactly when its path is not in order. */
  lemma PrintedPathHasScheme(u: Parts)
    ensures HasScheme(PathEtc(u)) <==> !RelativePathOk(u.path)
  {
    hide Span, Encode, PathEtc;
    var s := PathEtc(u);
    if u.path == [] {
      PathEtcStart(u, {});
    } else {
      CutsStayPlain();
      EncodedStartIsPrinted(u);
      var k := Span(u.path, {COLON, SLASH});
      SplitPrintedPath(u, k, {COLON, SLASH});
      assert {COLON, SLASH} + {QUESTION, HASH} == SCHEME_STOPS;
      var tail := u.(path := u.path[k..]);
      if k < |u.path| {
        PathEtcCut(tail);
      } else {
        PathEtcStart(tail, {});
      }
      assert s[Span(s, SCHEME_STOPS)..] == PathEtc(tail);
    }
  }

  lemma EncodedStartIsPrinted(u: Parts)
    requires u.path != []
    ensures PathEtc(u) != []
    ensures PathEtc(u)[0] == u.path[0] || (MustEscape(u.path[0], RESERVED_PATH) && PathEtc(u)[0] == PERCENT)
  {
    EncodedPathStart(u.path);
  }

  lemma RelativeSurvives(ports: PortTable, u: Parts)
    requires u.scheme == [] && WellFormed(ports, u)
    ensures Survives(ports, u)
  {
    PrintedPathHasScheme(u);
    PathEtcRoundTrip(EMPTY, u);
  }

  // ---- Only well-formed URIs survive

  ghost predicate HostShape(host: Text) {
    && ToLower(host) == host
    && Avoids(host, HOST_STOPS)
    && (COLON in host ==> RBRACKET !in host)
  }

  lemma ToLowerKeepsMember(s: Text, c: byte)
    requires c < 0x41 || 0x5A < c < 0x61
    ensures c in ToLower(s) <==> c in s
  {
    ToLowerAvoids(s, {c});
  }

  lemma ScannedHostShape(s: Text)
    requires Avoids(s, HOST_STOPS)
    ensures ScanHost(s).2 == Fine ==> HostShape(ToLower(ScanHost(s).0))
  {
    var h := ScanHost(s).0;
    ToLowerIdempotent(h);
    ToLowerAvoids(h, HOST_STOPS);
    ToLowerKeepsMember(h, COLON);
    ToLowerKeepsMember(h, RBRACKET);
  }

  /** Whatever the authority parser accepts, it leaves no user info and a host of this shape. */
  lemma ParsedAuthorityShape(ports: PortTable, v: Parts, s: Text)
    requires v.host == []
    ensures var p := ParseAuthority(ports, v, s);
            p.status == Fine ==>
              && p.parts.userInfo == []
              && HostShape(p.parts.host)
              && p.parts == v.(userInfo := [], host := p.parts.host, port := p.parts.port)
  {
    var a := s[..Span(s, AUTHORITY_STOPS)];
    SplitAtAtPiece(a, v.userInfo, AUTHORITY_STOPS);
    ScannedHostShape(SplitAtAt(a, v.userInfo).1);
  }

  lemma ParsedHierarchyShape(ports: PortTable, v: Parts, s: Text)
    requires v == AfterScheme(ports, v.scheme)
    ensures var p := ParseHierarchy(ports, v, s);
            p.status == Fine ==>
              && p.parts.userInfo == []
              && HostShape(p.parts.host)
              && HASH !in p.parts.query
              && p.parts.scheme == v.scheme
  {
    if StartsWithTwoSlashes(s) {
      ParsedAuthorityShape(ports, v, s[2..]);
      var p := ParseAuthority(ports, v, s[2..]);
      if p.status == Fine {
        var rest := s[2..][Span(s[2..], AUTHORITY_STOPS)..];
        ParsePathEtcKeepsAuthority(p.parts, rest);
        ParsedQueryAvoidsHash(p.parts, rest);
      }
    } else {
      ParsePathEtcKeepsAuthority(v, s);
      ParsedQueryAvoidsHash(v, s);
    }
  }

  lemma ParsedSchemeOk(s: Text)
    requires HasScheme(s)
    ensures SchemeOk(ToLower(s[..Span(s, SCHEME_STOPS)]))
  {
    var scheme := s[..Span(s, SCHEME_STOPS)];
    ToLowerIdempotent(scheme);
    ToLowerAvoids(scheme, SCHEME_STOPS);
  }

  /** The range of the parser: the shape every freshly parsed URI has. */
  lemma ParsedShape(ports: PortTable, s: Text)
    ensures var p := Parse(ports, EMPTY, s);
            p.status == Fine ==>
              && p.parts.userInfo == []
              && HostShape(p.parts.host)
              && HASH !in p.parts.query
              && SchemeOk(p.parts.scheme)
              && (p.parts.scheme != [] ==> HasScheme(s))
  {
    if HasScheme(s) {
      var n := Span(s, SCHEME_STOPS);
      ParsedSchemeOk(s);
      if n + 1 < |s| {
        ParsedHierarchyShape(ports, SetScheme(ports, EMPTY, s[..n]), s[n + 1..]);
      }
    } else {
      ParsePathEtcKeepsAuthority(EMPTY, s);
      ParsedQueryAvoidsHash(EMPTY, s);
    }
  }

  /** A host that opens a bracket without being bracketed is read back shorter, or not at all. */
  lemma BracketedHostIsScannedShort(ports: PortTable, u: Parts)
    requires u.userInfo == [] && Avoids(u.host, HOST_STOPS)
    requires COLON !in u.host && StartsWith(u.host, LBRACKET)
    ensures var (host, _, status) := ScanHost(Authority(ports, u));
            status == Fine ==> |host| < |u.host|
  {
    var auth := Authority(ports, u);
    AuthorityAvoids(ports, u);
    PrintedPortAvoids(ports, u);
    assert auth == u.host + PrintedPort(ports, u);
    var n := Span(auth[1..], {RBRACKET});
    if n < |auth| - 1 {
      assert auth[1..][n] == auth[n + 1] == RBRACKET;
      assert forall i :: |u.host| <= i < |auth| ==> auth[i] == PrintedPort(ports, u)[i - |u.host|];
    }
  }

  lemma ParsedHostIsScanned(ports: PortTable, v: Parts, s: Text)
    requires s != []
    ensures var p := ParseHostAndPort(ports, v, s);
            p.status == Fine ==> ScanHost(s).2 == Fine && p.parts.host == ToLower(ScanHost(s).0)
  {
  }

  lemma SlashInFrontChangesPath(v: Parts, u: Parts)
    requires NoPathEtc(v) && HASH !in u.query
    ensures ParsePathEtc(v, [SLASH] + PathEtc(u)) == Parsed(WithPathEtc(v, u).(path := [SLASH] + u.path), Fine)
  {
    var t := u.(path := [SLASH] + u.path);
    PathEtcCut(t);
    assert t.path[1..] == u.path;
    PathEtcRoundTrip(v, t);
  }

  /** A path printed where an authority is expected loses its first segment to the authority. */
  lemma AuthorityEatsFirstSegment(ports: PortTable, v: Parts, u: Parts)
    requires NoPathEtc(v) && v.host == [] && HASH !in u.query
    ensures var p := ParseAuthority(ports, v, PathEtc(u));
            p.status == Fine ==>
              ParsePathEtc(p.parts, PathEtc(u)[Span(PathEtc(u), AUTHORITY_STOPS)..]).parts.path ==
              u.path[Span(u.path, {SLASH})..]
  {
    var p, k := ParseAuthority(ports, v, PathEtc(u)), Span(u.path, {SLASH});
    if p.status == Fine {
      SplitPrintedPath(u, k, {SLASH});
      assert {SLASH} + {QUESTION, HASH} == AUTHORITY_STOPS;
      ParsedAuthorityShape(ports, v, PathEtc(u));
      PathEtcRoundTrip(p.parts, u.(path := u.path[k..]));
    }
  }

  /** The text after "scheme:" up to the two slashes, when an authority is printed. */
  function AfterTwoSlashes(ports: PortTable, u: Parts): Text {
    Authority(ports, u) + (MissingSlash(ports, u) + PathEtc(u))
  }

  lemma ParsePrintedHierarchy(ports: PortTable, u: Parts, v: Parts)
    requires PrintsAuthority(ports, u)
    ensures ParseHierarchy(ports, v, HierarchyPrefix(ports, u) + PathEtc(u)) ==
            var t := AfterTwoSlashes(ports, u);
            var p := ParseAuthority(ports, v, t);
            if p.status != Fine then p else ParsePathEtc(p.parts, t[Span(t, AUTHORITY_STOPS)..])
  {
    hide Encode, Decode, Span, ToDecimal, ParseAuthority, ParsePathEtc, PathEtc, Authority;
    var t := AfterTwoSlashes(ports, u);
    assert HierarchyPrefix(ports, u) + PathEtc(u) == [SLASH, SLASH] + t;
    assert ([SLASH, SLASH] + t)[2..] == t;
  }

  lemma ParseNoAuthority(ports: PortTable, v: Parts, t: Text)
    requires StartsWith(t, SLASH) && v.userInfo == []
    ensures ParseAuthority(ports, v, t) == Parsed(v, Fine) && t[Span(t, AUTHORITY_STOPS)..] == t
  {
    assert t[..0] == [];
  }

  lemma SurvivingHostOk(ports: PortTable, u: Parts, v: Parts, rest: Text)
    requires u.userInfo == [] && HostShape(u.host) && Authority(ports, u) != []
    requires rest == [] || rest[0] in AUTHORITY_STOPS
    requires ParseAuthority(ports, v, Authority(ports, u) + rest).status == Fine
    requires ParseAuthority(ports, v, Authority(ports, u) + rest).parts.host == u.host
    ensures HostOk(u.host)
  {
    ScanPrintedAuthority(ports, u, v.userInfo, rest);
    ParsedHostIsScanned(ports, v, Authority(ports, u));
    if COLON !in u.host && StartsWith(u.host, LBRACKET) {
      BracketedHostIsScannedShort(ports, u);
    }
    assert Span(u.host, HOST_STOPS) == |u.host|;
  }

  /** What is printed after an authority starts with something that ends the authority. */
  lemma RestEndsAuthority(ports: PortTable, u: Parts)
    requires Authority(ports, u) != []
    ensures var rest := MissingSlash(ports, u) + PathEtc(u);
            rest == [] || rest[0] in AUTHORITY_STOPS
  {
    if MissingSlash(ports, u) == [] {
      PathEtcStart(u, {SLASH});
    }
  }

  /** With "//" printed, a path that needed a slash in front comes back with it. */
  lemma MissingSlashIsLost(ports: PortTable, u: Parts, v: Parts)
    requires NoPathEtc(v) && HASH !in u.query && MissingSlash(ports, u) != []
    ensures ParsePathEtc(v, MissingSlash(ports, u) + PathEtc(u)).parts.path != u.path
  {
    SlashInFrontChangesPath(v, u);
  }

  /** With an authority printed, only a path in order survives, and so does only a host in order. */
  lemma AuthoritySurvivor(ports: PortTable, u: Parts)
    requires u.userInfo == [] && HostShape(u.host) && HASH !in u.query
    requires Authority(ports, u) != []
    requires var p := ParseHierarchy(ports, AfterScheme(ports, u.scheme), HierarchyPrefix(ports, u) + PathEtc(u));
             p.status == Fine && p.parts.host == u.host && p.parts.path == u.path
    ensures HostOk(u.host) && AbsolutePathOk(ports, u)
  {
    hide Encode, Decode, Span, ToDecimal, ParseAuthority, ParsePathEtc, PathEtc, Authority, ParseHierarchy;
    var v, rest := AfterScheme(ports, u.scheme), MissingSlash(ports, u) + PathEtc(u);
    var t := AfterTwoSlashes(ports, u);
    ParsePrintedHierarchy(ports, u, v);
    RestEndsAuthority(ports, u);
    ScanPrintedAuthority(ports, u, [], rest);
    ParsedAuthorityShape(ports, v, t);
    var p := ParseAuthority(ports, v, t);
    ParsePathEtcKeepsAuthority(p.parts, rest);
    SurvivingHostOk(ports, u, v, rest);
    if MissingSlash(ports, u) != [] {
      MissingSlashIsLost(ports, u, p.parts);
    }
  }

  /** With "//" printed in front of no authority, likewise: a slash put in front comes back, and
      without one the first segment is taken for an authority. */
  lemma FileWithMissingSlash(ports: PortTable, u: Parts)
    requires HASH !in u.query && PrintsAuthority(ports, u) && Authority(ports, u) == []
    requires MissingSlash(ports, u) != []
    ensures ParseHierarchy(ports, AfterScheme(ports, u.scheme), HierarchyPrefix(ports, u) + PathEtc(u)).parts.path
            != u.path
  {
    var v, t := AfterScheme(ports, u.scheme), AfterTwoSlashes(ports, u);
    ParsePrintedHierarchy(ports, u, v);
    assert t == MissingSlash(ports, u) + PathEtc(u);
    ParseNoAuthority(ports, v, t);
    MissingSlashIsLost(ports, u, v);
  }

  lemma FileSurvivor(ports: PortTable, u: Parts)
    requires HASH !in u.query && PrintsAuthority(ports, u) && Authority(ports, u) == []
    requires MissingSlash(ports, u) == []
    requires var p := ParseHierarchy(ports, AfterScheme(ports, u.scheme), HierarchyPrefix(ports, u) + PathEtc(u));
             p.status == Fine && p.parts.path == u.path
    ensures u.path == [] || StartsWith(u.path, SLASH)
  {
    hide Encode, Decode, ToDecimal, ParseAuthority, ParsePathEtc, PathEtc, Authority, ParseHierarchy;
    var v := AfterScheme(ports, u.scheme);
    ParsePrintedHierarchy(ports, u, v);
    var t := PathEtc(u);
    assert AfterTwoSlashes(ports, u) == t;
    var p := ParseAuthority(ports, v, t);
    assert p.status == Fine;
    AuthorityEatsFirstSegment(ports, v, u);
    var k := Span(u.path, {SLASH});
    assert |u.path[k..]| == |u.path|;
    assert k == 0;
  }

  /** With nothing printed between "scheme:" and the path, likewise. */
  lemma NoAuthorityMissingSlash(ports: PortTable, u: Parts)
    requires HASH !in u.query && !PrintsAuthority(ports, u) && MissingSlash(ports, u) != []
    ensures ParseHierarchy(ports, AfterScheme(ports, u.scheme), HierarchyPrefix(ports, u) + PathEtc(u)).parts.path
            != u.path
  {
    hide Encode, Decode, ToDecimal, ParseAuthority, ParsePathEtc, PathEtc;
    var v, s := AfterScheme(ports, u.scheme), HierarchyPrefix(ports, u) + PathEtc(u);
    assert s == MissingSlash(ports, u) + PathEtc(u);
    PathEtcStart(u, {});
    assert !StartsWithTwoSlashes(s);
    MissingSlashIsLost(ports, u, v);
  }

  lemma NoAuthorityTwoSlashes(ports: PortTable, u: Parts)
    requires HASH !in u.query && !PrintsAuthority(ports, u) && StartsWithTwoSlashes(u.path)
    ensures var p := ParseHierarchy(ports, AfterScheme(ports, u.scheme), HierarchyPrefix(ports, u) + PathEtc(u));
            p.status == Fine ==> |p.parts.path| < |u.path|
  {
    hide Encode, Decode, ToDecimal, ParseAuthority, ParsePathEtc, PathEtc;
    var v, s := AfterScheme(ports, u.scheme), HierarchyPrefix(ports, u) + PathEtc(u);
    assert s == PathEtc(u);
    PrintedPathSlashes(u);
    TwoSlashesCut(u);
    AuthorityEatsFirstSegment(ports, v, u.(path := u.path[2..]));
  }

  lemma NoAuthoritySurvivor(ports: PortTable, u: Parts)
    requires HASH !in u.query && !PrintsAuthority(ports, u)
    requires HierarchyPrefix(ports, u) + PathEtc(u) != []
    requires var p := ParseHierarchy(ports, AfterScheme(ports, u.scheme), HierarchyPrefix(ports, u) + PathEtc(u));
             p.status == Fine && p.parts.path == u.path
    ensures AbsolutePathOk(ports, u)
  {
    assert Encode([], RESERVED_PATH) == [];
    hide Encode, Decode, ToDecimal, ParseHierarchy;
    if MissingSlash(ports, u) != [] {
      NoAuthorityMissingSlash(ports, u);
    } else if StartsWithTwoSlashes(u.path) {
      NoAuthorityTwoSlashes(ports, u);
    }
  }

  lemma TwoSlashesCut(u: Parts)
    requires StartsWithTwoSlashes(u.path)
    ensures PathEtc(u) == [SLASH, SLASH] + PathEtc(u.(path := u.path[2..]))
    ensures PathEtc(u)[2..] == PathEtc(u.(path := u.path[2..]))
  {
    PathEtcCut(u);
    PathEtcCut(u.(path := u.path[1..]));
    assert u.path[1..][1..] == u.path[2..];
  }

  lemma AbsoluteSurvivorIsWellFormed(ports: PortTable, u: Parts)
    requires u.scheme != [] && Survives(ports, u)
    ensures WellFormed(ports, u)
  {
    var rest := HierarchyPrefix(ports, u) + PathEtc(u);
    ParsedShape(ports, Print(ports, u));
    ParsePrintedScheme(ports, u.scheme, rest);
    if Authority(ports, u) != [] {
      AuthoritySurvivor(ports, u);
    } else if u.scheme == FILE {
      if MissingSlash(ports, u) != [] {
        FileWithMissingSlash(ports, u);
      } else {
        FileSurvivor(ports, u);
      }
    } else {
      NoAuthoritySurvivor(ports, u);
    }
  }

  lemma RelativeSurvivorIsWellFormed(ports: PortTable, u: Parts)
    requires u.scheme == [] && Survives(ports, u)
    ensures WellFormed(ports, u)
  {
    var s := PathEtc(u);
    ParsedShape(ports, s);
    PrintedPathHasScheme(u);
    if RelativePathOk(u.path) {
      ParsePathEtcKeepsAuthority(EMPTY, s);
    } else {
      ColonPathIsLost(ports, u);
    }
  }

  lemma ColonPathIsLost(ports: PortTable, u: Parts)
    requires u.scheme == [] && HASH !in u.query && !RelativePathOk(u.path)
    ensures !Survives(ports, u)
  {
    var s, p := PathEtc(u), Parse(ports, EMPTY, PathEtc(u));
    PrintedPathHasScheme(u);
    var n := Span(s, SCHEME_STOPS);
    if 0 < n && n + 1 < |s| {
      ParsedHierarchyShape(ports, SetScheme(ports, EMPTY, s[..n]), s[n + 1..]);
    } else if n == 0 && 1 < |s| {
      assert Span(u.path, {COLON, SLASH}) == 0 by {
        EncodedPathStart(u.path);
        CutsStayPlain();
      }
      PathEtcCut(u);
      LostInHierarchy(ports, SetScheme(ports, EMPTY, []), u.(path := u.path[1..]));
    }
  }

  /** Whatever is read after "scheme:" is at most as long as the path printed there. */
  lemma LostInHierarchy(ports: PortTable, v: Parts, u: Parts)
    requires NoPathEtc(v) && v.host == [] && HASH !in u.query
    ensures var p := ParseHierarchy(ports, v, PathEtc(u));
            p.status == Fine ==> |p.parts.path| <= |u.path|
  {
    var s := PathEtc(u);
    if StartsWithTwoSlashes(s) {
      if u.path != [] {
        PrintedPathSlashes(u);
      }
      TwoSlashesCut(u);
      AuthorityEatsFirstSegment(ports, v, u.(path := u.path[2..]));
    } else {
      PathEtcRoundTrip(v, u);
    }
  }

  /** The round trip: printing and parsing gives back an equal URI if and only if it is well formed. */
  lemma RoundTripExactly(ports: PortTable, u: Parts)
    ensures Survives(ports, u) <==> WellFormed(ports, u)
  {
    if u.scheme == [] {
      if WellFormed(ports, u) {
        RelativeSurvives(ports, u);
      }
      if Survives(ports, u) {
        RelativeSurvivorIsWellFormed(ports, u);
      }
    } else {
      if WellFormed(ports, u) {
        AbsoluteSurvives(ports, u);
      }
      if Survives(ports, u) {
        AbsoluteSurvivorIsWellFormed(ports, u);
      }
    }
  }
}
