// The class of common/URI.cpp: every method is tied to the function of UriSpec, PercentCodec or
// PathSegments that says what it computes.
module UriClass {
  import opened Bytes
  import opened PercentCodec
  import opened Decimal
  import opened UriGrammar
  import opened UriSpec
  import opened UriRoundTrip
  import opened PathSegments
  import opened WellKnownPorts

  /** The position at which a scan from `start` stops. */
  function ScanEnd(s: Text, start: nat, stops: set<byte>): (it: nat)
    requires start <= |s|
    ensures start <= it <= |s|
  {
    start + Span(s[start..], stops)
  }

  /** The loop all parsers share: collect bytes until a stop or the end. */
  method ScanUntil(s: Text, start: nat, stops: set<byte>) returns (it: nat, text: Text)
    requires start <= |s|
    ensures it == ScanEnd(s, start, stops)
    ensures text == s[start..it]
  {
    it, text := start, [];
    while it != |s| && s[it] !in stops
      invariant start <= it <= |s|
      invariant text == s[start..it]
      invariant Avoids(text, stops)
    {
      text := text + [s[it]];
      it := it + 1;
    }
    SpanOfConcat(text, s[it..], stops);
    assert s[start..] == text + s[it..];
  }

  /** What one more byte does to the two pieces around the last '@'. */
  lemma AuthorityScanStep(s: Text, start: nat, it: nat, info: Text)
    requires start <= it < |s|
    requires s[it] != SLASH && s[it] != QUESTION && s[it] != HASH
    requires Avoids(s[start..it], AUTHORITY_STOPS)
    ensures Avoids(s[start..it + 1], AUTHORITY_STOPS)
    ensures var (before, part) := SplitAtAt(s[start..it], info);
            SplitAtAt(s[start..it + 1], info) ==
            if s[it] == AT then (part, []) else (before, part + [s[it]])
  {
    var t := s[start..it + 1];
    AuthorityStopsAre(s[it]);
    assert t[..|t| - 1] == s[start..it] && t[|t| - 1] == s[it];
  }

  lemma AuthorityScanEnds(s: Text, start: nat, it: nat)
    requires start <= it <= |s| && Avoids(s[start..it], AUTHORITY_STOPS)
    requires it == |s| || s[it] == SLASH || s[it] == QUESTION || s[it] == HASH
    ensures Span(s[start..], AUTHORITY_STOPS) == it - start
    ensures s[start..][..it - start] == s[start..it]
  {
    if it != |s| {
      AuthorityStopsAre(s[it]);
    }
    SpanOfConcat(s[start..it], s[it..], AUTHORITY_STOPS);
    assert s[start..] == s[start..it] + s[it..];
  }

  /** What one more byte does to the segments found so far and those still to come, given the segment
      collected up to that byte. */
  lemma SegmentsWithByte(segments: seq<Segment>, seg: Segment, path: Text, it: nat)
    requires it < |path| && Avoids(seg, {SLASH})
    ensures segments + Segments(seg + path[it..]) ==
            if path[it] == SLASH then segments + Piece(seg) + Segments([] + path[it + 1..])
            else segments + Segments(seg + [path[it]] + path[it + 1..])
  {
    hide Segments;
    var c, rest := path[it], path[it + 1..];
    assert seg + path[it..] == seg + [c] + rest;
    if c == SLASH {
      SegmentsOfCut(seg, rest);
      assert [] + rest == rest;
    }
  }

  lemma NoPathAtDelimiter(u: Parts, s: Text)
    requires s != [] && (s[0] == QUESTION || s[0] == HASH)
    ensures ParsePath(u, s) == Parsed(u, Fine) && Span(s, PATH_STOPS) == 0
  {
    assert s[..0] == [];
  }

  /** The printed text in the order in which toString appends it. */
  lemma PrintIsAppended(ports: PortTable, u: Parts)
    requires u.scheme != []
    ensures Print(ports, u) ==
            u.scheme + [COLON] + HierarchyPrefix(ports, u) + Encode(u.path, RESERVED_PATH)
            + QueryAndFragment(u.query, u.fragment)
  {
    hide Encode, HierarchyPrefix, QueryAndFragment;
    var a, b := u.scheme + [COLON], HierarchyPrefix(ports, u);
    var c, d := Encode(u.path, RESERVED_PATH), QueryAndFragment(u.query, u.fragment);
    Associates(a, b, c + d);
    Associates(a + b, c, d);
  }

  class Uri {
    const ports: PortTable := SCHEME_TO_PORT

    var scheme: Text
    var userInfo: Text
    var host: Text
    var port: Port
    var path: Text
    var query: Text
    var fragment: Text

    ghost function Parts(): Parts
      reads this
    {
      UriSpec.Parts(scheme, userInfo, host, port, path, query, fragment)
    }

    constructor ()
      ensures Parts() == EMPTY
    {
      scheme, userInfo, host, port, path, query, fragment := [], [], [], 0, [], [], [];
    }

    // ---- Codec

    static method EncodeTo(str: Text, reserved: set<byte>, encodedStr: Text) returns (r: Text)
      ensures r == encodedStr + Encode(str, reserved)
    {
      assert Encode([], reserved) == [];
      hide Encode;
      r := encodedStr;
      for i := 0 to |str|
        invariant r == encodedStr + Encode(str[..i], reserved)
      {
        var c := str[i];
        if IsUnreserved(c) {
          r := r + [c];
        } else if c <= 0x20 || c >= 0x7F || c in ILLEGAL || c in reserved {
          r := r + [PERCENT];
          r := r + [HexDigit(c as int / 16), HexDigit(c as int % 16)];
        } else {
          r := r + [c];
        }
        EncodeSnoc(str, i, reserved);
        assert r == encodedStr + Encode(str[..i], reserved) + EncodeByte(c, reserved);
      }
      assert str[..|str|] == str;
    }

    static method DecodeTo(str: Text, decodedStr: Text) returns (r: Text, status: Status)
      ensures r == decodedStr + Decode(str).text && status == Decode(str).status
    {
      r := decodedStr;
      var it := 0;
      while it != |str|
        invariant it <= |str|
        invariant decodedStr + Decode(str).text == r + Decode(str[it..]).text
        invariant Decode(str).status == Decode(str[it..]).status
      {
        ghost var rest := str[it..];
        ghost var before := r;
        var c := str[it];
        it := it + 1;
        if c == PERCENT {
          if it == |str| {
            return r, NoHexDigit;
          }
          var hi := str[it];
          it := it + 1;
          if it == |str| {
            return r, OneHexDigit;
          }
          var lo := str[it];
          it := it + 1;
          if !IsHexDigit(hi) {
            return r, NotAHexDigit;
          }
          if !IsHexDigit(lo) {
            return r, NotAHexDigit;
          }
          c := (16 * HexValue(hi) + HexValue(lo)) as byte;
          assert rest[3..] == str[it..];
        } else {
          assert rest[1..] == str[it..];
        }
        r := r + [c];
        assert Decode(rest).text == [c] + Decode(str[it..]).text;
      }
      status := Fine;
    }

    // ---- Printing

    method GetAuthority() returns (auth: Text)
      ensures auth == Authority(ports, Parts()) == AuthorityPiece(AuthorityOf(ports, Parts()))
    {
      PrintedAuthorityIsPiece(ports, Parts());
      hide AuthorityOf, AuthorityPiece, PrintedHost, PrintedPort;
      auth := [];
      if userInfo != [] {
        auth := auth + userInfo;
        auth := auth + [AT];
      }
      auth := AppendHost(auth);
      auth := AppendPort(auth);
    }

    method AppendHost(text: Text) returns (auth: Text)
      ensures auth == text + PrintedHost(host)
    {
      auth := text;
      if COLON in host {
        auth := auth + [LBRACKET];
        auth := auth + host;
        auth := auth + [RBRACKET];
      } else {
        auth := auth + host;
      }
    }

    method AppendPort(text: Text) returns (auth: Text)
      ensures auth == text + PrintedPort(ports, Parts())
    {
      auth := text;
      if port != 0 && port != WellKnownPort(ports, scheme) {
        auth := auth + [COLON];
        auth := auth + ToDecimal(port);
      }
    }

    method AppendQueryAndFragment(text: Text) returns (r: Text)
      ensures r == text + QueryAndFragment(query, fragment)
    {
      hide Encode;
      r := text;
      if query != [] {
        r := r + [QUESTION];
        r := r + query;
      }
      if fragment != [] {
        r := r + [HASH];
        r := EncodeTo(fragment, RESERVED_FRAGMENT, r);
      }
    }

    /** The part of toString between "scheme:" and the path. */
    method AppendHierarchyPrefix(text: Text) returns (uri: Text)
      requires scheme != []
      ensures uri == text + HierarchyPrefix(ports, Parts())
    {
      uri := text;
      var auth := GetAuthority();
      if auth != [] || scheme == FILE {
        uri := uri + [SLASH, SLASH];
        uri := uri + auth;
      }
      uri := AppendMissingSlash(uri, auth);
    }

    method AppendMissingSlash(text: Text, auth: Text) returns (uri: Text)
      requires auth == Authority(ports, Parts())
      ensures uri == text + MissingSlash(ports, Parts())
    {
      uri := text;
      if path != [] {
        if auth != [] && path[0] != SLASH {
          uri := uri + [SLASH];
        }
      } else if query != [] || fragment != [] {
        uri := uri + [SLASH];
      }
    }

    method ToString() returns (uri: Text)
      ensures uri == Print(ports, Parts())
    {
      uri := [];
      if scheme == [] {
        uri := EncodeTo(path, RESERVED_PATH, uri);
      } else {
        uri := scheme;
        uri := uri + [COLON];
        uri := AppendHierarchyPrefix(uri);
        uri := EncodeTo(path, RESERVED_PATH, uri);
        PrintIsAppended(ports, Parts());
      }
      uri := AppendQueryAndFragment(uri);
    }

    method GetPathEtc() returns (pathEtc: Text)
      ensures pathEtc == PathEtc(Parts())
    {
      pathEtc := EncodeTo(path, RESERVED_PATH, []);
      pathEtc := AppendQueryAndFragment(pathEtc);
    }

    // ---- Parsing.  The C++ iterators are positions in s; each parser returns where it stops.

    method ParseFragmentAt(s: Text, start: nat) returns (status: Status)
      requires start <= |s|
      modifies this
      ensures Parsed(Parts(), status) == ParseFragment(old(Parts()), s[start..])
    {
      hide Decode, Span;
      var _, fragmentStr := ScanUntil(s, start, {});
      assert fragmentStr == s[start..] by {
        SpanOfConcat(s[start..], [], {});
        assert s[start..] + [] == s[start..];
      }
      fragment, status := DecodeTo(fragmentStr, fragment);
    }

    method ParseQueryAt(s: Text, start: nat) returns (it: nat)
      requires start <= |s|
      modifies this
      ensures it == ScanEnd(s, start, {HASH})
      ensures Parts() == ParseQuery(old(Parts()), s[start..])
    {
      query := [];
      it, query := ScanUntil(s, start, {HASH});
      assert s[start..it] == s[start..][..it - start];
    }

    method ParsePathAt(s: Text, start: nat) returns (it: nat, status: Status)
      requires start <= |s|
      modifies this
      ensures it == ScanEnd(s, start, PATH_STOPS)
      ensures Parsed(Parts(), status) == ParsePath(old(Parts()), s[start..])
    {
      var pathStr;
      it, pathStr := ScanUntil(s, start, PATH_STOPS);
      assert pathStr == s[start..][..it - start];
      path, status := DecodeTo(pathStr, path);
    }

    method ParseFragmentIfAny(s: Text, start: nat) returns (status: Status)
      requires start <= |s|
      modifies this
      ensures Parsed(Parts(), status) == ParseAfterQuery(old(Parts()), s[start..])
    {
      hide Decode;
      status := Fine;
      var it := start;
      if it != |s| && s[it] == HASH {
        it := it + 1;
        assert s[start..][1..] == s[it..];
        status := ParseFragmentAt(s, it);
      }
    }

    method ParseAfterPathAt(s: Text, start: nat) returns (status: Status)
      requires start <= |s|
      modifies this
      ensures Parsed(Parts(), status) == ParseAfterPath(old(Parts()), s[start..])
    {
      hide Span, ParseQuery, ParseAfterQuery;
      ghost var rest := s[start..];
      var it := start;
      if it != |s| && s[it] == QUESTION {
        it := it + 1;
        ghost var from := it;
        it := ParseQueryAt(s, it);
        assert rest[1..] == s[from..];
        assert rest[1..][Span(rest[1..], {HASH})..] == s[it..];
      }
      status := ParseFragmentIfAny(s, it);
    }

    method ParsePathEtcAt(s: Text, start: nat) returns (status: Status)
      requires start <= |s|
      modifies this
      ensures Parsed(Parts(), status) == ParsePathEtc(old(Parts()), s[start..])
    {
      assert Decode([]) == Decoding([], Fine);
      hide Decode, Span, ParseAfterPath;
      if start == |s| {
        return Fine;
      }
      var it := start;
      if s[it] != QUESTION && s[it] != HASH {
        it, status := ParsePathAt(s, it);
        if status != Fine {
          return;
        }
      } else {
        NoPathAtDelimiter(Parts(), s[start..]);
      }
      assert s[start..][it - start..] == s[it..];
      status := ParseAfterPathAt(s, it);
    }

    method ParseHostAndPortOf(s: Text) returns (status: Status)
      modifies this
      ensures Parsed(Parts(), status) == ParseHostAndPort(ports, old(Parts()), s)
    {
      status := Fine;
      var it := 0;
      if it == |s| {
        return;
      }
      var newHost;
      if s[it] == LBRACKET {
        it := it + 1;
        it, newHost := ScanUntil(s, it, {RBRACKET});
        if it == |s| {
          return UnterminatedAddress;
        }
        assert newHost == s[1..][..it - 1];
        it := it + 1;
      } else {
        assert s[0..] == s;
        it, newHost := ScanUntil(s, it, {COLON});
      }
      assert ScanHost(s) == (newHost, it, Fine);
      ghost var rest := s[it..];
      if it != |s| && s[it] == COLON {
        it := it + 1;
        var portStr := s[it..];
        assert portStr == rest[1..];
        if portStr != [] {
          var nport := FromChars(portStr);
          if nport > 0 && nport < 65536 {
            port := nport;
          } else {
            return BadPort;
          }
        } else {
          port := WellKnownPort(ports, scheme);
        }
      } else {
        port := WellKnownPort(ports, scheme);
      }
      assert ParsePort(ports, old(Parts()), rest) == Parsed(Parts(), Fine);
      host := ToLower(newHost);
    }

    method ParseAuthorityAt(s: Text, start: nat) returns (it: nat, status: Status)
      requires start <= |s|
      modifies this
      ensures it == ScanEnd(s, start, AUTHORITY_STOPS)
      ensures Parsed(Parts(), status) == ParseAuthority(ports, old(Parts()), s[start..])
    {
      var part: Text := [];
      it := start;
      assert SplitAtAt([], userInfo) == (userInfo, []);
      hide SplitAtAt, Span, ParseHostAndPort;
      while it != |s| && s[it] != SLASH && s[it] != QUESTION && s[it] != HASH
        invariant start <= it <= |s|
        invariant Avoids(s[start..it], AUTHORITY_STOPS)
        invariant Parts() == old(Parts()).(userInfo := userInfo)
        invariant (userInfo, part) == SplitAtAt(s[start..it], old(userInfo))
      {
        hide Avoids;
        AuthorityScanStep(s, start, it, old(userInfo));
        if s[it] == AT {
          userInfo := part;
          part := [];
        } else {
          part := part + [s[it]];
        }
        it := it + 1;
      }
      AuthorityScanEnds(s, start, it);
      status := ParseHostAndPortOf(part);
      if status == Fine {
        userInfo := [];
      }
    }

    method SetSchemeTo(newScheme: Text)
      modifies this
      ensures Parts() == SetScheme(ports, old(Parts()), newScheme)
      ensures scheme == ToLower(newScheme)
      ensures port == if old(port) != 0 then old(port) else if scheme in ports then ports[scheme] else 0
    {
      scheme := newScheme;
      scheme := ToLower(scheme);
      if port == 0 {
        port := WellKnownPort(ports, scheme);
      }
    }

    method ParseHierarchyAt(uri: Text, start: nat) returns (status: Status)
      requires start < |uri|
      modifies this
      ensures Parsed(Parts(), status) == ParseHierarchy(ports, old(Parts()), uri[start..])
    {
      var it := start;
      if uri[it] == SLASH {
        it := it + 1;
        if it != |uri| && uri[it] == SLASH {
          it := it + 1;
          assert uri[start..][2..] == uri[it..];
          ghost var from := it;
          it, status := ParseAuthorityAt(uri, it);
          if status != Fine {
            return;
          }
          assert uri[from..][it - from..] == uri[it..];
        } else {
          it := it - 1;
        }
      }
      status := ParsePathEtcAt(uri, it);
    }

    method ParseUri(uri: Text) returns (status: Status)
      modifies this
      ensures Parsed(Parts(), status) == Parse(ports, old(Parts()), uri)
    {
      assert uri[0..] == uri;
      if uri == [] {
        status := ParsePathEtcAt(uri, 0);
        return;
      }
      if uri[0] != SLASH && uri[0] != DOT && uri[0] != QUESTION && uri[0] != HASH {
        var it, newScheme := ScanUntil(uri, 0, SCHEME_STOPS);
        if it != |uri| && uri[it] == COLON {
          it := it + 1;
          if it == |uri| {
            return MissingSchemePart;
          }
          SetSchemeTo(newScheme);
          status := ParseHierarchyAt(uri, it);
        } else {
          status := ParsePathEtcAt(uri, 0);
        }
      } else {
        status := ParsePathEtcAt(uri, 0);
      }
    }

    // ---- Accessors built on the above

    method SetPathEtc(pathEtc: Text) returns (status: Status)
      modifies this
      ensures Parsed(Parts(), status) ==
              ParsePathEtc(old(Parts()).(path := [], query := [], fragment := []), pathEtc)
    {
      path, query, fragment := [], [], [];
      assert pathEtc[0..] == pathEtc;
      status := ParsePathEtcAt(pathEtc, 0);
    }

    method SetQuery(newQuery: Text)
      modifies this
      ensures Parts() == old(Parts()).(query := Encode(newQuery, RESERVED_QUERY))
      ensures Decode(query) == Decoding(newQuery, Fine) && HASH !in query
    {
      DecodeEncode(newQuery, RESERVED_QUERY);
      EncodedQueryAvoidsHash(newQuery);
      query := EncodeTo(newQuery, RESERVED_QUERY, []);
    }

    method GetQuery() returns (decoded: Text, status: Status)
      ensures Decoding(decoded, status) == Decode(query)
    {
      decoded, status := DecodeTo(query, []);
    }

    method EqualTo(uri: Uri) returns (b: bool)
      ensures b == Equals(ports, Parts(), uri.Parts())
      ensures b ==> Print(ports, Parts()) == Print(ports, uri.Parts())
      ensures WellFormed(ports, Parts()) && WellFormed(ports, uri.Parts()) ==>
                (b <==> Print(ports, Parts()) == Print(ports, uri.Parts()))
    {
      EqualExactlyIfPrintedAlike(ports, Parts(), uri.Parts());
      hide Print, WellFormed;
      b := scheme == uri.scheme
        && userInfo == uri.userInfo
        && host == uri.host
        && (if port == 0 then WellKnownPort(ports, scheme) else port) ==
           (if uri.port == 0 then WellKnownPort(ports, uri.scheme) else uri.port)
        && path == uri.path
        && query == uri.query
        && fragment == uri.fragment;
    }

    /** Comparison with a text: parse it into a fresh URI, then compare.  With the URI's own text this
        succeeds if and only if the URI is well formed. */
    method EqualToText(text: Text) returns (b: bool, status: Status)
      ensures var p := Parse(ports, EMPTY, text);
              status == p.status && b == (status == Fine && Equals(ports, Parts(), p.parts))
      ensures text == Print(ports, Parts()) ==> (b <==> WellFormed(ports, Parts()))
    {
      var parsedUri := new Uri();
      status := parsedUri.ParseUri(text);
      b := false;
      if status == Fine {
        b := EqualTo(parsedUri);
      }
      RoundTripExactly(ports, Parts());
    }

    // ---- Dot segments

    static method GetPathSegments(path: Text) returns (segments: seq<Segment>)
      ensures segments == Segments(path)
    {
      hide Segments;
      segments := [];
      var seg: Segment := [];
      var it := 0;
      assert seg + path[it..] == path;
      while it != |path|
        invariant it <= |path|
        invariant Avoids(seg, {SLASH})
        invariant Segments(path) == segments + Segments(seg + path[it..])
      {
        var c := path[it];
        SegmentsWithByte(segments, seg, path, it);
        if c == SLASH {
          ghost var found := segments + Piece(seg);
          if seg != [] {
            segments := segments + [seg];
            seg := [];
          }
          assert segments == found;
        } else {
          seg := seg + [c];
        }
        it := it + 1;
      }
      assert seg + path[it..] == seg + SlashIf(false);
      SegmentsOfPiece(seg, false);
      if seg != [] {
        segments := segments + [seg];
      }
    }

    method BuildPathFrom(segments: seq<Segment>, leadingSlash: bool, trailingSlash: bool)
      modifies this
      ensures Parts() == old(Parts()).(path := BuildPath(scheme, segments, leadingSlash, trailingSlash))
    {
      hide Join;
      path := [];
      var first := true;
      ghost var start := PathStart(scheme, segments, leadingSlash);
      for i := 0 to |segments|
        invariant Parts() == old(Parts()).(path := path)
        invariant first <==> i == 0
        invariant path == (if i == 0 then [] else start + Join(segments[..i]))
      {
        var segment := segments[i];
        if first {
          first := false;
          if leadingSlash {
            path := path + [SLASH];
          } else if scheme == [] && COLON in segment {
            path := path + [DOT, SLASH];
          }
          assert segments[..1] == [segment];
          JoinShort(segment);
        } else {
          path := path + [SLASH];
          PathSnoc(start, segments[..i], segment);
          assert segments[..i] + [segment] == segments[..i + 1];
        }
        path := path + segment;
      }
      assert segments[..|segments|] == segments;
      JoinShort([]);
      if trailingSlash {
        path := path + [SLASH];
      }
    }

    method RemoveDots(removeLeading: bool)
      modifies this
      ensures Parts() == old(Parts()).(path := RemoveDotSegments(scheme, old(path), removeLeading))
    {
      if path == [] {
        return;
      }
      var leadingSlash := path[0] == SLASH;
      var trailingSlash := path[|path| - 1] == SLASH;
      var normalizedSegments: seq<Segment> := [];
      var segments := GetPathSegments(path);
      for i := 0 to |segments|
        invariant NormalizeFrom(normalizedSegments, segments[i..], removeLeading) == Kept(path, removeLeading)
      {
        var segment := segments[i];
        assert segments[i..][1..] == segments[i + 1..];
        if segment == TWO_DOTS {
          if normalizedSegments != [] {
            if normalizedSegments[|normalizedSegments| - 1] == TWO_DOTS {
              normalizedSegments := normalizedSegments + [segment];
            } else {
              normalizedSegments := normalizedSegments[..|normalizedSegments| - 1];
            }
          } else if !removeLeading {
            normalizedSegments := normalizedSegments + [segment];
          }
        } else if segment != ONE_DOT {
          normalizedSegments := normalizedSegments + [segment];
        }
      }
      BuildPathFrom(normalizedSegments, leadingSlash, trailingSlash);
    }

    method Normalize()
      modifies this
      ensures Parts() == NormalizeUri(old(Parts()))
    {
      RemoveDots(scheme != []);
    }
  }
}
