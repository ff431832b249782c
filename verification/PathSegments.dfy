// The segment level of common/URI.cpp: splitting a path, removing dot segments, joining again, and
// what a path denotes.
module PathSegments {
  import opened Bytes
  import opened UriSpec
  import opened UriRoundTrip

  type Segment = Text

  const ONE_DOT: Segment := [DOT]
  const TWO_DOTS: Segment := [DOT, DOT]

  // ---- Splitting and joining

  /** The non-empty pieces between slashes. */
  function Segments(path: Text): seq<Segment> {
    if path == [] then []
    else
      var n := Span(path, {SLASH});
      Piece(path[..n]) + (if n < |path| then Segments(path[n + 1..]) else [])
  }

  function Piece(s: Text): seq<Segment> {
    if s == [] then [] else [s]
  }

  function SlashIf(b: bool): Text {
    if b then [SLASH] else []
  }

  function Join(segments: seq<Segment>): Text {
    if segments == [] then []
    else if |segments| == 1 then segments[0]
    else segments[0] + [SLASH] + Join(segments[1..])
  }

  function PathStart(scheme: Text, segments: seq<Segment>, leadingSlash: bool): Text {
    if segments == [] then []
    else if leadingSlash then [SLASH]
    else if scheme == [] && COLON in segments[0] then [DOT, SLASH]
    else []
  }

  function BuildPath(scheme: Text, segments: seq<Segment>, leadingSlash: bool, trailingSlash: bool): Text {
    PathStart(scheme, segments, leadingSlash) + Join(segments) + SlashIf(trailingSlash)
  }

  ghost predicate GoodSegment(s: Segment) {
    s != [] && Avoids(s, {SLASH})
  }

  ghost predicate GoodSegments(segments: seq<Segment>) {
    forall i :: 0 <= i < |segments| ==> GoodSegment(segments[i])
  }

  lemma SegmentsOfCut(a: Text, b: Text)
    requires Avoids(a, {SLASH})
    ensures Segments(a + [SLASH] + b) == Piece(a) + Segments(b)
  {
    hide Span;
    var s := a + [SLASH] + b;
    assert s == a + ([SLASH] + b);
    SpanOfConcat(a, [SLASH] + b, {SLASH});
    assert s[|a| + 1..] == b;
  }

  /** A slash-free piece, with or without a slash behind it, is one segment or none. */
  lemma SegmentsOfPiece(a: Text, trailingSlash: bool)
    requires Avoids(a, {SLASH})
    ensures Segments(a + SlashIf(trailingSlash)) == Piece(a)
  {
    if trailingSlash {
      SegmentsOfCut(a, []);
      assert a + [SLASH] + [] == a + SlashIf(true);
    } else {
      SpanOfConcat(a, [], {SLASH});
      assert a + [] == a + SlashIf(false) == a;
    }
  }

  lemma GoodConcat(a: seq<Segment>, b: seq<Segment>)
    requires GoodSegments(a) && GoodSegments(b)
    ensures GoodSegments(a + b)
  {
  }

  lemma {:induction false} SegmentsAreGood(path: Text)
    ensures GoodSegments(Segments(path))
  {
    if path != [] {
      var n := Span(path, {SLASH});
      assert GoodSegments(Piece(path[..n]));
      if n < |path| {
        SegmentsAreGood(path[n + 1..]);
        GoodConcat(Piece(path[..n]), Segments(path[n + 1..]));
      }
    }
  }

  /** Joined segments split into the same segments, with or without a slash behind them. */
  lemma {:induction false} SegmentsOfJoin(segments: seq<Segment>, trailingSlash: bool)
    requires GoodSegments(segments)
    ensures Segments(Join(segments) + SlashIf(trailingSlash)) == segments
  {
    hide Segments, Span;
    if segments == [] {
      SegmentsOfPiece([], trailingSlash);
    } else {
      var first, more := segments[0], segments[1..];
      assert GoodSegment(first);
      assert segments == [first] + more;
      if more == [] {
        SegmentsOfPiece(first, trailingSlash);
      } else {
        SegmentsOfJoin(more, trailingSlash);
        SegmentsOfCut(first, Join(more) + SlashIf(trailingSlash));
        assert Join(segments) + SlashIf(trailingSlash) == first + [SLASH] + (Join(more) + SlashIf(trailingSlash));
      }
    }
  }

  /** Whether buildPath puts "./" in front. */
  predicate NeedsDot(scheme: Text, segments: seq<Segment>, leadingSlash: bool) {
    segments != [] && !leadingSlash && scheme == [] && COLON in segments[0]
  }

  function DotIf(scheme: Text, segments: seq<Segment>, leadingSlash: bool): seq<Segment> {
    if NeedsDot(scheme, segments, leadingSlash) then [ONE_DOT] else []
  }

  lemma SegmentsAfterStart(scheme: Text, segments: seq<Segment>, leadingSlash: bool, rest: Text)
    ensures Segments(PathStart(scheme, segments, leadingSlash) + rest) ==
            DotIf(scheme, segments, leadingSlash) + Segments(rest)
  {
    hide Segments;
    var start := PathStart(scheme, segments, leadingSlash);
    if start == [SLASH] {
      SegmentsOfCut([], rest);
      assert start + rest == [] + [SLASH] + rest;
    } else if start == [DOT, SLASH] {
      SegmentsOfCut(ONE_DOT, rest);
      assert start + rest == ONE_DOT + [SLASH] + rest;
    } else {
      assert start + rest == rest;
    }
  }

  /** Splitting undoes joining: the same list comes back, with one "." in front exactly where buildPath
      keeps a first segment from being read as a scheme. */
  lemma SegmentsOfBuildPath(scheme: Text, segments: seq<Segment>, leadingSlash: bool, trailingSlash: bool)
    requires GoodSegments(segments)
    ensures Segments(BuildPath(scheme, segments, leadingSlash, trailingSlash)) ==
            DotIf(scheme, segments, leadingSlash) + segments
    ensures DotIf(scheme, segments, leadingSlash) ==
            if segments != [] && !leadingSlash && scheme == [] && COLON in segments[0] then [[DOT]] else []
  {
    hide Segments, Join;
    var rest := Join(segments) + SlashIf(trailingSlash);
    SegmentsOfJoin(segments, trailingSlash);
    SegmentsAfterStart(scheme, segments, leadingSlash, rest);
    assert BuildPath(scheme, segments, leadingSlash, trailingSlash) ==
           PathStart(scheme, segments, leadingSlash) + rest;
  }

  lemma JoinShort(segment: Segment)
    ensures Join([]) == [] && Join([segment]) == segment
  {
  }

  lemma {:induction false} JoinSnoc(segments: seq<Segment>, last: Segment)
    requires segments != []
    ensures Join(segments + [last]) == Join(segments) + [SLASH] + last
  {
    var s := segments + [last];
    if |segments| == 1 {
      assert s[1..] == [last];
    } else {
      assert s[1..] == segments[1..] + [last];
      JoinSnoc(segments[1..], last);
    }
  }

  lemma PathSnoc(start: Text, segments: seq<Segment>, last: Segment)
    requires segments != []
    ensures start + Join(segments + [last]) == start + Join(segments) + [SLASH] + last
  {
    hide Join;
    JoinSnoc(segments, last);
    var joined := Join(segments);
    assert start + (joined + [SLASH] + last) == start + joined + [SLASH] + last;
  }

  // ---- Removing dot segments

  /** One turn of the loop: `done` is the stack of segments kept so far. */
  function NormalizeStep(done: seq<Segment>, segment: Segment, removeLeading: bool): seq<Segment> {
    if segment == TWO_DOTS then
      if done != [] then
        if done[|done| - 1] == TWO_DOTS then done + [segment] else done[..|done| - 1]
      else if !removeLeading then done + [segment]
      else done
    else if segment != ONE_DOT then done + [segment]
    else done
  }

  function NormalizeFrom(done: seq<Segment>, segments: seq<Segment>, removeLeading: bool): seq<Segment>
    decreases segments
  {
    if segments == [] then done
    else NormalizeFrom(NormalizeStep(done, segments[0], removeLeading), segments[1..], removeLeading)
  }

  function RemoveDotSegments(scheme: Text, path: Text, removeLeading: bool): Text {
    if path == [] then []
    else BuildPath(scheme, Kept(path, removeLeading), path[0] == SLASH, path[|path| - 1] == SLASH)
  }

  function Kept(path: Text, removeLeading: bool): seq<Segment> {
    NormalizeFrom([], Segments(path), removeLeading)
  }

  /** What a path denotes: the directory reached by walking its segments from a base directory, given as
      the stack of names from the root; ".." at the root stays there. */
  function WalkStep(at: seq<Segment>, segment: Segment): seq<Segment> {
    if segment == TWO_DOTS then (if at == [] then [] else at[..|at| - 1])
    else if segment == ONE_DOT then at
    else at + [segment]
  }

  function Walk(at: seq<Segment>, segments: seq<Segment>): seq<Segment>
    decreases segments
  {
    if segments == [] then at else Walk(WalkStep(at, segments[0]), segments[1..])
  }

  /** The normal form: no ".", every ".." before every name, and no ".." at all once leading ones are
      removed. */
  ghost predicate IsNormal(segments: seq<Segment>, removeLeading: bool) {
    && ONE_DOT !in segments
    && (forall i, j :: 0 <= i < j < |segments| && segments[j] == TWO_DOTS ==> segments[i] == TWO_DOTS)
    && (removeLeading ==> TWO_DOTS !in segments)
  }

  lemma NormalizeStepIsNormal(done: seq<Segment>, segment: Segment, removeLeading: bool)
    requires IsNormal(done, removeLeading)
    ensures IsNormal(NormalizeStep(done, segment, removeLeading), removeLeading)
  {
  }

  lemma {:induction false} NormalizeIsNormal(done: seq<Segment>, segments: seq<Segment>, removeLeading: bool)
    requires IsNormal(done, removeLeading)
    ensures IsNormal(NormalizeFrom(done, segments, removeLeading), removeLeading)
    decreases segments
  {
    if segments != [] {
      NormalizeStepIsNormal(done, segments[0], removeLeading);
      NormalizeIsNormal(NormalizeStep(done, segments[0], removeLeading), segments[1..], removeLeading);
    }
  }

  lemma {:induction false} NormalizeKeepsGood(done: seq<Segment>, segments: seq<Segment>, removeLeading: bool)
    requires GoodSegments(done) && GoodSegments(segments)
    ensures GoodSegments(NormalizeFrom(done, segments, removeLeading))
    decreases segments
  {
    if segments != [] {
      NormalizeKeepsGood(NormalizeStep(done, segments[0], removeLeading), segments[1..], removeLeading);
    }
  }

  lemma {:induction false} WalkConcat(at: seq<Segment>, a: seq<Segment>, b: seq<Segment>)
    ensures Walk(at, a + b) == Walk(Walk(at, a), b)
    decreases a
  {
    if a == [] {
      assert a + b == b;
    } else {
      assert (a + b)[1..] == a[1..] + b;
      WalkConcat(WalkStep(at, a[0]), a[1..], b);
    }
  }

  /** What walking means: a name goes down, "." stays, ".." goes back to where the last name was entered, and
      at the root it stays. */
  lemma WalkGoes(at: seq<Segment>, name: Segment)
    requires name != Ascii(".") && name != Ascii("..")
    ensures Walk(at, [name]) == at + [name]
    ensures Walk(at, [Ascii(".")]) == at
    ensures Walk(at, [name, Ascii("..")]) == at
    ensures Walk([], [Ascii("..")]) == []
  {
    assert Ascii(".") == ONE_DOT && Ascii("..") == TWO_DOTS;
    assert [name][1..] == [] && [ONE_DOT][1..] == [] && [TWO_DOTS][1..] == [];
    assert [name, TWO_DOTS][1..] == [TWO_DOTS] && (at + [name])[..|at|] == at;
  }

  lemma WalkSnoc(at: seq<Segment>, a: seq<Segment>, last: Segment)
    ensures Walk(at, a + [last]) == WalkStep(Walk(at, a), last)
  {
    WalkConcat(at, a, [last]);
    assert [last][1..] == [];
  }

  /** One turn of the loop moves the walk as the segment itself would. */
  lemma NormalizeStepWalks(base: seq<Segment>, done: seq<Segment>, segment: Segment, removeLeading: bool)
    requires IsNormal(done, removeLeading)
    requires removeLeading ==> base == []
    ensures Walk(base, NormalizeStep(done, segment, removeLeading)) == WalkStep(Walk(base, done), segment)
  {
    WalkSnoc(base, done, segment);
    if segment == TWO_DOTS && done != [] && done[|done| - 1] != TWO_DOTS {
      var init, last := done[..|done| - 1], done[|done| - 1];
      assert done == init + [last];
      WalkSnoc(base, init, last);
    }
  }

  lemma {:induction false} NormalizeWalks(base: seq<Segment>, done: seq<Segment>, segments: seq<Segment>,
                                          removeLeading: bool)
    requires IsNormal(done, removeLeading)
    requires removeLeading ==> base == []
    ensures Walk(base, NormalizeFrom(done, segments, removeLeading)) == Walk(Walk(base, done), segments)
    decreases segments
  {
    if segments != [] {
      NormalizeStepWalks(base, done, segments[0], removeLeading);
      NormalizeStepIsNormal(done, segments[0], removeLeading);
      NormalizeWalks(base, NormalizeStep(done, segments[0], removeLeading), segments[1..], removeLeading);
    }
  }

  lemma KeptIsGood(path: Text, removeLeading: bool)
    ensures GoodSegments(Kept(path, removeLeading))
    ensures IsNormal(Kept(path, removeLeading), removeLeading)
  {
    SegmentsAreGood(path);
    NormalizeKeepsGood([], Segments(path), removeLeading);
    NormalizeIsNormal([], Segments(path), removeLeading);
  }

  lemma SegmentsOfRemoveDotSegments(scheme: Text, path: Text, removeLeading: bool)
    requires path != []
    ensures Segments(RemoveDotSegments(scheme, path, removeLeading)) ==
            DotIf(scheme, Kept(path, removeLeading), path[0] == SLASH) + Kept(path, removeLeading)
  {
    hide Segments, Kept, BuildPath;
    KeptIsGood(path, removeLeading);
    SegmentsOfBuildPath(scheme, Kept(path, removeLeading), path[0] == SLASH, path[|path| - 1] == SLASH);
  }

  lemma WalkOneDot(at: seq<Segment>, segments: seq<Segment>)
    ensures Walk(at, [ONE_DOT] + segments) == Walk(at, segments)
  {
    assert ([ONE_DOT] + segments)[1..] == segments;
  }

  /** Normalising keeps what the path denotes: from every base directory when leading ".." are kept, from
      the root when they are removed. */
  lemma RemoveDotSegmentsKeepsMeaning(scheme: Text, path: Text, removeLeading: bool, base: seq<Segment>)
    requires removeLeading ==> base == []
    ensures Walk(base, Segments(RemoveDotSegments(scheme, path, removeLeading))) == Walk(base, Segments(path))
  {
    if path != [] {
      var kept := Kept(path, removeLeading);
      NormalizeWalks(base, [], Segments(path), removeLeading);
      SegmentsOfRemoveDotSegments(scheme, path, removeLeading);
      WalkOneDot(base, kept);
      assert [] + kept == kept;
    }
  }

  /** The segments of a normalised path are in normal form, but for the one protective "." in front. */
  lemma RemoveDotSegmentsIsNormal(scheme: Text, path: Text, removeLeading: bool)
    ensures var kept := Kept(path, removeLeading);
            && Segments(RemoveDotSegments(scheme, path, removeLeading)) ==
               DotIf(scheme, kept, StartsWith(path, SLASH)) + kept
            && IsNormal(kept, removeLeading)
            && GoodSegments(kept)
    ensures var r := RemoveDotSegments(scheme, path, removeLeading);
            && NoTwoSlashes(r)
            && (Kept(path, removeLeading) != [] ==>
                  && r != []
                  && (r[0] == SLASH <==> path[0] == SLASH)
                  && (r[|r| - 1] == SLASH <==> path[|path| - 1] == SLASH))
            && (Kept(path, removeLeading) == [] ==>
                  r == if path != [] && path[|path| - 1] == SLASH then Ascii("/") else [])
  {
    KeptIsGood(path, removeLeading);
    var kept := Kept(path, removeLeading);
    if path != [] {
      SegmentsOfRemoveDotSegments(scheme, path, removeLeading);
      hide Segments, Kept, BuildPath;
      BuildPathHasSingleSlashes(scheme, kept, path[0] == SLASH, path[|path| - 1] == SLASH);
      if kept != [] {
        BuildPathEnds(scheme, kept, path[0] == SLASH, path[|path| - 1] == SLASH);
      }
    }
  }

  lemma {:induction false} NormalizeOfNormal(done: seq<Segment>, segments: seq<Segment>, removeLeading: bool)
    requires IsNormal(done + segments, removeLeading)
    ensures NormalizeFrom(done, segments, removeLeading) == done + segments
    decreases segments
  {
    if segments != [] {
      var s := done + segments;
      assert s[|done|] == segments[0] && segments[0] in s;
      if segments[0] == TWO_DOTS && done != [] {
        assert s[|done| - 1] == done[|done| - 1];
      }
      assert done + [segments[0]] + segments[1..] == s;
      NormalizeOfNormal(done + [segments[0]], segments[1..], removeLeading);
    }
  }

  lemma {:induction false} JoinEnds(segments: seq<Segment>)
    requires GoodSegments(segments) && segments != []
    ensures Join(segments) != []
    ensures Join(segments)[0] == segments[0][0] != SLASH
    ensures Join(segments)[|Join(segments)| - 1] != SLASH
  {
    assert GoodSegment(segments[0]);
    if |segments| > 1 {
      JoinEnds(segments[1..]);
    }
  }

  ghost predicate NoTwoSlashes(s: Text) {
    forall i :: 0 <= i < |s| - 1 ==> s[i] != SLASH || s[i + 1] != SLASH
  }

  lemma NoTwoSlashesConcat(a: Text, b: Text)
    requires NoTwoSlashes(a) && NoTwoSlashes(b)
    requires a == [] || b == [] || a[|a| - 1] != SLASH || b[0] != SLASH
    ensures NoTwoSlashes(a + b)
  {
    forall i | 0 <= i < |a + b| - 1 ensures (a + b)[i] != SLASH || (a + b)[i + 1] != SLASH {
      if i + 1 < |a| {
        assert a[i] != SLASH || a[i + 1] != SLASH;
      } else if i >= |a| {
        assert b[i - |a|] != SLASH || b[i - |a| + 1] != SLASH;
      }
    }
  }

  lemma {:induction false} JoinHasSingleSlashes(segments: seq<Segment>)
    requires GoodSegments(segments)
    ensures NoTwoSlashes(Join(segments))
  {
    if segments != [] {
      var first := segments[0];
      assert GoodSegment(first) && NoTwoSlashes(first);
      if |segments| > 1 {
        JoinHasSingleSlashes(segments[1..]);
        JoinEnds(segments[1..]);
        NoTwoSlashesConcat(first, [SLASH]);
        NoTwoSlashesConcat(first + [SLASH], Join(segments[1..]));
      }
    }
  }

  /** A built path has single slashes only; without segments it is a slash or nothing. */
  lemma BuildPathHasSingleSlashes(scheme: Text, segments: seq<Segment>, leadingSlash: bool, trailingSlash: bool)
    requires GoodSegments(segments)
    ensures NoTwoSlashes(BuildPath(scheme, segments, leadingSlash, trailingSlash))
    ensures segments == [] ==>
              BuildPath(scheme, segments, leadingSlash, trailingSlash) == if trailingSlash then Ascii("/") else []
  {
    assert Ascii("/") == [SLASH];
    if segments != [] {
      JoinHasSingleSlashes(segments);
      JoinEnds(segments);
      NoTwoSlashesConcat(PathStart(scheme, segments, leadingSlash), Join(segments));
      NoTwoSlashesConcat(PathStart(scheme, segments, leadingSlash) + Join(segments), SlashIf(trailingSlash));
    }
  }

  lemma BuildPathEnds(scheme: Text, segments: seq<Segment>, leadingSlash: bool, trailingSlash: bool)
    requires GoodSegments(segments) && segments != []
    ensures var path := BuildPath(scheme, segments, leadingSlash, trailingSlash);
            && path != []
            && (path[0] == SLASH <==> leadingSlash)
            && (path[|path| - 1] == SLASH <==> trailingSlash)
  {
    JoinEnds(segments);
  }

  lemma NormalizeOfKept(scheme: Text, path: Text, leadingSlash: bool, removeLeading: bool)
    ensures var kept := Kept(path, removeLeading);
            NormalizeFrom([], DotIf(scheme, kept, leadingSlash) + kept, removeLeading) == kept
  {
    var kept := Kept(path, removeLeading);
    KeptIsGood(path, removeLeading);
    assert [] + kept == kept;
    NormalizeOfNormal([], kept, removeLeading);
    assert ([ONE_DOT] + kept)[1..] == kept;
  }

  /** Normalising twice is normalising once. */
  lemma RemoveDotSegmentsIdempotent(scheme: Text, path: Text, removeLeading: bool)
    ensures var once := RemoveDotSegments(scheme, path, removeLeading);
            RemoveDotSegments(scheme, once, removeLeading) == once
  {
    hide Segments, NormalizeFrom, Join, PathStart, SlashIf, DotIf, IsNormal, GoodSegments, NoTwoSlashes;
    if path != [] {
      var kept := Kept(path, removeLeading);
      var leading := path[0] == SLASH;
      var once := RemoveDotSegments(scheme, path, removeLeading);
      SegmentsOfRemoveDotSegments(scheme, path, removeLeading);
      NormalizeOfKept(scheme, path, leading, removeLeading);
      assert Kept(once, removeLeading) == kept;
      RemoveDotSegmentsIsNormal(scheme, path, removeLeading);
      BuildPathHasSingleSlashes(scheme, [], true, true);
      assert Ascii("/") == [SLASH];
    }
  }

  /** A normalised relative path never reads as "scheme:...". */
  lemma RemoveDotSegmentsIsRelativePath(path: Text, removeLeading: bool)
    ensures RelativePathOk(RemoveDotSegments([], path, removeLeading))
  {
    if path != [] {
      var kept := NormalizeFrom([], Segments(path), removeLeading);
      var leading, trailing := path[0] == SLASH, path[|path| - 1] == SLASH;
      SegmentsAreGood(path);
      NormalizeKeepsGood([], Segments(path), removeLeading);
      if kept != [] && !leading && COLON !in kept[0] {
        var once := BuildPath([], kept, leading, trailing);
        var rest := once[|kept[0]|..];
        assert GoodSegment(kept[0]);
        assert once == kept[0] + rest;
        assert rest == [] || rest[0] == SLASH;
        SpanOfConcat(kept[0], rest, {COLON, SLASH});
      }
    }
  }

  function NormalizeUri(u: Parts): Parts {
    u.(path := RemoveDotSegments(u.scheme, u.path, u.scheme != []))
  }

  /** normalize() removes leading ".." exactly if there is a scheme; else the path still leads to the same
      place from everywhere. */
  lemma NormalizeUriMeans(u: Parts, base: seq<Segment>)
    ensures NormalizeUri(u) == u.(path := NormalizeUri(u).path)
    ensures u.scheme != [] ==>
              && Ascii("..") !in Segments(NormalizeUri(u).path)
              && Walk([], Segments(NormalizeUri(u).path)) == Walk([], Segments(u.path))
    ensures u.scheme == [] ==> Walk(base, Segments(NormalizeUri(u).path)) == Walk(base, Segments(u.path))
  {
    assert Ascii("..") == TWO_DOTS;
    RemoveDotSegmentsKeepsMeaning(u.scheme, u.path, u.scheme != [], if u.scheme != [] then [] else base);
    RemoveDotSegmentsIsNormal(u.scheme, u.path, u.scheme != []);
    assert TWO_DOTS != ONE_DOT;
    hide Walk, Segments, Kept, RemoveDotSegments;
  }

  /** A normalised relative reference survives printing and parsing if and only if its query is free of
      '#': no condition on the path is left (section 4.2 of RFC 3986). */
  lemma NormalizedReferenceSurvives(ports: PortTable, u: Parts)
    requires u.scheme == [] && Authority(ports, u) == []
    ensures Survives(ports, NormalizeUri(u)) <==> HASH !in u.query
  {
    RemoveDotSegmentsIsRelativePath(u.path, false);
    RoundTripExactly(ports, NormalizeUri(u));
  }

  /** Without normalising, some such references do not survive: "a:b" is read as a scheme. */
  lemma UnnormalizedReferenceMayBeLost(ports: PortTable)
    ensures !Survives(ports, EMPTY.(path := [0x61, COLON, 0x62]))
  {
    var u := EMPTY.(path := [0x61, COLON, 0x62]);
    assert Span(u.path, {COLON, SLASH}) == 1 by {
      assert u.path == [0x61] + [COLON, 0x62];
      SpanOfConcat([0x61], [COLON, 0x62], {COLON, SLASH});
    }
    RoundTripExactly(ports, u);
  }
}
