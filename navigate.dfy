/** Navigation targets of the blog's filter links: a path of route segments followed,
    when a search keyword is active, by `?q=<keyword>`. `Target` splices the text in
    as the pages do; `EncodedTarget` escapes each piece with `encodeURIComponent`.
    `ReadBack` is what the router makes of a target: its route segments and its `q`
    parameter. */
module Navigate {
  import opened Common
  import opened Url

  /** The route parameters a page reads with `useParams`; each is already percent-decoded. */
  datatype RouteParams = RouteParams(postType: Option<string>, group: Option<string>, stack: Option<string>)

  /** What a page sees after navigating: the decoded route segments and `searchParams.get('q')`. */
  datatype Route = Route(segments: seq<string>, q: Option<string>)

  function ReadBack(to: string): Route
  {
    var l := ParsePath(to);
    Route(PathSegments(l.pathname), QueryGet(l.search, "q"))
  }

  /** The route a link means to open: these segments, and the keyword when it is truthy. */
  function Intended(segs: seq<string>, keyword: Option<string>): Route
  {
    Route(segs, if Truthy(keyword) then keyword else None)
  }

  /** `keyword ? \`${base}?q=${keyword}\` : base`. */
  function WithKeyword(base: string, keyword: Option<string>): (to: string)
    ensures Truthy(keyword) ==> to == base + "?q=" + keyword.value
    ensures !Truthy(keyword) ==> to == base
  {
    if Truthy(keyword) then base + "?q=" + keyword.value else base
  }

  /** The corrected form: the keyword is escaped before it is spliced in. */
  function WithEncodedKeyword(base: string, keyword: Option<string>): (to: string)
    ensures Truthy(keyword) ==> to == base + "?q=" + EncodeComponent(keyword.value)
    ensures !Truthy(keyword) ==> to == base
  {
    if Truthy(keyword) then base + "?q=" + EncodeComponent(keyword.value) else base
  }

  /** A link as the pages build it: raw segments, raw keyword. */
  function Target(segs: seq<string>, keyword: Option<string>): string
  {
    WithKeyword(JoinPath(segs), keyword)
  }

  /** A link with every segment and the keyword passed through `encodeURIComponent`. */
  function EncodedTarget(segs: seq<string>, keyword: Option<string>): string
  {
    WithEncodedKeyword(JoinPath(EncodeAll(segs)), keyword)
  }

  predicate NonEmptySegments(segs: seq<string>)
  {
    forall k :: 0 <= k < |segs| ==> segs[k] != ""
  }

  /** Text the router reads back unchanged when it is spliced in raw. */
  predicate PlainSegment(s: string)
  {
    s != "" && '/' !in s && '?' !in s && '#' !in s && '%' !in s
  }

  predicate PlainKeyword(s: string)
  {
    '&' !in s && '#' !in s && '%' !in s && '+' !in s
  }

  lemma {:induction false} JoinFree(parts: seq<string>, d: char, c: char)
    requires |parts| >= 1 && c != d
    requires forall k :: 0 <= k < |parts| ==> c !in parts[k]
    ensures c !in Join(parts, d)
  {
    if |parts| > 1 {
      JoinFree(parts[1..], d, c);
    }
  }

  lemma JoinPathFree(segs: seq<string>, c: char)
    requires c != '/'
    requires forall k :: 0 <= k < |segs| ==> c !in segs[k]
    ensures c !in JoinPath(segs)
  {
    if segs != [] {
      JoinFree(segs, '/', c);
    }
  }

  /** Reading back `base + optional ?q=` for a base free of `?` and `#`. */
  lemma ReadKeyword(base: string, keyword: Option<string>, v: string)
    requires '?' !in base && '#' !in base
    requires Truthy(keyword) ==> v != "" && '&' !in v && '#' !in v
    ensures ReadBack(if Truthy(keyword) then base + "?q=" + v else base)
      == Route(PathSegments(base), if Truthy(keyword) then Some(FormDecode(v)) else None)
  {
    if Truthy(keyword) {
      QueryOfKeyword(base, v);
    } else {
      QueryOfBare(base);
    }
  }

  /** An encoded link always opens the route it means: every segment and the keyword come back as they were. */
  lemma EncodedTargetReadsBack(segs: seq<string>, keyword: Option<string>)
    requires NonEmptySegments(segs)
    ensures ReadBack(EncodedTarget(segs, keyword)) == Intended(segs, keyword)
  {
    var enc := EncodeAll(segs);
    forall k | 0 <= k < |enc| ensures enc[k] != "" && '/' !in enc[k] && '?' !in enc[k] && '#' !in enc[k] {
      EncodeComponentNonEmpty(segs[k]);
    }
    var base := JoinPath(enc);
    JoinPathFree(enc, '?');
    JoinPathFree(enc, '#');
    PathSegmentsOfJoin(enc);
    DecodeAllEncoded(segs);
    if Truthy(keyword) {
      var v := EncodeComponent(keyword.value);
      EncodeComponentNonEmpty(keyword.value);
      ReadKeyword(base, keyword, v);
      FormDecodeEncode(keyword.value);
    } else {
      ReadKeyword(base, keyword, "");
    }
  }

  /** A raw link opens the route it means as long as no segment and no keyword holds a character
      the URL syntax gives a meaning to. */
  lemma PlainTargetReadsBack(segs: seq<string>, keyword: Option<string>)
    requires forall k :: 0 <= k < |segs| ==> PlainSegment(segs[k])
    requires Truthy(keyword) ==> PlainKeyword(keyword.value)
    ensures ReadBack(Target(segs, keyword)) == Intended(segs, keyword)
  {
    var base := JoinPath(segs);
    JoinPathFree(segs, '?');
    JoinPathFree(segs, '#');
    PathSegmentsOfJoin(segs);
    DecodeAllPlain(segs);
    if Truthy(keyword) {
      ReadKeyword(base, keyword, keyword.value);
      FormDecodePlain(keyword.value);
    } else {
      ReadKeyword(base, keyword, "");
    }
  }

  /** For plain text the two builders agree. */
  lemma PlainTargetUnchangedByEncoding(segs: seq<string>, keyword: Option<string>)
    requires forall k :: 0 <= k < |segs| ==> PlainSegment(segs[k])
    requires Truthy(keyword) ==> PlainKeyword(keyword.value)
    ensures ReadBack(Target(segs, keyword)) == ReadBack(EncodedTarget(segs, keyword))
  {
    PlainTargetReadsBack(segs, keyword);
    EncodedTargetReadsBack(segs, keyword);
  }

  // ---------------------------------------------------------------------------
  // What the raw splicing loses.

  /** A search for `c++` comes back as `c  `: the router reads `+` in the query as a space. */
  lemma KeywordPlusLost()
    ensures ReadBack(Target([], Some("c++"))).q == Some("c  ")
    ensures ReadBack(Target([], Some("c++"))) != Intended([], Some("c++"))
  {
    assert Target([], Some("c++")) == "/" + "?q=" + "c++";
    ReadKeyword("/", Some("c++"), "c++");
    FormDecodeOfPlusPlus();
  }

  lemma FormDecodeOfPlusPlus()
    ensures FormDecode("c++") == "c  "
  {
    assert "+"[1..] == "" && FormDecode("+") == " ";
    assert "++"[1..] == "+" && FormDecode("++") == "  ";
    assert "c++"[1..] == "++";
  }

  /** A target whose only `#` follows the path and that has no `?` before it. */
  lemma ParseHashTarget(base: string, frag: string)
    requires '?' !in base && '#' !in base
    ensures ParsePath(base + "#" + frag).pathname == base
  {
    var to := base + "#" + frag;
    assert to[|base|] == '#';
    assert forall j :: 0 <= j < |base| ==> to[j] == base[j];
    assert IndexOf(to, '#') == |base|;
    assert to[..|base|] == base;
    IndexOfAbsent(base, '?');
    assert base[..|base|] == base;
  }

  lemma {:induction false} JoinExtendLast(parts: seq<string>, x: string, y: string, d: char)
    ensures Join(parts + [x + y], d) == Join(parts + [x], d) + y
  {
    if parts != [] {
      assert (parts + [x + y])[1..] == parts[1..] + [x + y];
      assert (parts + [x])[1..] == parts[1..] + [x];
      JoinExtendLast(parts[1..], x, y, d);
    }
  }

  lemma JoinPathHash(segs: seq<string>, s: string, f: string)
    ensures JoinPath(segs + [s + "#" + f]) == JoinPath(segs + [s]) + "#" + f
  {
    JoinExtendLast(segs, s, "#" + f, '/');
    assert s + "#" + f == s + ("#" + f);
  }

  /** A `#` inside the last segment cuts that segment short: the router sees only what precedes it. */
  lemma HashCutsLastSegment(segs: seq<string>, s: string, f: string)
    requires forall k :: 0 <= k < |segs| ==> PlainSegment(segs[k])
    requires PlainSegment(s)
    ensures ReadBack(Target(segs + [s + "#" + f], None)).segments == segs + [s]
  {
    var whole := segs + [s];
    JoinPathHash(segs, s, f);
    assert forall k :: 0 <= k < |whole| ==> PlainSegment(whole[k]);
    JoinPathFree(whole, '?');
    JoinPathFree(whole, '#');
    ParseHashTarget(JoinPath(whole), f);
    PathSegmentsOfJoin(whole);
    DecodeAllPlain(whole);
  }

  /** A `#` at the end of the second of two plain segments is dropped with what follows. */
  lemma HashEndsTwoSegments(g: string, s: string)
    requires PlainSegment(g) && PlainSegment(s)
    ensures ReadBack(Target([g, s + "#"], None)).segments == [g, s]
  {
    assert s + "#" + "" == s + "#";
    assert [g] + [s + "#" + ""] == [g, s + "#"];
    HashCutsLastSegment([g], s, "");
    assert [g] + [s] == [g, s];
  }

  /** A stack named `C#` comes back as `C`: the `#` starts the URL fragment. */
  lemma HashInSegmentLost()
    ensures ReadBack(Target(["lang", "C#"], None)).segments == ["lang", "C"]
    ensures ReadBack(Target(["lang", "C#"], None)) != Intended(["lang", "C#"], None)
  {
    assert "C" + "#" == "C#";
    HashEndsTwoSegments("lang", "C");
    assert ["lang", "C"] != ["lang", "C#"];
  }
}
