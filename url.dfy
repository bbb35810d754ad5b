/** How the router reads back a navigation target: the target string is cut
    into pathname, search and hash at the first `#` and the first `?`
    (react-router's `parsePath`); route parameters are the non-empty `/`
    pieces of the pathname, percent-decoded; the `q` parameter is looked up in
    the search string as `URLSearchParams` does (`&`-separated pairs, the name
    ending at the first `=`, `+` read as a space, then percent-decoding).

    Only ASCII is escaped and unescaped here: a character at or above U+0080
    passes through both directions unchanged, which is what the browser's UTF-8
    percent-encoding followed by the decoder's UTF-8 decoding amounts to. */
module Url {
  import opened Common

  datatype Location = Location(pathname: string, search: string, hash: string)

  /** Index of the first `c` in `s`, or `|s|` when there is none. */
  function IndexOf(s: string, c: char): (i: nat)
    ensures i <= |s|
    ensures i < |s| ==> s[i] == c
    ensures forall j :: 0 <= j < i ==> s[j] != c
  {
    if s == [] then 0 else if s[0] == c then 0 else 1 + IndexOf(s[1..], c)
  }

  lemma IndexOfAbsent(s: string, c: char)
    requires c !in s
    ensures IndexOf(s, c) == |s|
  {
  }

  /** The location a `navigate(to)` call with an absolute target produces. */
  function ParsePath(to: string): (l: Location)
    ensures l.pathname + l.search + l.hash == to
    ensures '?' !in l.pathname && '#' !in l.pathname && '#' !in l.search
    ensures l.search == [] || l.search[0] == '?'
    ensures l.hash == [] || l.hash[0] == '#'
  {
    var h := IndexOf(to, '#');
    var beforeHash := to[..h];
    var q := IndexOf(beforeHash, '?');
    assert beforeHash[..q] + beforeHash[q..] + to[h..] == to;
    Location(beforeHash[..q], beforeHash[q..], to[h..])
  }

  // ---------------------------------------------------------------------------
  // Hex digits and percent-escapes.

  predicate IsHexDigit(c: char)
  {
    ('0' <= c <= '9') || ('a' <= c <= 'f') || ('A' <= c <= 'F')
  }

  function HexValue(c: char): (v: nat)
    requires IsHexDigit(c)
    ensures v < 16
  {
    if '0' <= c <= '9' then c as int - '0' as int
    else if 'a' <= c <= 'f' then c as int - 'a' as int + 10
    else c as int - 'A' as int + 10
  }

  function HexDigit(v: nat): (c: char)
    requires v < 16
    ensures IsHexDigit(c) && HexValue(c) == v
  {
    if v < 10 then (v + '0' as int) as char else (v - 10 + 'A' as int) as char
  }

  /** The characters `encodeURIComponent` leaves as they are. */
  predicate IsUnreserved(c: char)
  {
    || ('A' <= c <= 'Z') || ('a' <= c <= 'z') || ('0' <= c <= '9')
    || c == '-' || c == '_' || c == '.' || c == '!' || c == '~' || c == '*'
    || c == '\'' || c == '(' || c == ')'
  }

  function EncodeChar(c: char): (r: string)
    ensures |r| >= 1
    ensures r[0] != '+' && r[0] != '&' && r[0] != '#' && r[0] != '?' && r[0] != '/' && r[0] != '='
    ensures forall i :: 0 < i < |r| ==> IsHexDigit(r[i])
  {
    if IsUnreserved(c) || c as int >= 128 then [c]
    else ['%', HexDigit(c as int / 16), HexDigit(c as int % 16)]
  }

  /** `encodeURIComponent`, escaping ASCII only. */
  function EncodeComponent(s: string): (r: string)
    ensures '+' !in r && '&' !in r && '#' !in r && '?' !in r && '/' !in r && '=' !in r
  {
    if s == [] then [] else EncodeChar(s[0]) + EncodeComponent(s[1..])
  }

  /** Percent-decoding of route parameters (no special meaning for `+`). */
  function PercentDecode(s: string): string
  {
    if s == [] then []
    else if |s| >= 3 && s[0] == '%' && IsHexDigit(s[1]) && IsHexDigit(s[2])
            && HexValue(s[1]) * 16 + HexValue(s[2]) < 128 then
      [(HexValue(s[1]) * 16 + HexValue(s[2])) as char] + PercentDecode(s[3..])
    else [s[0]] + PercentDecode(s[1..])
  }

  /** Decoding of a name or value of `application/x-www-form-urlencoded` data. */
  function FormDecode(s: string): string
  {
    if s == [] then []
    else if s[0] == '+' then [' '] + FormDecode(s[1..])
    else if |s| >= 3 && s[0] == '%' && IsHexDigit(s[1]) && IsHexDigit(s[2])
            && HexValue(s[1]) * 16 + HexValue(s[2]) < 128 then
      [(HexValue(s[1]) * 16 + HexValue(s[2])) as char] + FormDecode(s[3..])
    else [s[0]] + FormDecode(s[1..])
  }

  lemma {:induction false} PercentDecodeEncode(s: string)
    ensures PercentDecode(EncodeComponent(s)) == s
  {
    if s != [] {
      PercentDecodeEncode(s[1..]);
      PercentDecodeEncodeChar(s[0], EncodeComponent(s[1..]));
    }
  }

  /** An escaped character decodes back to itself, whatever follows it. */
  lemma PercentDecodeEncodeChar(c: char, t: string)
    ensures PercentDecode(EncodeChar(c) + t) == [c] + PercentDecode(t)
  {
    var x := EncodeChar(c) + t;
    if IsUnreserved(c) || c as int >= 128 {
      assert x[1..] == t;
    } else {
      assert x[1] == HexDigit(c as int / 16) && x[2] == HexDigit(c as int % 16);
      assert x[3..] == t;
    }
  }

  lemma {:induction false} FormDecodeEncode(s: string)
    ensures FormDecode(EncodeComponent(s)) == s
  {
    if s != [] {
      FormDecodeEncode(s[1..]);
      FormDecodeEncodeChar(s[0], EncodeComponent(s[1..]));
    }
  }

  lemma FormDecodeEncodeChar(c: char, t: string)
    ensures FormDecode(EncodeChar(c) + t) == [c] + FormDecode(t)
  {
    var x := EncodeChar(c) + t;
    if IsUnreserved(c) || c as int >= 128 {
      assert x[1..] == t;
    } else {
      assert x[1] == HexDigit(c as int / 16) && x[2] == HexDigit(c as int % 16);
      assert x[3..] == t;
    }
  }

  lemma {:induction false} PercentDecodePlain(s: string)
    requires '%' !in s
    ensures PercentDecode(s) == s
  {
    if s != [] {
      PercentDecodePlain(s[1..]);
    }
  }

  lemma {:induction false} FormDecodePlain(s: string)
    requires '%' !in s && '+' !in s
    ensures FormDecode(s) == s
  {
    if s != [] {
      FormDecodePlain(s[1..]);
    }
  }

  // ---------------------------------------------------------------------------
  // Route parameters and the search string.

  /** The non-empty pieces among `parts`, percent-decoded. */
  function DecodedPieces(parts: seq<string>): seq<string>
  {
    if parts == [] then []
    else if parts[0] == "" then DecodedPieces(parts[1..])
    else [PercentDecode(parts[0])] + DecodedPieces(parts[1..])
  }

  /** The route parameters a pathname supplies, in order. */
  function PathSegments(pathname: string): seq<string>
  {
    DecodedPieces(Split(pathname, '/'))
  }

  /** The pathname that lists the given raw segments: `"/" + segs.join("/")`, or `"/"`. */
  function JoinPath(segs: seq<string>): (p: string)
    ensures |p| >= 1 && p[0] == '/'
  {
    if segs == [] then "/" else "/" + Join(segs, '/')
  }

  /** Reading back a path built from non-empty segments without `/` gives the decoded segments. */
  lemma PathSegmentsOfJoin(segs: seq<string>)
    requires forall k :: 0 <= k < |segs| ==> segs[k] != "" && '/' !in segs[k]
    ensures PathSegments(JoinPath(segs)) == DecodeAll(segs)
  {
    if segs == [] {
      SplitSlash();
    } else {
      var parts := [""] + segs;
      JoinPathAsJoin(segs);
      SplitJoin(parts, '/');
      DecodedPiecesSkipsEmpty(segs);
      DecodedPiecesNonEmpty(segs);
    }
  }

  lemma JoinPathAsJoin(segs: seq<string>)
    requires segs != []
    ensures JoinPath(segs) == Join([""] + segs, '/')
  {
    assert ([""] + segs)[1..] == segs;
  }

  lemma DecodedPiecesSkipsEmpty(segs: seq<string>)
    ensures DecodedPieces([""] + segs) == DecodedPieces(segs)
  {
    assert ([""] + segs)[1..] == segs;
  }

  lemma SplitSlash()
    ensures DecodedPieces(Split("/", '/')) == []
  {
    assert Split("", '/') == [""];
    assert "/"[1..] == "";
    assert Split("/", '/') == ["", ""];
  }

  function DecodeAll(segs: seq<string>): (r: seq<string>)
    ensures |r| == |segs|
  {
    if segs == [] then [] else [PercentDecode(segs[0])] + DecodeAll(segs[1..])
  }

  lemma {:induction false} DecodedPiecesNonEmpty(segs: seq<string>)
    requires forall k :: 0 <= k < |segs| ==> segs[k] != ""
    ensures DecodedPieces(segs) == DecodeAll(segs)
  {
    if segs != [] {
      DecodedPiecesNonEmpty(segs[1..]);
    }
  }

  lemma {:induction false} DecodeAllPlain(segs: seq<string>)
    requires forall k :: 0 <= k < |segs| ==> '%' !in segs[k]
    ensures DecodeAll(segs) == segs
  {
    if segs != [] {
      PercentDecodePlain(segs[0]);
      DecodeAllPlain(segs[1..]);
    }
  }

  lemma {:induction false} DecodeAllEncoded(segs: seq<string>)
    ensures DecodeAll(EncodeAll(segs)) == segs
  {
    if segs != [] {
      PercentDecodeEncode(segs[0]);
      DecodeAllEncoded(segs[1..]);
    }
  }

  function EncodeAll(segs: seq<string>): (r: seq<string>)
    ensures |r| == |segs|
    ensures forall k :: 0 <= k < |segs| ==> r[k] == EncodeComponent(segs[k])
  {
    if segs == [] then [] else [EncodeComponent(segs[0])] + EncodeAll(segs[1..])
  }

  lemma EncodeComponentNonEmpty(s: string)
    requires s != ""
    ensures EncodeComponent(s) != ""
  {
  }

  /** The value of the first pair named `name` among `pairs`. */
  function FirstValue(pairs: seq<string>, name: string): Option<string>
  {
    if pairs == [] then None
    else
      var p := pairs[0];
      var e := IndexOf(p, '=');
      var n := FormDecode(p[..e]);
      if p != "" && n == name then Some(if e < |p| then FormDecode(p[e + 1..]) else "")
      else FirstValue(pairs[1..], name)
  }

  /** `new URLSearchParams(search).get(name)`. */
  function QueryGet(search: string, name: string): Option<string>
  {
    var body := if StartsWith(search, "?") then search[1..] else search;
    FirstValue(Split(body, '&'), name)
  }

  /** The query of a target that ends in `?q=` followed by text free of `&` and `#`. */
  lemma QueryOfKeyword(base: string, v: string)
    requires '?' !in base && '#' !in base && '&' !in v && '#' !in v
    ensures ParsePath(base + "?q=" + v) == Location(base, "?q=" + v, "")
    ensures QueryGet("?q=" + v, "q") == Some(FormDecode(v))
  {
    ParseKeywordTarget(base, v);
    QueryGetQ(v);
  }

  lemma ParseKeywordTarget(base: string, v: string)
    requires '?' !in base && '#' !in base && '#' !in v
    ensures ParsePath(base + "?q=" + v) == Location(base, "?q=" + v, "")
  {
    KeywordSearch(v);
    ParseQueryTarget(base, "?q=" + v);
    assert base + "?q=" + v == base + ("?q=" + v);
  }

  lemma KeywordSearch(v: string)
    requires '#' !in v
    ensures |"?q=" + v| >= 1 && ("?q=" + v)[0] == '?' && '#' !in "?q=" + v
  {
  }

  lemma QueryGetQ(v: string)
    requires '&' !in v
    ensures QueryGet("?q=" + v, "q") == Some(FormDecode(v))
  {
    var search := "?q=" + v;
    var body := "q=" + v;
    assert StartsWith(search, "?");
    assert search[1..] == body;
    assert '&' !in body;
    SplitNoSeparator(body, '&');
    FirstValueQ(v);
  }

  lemma FirstValueQ(v: string)
    ensures FirstValue(["q=" + v], "q") == Some(FormDecode(v))
  {
    var p := "q=" + v;
    assert p[0] == 'q' && p[1] == '=';
    assert IndexOf(p, '=') == 1;
    assert p[..1] == "q";
    assert FormDecode("q") == ['q'] + FormDecode("");
    assert p[2..] == v;
  }

  /** A target `base + search` where only `search` holds a `?` and neither holds a `#`. */
  lemma ParseQueryTarget(base: string, search: string)
    requires '?' !in base && '#' !in base && '#' !in search
    requires |search| >= 1 && search[0] == '?'
    ensures ParsePath(base + search) == Location(base, search, "")
  {
    var to := base + search;
    IndexOfAbsent(to, '#');
    assert to[..|to|] == to;
    assert to[|base|] == '?';
    assert IndexOf(to, '?') == |base|;
    assert to[..|base|] == base;
    assert to[|base|..] == search;
  }

  /** The query of a target with no `?` at all. */
  lemma QueryOfBare(base: string)
    requires '?' !in base && '#' !in base
    ensures ParsePath(base) == Location(base, "", "")
    ensures QueryGet("", "q") == None
  {
    IndexOfAbsent(base, '#');
    assert base[..|base|] == base;
    IndexOfAbsent(base, '?');
    assert Split("", '&') == [""];
    assert FormDecode("") == "";
    assert FirstValue([""], "q") == FirstValue([], "q");
  }
}
