/** Text helpers of the blog: the reading-time label, the table of contents
    of a Markdown body, and the URL-safe slug of a heading. */
module BlogUtils {
  import opened Common

  // ---------------------------------------------------------------------------
  // Reading time: about 500 characters a minute, rounded up, never below one.

  const CharsPerMinute: nat := 500

  function ContentLength(content: Option<string>): nat
  {
    if content.Some? then |content.value| else 0
  }

  /** The minute count behind `calculateReadTime`. */
  function ReadMinutes(content: Option<string>): (m: nat)
    ensures m >= 1
    ensures !Truthy(content) ==> m == 1
    ensures Truthy(content) ==>
      m * CharsPerMinute >= ContentLength(content) && (m - 1) * CharsPerMinute < ContentLength(content)
  {
    if !Truthy(content) then 1
    else
      var n := |content.value|;
      var m := (n + CharsPerMinute - 1) / CharsPerMinute;
      CeilingDivision(n, CharsPerMinute);
      m
  }

  /** `(n + d - 1) / d` is the least multiple count of `d` that covers `n`. */
  lemma CeilingDivision(n: nat, d: nat)
    requires n >= 1 && d >= 1
    ensures var m := (n + d - 1) / d; m >= 1 && m * d >= n && (m - 1) * d < n
  {
    var m := (n + d - 1) / d;
    var r := (n + d - 1) % d;
    assert n + d - 1 == m * d + r;
    assert 0 <= r < d;
  }

  /** The label `calculateReadTime` returns: the minute count in decimal followed by "분". */
  function CalculateReadTime(content: Option<string>): (r: string)
    ensures |r| >= 2 && r[|r| - 1] == '분'
    ensures forall i :: 0 <= i < |r| - 1 ==> '0' <= r[i] <= '9'
    ensures ParseDecimal(r[..|r| - 1]) == ReadMinutes(content)
  {
    var digits := NatToString(ReadMinutes(content));
    ParseNatToString(ReadMinutes(content));
    assert (digits + "분")[..|digits|] == digits;
    digits + "분"
  }

  /** Missing or empty content reads in one minute. */
  lemma ReadTimeOfNothing()
    ensures CalculateReadTime(None) == "1분"
    ensures CalculateReadTime(Some("")) == "1분"
  {
    assert NatToString(1) == "1";
  }

  /** Longer content never reads faster. */
  lemma ReadTimeMonotone(a: Option<string>, b: Option<string>)
    requires ContentLength(a) <= ContentLength(b)
    ensures ReadMinutes(a) <= ReadMinutes(b)
  {
    if Truthy(a) {
      var ma, mb := ReadMinutes(a), ReadMinutes(b);
      assert (ma - 1) * CharsPerMinute < mb * CharsPerMinute;
    }
  }

  // ---------------------------------------------------------------------------
  // Table of contents: one entry per line of the form `## text` or `### text`.

  datatype TocSection = TocSection(id: string, title: string, level: nat)

  /** The characters JavaScript's `.` does not match. */
  predicate IsLineTerminator(c: char)
  {
    c == '\n' || c == '\r' || c == '\U{2028}' || c == '\U{2029}'
  }

  /** The captured group of `line.match(/^<marker>(.+)$/)`: the rest of the line after
      `marker`, when it is non-empty and holds no line terminator. */
  function MatchAfter(line: string, marker: string): (c: Option<string>)
    ensures c.Some? <==>
      StartsWith(line, marker) && |line| > |marker|
      && forall i :: |marker| <= i < |line| ==> !IsLineTerminator(line[i])
    ensures c.Some? ==> line == marker + c.value && c.value != ""
  {
    if StartsWith(line, marker) && |line| > |marker|
       && forall i :: |marker| <= i < |line| ==> !IsLineTerminator(line[i])
    then
      assert line == line[..|marker|] + line[|marker|..];
      Some(line[|marker|..])
    else None
  }

  function MatchH2(line: string): Option<string>
  {
    MatchAfter(line, "## ")
  }

  function MatchH3(line: string): Option<string>
  {
    MatchAfter(line, "### ")
  }

  /** The entry one line contributes: level 2 is tried first, then level 3. */
  function HeadingOf(line: string): (h: Option<TocSection>)
    ensures h.Some? ==> h.value.id == h.value.title && (h.value.level == 2 || h.value.level == 3)
    ensures h.Some? && h.value.level == 2 <==> MatchH2(line).Some?
    ensures h.Some? && h.value.level == 2 ==> h.value.title == Trim(MatchH2(line).value)
    ensures h.Some? && h.value.level == 3 <==> MatchH3(line).Some?
    ensures h.Some? && h.value.level == 3 ==> h.value.title == Trim(MatchH3(line).value)
  {
    var h2 := MatchH2(line);
    HeadingPatternsExclusive(line);
    if h2.Some? then
      Some(TocSection(Trim(h2.value), Trim(h2.value), 2))
    else
      var h3 := MatchH3(line);
      if h3.Some? then Some(TocSection(Trim(h3.value), Trim(h3.value), 3)) else None
  }

  /** A line never matches both patterns: the third character is a space or a `#`. */
  lemma HeadingPatternsExclusive(line: string)
    ensures !(MatchH2(line).Some? && MatchH3(line).Some?)
  {
    if MatchH2(line).Some? {
      assert line[..3] == "## ";
      assert line[2] == ' ';
      assert !StartsWith(line, "### ") by {
        assert "### "[2] == '#';
      }
    }
  }

  lemma HeadingExamples()
    ensures HeadingOf("## Intro") == Some(TocSection("Intro", "Intro", 2))
    ensures HeadingOf("### Detail") == Some(TocSection("Detail", "Detail", 3))
  {
    IntroIsHeading();
    DetailIsHeading();
  }

  lemma IntroIsHeading()
    ensures HeadingOf("## Intro") == Some(TocSection("Intro", "Intro", 2))
  {
    assert MatchH2("## Intro") == Some("Intro");
    TrimOfTrimmed("Intro");
  }

  lemma DetailIsHeading()
    ensures HeadingOf("### Detail") == Some(TocSection("Detail", "Detail", 3))
  {
    assert "### Detail"[2] != "## "[2];
    assert MatchH3("### Detail") == Some("Detail");
    TrimOfTrimmed("Detail");
  }

  /** Lines that are not headings: no space after the marker, too many `#`, an empty title, a `\r`. */
  lemma NonHeadingExamples()
    ensures HeadingOf("##x") == None
    ensures HeadingOf("####x") == None
    ensures HeadingOf("## ") == None
    ensures HeadingOf("## windows\r") == None
  {
    assert "##x"[2] != "## "[2];
    assert "####x"[2] != "## "[2] && "####x"[3] != "### "[3];
    assert IsLineTerminator("## windows\r"[10]);
    assert "## windows\r"[..4] != "### ";
  }

  /** The table of contents of a sequence of lines, in line order. */
  function TocOf(lines: seq<string>): seq<TocSection>
  {
    if lines == [] then []
    else
      var rest := TocOf(lines[..|lines| - 1]);
      var h := HeadingOf(lines[|lines| - 1]);
      if h.Some? then rest + [h.value] else rest
  }

  /** `extractTableOfContents`: split on '\n', then visit each line once. */
  method ExtractTableOfContents(content: string) returns (sections: seq<TocSection>)
    ensures sections == TocOf(Split(content, '\n'))
  {
    sections := [];
    var lines := Split(content, '\n');
    var i := 0;
    while i < |lines|
      invariant 0 <= i <= |lines|
      invariant sections == TocOf(lines[..i])
    {
      var line := lines[i];
      assert lines[..i + 1][..i] == lines[..i];
      i := i + 1;
      var h2Match := MatchH2(line);
      if h2Match.Some? {
        sections := sections + [TocSection(Trim(h2Match.value), Trim(h2Match.value), 2)];
        continue;
      }
      var h3Match := MatchH3(line);
      if h3Match.Some? {
        sections := sections + [TocSection(Trim(h3Match.value), Trim(h3Match.value), 3)];
      }
    }
    assert lines[..|lines|] == lines;
  }

  /** Indices of the lines that contribute an entry, in increasing order. */
  function TocSources(lines: seq<string>): seq<nat>
  {
    if lines == [] then []
    else
      var rest := TocSources(lines[..|lines| - 1]);
      if HeadingOf(lines[|lines| - 1]).Some? then rest + [|lines| - 1] else rest
  }

  /** Every entry comes from its own line, in line order, and every heading line yields an entry. */
  lemma TocFaithful(lines: seq<string>)
    ensures |TocSources(lines)| == |TocOf(lines)| <= |lines|
    ensures forall k :: 0 <= k < |TocSources(lines)| ==>
      TocSources(lines)[k] < |lines| && HeadingOf(lines[TocSources(lines)[k]]) == Some(TocOf(lines)[k])
    ensures forall k, j :: 0 <= k < j < |TocSources(lines)| ==> TocSources(lines)[k] < TocSources(lines)[j]
    ensures forall i :: 0 <= i < |lines| && HeadingOf(lines[i]).Some? ==> i in TocSources(lines)
  {
    TocSourcesSound(lines);
    TocSourcesComplete(lines);
  }

  lemma {:induction false} TocSourcesSound(lines: seq<string>)
    ensures |TocSources(lines)| == |TocOf(lines)| <= |lines|
    ensures forall k :: 0 <= k < |TocSources(lines)| ==>
      TocSources(lines)[k] < |lines| && HeadingOf(lines[TocSources(lines)[k]]) == Some(TocOf(lines)[k])
    ensures forall k, j :: 0 <= k < j < |TocSources(lines)| ==> TocSources(lines)[k] < TocSources(lines)[j]
  {
    if lines != [] {
      var init := lines[..|lines| - 1];
      TocSourcesSound(init);
      var src, toc := TocSources(init), TocOf(init);
      forall k | 0 <= k < |src|
        ensures lines[src[k]] == init[src[k]]
      {
      }
    }
  }

  lemma TocSourcesComplete(lines: seq<string>)
    ensures forall i :: 0 <= i < |lines| && HeadingOf(lines[i]).Some? ==> i in TocSources(lines)
  {
    forall i | 0 <= i < |lines| && HeadingOf(lines[i]).Some?
      ensures i in TocSources(lines)
    {
      TocSourceOf(lines, i);
    }
  }

  lemma {:induction false} TocSourceOf(lines: seq<string>, i: nat)
    requires i < |lines| && HeadingOf(lines[i]).Some?
    ensures i in TocSources(lines)
  {
    var init := lines[..|lines| - 1];
    if i < |init| {
      assert init[i] == lines[i];
      TocSourceOf(init, i);
    }
  }

  /** The whole content yields at most one entry per '\n'-separated line. */
  lemma TocBound(content: string)
    ensures |TocOf(Split(content, '\n'))| <= CountChar(content, '\n') + 1
  {
    TocFaithful(Split(content, '\n'));
  }

  // ---------------------------------------------------------------------------
  // Slugs: lower-case, every other character becomes '-', runs of '-' collapse,
  // one '-' is dropped at each end.

  predicate IsSlugChar(c: char)
  {
    ('a' <= c <= 'z') || ('0' <= c <= '9') || ('\U{AC00}' <= c <= '\U{D7A3}')
  }

  /** Only slug characters and dashes. */
  predicate SlugAlphabet(s: string)
  {
    forall i :: 0 <= i < |s| ==> IsSlugChar(s[i]) || s[i] == '-'
  }

  predicate NoDoubleDash(s: string)
  {
    forall i :: 0 <= i < |s| - 1 ==> !(s[i] == '-' && s[i + 1] == '-')
  }

  predicate NoEdgeDash(s: string)
  {
    s == [] || (s[0] != '-' && s[|s| - 1] != '-')
  }

  /** The slug characters of `s`, in order (the dashes and everything else removed). */
  function KeptChars(s: string): string
  {
    if s == [] then []
    else (if IsSlugChar(s[0]) then [s[0]] else []) + KeptChars(s[1..])
  }

  /** For each kept character after the first, whether at least one other character stands between
      it and the kept character before it. `seen` says a kept character has already been passed, and
      `pending` that another character followed it. In a slug those other characters are dashes. */
  function GapsFrom(s: string, seen: bool, pending: bool): seq<bool>
  {
    if s == [] then []
    else if IsSlugChar(s[0]) then (if seen then [pending] else []) + GapsFrom(s[1..], true, false)
    else GapsFrom(s[1..], seen, true)
  }

  function Gaps(s: string): seq<bool>
  {
    GapsFrom(s, false, false)
  }

  /** Before the first kept character, the characters that are dropped leave no gap. */
  lemma {:induction false} GapsBeforeFirst(s: string, pending: bool)
    ensures GapsFrom(s, false, pending) == GapsFrom(s, false, false)
  {
    if s != [] && !IsSlugChar(s[0]) {
      GapsBeforeFirst(s[1..], pending);
      GapsBeforeFirst(s[1..], false);
    }
  }

  /** After the last kept character, a dropped character leaves no gap. */
  lemma {:induction false} GapsDropLast(t: string, c: char, seen: bool, pending: bool)
    requires !IsSlugChar(c)
    ensures GapsFrom(t + [c], seen, pending) == GapsFrom(t, seen, pending)
  {
    if t == [] {
      assert t + [c] == [c];
    } else {
      assert (t + [c])[0] == t[0];
      assert (t + [c])[1..] == t[1..] + [c];
      if IsSlugChar(t[0]) {
        GapsDropLast(t[1..], c, true, false);
      } else {
        GapsDropLast(t[1..], c, seen, true);
      }
    }
  }

  lemma {:induction false} GapsReplace(s: string, seen: bool, pending: bool)
    ensures GapsFrom(ReplaceDisallowed(s), seen, pending) == GapsFrom(s, seen, pending)
  {
    if s != [] {
      assert ReplaceDisallowed(s)[1..] == ReplaceDisallowed(s[1..]);
      if IsSlugChar(s[0]) {
        GapsReplace(s[1..], true, false);
      } else {
        GapsReplace(s[1..], seen, true);
      }
    }
  }

  lemma {:induction false} GapsCollapse(s: string, seen: bool, pending: bool)
    ensures GapsFrom(CollapseDashes(s), seen, pending) == GapsFrom(s, seen, pending)
    decreases |s|
  {
    if |s| >= 2 {
      if s[0] == '-' && s[1] == '-' {
        GapsCollapse(s[1..], seen, pending);
        GapsCollapse(s[1..], seen, true);
      } else {
        var t := CollapseDashes(s[1..]);
        assert ([s[0]] + t)[1..] == t;
        if IsSlugChar(s[0]) {
          GapsCollapse(s[1..], true, false);
        } else {
          GapsCollapse(s[1..], seen, true);
        }
      }
    }
  }

  lemma GapsStrip(s: string)
    requires NoDoubleDash(s)
    ensures Gaps(StripEdgeDashes(s)) == Gaps(s)
  {
    var t := if s != [] && s[0] == '-' then s[1..] else s;
    if s != [] && s[0] == '-' {
      GapsBeforeFirst(t, true);
    }
    if t != [] && t[|t| - 1] == '-' {
      assert t[..|t| - 1] + ['-'] == t;
      GapsDropLast(t[..|t| - 1], '-', false, false);
    }
  }

  /** What follows a kept character in a slug: slug characters and single dashes, none at the end. */
  predicate SlugTail(s: string)
  {
    SlugAlphabet(s) && NoDoubleDash(s) && (s == [] || s[|s| - 1] != '-')
  }

  /** What follows any prefix of a slug tail is a slug tail. */
  lemma SlugTailSuffix(s: string, n: nat)
    requires SlugTail(s) && n <= |s|
    ensures SlugTail(s[n..])
  {
    assert s[n..] == [] || s[n..][|s[n..]| - 1] == s[|s| - 1];
    assert forall i :: 0 <= i < |s[n..]| ==> s[n..][i] == s[n + i];
  }

  /** A slug tail that starts with a slug character: that character is its first kept one and no
      gap comes before it. */
  lemma SlugTailLetter(s: string)
    requires SlugTail(s) && s != [] && IsSlugChar(s[0])
    ensures KeptChars(s) == [s[0]] + KeptChars(s[1..])
    ensures GapsFrom(s, true, false) == [false] + GapsFrom(s[1..], true, false)
    ensures SlugTail(s[1..])
  {
    SlugTailSuffix(s, 1);
  }

  /** A slug tail that starts otherwise starts with one dash and then a slug character. */
  lemma SlugTailDashShape(s: string)
    requires SlugTail(s) && s != [] && !IsSlugChar(s[0])
    ensures |s| >= 2 && s[0] == '-' && IsSlugChar(s[1])
  {
    assert s[0] == '-';
    assert |s| >= 2;
    assert s[1] != '-';
  }

  /** After the dash, the slug character is the first kept one, with a gap before it. */
  lemma SlugTailDash(s: string)
    requires SlugTail(s) && s != [] && !IsSlugChar(s[0])
    ensures |s| >= 2 && IsSlugChar(s[1])
    ensures KeptChars(s) == [s[1]] + KeptChars(s[2..])
    ensures GapsFrom(s, true, false) == [true] + GapsFrom(s[2..], true, false)
    ensures SlugTail(s[2..])
  {
    SlugTailDashShape(s);
    DashThenLetter(s);
    SlugTailSuffix(s, 2);
  }

  lemma DashThenLetter(s: string)
    requires |s| >= 2 && !IsSlugChar(s[0]) && IsSlugChar(s[1])
    ensures KeptChars(s) == [s[1]] + KeptChars(s[2..])
    ensures GapsFrom(s, true, false) == [true] + GapsFrom(s[2..], true, false)
  {
    assert s[1..][0] == s[1];
    assert s[1..][1..] == s[2..];
  }

  /** The first gap of a non-empty slug tail says whether it starts with a dash. */
  lemma SlugTailFirstGap(s: string)
    requires SlugTail(s) && s != []
    ensures GapsFrom(s, true, false) != [] && GapsFrom(s, true, false)[0] == !IsSlugChar(s[0])
  {
    if IsSlugChar(s[0]) {
      SlugTailLetter(s);
    } else {
      SlugTailDash(s);
    }
  }

  /** Two non-empty slug tails with the same kept characters and gaps agree on their first `n`
      characters, `n` being 1 or 2, and what follows has again the same kept characters and gaps. */
  lemma SlugTailStep(s: string, t: string) returns (n: nat)
    requires SlugTail(s) && SlugTail(t) && s != [] && t != []
    requires KeptChars(s) == KeptChars(t) && GapsFrom(s, true, false) == GapsFrom(t, true, false)
    ensures 1 <= n <= |s| && n <= |t| && s[..n] == t[..n]
    ensures SlugTail(s[n..]) && SlugTail(t[n..])
    ensures KeptChars(s[n..]) == KeptChars(t[n..]) && GapsFrom(s[n..], true, false) == GapsFrom(t[n..], true, false)
  {
    SlugTailFirstGap(s);
    SlugTailFirstGap(t);
    if IsSlugChar(s[0]) {
      SlugTailLetter(s);
      SlugTailLetter(t);
      SameTail(KeptChars(s), KeptChars(t), GapsFrom(s, true, false), GapsFrom(t, true, false));
      n := 1;
    } else {
      SlugTailDash(s);
      SlugTailDash(t);
      SameTail(KeptChars(s), KeptChars(t), GapsFrom(s, true, false), GapsFrom(t, true, false));
      assert s[..2] == [s[0], s[1]] && t[..2] == [t[0], t[1]];
      n := 2;
    }
  }

  lemma SameTail(ks: string, kt: string, gs: seq<bool>, gt: seq<bool>)
    requires ks == kt && ks != [] && gs == gt && gs != []
    ensures ks[0] == kt[0] && ks[1..] == kt[1..] && gs[1..] == gt[1..]
  {
  }

  /** A non-empty slug tail keeps at least one character. */
  lemma SlugTailKeeps(s: string)
    requires SlugTail(s) && s != []
    ensures KeptChars(s) != []
  {
    if IsSlugChar(s[0]) {
      SlugTailLetter(s);
    } else {
      SlugTailDash(s);
    }
  }

  /** Two slug tails with the same kept characters and the same gaps are the same string. */
  lemma {:induction false} SlugTailDetermined(s: string, t: string)
    requires SlugTail(s) && SlugTail(t)
    requires KeptChars(s) == KeptChars(t) && GapsFrom(s, true, false) == GapsFrom(t, true, false)
    ensures s == t
    decreases |s|
  {
    if s != [] {
      SlugTailKeeps(s);
    }
    if t != [] {
      SlugTailKeeps(t);
    }
    if s != [] && t != [] {
      var n := SlugTailStep(s, t);
      SlugTailDetermined(s[n..], t[n..]);
      assert s == s[..n] + s[n..] && t == t[..n] + t[n..];
    }
  }

  /** A slug is fixed by its kept characters and its gaps: any string of slug characters and single
      inner dashes with the same kept characters and the same gaps as `GenerateSlug(text)` is that slug. */
  lemma SlugDetermined(s: string, t: string)
    requires SlugAlphabet(s) && NoDoubleDash(s) && NoEdgeDash(s)
    requires SlugAlphabet(t) && NoDoubleDash(t) && NoEdgeDash(t)
    requires KeptChars(s) == KeptChars(t) && Gaps(s) == Gaps(t)
    ensures s == t
  {
    if s != [] && t != [] {
      assert s[1..] == [] || s[1..][|s[1..]| - 1] == s[|s| - 1];
      assert t[1..] == [] || t[1..][|t[1..]| - 1] == t[|t| - 1];
      assert SlugTail(s[1..]) && SlugTail(t[1..]);
      assert IsSlugChar(s[0]) && IsSlugChar(t[0]);
      assert KeptChars(s) == [s[0]] + KeptChars(s[1..]) && KeptChars(t) == [t[0]] + KeptChars(t[1..]);
      assert s[0] == t[0] by {
        assert KeptChars(s)[0] == s[0] && KeptChars(t)[0] == t[0];
      }
      assert KeptChars(s[1..]) == KeptChars(s)[1..] && KeptChars(t[1..]) == KeptChars(t)[1..];
      assert Gaps(s) == GapsFrom(s[1..], true, false) && Gaps(t) == GapsFrom(t[1..], true, false);
      SlugTailDetermined(s[1..], t[1..]);
      assert s == [s[0]] + s[1..] && t == [t[0]] + t[1..];
    }
  }

  /** `.replace(/[^a-z0-9가-힣]/g, '-')` */
  function ReplaceDisallowed(s: string): (r: string)
    ensures |r| == |s| && SlugAlphabet(r)
    ensures forall i :: 0 <= i < |s| ==> r[i] == (if IsSlugChar(s[i]) then s[i] else '-')
  {
    if s == [] then [] else [if IsSlugChar(s[0]) then s[0] else '-'] + ReplaceDisallowed(s[1..])
  }

  /** `.replace(/-+/g, '-')` */
  function CollapseDashes(s: string): (r: string)
    ensures |r| <= |s|
    ensures s != [] ==> r != [] && r[0] == s[0] && r[|r| - 1] == s[|s| - 1]
    ensures NoDoubleDash(r)
    ensures SlugAlphabet(s) ==> SlugAlphabet(r)
    ensures KeptChars(r) == KeptChars(s)
  {
    if |s| < 2 then s
    else if s[0] == '-' && s[1] == '-' then
      CollapseDashes(s[1..])
    else
      var t := CollapseDashes(s[1..]);
      var r := [s[0]] + t;
      assert r[1..] == t;
      r
  }

  /** `.replace(/^-|-$/g, '')` on a string without double dashes. */
  function StripEdgeDashes(s: string): (r: string)
    ensures NoDoubleDash(s) ==> NoDoubleDash(r) && NoEdgeDash(r)
    ensures SlugAlphabet(s) ==> SlugAlphabet(r)
    ensures KeptChars(r) == KeptChars(s)
  {
    var t := if s != [] && s[0] == '-' then s[1..] else s;
    KeptCharsDropDash(s);
    var r := if t != [] && t[|t| - 1] == '-' then t[..|t| - 1] else t;
    KeptCharsDropLastDash(t);
    assert NoDoubleDash(s) ==> NoDoubleDash(t);
    assert NoDoubleDash(s) && t != [] ==> t[0] != '-';
    r
  }

  lemma KeptCharsDropDash(s: string)
    ensures s != [] && s[0] == '-' ==> KeptChars(s[1..]) == KeptChars(s)
  {
  }

  lemma {:induction false} KeptCharsDropLastDash(t: string)
    ensures t != [] && t[|t| - 1] == '-' ==> KeptChars(t[..|t| - 1]) == KeptChars(t)
  {
    if t != [] && t[|t| - 1] == '-' {
      KeptCharsAppend(t[..|t| - 1], "-");
      assert t[..|t| - 1] + "-" == t;
    }
  }

  lemma {:induction false} KeptCharsAppend(a: string, b: string)
    ensures KeptChars(a + b) == KeptChars(a) + KeptChars(b)
  {
    if a != [] {
      assert (a + b)[1..] == a[1..] + b;
      KeptCharsAppend(a[1..], b);
    } else {
      assert a + b == b;
    }
  }

  /** `generateSlug`. */
  function GenerateSlug(text: string): (slug: string)
    ensures SlugAlphabet(slug)
    ensures NoDoubleDash(slug)
    ensures NoEdgeDash(slug)
    ensures KeptChars(slug) == KeptChars(ToLower(text))
    ensures Gaps(slug) == Gaps(ToLower(text))
  {
    var lowered := ToLower(text);
    KeptCharsReplace(lowered);
    GapsReplace(lowered, false, false);
    GapsCollapse(ReplaceDisallowed(lowered), false, false);
    GapsStrip(CollapseDashes(ReplaceDisallowed(lowered)));
    StripEdgeDashes(CollapseDashes(ReplaceDisallowed(lowered)))
  }

  /** The slug is the only string of slug characters and single inner dashes that keeps the lowered
      text's slug characters in order and puts a dash exactly where the text has other characters
      between two of them. */
  lemma GenerateSlugUnique(text: string, t: string)
    requires SlugAlphabet(t) && NoDoubleDash(t) && NoEdgeDash(t)
    requires KeptChars(t) == KeptChars(ToLower(text)) && Gaps(t) == Gaps(ToLower(text))
    ensures t == GenerateSlug(text)
  {
    SlugDetermined(t, GenerateSlug(text));
  }

  lemma {:induction false} KeptCharsReplace(s: string)
    ensures KeptChars(ReplaceDisallowed(s)) == KeptChars(s)
  {
    if s != [] {
      KeptCharsReplace(s[1..]);
      assert ReplaceDisallowed(s)[1..] == ReplaceDisallowed(s[1..]);
    }
  }

  /** A slug is its own slug, so `generateSlug` is idempotent. */
  lemma SlugIdempotent(text: string)
    ensures GenerateSlug(GenerateSlug(text)) == GenerateSlug(text)
  {
    var s := GenerateSlug(text);
    LowerOfSlugAlphabet(s);
    ReplaceOfSlugAlphabet(s);
    CollapseIdentity(s);
    StripIdentity(s);
  }

  lemma LowerOfSlugAlphabet(s: string)
    requires SlugAlphabet(s)
    ensures ToLower(s) == s
  {
    assert forall i :: 0 <= i < |s| ==> LowerChar(s[i]) == s[i];
  }

  lemma ReplaceOfSlugAlphabet(s: string)
    requires SlugAlphabet(s)
    ensures ReplaceDisallowed(s) == s
  {
  }

  lemma StripIdentity(s: string)
    requires NoEdgeDash(s)
    ensures StripEdgeDashes(s) == s
  {
  }

  lemma {:induction false} CollapseIdentity(s: string)
    requires NoDoubleDash(s)
    ensures CollapseDashes(s) == s
  {
    if |s| >= 2 {
      CollapseIdentity(s[1..]);
    }
  }

  lemma SlugExamples()
    ensures GenerateSlug("A b") == "a-b"
    ensures GenerateSlug("-") == ""
  {
    assert ToLower("A b") == "a b";
    assert ReplaceDisallowed("a b") == "a-b";
    assert CollapseDashes("b") == "b";
    assert CollapseDashes("-b") == "-b";
    assert CollapseDashes("a-b") == "a-b";
    assert ToLower("-") == "-";
    assert ReplaceDisallowed("-") == "-";
  }
}
