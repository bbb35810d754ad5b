/** The editor's code-block node: its `language` attribute read from and written
    to HTML (`<pre><code class="language-…">`), the toggle between code block and
    paragraph, and the Backspace and Enter key handlers. The document is a
    sequence of text blocks; a cursor is a block index and an offset in its text. */
module CodeBlock {
  import opened Common

  const NodeName := "codeBlock"
  const LanguageClassPrefix := "language-"
  const DefaultLanguage := "javascript"

  // ---------------------------------------------------------------------------
  // The language attribute in HTML.

  /** An HTML element: tag, `class` attribute (if any) and element children. */
  datatype HtmlElement = HtmlElement(tag: string, classAttr: Option<string>, children: seq<HtmlElement>)

  /** The ASCII white space that separates class names. */
  predicate IsClassSeparator(c: char)
  {
    c == ' ' || c == '\t' || c == '\n' || c == '\r' || c == '\U{000C}'
  }

  predicate NoSeparator(s: string)
  {
    forall i :: 0 <= i < |s| ==> !IsClassSeparator(s[i])
  }

  /** Length of the leading run of `s` that holds no separator. */
  function WordLength(s: string): (n: nat)
    ensures n <= |s|
    ensures forall i :: 0 <= i < n ==> !IsClassSeparator(s[i])
    ensures n < |s| ==> IsClassSeparator(s[n])
  {
    if s == [] || IsClassSeparator(s[0]) then 0 else 1 + WordLength(s[1..])
  }

  /** The class names of a `class` attribute, in order: its non-empty separator-free runs. */
  function ClassNames(s: string): (r: seq<string>)
    ensures forall k :: 0 <= k < |r| ==> r[k] != "" && NoSeparator(r[k])
    decreases |s|
  {
    if s == [] then []
    else if IsClassSeparator(s[0]) then ClassNames(s[1..])
    else
      var n := WordLength(s);
      [s[..n]] + ClassNames(s[n..])
  }

  /** The class names are read token by token: a leading separator is skipped, and a word that runs
      up to a separator is the next class name. */
  lemma ClassNamesCons(w: string, c: char, rest: string)
    requires IsClassSeparator(c)
    ensures ClassNames([c] + rest) == ClassNames(rest)
    ensures w != "" && NoSeparator(w) ==> ClassNames(w + [c] + rest) == [w] + ClassNames(rest)
  {
    assert ([c] + rest)[1..] == rest;
    if w != "" && NoSeparator(w) {
      var s := w + [c] + rest;
      WordLengthPrefix(s, |w|);
      assert s[..|w|] == w;
      assert s[|w|..] == [c] + rest;
    }
  }

  lemma ClassNamesOfWord(s: string)
    requires s != "" && NoSeparator(s)
    ensures ClassNames(s) == [s]
  {
    assert WordLength(s) == |s| by {
      WordLengthOfWord(s);
    }
    assert s[..|s|] == s;
  }

  lemma {:induction false} WordLengthOfWord(s: string)
    requires NoSeparator(s)
    ensures WordLength(s) == |s|
  {
    if s != [] {
      WordLengthOfWord(s[1..]);
    }
  }

  /** `classNames.filter(startsWith(prefix)).map(replace(prefix, ''))`: the replace removes the first
      occurrence of the prefix, which is the leading one. */
  function LanguagesOf(names: seq<string>): (r: seq<string>)
    ensures |r| <= |names|
    ensures forall k :: 0 <= k < |r| ==> LanguageClassPrefix + r[k] in names
    ensures r == [] <==> forall i :: 0 <= i < |names| ==> !StartsWith(names[i], LanguageClassPrefix)
  {
    if names == [] then []
    else
      var rest := LanguagesOf(names[1..]);
      if StartsWith(names[0], LanguageClassPrefix) then
        assert LanguageClassPrefix + names[0][|LanguageClassPrefix|..] == names[0];
        [names[0][|LanguageClassPrefix|..]] + rest
      else rest
  }

  /** Filtering and mapping class names by class name: the languages of a concatenation are the
      languages of its parts, in order. */
  lemma {:induction false} LanguagesOfAppend(a: seq<string>, b: seq<string>)
    ensures LanguagesOf(a + b) == LanguagesOf(a) + LanguagesOf(b)
  {
    if a != [] {
      assert (a + b)[0] == a[0];
      assert (a + b)[1..] == a[1..] + b;
      LanguagesOfAppend(a[1..], b);
    } else {
      assert a + b == b;
    }
  }

  /** `i` is the first class name that starts with the language prefix. */
  predicate FirstLanguageClass(names: seq<string>, i: int)
  {
    0 <= i < |names| && StartsWith(names[i], LanguageClassPrefix) &&
    forall j :: 0 <= j < i ==> !StartsWith(names[j], LanguageClassPrefix)
  }

  /** The first language found is the remainder of the first class name with the prefix. */
  lemma {:induction false} LanguagesOfFirst(names: seq<string>, i: int)
    requires FirstLanguageClass(names, i)
    ensures LanguagesOf(names) != [] && LanguagesOf(names)[0] == names[i][|LanguageClassPrefix|..]
  {
    if StartsWith(names[0], LanguageClassPrefix) {
      assert i == 0;
    } else {
      assert FirstLanguageClass(names[1..], i - 1) by {
        forall j | 0 <= j < i - 1
          ensures !StartsWith(names[1..][j], LanguageClassPrefix)
        {
          assert names[1..][j] == names[j + 1];
        }
      }
      LanguagesOfFirst(names[1..], i - 1);
    }
  }

  lemma LanguagesOfFirstAll(names: seq<string>)
    ensures forall i :: FirstLanguageClass(names, i) ==>
      LanguagesOf(names) != [] && LanguagesOf(names)[0] == names[i][|LanguageClassPrefix|..]
  {
    forall i | FirstLanguageClass(names, i)
      ensures LanguagesOf(names) != [] && LanguagesOf(names)[0] == names[i][|LanguageClassPrefix|..]
    {
      LanguagesOfFirst(names, i);
    }
  }

  /** The class names of the first child element (`firstElementChild?.classList || []`). */
  function FirstChildClasses(pre: HtmlElement): seq<string>
  {
    if pre.children != [] && pre.children[0].classAttr.Some? then ClassNames(pre.children[0].classAttr.value)
    else []
  }

  /** The `parseHTML` of the language attribute: the first `language-` class of the first child
      element, without its prefix; the default when there is none or its remainder is empty. */
  function ParseLanguage(pre: HtmlElement): (language: string)
    ensures language != ""
    ensures (forall i :: 0 <= i < |FirstChildClasses(pre)| ==> !StartsWith(FirstChildClasses(pre)[i], LanguageClassPrefix))
      ==> language == DefaultLanguage
    ensures forall i :: FirstLanguageClass(FirstChildClasses(pre), i) ==>
      language == if |FirstChildClasses(pre)[i]| > |LanguageClassPrefix|
                  then FirstChildClasses(pre)[i][|LanguageClassPrefix|..] else DefaultLanguage
  {
    var names := FirstChildClasses(pre);
    LanguagesOfFirstAll(names);
    var languages := LanguagesOf(names);
    if languages == [] || languages[0] == "" then DefaultLanguage else languages[0]
  }

  /** The class list of a highlighted block: `"hljs language-python"` gives "python". */
  lemma ParseHighlightedClass()
    ensures ParseLanguage(HtmlElement("pre", None, [HtmlElement("code", Some("hljs language-python"), [])])) == "python"
  {
    HighlightedClassNames("hljs", "language-python", "hljs language-python");
    FirstClassIsLanguage("hljs", "language-python");
  }

  lemma HighlightedClassNames(a: string, b: string, s: string)
    requires a == "hljs" && b == "language-python" && s == "hljs language-python"
    ensures ClassNames(s) == [a, b]
  {
    assert s == a + [' '] + b;
    assert NoSeparator(a) && NoSeparator(b);
    ClassNamesTwoWords(a, ' ', b);
  }

  lemma ClassNamesTwoWords(a: string, c: char, b: string)
    requires a != "" && NoSeparator(a) && IsClassSeparator(c) && b != "" && NoSeparator(b)
    ensures ClassNames(a + [c] + b) == [a, b]
  {
    ClassNamesOfWord(b);
    ClassNamesCons(a, c, b);
  }

  lemma FirstClassIsLanguage(a: string, b: string)
    requires a == "hljs" && b == "language-python"
    ensures FirstLanguageClass([a, b], 1)
    ensures b[|LanguageClassPrefix|..] == "python"
  {
    assert !StartsWith(a, LanguageClassPrefix) by {
      assert a[0] != LanguageClassPrefix[0];
    }
    assert b[..|LanguageClassPrefix|] == LanguageClassPrefix;
  }

  /** `renderHTML`: `<pre><code class="language-L">`, with no class for an empty language. */
  function RenderLanguage(language: string): (pre: HtmlElement)
    ensures pre.tag == "pre" && |pre.children| == 1 && pre.children[0].tag == "code"
    ensures language != "" <==> pre.children[0].classAttr.Some?
    ensures language != "" ==> pre.children[0].classAttr == Some(LanguageClassPrefix + language)
  {
    var cls := if language != "" then Some(LanguageClassPrefix + language) else None;
    HtmlElement("pre", None, [HtmlElement("code", cls, [])])
  }

  /** A language rendered to HTML is read back unchanged when it has no class separator in it;
      an empty language is read back as the default. */
  lemma RenderParseRoundTrip(language: string)
    requires NoSeparator(language)
    ensures ParseLanguage(RenderLanguage(language)) == if language == "" then DefaultLanguage else language
  {
    if language != "" {
      var cls := LanguageClassPrefix + language;
      assert NoSeparator(cls) by {
        forall i | 0 <= i < |cls| ensures !IsClassSeparator(cls[i]) {
          if i >= |LanguageClassPrefix| { assert cls[i] == language[i - |LanguageClassPrefix|]; }
        }
      }
      ClassNamesOfWord(cls);
      assert StartsWith(cls, LanguageClassPrefix);
      assert cls[|LanguageClassPrefix|..] == language;
      assert LanguagesOf([cls]) == [language];
    }
  }

  /** Parsing is stable: a parsed language, rendered and parsed again, comes back unchanged, whatever
      the HTML it was first read from. */
  lemma ParseRenderParse(pre: HtmlElement)
    ensures ParseLanguage(RenderLanguage(ParseLanguage(pre))) == ParseLanguage(pre)
  {
    ParsedHasNoSeparator(pre);
    RenderParseRoundTrip(ParseLanguage(pre));
  }

  /** A parsed language holds no white space: it is the default or the tail of one class name. */
  lemma ParsedHasNoSeparator(pre: HtmlElement)
    ensures NoSeparator(ParseLanguage(pre))
  {
    var names := FirstChildClasses(pre);
    var languages := LanguagesOf(names);
    if languages == [] || languages[0] == "" {
      assert NoSeparator(DefaultLanguage) by {
        forall i | 0 <= i < |DefaultLanguage|
          ensures !IsClassSeparator(DefaultLanguage[i])
        {
          assert 'a' <= DefaultLanguage[i] <= 'v';
        }
      }
    } else {
      var cls := LanguageClassPrefix + languages[0];
      assert cls in names;
      assert NoSeparator(cls);
      forall j | 0 <= j < |languages[0]|
        ensures !IsClassSeparator(languages[0][j])
      {
        assert languages[0][j] == cls[|LanguageClassPrefix| + j];
      }
    }
  }

  /** A language with a space in it loses its tail: `"a b"` comes back as `"a"`. */
  lemma LanguageWithSpace()
    ensures ParseLanguage(RenderLanguage("a b")) == "a"
  {
    var cls := LanguageClassPrefix + "a b";
    assert cls == "language-a" + " " + "b";
    assert WordLength(cls) == 10 by {
      assert forall i :: 0 <= i < 10 ==> !IsClassSeparator(cls[i]);
      WordLengthPrefix(cls, 10);
    }
    assert cls[..10] == "language-a";
    assert cls[10..] == " b";
    assert ClassNames(" b") == ClassNames("b");
    ClassNamesOfWord("b");
    assert ClassNames(cls) == ["language-a", "b"];
    assert "language-a"[|LanguageClassPrefix|..] == "a";
    assert !StartsWith("b", LanguageClassPrefix);
    assert LanguagesOf(["b"]) == [];
    assert LanguagesOf(["language-a", "b"]) == ["a"] by {
      assert ["language-a", "b"][1..] == ["b"];
    }
  }

  lemma {:induction false} WordLengthPrefix(s: string, n: nat)
    requires n < |s| && IsClassSeparator(s[n])
    requires forall i :: 0 <= i < n ==> !IsClassSeparator(s[i])
    ensures WordLength(s) == n
  {
    if n > 0 {
      WordLengthPrefix(s[1..], n - 1);
    }
  }

  // ---------------------------------------------------------------------------
  // The document, the toggle and the key handlers.

  /** A text block: a paragraph, a code block with its language, or another text block (such as a heading). */
  datatype Block = Paragraph(text: string) | Code(text: string, language: string) | OtherBlock(kind: string, text: string)

  /** `isNodeActive(codeBlock, attrs)`: the block is a code block and matches the given language, if any. */
  predicate CodeActive(b: Block, attrs: Option<string>)
  {
    b.Code? && (attrs.None? || b.language == attrs.value)
  }

  /** `toggleNode('codeBlock', 'paragraph', attrs)` on one block: an active code block becomes a paragraph,
      any other block becomes a code block with the given language or the default. The text is kept. */
  function Toggle(b: Block, attrs: Option<string>): (r: Block)
    ensures r.text == b.text
    ensures CodeActive(b, attrs) <==> r.Paragraph?
    ensures !CodeActive(b, attrs) ==> r == Code(b.text, if attrs.Some? then attrs.value else DefaultLanguage)
  {
    if CodeActive(b, attrs) then Paragraph(b.text)
    else Code(b.text, if attrs.Some? then attrs.value else DefaultLanguage)
  }

  /** The shortcut toggles a paragraph into a code block and back; a code block toggled twice keeps
      its text but comes back with the default language. */
  lemma ToggleTwice(b: Block)
    ensures b.Paragraph? ==> Toggle(Toggle(b, None), None) == b
    ensures b.Code? ==> Toggle(Toggle(b, None), None) == Code(b.text, DefaultLanguage)
  {
  }

  /** The node size of a text block: its text plus the opening and closing tokens. */
  function NodeSize(b: Block): nat
  {
    |b.text| + 2
  }

  function SizeBefore(doc: seq<Block>, at: nat): nat
    requires at <= |doc|
  {
    if at == 0 then 0 else SizeBefore(doc, at - 1) + NodeSize(doc[at - 1])
  }

  /** The document position of offset `offset` in block `at`. */
  function Position(doc: seq<Block>, at: nat, offset: nat): nat
    requires at <= |doc|
  {
    SizeBefore(doc, at) + 1 + offset
  }

  /** Position 1 is exactly the start of the first block's text. */
  lemma {:induction false} PositionOneIsDocumentStart(doc: seq<Block>, at: nat, offset: nat)
    requires at < |doc|
    ensures Position(doc, at, offset) == 1 <==> at == 0 && offset == 0
  {
    if at > 0 {
      SizeBeforeGrows(doc, at);
    }
  }

  lemma SizeBeforeGrows(doc: seq<Block>, at: nat)
    requires 0 < at <= |doc|
    ensures SizeBefore(doc, at) >= 2
  {
  }

  /** The Enter handler takes over only for an empty selection at the end of a code block whose text
      ends with a blank line. */
  predicate EnterApplies(b: Block, offset: nat, empty: bool)
  {
    empty && b.Code? && offset == NodeSize(b) - 2 && EndsWith(b.text, "\n\n")
  }

  /** The Backspace handler takes over for an empty selection in a code block at document position 1
      or in an empty code block. */
  predicate BackspaceApplies(b: Block, position: nat, empty: bool)
  {
    empty && b.Code? && (position == 1 || |b.text| == 0)
  }

  /** The editor state the handlers see: the blocks, the block holding the cursor, the offset
      in its text, and whether the selection is empty. */
  class CodeEditor {
    var doc: seq<Block>
    var at: nat
    var offset: nat
    var empty: bool

    predicate Valid()
      reads this
    {
      at < |doc| && offset <= |doc[at].text|
    }

    constructor(doc: seq<Block>, at: nat, offset: nat, empty: bool)
      requires at < |doc| && offset <= |doc[at].text|
      ensures Valid()
      ensures this.doc == doc && this.at == at && this.offset == offset && this.empty == empty
    {
      this.doc := doc;
      this.at := at;
      this.offset := offset;
      this.empty := empty;
    }

    /** `Mod-Alt-c`: toggles the cursor's block; the cursor stays. */
    method ToggleCodeBlock(attrs: Option<string>)
      requires Valid()
      modifies this
      ensures Valid()
      ensures doc == old(doc)[old(at) := Toggle(old(doc)[old(at)], attrs)]
      ensures at == old(at) && offset == old(offset) && empty == old(empty)
    {
      doc := doc[at := Toggle(doc[at], attrs)];
    }

    /** Backspace: when it applies, the code block is cleared to a paragraph with the same text;
        otherwise the key is left to the default handling. */
    method Backspace() returns (handled: bool)
      requires Valid()
      modifies this
      ensures Valid()
      ensures handled <==> BackspaceApplies(old(doc)[old(at)], Position(old(doc), old(at), old(offset)), old(empty))
      ensures handled ==> doc == old(doc)[old(at) := Paragraph(old(doc)[old(at)].text)]
      ensures !handled ==> doc == old(doc)
      ensures at == old(at) && offset == old(offset) && empty == old(empty)
    {
      var b := doc[at];
      var isAtStart := Position(doc, at, offset) == 1;
      if !empty || !b.Code? {
        return false;
      }
      if isAtStart || |b.text| == 0 {
        doc := doc[at := Paragraph(b.text)];
        return true;
      }
      return false;
    }

    /** Enter: when it applies, the trailing blank line is deleted and the cursor leaves the code
        block for a new empty paragraph after it; otherwise nothing changes. */
    method Enter() returns (handled: bool)
      requires Valid()
      modifies this
      ensures Valid()
      ensures handled <==> EnterApplies(old(doc)[old(at)], old(offset), old(empty))
      ensures handled ==>
        var b := old(doc)[old(at)];
        doc == old(doc)[..old(at)] + [Code(b.text[..|b.text| - 2], b.language), Paragraph("")] + old(doc)[old(at) + 1..]
        && at == old(at) + 1 && offset == 0 && empty
      ensures !handled ==> doc == old(doc) && at == old(at) && offset == old(offset) && empty == old(empty)
    {
      var b := doc[at];
      if !empty || !b.Code? {
        return false;
      }
      var isAtEnd := offset == NodeSize(b) - 2;
      var endsWithDoubleNewline := EndsWith(b.text, "\n\n");
      if isAtEnd && endsWithDoubleNewline {
        // delete the two newlines before the cursor, then exitCode
        var kept := Code(b.text[..|b.text| - 2], b.language);
        doc := doc[..at] + [kept, Paragraph("")] + doc[at + 1..];
        at := at + 1;
        offset := 0;
        return true;
      }
      return false;
    }
  }
}
