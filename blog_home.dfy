/** The blog home page: the post-type tab links, the active tab, and the
    pagination bar's buttons. */
module BlogHome {
  import opened Common
  import opened Url
  import opened Navigate

  /** A post-type tab: `ALL` or one post type. */
  datatype Tab = All | TypeTab(t: PostType)

  /** The tabs in display order, with their labels. */
  const Tabs: seq<Tab> := [All, TypeTab(CORE), TypeTab(ARCHITECTURE), TypeTab(TROUBLESHOOTING), TypeTab(ESSAY)]

  function TabLabel(tab: Tab): string
  {
    match tab
    case All => "전체"
    case TypeTab(CORE) => "Core"
    case TypeTab(ARCHITECTURE) => "Architecture"
    case TypeTab(TROUBLESHOOTING) => "Troubleshooting"
    case TypeTab(ESSAY) => "Essay"
  }

  /** Every post type has exactly one tab, after the `ALL` tab. */
  lemma TabsCoverTypes(t: PostType)
    ensures Tabs[0] == All
    ensures exists i :: 1 <= i < |Tabs| && Tabs[i] == TypeTab(t)
    ensures forall i, j :: 0 <= i < j < |Tabs| ==> Tabs[i] != Tabs[j]
  {
    match t
    case CORE => assert Tabs[1] == TypeTab(t);
    case ARCHITECTURE => assert Tabs[2] == TypeTab(t);
    case TROUBLESHOOTING => assert Tabs[3] == TypeTab(t);
    case ESSAY => assert Tabs[4] == TypeTab(t);
  }

  function TypeName(t: PostType): string
  {
    match t
    case CORE => "CORE"
    case ARCHITECTURE => "ARCHITECTURE"
    case TROUBLESHOOTING => "TROUBLESHOOTING"
    case ESSAY => "ESSAY"
  }

  /** The path segment of a post type. */
  function TypeSlug(t: PostType): string
  {
    match t
    case CORE => "core"
    case ARCHITECTURE => "architecture"
    case TROUBLESHOOTING => "troubleshooting"
    case ESSAY => "essay"
  }

  /** The segment is `type.toLowerCase()`, and route syntax leaves it alone. */
  lemma TypeSlugValues(t: PostType)
    ensures TypeSlug(t) == ToLower(TypeName(t))
    ensures PlainSegment(TypeSlug(t))
  {
    var s, r := TypeName(t), TypeSlug(t);
    assert |s| == |r|;
    assert forall i :: 0 <= i < |s| ==> 'A' <= s[i] <= 'Z' && r[i] as int == s[i] as int + 32;
    LowerOfUpper(s, r);
  }

  lemma LowerOfUpper(s: string, r: string)
    requires |s| == |r| && s != ""
    requires forall i :: 0 <= i < |s| ==> 'A' <= s[i] <= 'Z' && r[i] as int == s[i] as int + 32
    ensures ToLower(s) == r && PlainSegment(r)
  {
    forall i | 0 <= i < |s| ensures ToLower(s)[i] == r[i] && 'a' <= r[i] <= 'z' {
    }
  }

  /** Different post types get different path segments. */
  lemma TypeSlugInjective(a: PostType, b: PostType)
    requires TypeSlug(a) == TypeSlug(b)
    ensures a == b
  {
    assert |TypeSlug(a)| == |TypeSlug(b)|;
    assert TypeSlug(a)[0] == TypeSlug(b)[0];
  }

  // ---------------------------------------------------------------------------
  // Tab links.

  /** `handleTabClick(tab)` as written: group and stack are kept only when both are truthy, the type's
      lower-cased name is appended unless the tab is ALL, and a truthy keyword is spliced in raw. */
  function TabClick(tab: Tab, params: RouteParams, keyword: Option<string>): (to: string)
    ensures |to| >= 1 && to[0] == '/'
  {
    WithKeyword(TabBase(tab, params), keyword)
  }

  /** `basePath` of `handleTabClick`. */
  function TabBase(tab: Tab, params: RouteParams): string
  {
    if Truthy(params.group) && Truthy(params.stack) then
      if tab.All? then "/" + params.group.value + "/" + params.stack.value
      else "/" + params.group.value + "/" + params.stack.value + "/" + TypeSlug(tab.t)
    else
      if tab.All? then "/" else "/" + TypeSlug(tab.t)
  }

  /** The route segments a tab link is meant to open. */
  function TabSegments(tab: Tab, params: RouteParams): (segs: seq<string>)
    ensures NonEmptySegments(segs)
  {
    var scope := if Truthy(params.group) && Truthy(params.stack) then [params.group.value, params.stack.value] else [];
    var kind := if tab.All? then [] else [TypeSlug(tab.t)];
    TypeSlugValuesAll();
    scope + kind
  }

  lemma TypeSlugValuesAll()
    ensures forall t: PostType :: PlainSegment(TypeSlug(t))
  {
    forall t: PostType ensures PlainSegment(TypeSlug(t)) {
      TypeSlugValues(t);
    }
  }

  lemma Join2(a: string, b: string)
    ensures Join([a, b], '/') == a + "/" + b
  {
    assert [a, b][1..] == [b];
  }

  lemma Join3(a: string, b: string, c: string)
    ensures Join([a, b, c], '/') == a + "/" + b + "/" + c
  {
    assert [a, b, c][1..] == [b, c];
    Join2(b, c);
  }

  /** The base path is the path of the tab's segments. */
  lemma TabBaseIsPath(tab: Tab, params: RouteParams)
    ensures TabBase(tab, params) == JoinPath(TabSegments(tab, params))
  {
    var segs := TabSegments(tab, params);
    if Truthy(params.group) && Truthy(params.stack) {
      var g, s := params.group.value, params.stack.value;
      if tab.All? {
        assert segs == [g, s];
        Join2(g, s);
      } else {
        assert segs == [g, s, TypeSlug(tab.t)];
        Join3(g, s, TypeSlug(tab.t));
      }
    } else if !tab.All? {
      assert segs == [TypeSlug(tab.t)];
    }
  }

  /** The tab link is the raw link for its segments. */
  lemma TabClickIsTarget(tab: Tab, params: RouteParams, keyword: Option<string>)
    ensures TabClick(tab, params, keyword) == Target(TabSegments(tab, params), keyword)
  {
    TabBaseIsPath(tab, params);
  }

  /** Without both a group and a stack the tab link ignores the scope: a group alone is dropped. */
  lemma TabClickIgnoresLoneGroup(tab: Tab, params: RouteParams, keyword: Option<string>)
    requires !Truthy(params.stack)
    ensures TabClick(tab, params, keyword) == TabClick(tab, RouteParams(params.postType, None, None), keyword)
  {
  }

  /** The raw tab link opens its route when the group, the stack and the keyword are plain text. */
  lemma TabClickReadsBack(tab: Tab, params: RouteParams, keyword: Option<string>)
    requires Truthy(params.group) && Truthy(params.stack) ==>
      PlainSegment(params.group.value) && PlainSegment(params.stack.value)
    requires Truthy(keyword) ==> PlainKeyword(keyword.value)
    ensures ReadBack(TabClick(tab, params, keyword)) == Intended(TabSegments(tab, params), keyword)
  {
    TabClickIsTarget(tab, params, keyword);
    TypeSlugValuesAll();
    PlainTargetReadsBack(TabSegments(tab, params), keyword);
  }

  /** A keyword with `+` in it is lost by the raw tab link: `c++` comes back as `c  `. */
  lemma TabClickLosesPlus()
    ensures ReadBack(TabClick(All, RouteParams(None, None, None), Some("c++"))).q == Some("c  ")
  {
    TabClickIsTarget(All, RouteParams(None, None, None), Some("c++"));
    assert TabSegments(All, RouteParams(None, None, None)) == [];
    KeywordPlusLost();
  }

  /** The tab link with every piece escaped: it opens its route for every group, stack and keyword. */
  function TabClickEncoded(tab: Tab, params: RouteParams, keyword: Option<string>): (to: string)
    ensures |to| >= 1 && to[0] == '/'
    ensures ReadBack(to) == Intended(TabSegments(tab, params), keyword)
  {
    EncodedTargetReadsBack(TabSegments(tab, params), keyword);
    EncodedTarget(TabSegments(tab, params), keyword)
  }

  /** `filter.postType || 'ALL'`. */
  function CurrentTab(postType: Option<PostType>): (tab: Tab)
    ensures postType.Some? ==> tab == TypeTab(postType.value)
    ensures postType.None? ==> tab == All
  {
    if postType.Some? then TypeTab(postType.value) else All
  }

  // ---------------------------------------------------------------------------
  // Pagination bar.

  datatype PageButton = PageButton(page: nat, caption: string, active: bool)

  /** The bar is shown only when there is more than one page. */
  predicate ShowPagination(totalPages: int)
  {
    totalPages > 1
  }

  /** `Array.from({ length: n }, (_, i) => …)`: button i goes to page i, is labelled i + 1,
      and is highlighted when it is the current page. */
  function PageButtons(n: nat, current: int): (r: seq<PageButton>)
    ensures |r| == n
    ensures forall i :: 0 <= i < n ==> r[i].page == i
    ensures forall i :: 0 <= i < n ==> r[i].caption == NatToString(i + 1)
    ensures forall i :: 0 <= i < n ==> (r[i].active <==> current == i)
  {
    if n == 0 then []
    else PageButtons(n - 1, current) + [PageButton(n - 1, NatToString(n), current == n - 1)]
  }

  /** Each button's label reads as its page number plus one, so the labels are 1..n and all differ. */
  lemma PageButtonLabels(n: nat, current: int, i: nat, j: nat)
    requires i < n && j < n
    ensures ParseDecimal(PageButtons(n, current)[i].caption) == i + 1
    ensures i != j ==> PageButtons(n, current)[i].caption != PageButtons(n, current)[j].caption
  {
    ParseNatToString(i + 1);
    if i != j && NatToString(i + 1) == NatToString(j + 1) {
      NatToStringInjective(i + 1, j + 1);
    }
  }

  /** At most one button is highlighted, and exactly one when the current page is on the bar. */
  lemma OneActiveButton(n: nat, current: int)
    ensures forall i, j :: 0 <= i < j < n ==> !(PageButtons(n, current)[i].active && PageButtons(n, current)[j].active)
    ensures 0 <= current < n ==> PageButtons(n, current)[current].active
  {
  }

  /** The previous and next buttons: the page they ask for and whether they are disabled. */
  datatype StepButton = StepButton(page: int, disabled: bool)

  function PrevButton(page: int, hasPrevious: bool): (b: StepButton)
    ensures b.page == page - 1 && (b.disabled <==> !hasPrevious)
  {
    StepButton(page - 1, !hasPrevious)
  }

  function NextButton(page: int, hasNext: bool): (b: StepButton)
    ensures b.page == page + 1 && (b.disabled <==> !hasNext)
  {
    StepButton(page + 1, !hasNext)
  }
}
