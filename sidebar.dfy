/** The sidebar's stack filter: clicking a stack (from its group, or from the
    popular list, whose group is looked up in `STACK_GROUP_ORDER`), clearing the
    filter, and whether a filter is active. Stack groups are the upper-case names
    of the stack-group enumeration; the enumeration and its order are inputs. */
module Sidebar {
  import opened Common
  import opened Url
  import opened Navigate

  /** `params.stack || null`. */
  function SelectedStack(params: RouteParams): (r: Option<string>)
    ensures r.Some? <==> Truthy(params.stack)
    ensures r.Some? ==> r == params.stack
  {
    if Truthy(params.stack) then params.stack else None
  }

  /** The segments a click on stack `name` of group `group` is meant to open: none (home) when the
      stack is already selected, otherwise the lower-cased group and the name. */
  function StackSegments(name: string, group: string, params: RouteParams): seq<string>
  {
    if SelectedStack(params) == Some(name) then [] else [ToLower(group), name]
  }

  /** `handleStackClick(name, group)` as written: raw name, raw keyword. */
  function StackClick(name: string, group: string, params: RouteParams, keyword: Option<string>): (to: string)
    ensures |to| >= 1 && to[0] == '/'
  {
    if SelectedStack(params) == Some(name) then WithKeyword("/", keyword)
    else WithKeyword("/" + ToLower(group) + "/" + name, keyword)
  }

  lemma StackClickIsTarget(name: string, group: string, params: RouteParams, keyword: Option<string>)
    ensures StackClick(name, group, params, keyword) == Target(StackSegments(name, group, params), keyword)
  {
    if SelectedStack(params) != Some(name) {
      var g := ToLower(group);
      assert [g, name][1..] == [name];
      assert Join([g, name], '/') == g + "/" + name;
      assert JoinPath([g, name]) == "/" + g + "/" + name;
    }
  }

  /** Clicking the selected stack goes home and keeps the keyword; any other stack opens
      group and stack, dropping a post-type segment. Both hold for plain text. */
  lemma StackClickReadsBack(name: string, group: string, params: RouteParams, keyword: Option<string>)
    requires SelectedStack(params) != Some(name) ==> PlainSegment(ToLower(group)) && PlainSegment(name)
    requires Truthy(keyword) ==> PlainKeyword(keyword.value)
    ensures ReadBack(StackClick(name, group, params, keyword)) ==
      Intended(if SelectedStack(params) == Some(name) then [] else [ToLower(group), name], keyword)
  {
    StackClickIsTarget(name, group, params, keyword);
    PlainTargetReadsBack(StackSegments(name, group, params), keyword);
  }

  /** A stack whose name holds `#` is opened as a different stack: `C#` becomes `C`. */
  lemma StackClickLosesHash()
    ensures ReadBack(StackClick("C#", "LANG", RouteParams(None, None, None), None)).segments == ["lang", "C"]
  {
    StackClickIsTarget("C#", "LANG", RouteParams(None, None, None), None);
    assert ToLower("LANG") == "lang" by {
      assert ToLower("LANG")[0] == 'l' && ToLower("LANG")[1] == 'a';
      assert ToLower("LANG")[2] == 'n' && ToLower("LANG")[3] == 'g';
    }
    HashInSegmentLost();
  }

  /** The stack click with every piece escaped: it opens its route for every name, group and keyword. */
  function StackClickEncoded(name: string, group: string, params: RouteParams, keyword: Option<string>): (to: string)
    ensures |to| >= 1 && to[0] == '/'
    ensures group != "" && name != "" ==> ReadBack(to) == Intended(StackSegments(name, group, params), keyword)
  {
    var to := EncodedTarget(StackSegments(name, group, params), keyword);
    assert group != "" && name != "" ==> ReadBack(to) == Intended(StackSegments(name, group, params), keyword) by {
      if group != "" && name != "" {
        EncodedTargetReadsBack(StackSegments(name, group, params), keyword);
      }
    }
    to
  }

  // ---------------------------------------------------------------------------
  // Popular stacks: the group is the first one in the display order that lists the name.

  /** The names of the stacks of each group, when the grouped list has loaded. */
  type GroupedStacks = map<string, seq<string>>

  predicate GroupHas(grouped: GroupedStacks, g: string, name: string)
  {
    g in grouped && name in grouped[g]
  }

  /** The first group of `order` that lists `name`. */
  function FirstGroup(order: seq<string>, grouped: GroupedStacks, name: string): (r: Option<string>)
    ensures r.Some? ==> r.value in order && GroupHas(grouped, r.value, name)
    ensures r.None? <==> forall i :: 0 <= i < |order| ==> !GroupHas(grouped, order[i], name)
  {
    if order == [] then None
    else if GroupHas(grouped, order[0], name) then Some(order[0])
    else FirstGroup(order[1..], grouped, name)
  }

  /** No group before the one found lists the name. */
  lemma {:induction false} FirstGroupIsFirst(order: seq<string>, grouped: GroupedStacks, name: string)
    requires FirstGroup(order, grouped, name).Some?
    ensures exists i :: (0 <= i < |order| && order[i] == FirstGroup(order, grouped, name).value
                         && (forall j :: 0 <= j < i ==> !GroupHas(grouped, order[j], name)))
  {
    if !GroupHas(grouped, order[0], name) {
      FirstGroupIsFirst(order[1..], grouped, name);
      var i :| 0 <= i < |order[1..]| && order[1..][i] == FirstGroup(order[1..], grouped, name).value
        && (forall j :: 0 <= j < i ==> !GroupHas(grouped, order[1..][j], name));
      assert order[i + 1] == order[1..][i];
      assert forall j :: 1 <= j < i + 1 ==> order[j] == order[1..][j - 1];
    } else {
      assert order[0] == FirstGroup(order, grouped, name).value;
    }
  }

  /** The `for … of STACK_GROUP_ORDER` loop with its early return. */
  method FindGroup(order: seq<string>, grouped: GroupedStacks, name: string) returns (found: Option<string>)
    ensures found == FirstGroup(order, grouped, name)
  {
    var i := 0;
    while i < |order|
      invariant 0 <= i <= |order|
      invariant FirstGroup(order, grouped, name) == FirstGroup(order[i..], grouped, name)
    {
      if GroupHas(grouped, order[i], name) {
        return Some(order[i]);
      }
      assert order[i..][1..] == order[i + 1..];
      i := i + 1;
    }
    return None;
  }

  /** `handlePopularStackClick(name)`: the toggle first, then the first group that lists the stack;
      no navigation when the groups have not loaded or none lists it. */
  method PopularStackClick(name: string, params: RouteParams, keyword: Option<string>,
                           order: seq<string>, grouped: Option<GroupedStacks>)
    returns (target: Option<string>)
    ensures SelectedStack(params) == Some(name) ==> target == Some(WithKeyword("/", keyword))
    ensures SelectedStack(params) != Some(name) && grouped.None? ==> target == None
    ensures SelectedStack(params) != Some(name) && grouped.Some? ==>
      target == (match FirstGroup(order, grouped.value, name)
                 case None => None
                 case Some(g) => Some(StackClick(name, g, params, keyword)))
  {
    if SelectedStack(params) == Some(name) {
      return Some(WithKeyword("/", keyword));
    }
    target := None;
    if grouped.Some? {
      var g := FindGroup(order, grouped.value, name);
      if g.Some? {
        target := Some(WithKeyword("/" + ToLower(g.value) + "/" + name, keyword));
      }
    }
  }

  /** `handleClearFilter()`: always home, and the keyword is dropped. */
  function ClearFilter(): (to: string)
    ensures ReadBack(to) == Route([], None)
  {
    ReadKeyword("/", None, "");
    SlashReadsHome();
    "/"
  }

  lemma SlashReadsHome()
    ensures PathSegments("/") == []
  {
    PathSegmentsOfJoin([]);
  }

  /** `!!selectedStack || !!params.postType || searchParams.has('q')`; a `q` that is present but empty counts. */
  predicate HasActiveFilter(params: RouteParams, q: Option<string>)
  {
    SelectedStack(params).Some? || Truthy(params.postType) || q.Some?
  }

  /** The filter is active exactly when one of its three sources is, and the page cleared of all three shows none. */
  lemma HasActiveFilterCases(params: RouteParams, q: Option<string>)
    ensures HasActiveFilter(params, q) <==> Truthy(params.stack) || Truthy(params.postType) || q.Some?
    ensures HasActiveFilter(params, Some(""))
    ensures !HasActiveFilter(RouteParams(None, None, None), ClearFilterQuery())
  {
  }

  /** The `q` the page reads after the filter is cleared. */
  function ClearFilterQuery(): (q: Option<string>)
    ensures q == None
  {
    ReadBack(ClearFilter()).q
  }
}
