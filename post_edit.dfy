/** The post-editing hook: the seven-field edit form, per-field error clearing,
    tag and stack list editing, the public/private toggle, and the submit, load
    and delete life cycles. The validation rules and the error-message helpers
    live in files outside this model and are passed in as `Rules`. */
module PostEdit {
  import opened Common

  datatype PostEditForm = PostEditForm(
    title: string,
    excerpt: string,
    postType: PostType,
    content: string,
    status: PostStatus,
    stacks: seq<string>,
    tags: seq<string>)

  /** The form a fresh editor starts from. */
  const InitialForm := PostEditForm("", "", CORE, "", PUBLIC, [], [])

  /** The body sent to the update endpoint. */
  datatype UpdatePostRequest = UpdatePostRequest(
    title: string,
    excerpt: string,
    postType: PostType,
    content: string,
    status: PostStatus,
    stacks: seq<string>,
    tags: seq<string>)

  /** The validation helpers the hook calls; `validatePostForm` answers `null` (None) when the form is valid. */
  datatype Rules = Rules(
    canAddTag: seq<string> -> bool,
    canAddStack: seq<string> -> bool,
    validatePostForm: PostEditForm -> Option<map<string, string>>,
    validateContentLength: string -> Option<string>)

  type FieldErrors = Option<map<string, string>>

  // ---------------------------------------------------------------------------
  // Fields of the form, addressed by key.

  datatype FieldKey = TitleKey | ExcerptKey | PostTypeKey | ContentKey | StatusKey | StacksKey | TagsKey

  /** The property name the form and the server's field errors use for a key. */
  function KeyName(k: FieldKey): string
  {
    match k
    case TitleKey => "title"
    case ExcerptKey => "excerpt"
    case PostTypeKey => "postType"
    case ContentKey => "content"
    case StatusKey => "status"
    case StacksKey => "stacks"
    case TagsKey => "tags"
  }

  /** A value for one field, tagged with the field it belongs to. */
  datatype FieldValue =
    | Title(s: string)
    | Excerpt(s: string)
    | Kind(t: PostType)
    | Content(s: string)
    | Status(st: PostStatus)
    | Stacks(xs: seq<string>)
    | Tags(xs: seq<string>)

  function KeyOf(v: FieldValue): FieldKey
  {
    match v
    case Title(_) => TitleKey
    case Excerpt(_) => ExcerptKey
    case Kind(_) => PostTypeKey
    case Content(_) => ContentKey
    case Status(_) => StatusKey
    case Stacks(_) => StacksKey
    case Tags(_) => TagsKey
  }

  /** The current value of field `k`. */
  function Get(form: PostEditForm, k: FieldKey): (v: FieldValue)
    ensures KeyOf(v) == k
  {
    match k
    case TitleKey => Title(form.title)
    case ExcerptKey => Excerpt(form.excerpt)
    case PostTypeKey => Kind(form.postType)
    case ContentKey => Content(form.content)
    case StatusKey => Status(form.status)
    case StacksKey => Stacks(form.stacks)
    case TagsKey => Tags(form.tags)
  }

  /** `{ ...prev, [key]: value }`. */
  function WithField(form: PostEditForm, v: FieldValue): PostEditForm
  {
    match v
    case Title(s) => form.(title := s)
    case Excerpt(s) => form.(excerpt := s)
    case Kind(t) => form.(postType := t)
    case Content(s) => form.(content := s)
    case Status(st) => form.(status := st)
    case Stacks(xs) => form.(stacks := xs)
    case Tags(xs) => form.(tags := xs)
  }

  /** Writing a field and reading it back gives the written value; every other field keeps its value. */
  lemma WithFieldGet(form: PostEditForm, v: FieldValue, k: FieldKey)
    ensures Get(WithField(form, v), KeyOf(v)) == v
    ensures k != KeyOf(v) ==> Get(WithField(form, v), k) == Get(form, k)
  {
  }

  /** Writing back a field's own value changes nothing. */
  lemma WithFieldOfGet(form: PostEditForm, k: FieldKey)
    ensures WithField(form, Get(form, k)) == form
  {
  }

  // ---------------------------------------------------------------------------
  // Field errors.

  /** `fieldErrors?.[key]` is truthy: an error message is shown for that field. */
  predicate ErrorShown(errors: FieldErrors, key: string)
  {
    errors.Some? && key in errors.value && errors.value[key] != ""
  }

  /** Drops the error of `key` when one is shown; an error map left empty becomes `null`. */
  function ClearFieldError(errors: FieldErrors, key: string): (r: FieldErrors)
    ensures !ErrorShown(r, key)
    ensures !ErrorShown(errors, key) ==> r == errors
    ensures ErrorShown(errors, key) ==>
      (r.None? <==> errors.value.Keys == {key})
      && (r.Some? ==> r.value == errors.value - {key})
  {
    if ErrorShown(errors, key) then
      var rest := errors.value - {key};
      if |rest| > 0 then Some(rest)
      else
        assert rest.Keys == {} by { assert |rest.Keys| == |rest|; }
        None
    else errors
  }

  /** Clearing a field's error leaves the errors of the other fields as they were. */
  lemma ClearFieldErrorKeepsOthers(errors: FieldErrors, key: string, other: string)
    requires other != key
    ensures ErrorShown(ClearFieldError(errors, key), other) <==> ErrorShown(errors, other)
  {
    if ErrorShown(errors, key) && ClearFieldError(errors, key).None? {
      assert other !in errors.value;
    }
  }

  // ---------------------------------------------------------------------------
  // Tag and stack lists.

  predicate Distinct(xs: seq<string>)
  {
    forall i, j :: 0 <= i < j < |xs| ==> xs[i] != xs[j]
  }

  /** What the tag list of a form the editor built holds: distinct, trimmed, non-empty tags. */
  predicate TagsWellFormed(tags: seq<string>)
  {
    Distinct(tags) && forall i :: 0 <= i < |tags| ==> tags[i] != "" && Trimmed(tags[i])
  }

  /** `xs.filter(y => y !== x)`. */
  function RemoveAll(xs: seq<string>, x: string): (r: seq<string>)
    ensures x !in r
    ensures forall y :: y in r <==> y in xs && y != x
    ensures |r| <= |xs|
  {
    if xs == [] then []
    else if xs[0] == x then RemoveAll(xs[1..], x)
    else [xs[0]] + RemoveAll(xs[1..], x)
  }

  lemma {:induction false} RemoveAllAppend(a: seq<string>, b: seq<string>, x: string)
    ensures RemoveAll(a + b, x) == RemoveAll(a, x) + RemoveAll(b, x)
  {
    if a != [] {
      assert (a + b)[1..] == a[1..] + b;
      RemoveAllAppend(a[1..], b, x);
    } else {
      assert a + b == b;
    }
  }

  /** Removing a value that is not in the list changes nothing. */
  lemma {:induction false} RemoveAllAbsent(xs: seq<string>, x: string)
    requires x !in xs
    ensures RemoveAll(xs, x) == xs
  {
    if xs != [] {
      RemoveAllAbsent(xs[1..], x);
    }
  }

  /** Removal keeps the remaining elements distinct when they were. */
  lemma {:induction false} RemoveAllDistinct(xs: seq<string>, x: string)
    requires Distinct(xs)
    ensures Distinct(RemoveAll(xs, x))
  {
    if xs != [] {
      RemoveAllDistinct(xs[1..], x);
      var rest := RemoveAll(xs[1..], x);
      if xs[0] != x {
        assert xs[0] !in xs[1..] by {
          forall j | 0 <= j < |xs[1..]| ensures xs[1..][j] != xs[0] {
            assert xs[1..][j] == xs[j + 1];
          }
        }
        DistinctCons(xs[0], rest);
      }
    }
  }

  lemma DistinctCons(a: string, s: seq<string>)
    requires a !in s && Distinct(s)
    ensures Distinct([a] + s)
  {
    var t := [a] + s;
    forall i, j | 0 <= i < j < |t| ensures t[i] != t[j] {
      assert t[j] == s[j - 1];
      if i > 0 { assert t[i] == s[i - 1]; }
    }
  }

  lemma DistinctSnoc(s: seq<string>, a: string)
    requires a !in s && Distinct(s)
    ensures Distinct(s + [a])
  {
    var t := s + [a];
    forall i, j | 0 <= i < j < |t| ensures t[i] != t[j] {
      assert t[i] == s[i];
      if j < |s| { assert t[j] == s[j]; }
    }
  }

  /** How an add request ends. */
  datatype ListEdit = Added | Blank | LimitReached | Duplicate

  /** The outcome of `addTag(raw)`: a blank tag is ignored first, then the limit, then a duplicate. */
  function TagDecision(tags: seq<string>, raw: string, canAdd: bool): (r: ListEdit)
    ensures r == Added <==> Trim(raw) != "" && canAdd && Trim(raw) !in tags
    ensures r == Blank <==> Trim(raw) == ""
    ensures r == LimitReached <==> Trim(raw) != "" && !canAdd
    ensures r == Duplicate <==> Trim(raw) != "" && canAdd && Trim(raw) in tags
  {
    var t := Trim(raw);
    if t == "" then Blank
    else if !canAdd then LimitReached
    else if t in tags then Duplicate
    else Added
  }

  /** The tag list after `addTag(raw)`. */
  function TagsAfterAdd(tags: seq<string>, raw: string, canAdd: bool): seq<string>
  {
    if TagDecision(tags, raw, canAdd) == Added then tags + [Trim(raw)] else tags
  }

  /** Adding a tag keeps a well-formed tag list well formed. */
  lemma AddTagWellFormed(tags: seq<string>, raw: string, canAdd: bool)
    requires TagsWellFormed(tags)
    ensures TagsWellFormed(TagsAfterAdd(tags, raw, canAdd))
  {
    if TagDecision(tags, raw, canAdd) == Added {
      DistinctSnoc(tags, Trim(raw));
      var t := tags + [Trim(raw)];
      forall i | 0 <= i < |t| ensures t[i] != "" && Trimmed(t[i]) {
        if i < |tags| { assert t[i] == tags[i]; }
      }
    }
  }

  /** Removing a tag keeps a well-formed tag list well formed. */
  lemma RemoveTagWellFormed(tags: seq<string>, x: string)
    requires TagsWellFormed(tags)
    ensures TagsWellFormed(RemoveAll(tags, x))
  {
    RemoveAllDistinct(tags, x);
    var r := RemoveAll(tags, x);
    forall i | 0 <= i < |r| ensures r[i] != "" && Trimmed(r[i]) {
      assert r[i] in tags;
    }
  }

  /** Removing a tag right after adding it restores the list. */
  lemma RemoveUndoesAddTag(tags: seq<string>, raw: string, canAdd: bool)
    requires TagDecision(tags, raw, canAdd) == Added
    ensures RemoveAll(TagsAfterAdd(tags, raw, canAdd), Trim(raw)) == tags
  {
    var t := Trim(raw);
    RemoveAllAppend(tags, [t], t);
    RemoveAllAbsent(tags, t);
    assert RemoveAll([t], t) == [];
  }

  /** The outcome of `addStack(s)`: the limit is checked first, then a duplicate; the name is not trimmed. */
  function StackDecision(stacks: seq<string>, s: string, canAdd: bool): (r: ListEdit)
    ensures r == Added <==> canAdd && s !in stacks
    ensures r == LimitReached <==> !canAdd
    ensures r == Duplicate <==> canAdd && s in stacks
    ensures r != Blank
  {
    if !canAdd then LimitReached
    else if s in stacks then Duplicate
    else Added
  }

  function StacksAfterAdd(stacks: seq<string>, s: string, canAdd: bool): seq<string>
  {
    if StackDecision(stacks, s, canAdd) == Added then stacks + [s] else stacks
  }

  /** Adding and removing stacks keeps the stack list free of duplicates. */
  lemma StackEditsDistinct(stacks: seq<string>, s: string, canAdd: bool)
    requires Distinct(stacks)
    ensures Distinct(StacksAfterAdd(stacks, s, canAdd))
    ensures Distinct(RemoveAll(stacks, s))
  {
    if StackDecision(stacks, s, canAdd) == Added {
      DistinctSnoc(stacks, s);
    }
    RemoveAllDistinct(stacks, s);
  }

  /** Removing a stack right after adding it restores the list. */
  lemma RemoveUndoesAddStack(stacks: seq<string>, s: string, canAdd: bool)
    requires StackDecision(stacks, s, canAdd) == Added
    ensures RemoveAll(StacksAfterAdd(stacks, s, canAdd), s) == stacks
  {
    RemoveAllAppend(stacks, [s], s);
    RemoveAllAbsent(stacks, s);
    assert RemoveAll([s], s) == [];
  }

  // ---------------------------------------------------------------------------
  // Status toggle and the update request.

  function Toggled(s: PostStatus): (r: PostStatus)
    ensures r != s
  {
    if s == PUBLIC then PRIVATE else PUBLIC
  }

  /** Toggling twice restores the status. */
  lemma ToggleTwice(s: PostStatus)
    ensures Toggled(Toggled(s)) == s
  {
  }

  /** The request built from the form at submit time. */
  function RequestOf(f: PostEditForm): UpdatePostRequest
  {
    UpdatePostRequest(f.title, f.excerpt, f.postType, f.content, f.status, f.stacks, f.tags)
  }

  /** The form a request describes. */
  function FormOfRequest(r: UpdatePostRequest): PostEditForm
  {
    PostEditForm(r.title, r.excerpt, r.postType, r.content, r.status, r.stacks, r.tags)
  }

  /** The request carries every field of the form: nothing is lost or renamed. */
  lemma RequestRoundTrip(f: PostEditForm)
    ensures FormOfRequest(RequestOf(f)) == f
  {
  }

  /** Where a successful update sends the user. */
  function PostPath(id: nat): (p: string)
    ensures StartsWith(p, "/post/") && |p| > 6
    ensures forall i :: 6 <= i < |p| ==> '0' <= p[i] <= '9'
    ensures ParseDecimal(p[6..]) == id
  {
    ParseNatToString(id);
    var p := "/post/" + NatToString(id);
    assert p[6..] == NatToString(id);
    p
  }

  /** The answer of the update request: a response or a thrown error (message and field errors). */
  datatype SubmitOutcome = Responded(success: bool, id: nat) | Failed(message: string, errors: FieldErrors)

  /** The answer of the load request. */
  datatype FetchOutcome = Loaded(success: bool, post: PostEditForm) | FetchFailed(message: string)

  /** The answer of the delete request. */
  datatype DeleteOutcome = Deleted(success: bool) | DeleteFailed(message: string)

  // ---------------------------------------------------------------------------
  // The hook's state.

  class PostEditor {
    const rules: Rules
    var form: PostEditForm
    var isLoading: bool
    var isFetching: bool
    var isDeleting: bool
    var error: Option<string>
    var fieldErrors: FieldErrors
    var contentLengthError: Option<string>

    constructor(rules: Rules)
      ensures this.rules == rules
      ensures form == InitialForm
      ensures !isLoading && isFetching && !isDeleting
      ensures error == None && fieldErrors == None && contentLengthError == None
    {
      this.rules := rules;
      form := InitialForm;
      isLoading := false;
      isFetching := true;
      isDeleting := false;
      error := None;
      fieldErrors := None;
      contentLengthError := None;
    }

    /** `updateField(key, value)`: sets the field, re-checks the content length, clears the field's error. */
    method UpdateField(v: FieldValue)
      modifies this
      ensures form == WithField(old(form), v)
      ensures contentLengthError ==
        (if v.Content? then rules.validateContentLength(v.s) else old(contentLengthError))
      ensures fieldErrors == ClearFieldError(old(fieldErrors), KeyName(KeyOf(v)))
      ensures isLoading == old(isLoading) && isFetching == old(isFetching)
      ensures isDeleting == old(isDeleting) && error == old(error)
    {
      form := WithField(form, v);
      if v.Content? {
        contentLengthError := rules.validateContentLength(v.s);
      }
      fieldErrors := ClearFieldError(fieldErrors, KeyName(KeyOf(v)));
    }

    /** `addTag(raw)`: appends the trimmed tag when it is neither blank, over the limit, nor already there. */
    method AddTag(raw: string) returns (outcome: ListEdit)
      modifies this
      ensures outcome == TagDecision(old(form.tags), raw, rules.canAddTag(old(form.tags)))
      ensures form == old(form).(tags := TagsAfterAdd(old(form.tags), raw, rules.canAddTag(old(form.tags))))
      ensures fieldErrors == (if outcome == Added then ClearFieldError(old(fieldErrors), "tags") else old(fieldErrors))
      ensures TagsWellFormed(old(form.tags)) ==> TagsWellFormed(form.tags)
      ensures contentLengthError == old(contentLengthError) && error == old(error)
      ensures isLoading == old(isLoading) && isFetching == old(isFetching) && isDeleting == old(isDeleting)
    {
      var trimmed := Trim(raw);
      if trimmed == "" {
        return Blank;
      }
      if !rules.canAddTag(form.tags) {
        return LimitReached;
      }
      if trimmed in form.tags {
        return Duplicate;
      }
      if TagsWellFormed(form.tags) {
        AddTagWellFormed(form.tags, raw, true);
      }
      form := form.(tags := form.tags + [trimmed]);
      fieldErrors := ClearFieldError(fieldErrors, "tags");
      outcome := Added;
    }

    /** `removeTag(x)`: drops every occurrence of `x` and keeps the other tags in order. */
    method RemoveTag(x: string)
      modifies this
      ensures form == old(form).(tags := RemoveAll(old(form.tags), x))
      ensures x !in form.tags
      ensures TagsWellFormed(old(form.tags)) ==> TagsWellFormed(form.tags)
      ensures fieldErrors == old(fieldErrors) && contentLengthError == old(contentLengthError) && error == old(error)
      ensures isLoading == old(isLoading) && isFetching == old(isFetching) && isDeleting == old(isDeleting)
    {
      if TagsWellFormed(form.tags) {
        RemoveTagWellFormed(form.tags, x);
      }
      form := form.(tags := RemoveAll(form.tags, x));
    }

    /** `addStack(s)`: appends `s` when the limit allows it and it is not already selected. */
    method AddStack(s: string) returns (outcome: ListEdit)
      modifies this
      ensures outcome == StackDecision(old(form.stacks), s, rules.canAddStack(old(form.stacks)))
      ensures form == old(form).(stacks := StacksAfterAdd(old(form.stacks), s, rules.canAddStack(old(form.stacks))))
      ensures fieldErrors == (if outcome == Added then ClearFieldError(old(fieldErrors), "stacks") else old(fieldErrors))
      ensures Distinct(old(form.stacks)) ==> Distinct(form.stacks)
      ensures contentLengthError == old(contentLengthError) && error == old(error)
      ensures isLoading == old(isLoading) && isFetching == old(isFetching) && isDeleting == old(isDeleting)
    {
      if !rules.canAddStack(form.stacks) {
        return LimitReached;
      }
      if s in form.stacks {
        return Duplicate;
      }
      if Distinct(form.stacks) {
        StackEditsDistinct(form.stacks, s, true);
      }
      form := form.(stacks := form.stacks + [s]);
      fieldErrors := ClearFieldError(fieldErrors, "stacks");
      outcome := Added;
    }

    /** `removeStack(s)`: drops every occurrence of `s`. */
    method RemoveStack(s: string)
      modifies this
      ensures form == old(form).(stacks := RemoveAll(old(form.stacks), s))
      ensures s !in form.stacks
      ensures fieldErrors == old(fieldErrors) && contentLengthError == old(contentLengthError) && error == old(error)
      ensures isLoading == old(isLoading) && isFetching == old(isFetching) && isDeleting == old(isDeleting)
    {
      form := form.(stacks := RemoveAll(form.stacks, s));
    }

    /** `toggleStatus()`: PUBLIC becomes PRIVATE and PRIVATE becomes PUBLIC. */
    method ToggleStatus()
      modifies this
      ensures form == old(form).(status := Toggled(old(form.status)))
      ensures fieldErrors == old(fieldErrors) && contentLengthError == old(contentLengthError) && error == old(error)
      ensures isLoading == old(isLoading) && isFetching == old(isFetching) && isDeleting == old(isDeleting)
    {
      form := form.(status := Toggled(form.status));
    }

    /** The synchronous part of `submit()`: a form with validation errors shows them and sends nothing;
        otherwise loading starts, old errors are cleared and the request is returned for sending. */
    method Submit() returns (request: Option<UpdatePostRequest>)
      modifies this
      ensures form == old(form) && contentLengthError == old(contentLengthError)
      ensures isFetching == old(isFetching) && isDeleting == old(isDeleting)
      ensures rules.validatePostForm(form).Some? ==>
        request == None && fieldErrors == rules.validatePostForm(form)
        && isLoading == old(isLoading) && error == old(error)
      ensures rules.validatePostForm(form).None? ==>
        request == Some(RequestOf(form)) && isLoading && error == None && fieldErrors == None
    {
      var validationErrors := rules.validatePostForm(form);
      if validationErrors.Some? {
        fieldErrors := validationErrors;
        return None;
      }
      isLoading := true;
      error := None;
      fieldErrors := None;
      request := Some(RequestOf(form));
    }

    /** The rest of `submit()` once the server answered: navigate to the post on success,
        record the error and the field errors on a failure, and stop loading in every case. */
    method CompleteSubmit(outcome: SubmitOutcome) returns (target: Option<string>)
      modifies this
      ensures !isLoading
      ensures form == old(form) && contentLengthError == old(contentLengthError)
      ensures isFetching == old(isFetching) && isDeleting == old(isDeleting)
      ensures outcome.Responded? ==>
        target == (if outcome.success then Some(PostPath(outcome.id)) else None)
        && error == old(error) && fieldErrors == old(fieldErrors)
      ensures outcome.Failed? ==>
        target == None && error == Some(outcome.message) && fieldErrors == outcome.errors
    {
      target := None;
      match outcome {
        case Responded(success, id) =>
          if success {
            target := Some(PostPath(id));
          }
        case Failed(message, errors) =>
          error := Some(message);
          fieldErrors := errors;
      }
      isLoading := false;
    }

    /** Start of the load effect; it runs only for a non-zero post id. */
    method StartFetch(postId: int) returns (started: bool)
      modifies this
      ensures started <==> postId != 0
      ensures started ==> isFetching && error == None
      ensures !started ==> isFetching == old(isFetching) && error == old(error)
      ensures form == old(form) && fieldErrors == old(fieldErrors) && contentLengthError == old(contentLengthError)
      ensures isLoading == old(isLoading) && isDeleting == old(isDeleting)
    {
      started := postId != 0;
      if started {
        isFetching := true;
        error := None;
      }
    }

    /** End of the load effect: a successful answer replaces the form and re-checks the content length. */
    method CompleteFetch(outcome: FetchOutcome)
      modifies this
      ensures !isFetching
      ensures outcome.Loaded? && outcome.success ==>
        form == outcome.post && contentLengthError == rules.validateContentLength(outcome.post.content)
        && error == old(error)
      ensures outcome.Loaded? && !outcome.success ==>
        form == old(form) && contentLengthError == old(contentLengthError) && error == old(error)
      ensures outcome.FetchFailed? ==>
        form == old(form) && contentLengthError == old(contentLengthError) && error == Some(outcome.message)
      ensures fieldErrors == old(fieldErrors) && isLoading == old(isLoading) && isDeleting == old(isDeleting)
    {
      match outcome {
        case Loaded(success, post) =>
          if success {
            form := post;
            contentLengthError := rules.validateContentLength(post.content);
          }
        case FetchFailed(message) =>
          error := Some(message);
      }
      isFetching := false;
    }

    /** Start of `deletePost()`. */
    method StartDelete()
      modifies this
      ensures isDeleting
      ensures form == old(form) && fieldErrors == old(fieldErrors) && contentLengthError == old(contentLengthError)
      ensures isLoading == old(isLoading) && isFetching == old(isFetching) && error == old(error)
    {
      isDeleting := true;
    }

    /** End of `deletePost()`: a successful deletion sends the user home; a failure only shows a message. */
    method CompleteDelete(outcome: DeleteOutcome) returns (target: Option<string>)
      modifies this
      ensures !isDeleting
      ensures target == (if outcome.Deleted? && outcome.success then Some("/") else None)
      ensures form == old(form) && fieldErrors == old(fieldErrors) && contentLengthError == old(contentLengthError)
      ensures isLoading == old(isLoading) && isFetching == old(isFetching) && error == old(error)
    {
      target := if outcome.Deleted? && outcome.success then Some("/") else None;
      isDeleting := false;
    }
  }
}
