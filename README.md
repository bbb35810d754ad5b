# A verified model of the blog client's rules

This project models, in Dafny, the rules inside a React/TypeScript blog client. These are the rules that decide what the client does:

- **Text helpers.** The read-time estimate, the table-of-contents extractor and the slug generator.
- **The post-edit form.** Per-field updates with error clearing, the tag and stack lists with their trim, limit and duplicate rules, the status toggle, and the submit, load and delete steps.
- **The session.** The session store with its persisted projection. The HTTP interceptors, which attach the bearer token and, on a first 401, refresh once and replay or log out.
- **The post list.** Its pagination and filter state.
- **Navigation.** The link builders of the home page tabs and of the stack sidebar, with what the router reads back from them. The pagination bar.
- **The route guards.** The protected-route and guest-route redirects and their `from` round trip.
- **The sign-up page.** Its password checks.
- **The editor nodes.** The code-block node's language attribute, toggle and key handlers. The image node's drop and paste upload flow with placeholders.

One module per source file:

- `Common` holds options, ASCII lower-casing, ECMAScript `trim`, `split` and decimal strings.
- `Url` holds what the router does with a navigation target: path and query parsing, `URLSearchParams.get`, percent coding.
- `Navigate` holds the shared link shape used by `BlogHome` and `Sidebar`.

State the source updates in place is modelled as a Dafny class:

- the edit form;
- the session store and the request config;
- the post list;
- the sign-up page;
- the editors of the two editor nodes.

Each class has `modifies` clauses and states its whole new state after each step. The pure rules are functions whose contracts and lemmas state what they mean.

Asynchronous work (HTTP calls, uploads) is split into a start step and a completion step. The completion step takes the outcome as an input. Helpers defined outside the modelled files are inputs too:

- `canAddTag`, `canAddStack`, `validatePostForm` and `validateContentLength`, as arrows in `PostEdit.Rules`;
- `STACK_GROUP_ORDER`, as a sequence;
- the clock, as readings.

## Model

| member | source | states |
|---|---|---|
| BlogUtils.ReadMinutes | src/feature/blog/utils/blog.utils.ts:15-20 | missing or empty content gives 1 minute; otherwise the least m with m·500 ≥ length, so (m−1)·500 < length |
| BlogUtils.CalculateReadTime | src/feature/blog/utils/blog.utils.ts:15-21 | the text is decimal digits followed by "분", and the digits read back as `ReadMinutes` |
| BlogUtils.ReadTimeOfNothing | src/feature/blog/utils/blog.utils.ts:16 | null and empty content both give "1분" |
| BlogUtils.ReadTimeMonotone | src/feature/blog/utils/blog.utils.ts:18-19 | longer content never gives fewer minutes |
| BlogUtils.HeadingOf | src/feature/blog/utils/blog.utils.ts:32-50 | a line yields level 2 exactly when it matches `^## (.+)$`, and otherwise level 3 exactly when it matches `^### (.+)$`; id and title are both the trimmed capture |
| BlogUtils.HeadingPatternsExclusive | src/feature/blog/utils/blog.utils.ts:32-43 | no line matches both heading patterns |
| BlogUtils.HeadingExamples | src/feature/blog/utils/blog.utils.ts:32-43 | "## Intro" and "### Detail" yield their headings at levels 2 and 3 |
| BlogUtils.NonHeadingExamples | src/feature/blog/utils/blog.utils.ts:32-43 | "##x", "####x", "## " and a line ending in "\r" yield nothing |
| BlogUtils.ExtractTableOfContents | src/feature/blog/utils/blog.utils.ts:26-54 | the loop over the '\n'-separated lines returns the table the specification function `TocOf` gives |
| BlogUtils.TocFaithful | src/feature/blog/utils/blog.utils.ts:28-51 | each entry comes from its own line, and entries keep line order; every heading line yields an entry; there are at most as many entries as lines |
| BlogUtils.TocBound | src/feature/blog/utils/blog.utils.ts:28 | at most one entry per '\n'-separated line of the content |
| BlogUtils.GenerateSlug | src/feature/blog/utils/blog.utils.ts:59-65 | the slug holds only a–z, 0–9, Hangul syllables and '-'; it has no "--" and no leading or trailing '-'; it keeps every allowed character of the lower-cased text, in order; a dash stands between two kept characters exactly when the lower-cased text has at least one other character between them |
| BlogUtils.GenerateSlugUnique | src/feature/blog/utils/blog.utils.ts:59-65 | any string of allowed characters and single inner dashes that keeps the same characters and puts its dashes in the same gaps is the slug itself |
| BlogUtils.SlugDetermined | src/feature/blog/utils/blog.utils.ts:61-64 | two dash-normalised strings with the same kept characters and the same gaps are equal |
| BlogUtils.SlugIdempotent | src/feature/blog/utils/blog.utils.ts:59-65 | generating a slug of a slug changes nothing |
| BlogUtils.SlugExamples | src/feature/blog/utils/blog.utils.ts:60-64 | concrete slugs, such as "A b" giving "a-b" |
| PostEdit.Get | src/feature/blog/hooks/usePostEdit.ts:103-105 | reading a field gives a value of that field's kind |
| PostEdit.WithFieldGet | src/feature/blog/hooks/usePostEdit.ts:105 | `updateField` sets the named field and no other |
| PostEdit.WithFieldOfGet | src/feature/blog/hooks/usePostEdit.ts:105 | writing back a field's own value changes nothing |
| PostEdit.ClearFieldError | src/feature/blog/hooks/usePostEdit.ts:113-119 | afterwards the field shows no error; a map without that field's error is untouched; the map becomes null exactly when that error was its only one |
| PostEdit.ClearFieldErrorKeepsOthers | src/feature/blog/hooks/usePostEdit.ts:113-119 | clearing one field's error keeps every other field's error |
| PostEdit.RemoveAll | src/feature/blog/hooks/usePostEdit.ts:155-160 | the element is gone; every other element stays and nothing new appears |
| PostEdit.RemoveAllAppend | src/feature/blog/hooks/usePostEdit.ts:157 | removal works piecewise over a concatenation, so the rest keep their relative order |
| PostEdit.RemoveAllAbsent | src/feature/blog/hooks/usePostEdit.ts:157 | removing an absent element changes nothing |
| PostEdit.RemoveAllDistinct | src/feature/blog/hooks/usePostEdit.ts:157 | removal keeps a list duplicate-free |
| PostEdit.TagDecision | src/feature/blog/hooks/usePostEdit.ts:127-140 | a tag is appended exactly when its trimmed text is non-empty, the limit allows it, and it is not yet present. The checks run in order: a blank tag is blank; otherwise a full list is the limit, whether or not the tag is present; otherwise a present tag is a duplicate |
| PostEdit.AddTagWellFormed | src/feature/blog/hooks/usePostEdit.ts:127-140 | tags that are distinct, trimmed and non-empty stay so after `addTag` |
| PostEdit.RemoveTagWellFormed | src/feature/blog/hooks/usePostEdit.ts:155-160 | tags that are distinct, trimmed and non-empty stay so after `removeTag` |
| PostEdit.RemoveUndoesAddTag | src/feature/blog/hooks/usePostEdit.ts:140-157 | removing a tag just added gives back the old list |
| PostEdit.StackDecision | src/feature/blog/hooks/usePostEdit.ts:165-172 | a stack is appended exactly when the limit allows and it is absent. A full list is the limit whether or not the stack is present; otherwise a present stack is a duplicate; there is no trim and never a blank |
| PostEdit.StackEditsDistinct | src/feature/blog/hooks/usePostEdit.ts:165-192 | adding and removing keep the stacks duplicate-free |
| PostEdit.RemoveUndoesAddStack | src/feature/blog/hooks/usePostEdit.ts:172-189 | removing a stack just added gives back the old list |
| PostEdit.Toggled | src/feature/blog/hooks/usePostEdit.ts:195-200 | the status always changes |
| PostEdit.ToggleTwice | src/feature/blog/hooks/usePostEdit.ts:195-200 | toggling twice restores the status |
| PostEdit.RequestRoundTrip | src/feature/blog/hooks/usePostEdit.ts:220-228 | the request copies the seven form fields one to one, so the form can be read back from it |
| PostEdit.PostPath | src/feature/blog/hooks/usePostEdit.ts:233 | the target is "/post/" followed by the digits of the id, which read back as the id |
| PostEdit.PostEditor.constructor | src/feature/blog/hooks/usePostEdit.ts:44-64 | the initial form, fetching on, nothing loading or deleting, no errors |
| PostEdit.PostEditor.UpdateField | src/feature/blog/hooks/usePostEdit.ts:103-122 | only the named field changes; content is re-checked for length; the field's error is cleared |
| PostEdit.PostEditor.AddTag | src/feature/blog/hooks/usePostEdit.ts:125-152 | the tags become `TagsAfterAdd` of the decision; the tags error is cleared only on an append; well-formed tags stay well-formed |
| PostEdit.PostEditor.RemoveTag | src/feature/blog/hooks/usePostEdit.ts:155-160 | every occurrence is removed, nothing else changes, and well-formedness is kept |
| PostEdit.PostEditor.AddStack | src/feature/blog/hooks/usePostEdit.ts:163-184 | the stacks become `StacksAfterAdd`; the stacks error is cleared only on an append; distinct stacks stay distinct |
| PostEdit.PostEditor.RemoveStack | src/feature/blog/hooks/usePostEdit.ts:187-192 | every occurrence is removed and nothing else changes |
| PostEdit.PostEditor.ToggleStatus | src/feature/blog/hooks/usePostEdit.ts:195-200 | only the status changes, to the other value |
| PostEdit.PostEditor.Submit | src/feature/blog/hooks/usePostEdit.ts:203-228 | with validation errors they are stored and no request is made; otherwise loading starts, errors are cleared and the request mirrors the form |
| PostEdit.PostEditor.CompleteSubmit | src/feature/blog/hooks/usePostEdit.ts:229-243 | success navigates to the post's path; a thrown error stores its message and field errors; loading always ends |
| PostEdit.PostEditor.StartFetch | src/feature/blog/hooks/usePostEdit.ts:67-73 | loading starts exactly for a non-zero id, with the error cleared |
| PostEdit.PostEditor.CompleteFetch | src/feature/blog/hooks/usePostEdit.ts:74-96 | a successful answer replaces the form and re-checks the content length; a thrown error stores its message; fetching always ends |
| PostEdit.PostEditor.StartDelete | src/feature/blog/hooks/usePostEdit.ts:248 | deleting starts and nothing else changes |
| PostEdit.PostEditor.CompleteDelete | src/feature/blog/hooks/usePostEdit.ts:250-262 | only a successful deletion navigates home; deleting always ends |
| AuthStore.AuthState.constructor | src/stores/authStore.ts:23-26 | no tokens, no user, not authenticated |
| AuthStore.AuthState.Snapshot | src/stores/authStore.ts:61-67 | the persisted projection holds exactly the four data fields |
| AuthStore.AuthState.SetTokens | src/stores/authStore.ts:29-34 | both tokens are replaced, the session is authenticated, and the user is kept |
| AuthStore.AuthState.SetUser | src/stores/authStore.ts:37-40 | only the user changes |
| AuthStore.AuthState.Login | src/stores/authStore.ts:43-49 | tokens and user are set, and the session is authenticated |
| AuthStore.AuthState.Logout | src/stores/authStore.ts:52-58 | from any state, back to the initial data |
| AuthStore.AuthState.Restore | src/stores/authStore.ts:61-67 | restoring a projection reproduces it exactly; the store is consistent exactly when the projection was |
| AuthStore.PersistRoundTrip | src/stores/authStore.ts:61-67 | persisting and restoring gives a store with the same data |
| AuthStore.RefreshKeepsSession | src/stores/authStore.ts:29-58 | login then refresh keeps the user with the new tokens; a later logout clears everything |
| Api.Bearer | src/services/core/api.ts:22 | the header is "Bearer " followed by the token |
| Api.WithBearer | src/services/core/api.ts:21-23 | existing headers gain exactly the Authorization entry; the other entries are kept |
| Api.AttachToken | src/services/core/api.ts:17-26 | a truthy token and existing headers add the bearer header; otherwise the config is untouched |
| Api.OnResponseError | src/services/core/api.ts:33-77 | a valid token store stays valid, and after a refresh attempt the store is valid whatever it was before. A non-401 or already-retried error is rejected as is, with no refresh or logout. A first 401 marks the request as retried. With a refresh token and a successful refresh, both tokens are stored and the replayed request carries the new bearer. A failed refresh logs out, targets /login and rejects with the refresh error. Without a refresh token it logs out, targets /login, posts nothing and rejects with the original error |
| Api.SecondUnauthorizedIsFinal | src/services/core/api.ts:39-40 | a replayed request that gets another 401 is rejected with no second refresh |
| Posts.QueryFor | src/feature/blog/hooks/usePosts.ts:28-34 | the request uses the current page and size and the filter's category, tag and keyword |
| Posts.MergePage | src/feature/blog/hooks/usePosts.ts:39-45 | totals and flags come from the response; page and size are kept |
| Posts.MergePageIdempotent | src/feature/blog/hooks/usePosts.ts:39-45 | merging the same response twice is merging it once |
| Posts.MergeKeepsQuery | src/feature/blog/hooks/usePosts.ts:28-45 | a merged response does not change the next request |
| Posts.PostsList.constructor | src/feature/blog/hooks/usePosts.ts:7-21 | page 0, size 10, zero totals, no flags, the given or empty filter, no posts |
| Posts.PostsList.StartFetch | src/feature/blog/hooks/usePosts.ts:23-34 | the error is cleared, loading starts, and the request is `QueryFor` of the current state |
| Posts.PostsList.FinishFetch | src/feature/blog/hooks/usePosts.ts:36-52 | success sets the posts and merges the page; a thrown error sets the message and empties the posts; loading always ends |
| Posts.PostsList.SetFilter | src/feature/blog/hooks/usePosts.ts:59-62 | the filter is replaced and the page reset to 0, size kept |
| Posts.PostsList.SetPage | src/feature/blog/hooks/usePosts.ts:64-66 | only the page changes, with no bounds check |
| Posts.FilterChangeFetchesFirstPage | src/feature/blog/hooks/usePosts.ts:28-62 | after a filter change the next request asks for page 0 with the new filter |
| Navigate.WithKeyword | src/feature/blog/pages/BlogHomePage.tsx:45 | "?q=" and the keyword are appended exactly when the keyword is truthy |
| Navigate.EncodedTargetReadsBack | src/feature/blog/pages/BlogHomePage.tsx:45 | a link with every piece escaped is read back by the router as its segments and keyword, for any non-empty segments and any keyword |
| Navigate.PlainTargetReadsBack | src/feature/blog/pages/BlogHomePage.tsx:45 | a raw link is read back correctly when every segment is non-empty and free of '/', '?', '#' and '%', and the keyword is free of '&', '#', '%' and '+' |
| Navigate.PlainTargetUnchangedByEncoding | src/feature/blog/pages/BlogHomePage.tsx:45 | for such plain text the raw and escaped links open the same route |
| Navigate.KeywordPlusLost | src/feature/blog/pages/BlogHomePage.tsx:45 | the raw keyword "c++" is read back as "c  " |
| Navigate.HashCutsLastSegment | src/feature/blog/components/sidebar/Sidebar.tsx:34-35 | a '#' inside the last raw segment cuts it short: the router sees only what precedes it |
| Navigate.HashInSegmentLost | src/feature/blog/components/sidebar/Sidebar.tsx:34-35 | the raw segments "lang", "C#" are read back as "lang", "C" |
| BlogHome.TabsCoverTypes | src/feature/blog/pages/BlogHomePage.tsx:7-13 | ALL comes first; every post type has exactly one tab |
| BlogHome.TypeSlugValues | src/feature/blog/pages/BlogHomePage.tsx:35-41 | a post type's segment is its name lower-cased, and the router reads it unchanged |
| BlogHome.TypeSlugInjective | src/feature/blog/pages/BlogHomePage.tsx:35-41 | different post types give different segments |
| BlogHome.TabClick | src/feature/blog/pages/BlogHomePage.tsx:25-46 | every tab link starts with '/' |
| BlogHome.TabSegments | src/feature/blog/pages/BlogHomePage.tsx:31-43 | the intended segments are never empty strings |
| BlogHome.TabBaseIsPath | src/feature/blog/pages/BlogHomePage.tsx:29-43 | the base path is the intended segments joined: "/g/s", "/g/s/type", "/" or "/type" |
| BlogHome.TabClickIsTarget | src/feature/blog/pages/BlogHomePage.tsx:25-46 | the tab link is the raw link of its segments and keyword |
| BlogHome.TabClickIgnoresLoneGroup | src/feature/blog/pages/BlogHomePage.tsx:31-43 | without a stack the group is ignored |
| BlogHome.TabClickReadsBack | src/feature/blog/pages/BlogHomePage.tsx:25-46 | for plain group, stack and keyword the router reads the tab link back as its segments and keyword |
| BlogHome.TabClickLosesPlus | src/feature/blog/pages/BlogHomePage.tsx:45 | the tab link for keyword "c++" is read back with "c  " |
| BlogHome.TabClickEncoded | src/feature/blog/pages/BlogHomePage.tsx:25-46 | the escaped tab link is read back as its segments and keyword for every input |
| BlogHome.CurrentTab | src/feature/blog/pages/BlogHomePage.tsx:22 | the active tab is the filter's post type, or ALL when there is none |
| BlogHome.PageButtons | src/feature/blog/pages/BlogHomePage.tsx:149-157 | one button per page: button i goes to page i, is labelled i+1, and is active exactly when i is the current page |
| BlogHome.PageButtonLabels | src/feature/blog/pages/BlogHomePage.tsx:155 | each label reads as its page number plus one, and labels are pairwise different |
| BlogHome.OneActiveButton | src/feature/blog/pages/BlogHomePage.tsx:152 | at most one button is active, and the current page's button is when it is on the bar |
| BlogHome.PrevButton | src/feature/blog/pages/BlogHomePage.tsx:140-146 | goes to page−1 and is disabled exactly when there is no previous page |
| BlogHome.NextButton | src/feature/blog/pages/BlogHomePage.tsx:160-166 | goes to page+1 and is disabled exactly when there is no next page |
| Sidebar.SelectedStack | src/feature/blog/components/sidebar/Sidebar.tsx:21 | the selected stack is the stack parameter when truthy, null otherwise |
| Sidebar.StackClick | src/feature/blog/components/sidebar/Sidebar.tsx:25-37 | every stack link starts with '/' |
| Sidebar.StackClickIsTarget | src/feature/blog/components/sidebar/Sidebar.tsx:25-37 | the selected stack goes home, otherwise "/group/name", each with the optional keyword, as a raw link |
| Sidebar.StackClickReadsBack | src/feature/blog/components/sidebar/Sidebar.tsx:29-36 | for plain text: toggling off goes home keeping the keyword; another stack opens the lower-cased group and the name, dropping a post type |
| Sidebar.StackClickLosesHash | src/feature/blog/components/sidebar/Sidebar.tsx:34-35 | the stack "C#" of group "LANG" opens "lang", "C" |
| Sidebar.StackClickEncoded | src/feature/blog/components/sidebar/Sidebar.tsx:25-37 | the escaped stack link is read back as intended for every non-empty group and name |
| Sidebar.FirstGroup | src/feature/blog/components/sidebar/Sidebar.tsx:48-57 | the group found lists the stack and is in the order; there is none exactly when no group lists it |
| Sidebar.FirstGroupIsFirst | src/feature/blog/components/sidebar/Sidebar.tsx:49-51 | no earlier group in the order lists the stack |
| Sidebar.FindGroup | src/feature/blog/components/sidebar/Sidebar.tsx:49-58 | the loop with its early return finds `FirstGroup` |
| Sidebar.PopularStackClick | src/feature/blog/components/sidebar/Sidebar.tsx:40-60 | the selected stack goes home first; with no grouped list, or no group listing the stack, there is no navigation; otherwise the stack link of the first group |
| Sidebar.ClearFilter | src/feature/blog/components/sidebar/Sidebar.tsx:63-65 | the router reads home with no keyword |
| Sidebar.HasActiveFilterCases | src/feature/blog/components/sidebar/Sidebar.tsx:68 | active exactly when there is a truthy stack, a truthy post type or any `q`, even an empty one; a cleared page shows none |
| SignUp.PasswordCheck | src/domains/auth/pages/SignUpPage.tsx:20-29 | a mismatch is reported exactly when the passwords differ; the length message exactly when they match but the length is outside 8..20; nothing exactly otherwise |
| SignUp.FlaggedConfirmFailsSubmit | src/domains/auth/pages/SignUpPage.tsx:150-157 | a flagged confirmation always fails submit with the mismatch; an empty confirmation is not flagged but still fails |
| SignUp.DisplayError | src/domains/auth/pages/SignUpPage.tsx:39 | a truthy local error is shown, otherwise the server error |
| SignUp.SignUpPage.Submit | src/domains/auth/pages/SignUpPage.tsx:15-32 | the local error is cleared and then set to `PasswordCheck`; a request with exactly email, password and nickname is made exactly when there is no error |
| SignUp.SignUpPage.Change | src/domains/auth/pages/SignUpPage.tsx:34-37 | the field is stored and any shown local or server error is cleared |
| SignUp.ChangeHidesErrors | src/domains/auth/pages/SignUpPage.tsx:34-39 | after any input change no error is displayed |
| CodeBlock.ClassNames | src/feature/blog/components/editor/CodeBlockCustom.ts:45 | the class names are non-empty and contain no white space |
| CodeBlock.ClassNamesCons | src/feature/blog/components/editor/CodeBlockCustom.ts:45 | the class list is read token by token: a leading white-space character is skipped, and a word that runs up to white space is the next class name |
| CodeBlock.ClassNamesOfWord | src/feature/blog/components/editor/CodeBlockCustom.ts:45 | a non-empty attribute without white space is one class name |
| CodeBlock.LanguagesOf | src/feature/blog/components/editor/CodeBlockCustom.ts:46-48 | each language found is the remainder of a class name that starts with "language-"; none is found exactly when no class name starts with it |
| CodeBlock.LanguagesOfAppend | src/feature/blog/components/editor/CodeBlockCustom.ts:46-48 | the languages of two class lists joined are the languages of each, in order |
| CodeBlock.LanguagesOfFirst | src/feature/blog/components/editor/CodeBlockCustom.ts:46-49 | the first language is the remainder of the first class name that starts with "language-" |
| CodeBlock.ParseLanguage | src/feature/blog/components/editor/CodeBlockCustom.ts:41-56 | the parsed language is never empty. Among the first child's class names, the first one that starts with "language-" gives its remainder, or "javascript" if the remainder is empty; with no such class name the language is "javascript" |
| CodeBlock.ParseHighlightedClass | src/feature/blog/components/editor/CodeBlockCustom.ts:43-55 | a code element with classes "hljs language-python" parses as "python" |
| CodeBlock.RenderLanguage | src/feature/blog/components/editor/CodeBlockCustom.ts:71-85 | a `pre` holding a `code` whose class is "language-" + language exactly when the language is non-empty |
| CodeBlock.RenderParseRoundTrip | src/feature/blog/components/editor/CodeBlockCustom.ts:43-80 | a rendered language with no white space parses back to itself; the empty language parses back as "javascript" |
| CodeBlock.ParseRenderParse | src/feature/blog/components/editor/CodeBlockCustom.ts:43-80 | parsing is stable: for any HTML, the parsed language rendered and parsed again is unchanged |
| CodeBlock.ParsedHasNoSeparator | src/feature/blog/components/editor/CodeBlockCustom.ts:43-55 | a parsed language has no white space in it |
| CodeBlock.LanguageWithSpace | src/feature/blog/components/editor/CodeBlockCustom.ts:45-49 | the language "a b" parses back as "a" |
| CodeBlock.Toggle | src/feature/blog/components/editor/CodeBlockCustom.ts:94-98 | an active code block becomes a paragraph; any other block becomes a code block with the given or default language; the text is kept |
| CodeBlock.ToggleTwice | src/feature/blog/components/editor/CodeBlockCustom.ts:94-104 | the shortcut turns a paragraph into a code block and back; a code block comes back with the default language |
| CodeBlock.PositionOneIsDocumentStart | src/feature/blog/components/editor/CodeBlockCustom.ts:107 | document position 1 is exactly the start of the first block's text |
| CodeBlock.CodeEditor.ToggleCodeBlock | src/feature/blog/components/editor/CodeBlockCustom.ts:94-104 | the cursor's block is toggled and the cursor stays |
| CodeBlock.CodeEditor.Backspace | src/feature/blog/components/editor/CodeBlockCustom.ts:105-118 | handled exactly for an empty selection in a code block at position 1 or with empty text; the block becomes a paragraph with the same text; otherwise nothing changes |
| CodeBlock.CodeEditor.Enter | src/feature/blog/components/editor/CodeBlockCustom.ts:119-143 | handled exactly for an empty selection at the end of a code block ending in "\n\n"; those two characters are deleted and the cursor moves to a new empty paragraph after the block; otherwise nothing changes |
| ImageUpload.Group | src/feature/blog/components/editor/ImageCustom.ts:22-36 | the node is in the inline group exactly when inline, in the block group otherwise |
| ImageUpload.SetImage | src/feature/blog/components/editor/ImageCustom.ts:40-78 | the given source, alt and title; `loading` at its null default |
| ImageUpload.UploadedImage | src/feature/blog/components/editor/ImageCustom.ts:199-202 | the replacement is `setImage` with the url and the original name |
| ImageUpload.PlaceholderMarks | src/feature/blog/components/editor/ImageCustom.ts:166-195 | a placeholder is marked with its own id and no other; an uploaded image carries no mark |
| ImageUpload.FilterImages | src/feature/blog/components/editor/ImageCustom.ts:98-134 | exactly the files whose MIME type starts with "image/" |
| ImageUpload.FilterImagesAppend | src/feature/blog/components/editor/ImageCustom.ts:98-100 | a single file is kept exactly when it is an image, and the images of two lists joined are the images of each, in order, so order and repeats are kept |
| ImageUpload.FilterImagesIdempotent | src/feature/blog/components/editor/ImageCustom.ts:98-100 | filtering twice changes nothing |
| ImageUpload.AsWrittenIds | src/feature/blog/components/editor/ImageCustom.ts:158 | each id is "uploading-" followed by that image's clock reading |
| ImageUpload.AsWrittenIdsCollide | src/feature/blog/components/editor/ImageCustom.ts:118-158 | two images of one event share an id exactly when the clock read the same millisecond |
| ImageUpload.EventIds | src/feature/blog/components/editor/ImageCustom.ts:158 | corrected ids: "uploading-", the event's reading, "-" and the image's index |
| ImageUpload.EventIdsDistinct | src/feature/blog/components/editor/ImageCustom.ts:158 | the corrected ids of one event are pairwise distinct |
| ImageUpload.Replaced | src/feature/blog/components/editor/ImageCustom.ts:194-207 | every node marked with the id becomes the uploaded image; every other node stays |
| ImageUpload.Removed | src/feature/blog/components/editor/ImageCustom.ts:216-222 | the marked nodes are dropped; a document without them is unchanged |
| ImageUpload.RemovedAppend | src/feature/blog/components/editor/ImageCustom.ts:216-222 | a single node is dropped exactly when it is marked, and removal from two documents joined is removal from each, in order, so the kept nodes keep their order |
| ImageUpload.RemovedContents | src/feature/blog/components/editor/ImageCustom.ts:216-222 | the result holds the document's unmarked nodes and nothing else |
| ImageUpload.CompletionClearsMark | src/feature/blog/components/editor/ImageCustom.ts:194-222 | after either completion no node carries the upload's mark |
| ImageUpload.DistinctUploadsCommute | src/feature/blog/components/editor/ImageCustom.ts:194-207 | with distinct ids, two uploads finish in either order to the same document, each image in its own placeholder |
| ImageUpload.CollidingUploadLosesImage | src/feature/blog/components/editor/ImageCustom.ts:158-207 | with same-millisecond ids the first answer fills both placeholders, and the second image never appears |
| ImageUpload.PasteLosesEarlierImages | src/feature/blog/components/editor/ImageCustom.ts:142-207 | after a paste as written, no node carries the mark of any image but the last, so when such an upload answers the document is unchanged |
| ImageUpload.TwoImagePasteLosesFirst | src/feature/blog/components/editor/ImageCustom.ts:142-207 | two images pasted into an empty document leave only the second placeholder, and the first upload's answer changes nothing |
| ImageUpload.InOrderPasteKeepsEveryImage | src/feature/blog/components/editor/ImageCustom.ts:186-207 | after an in-order paste, each upload's answer fills its own placeholder, at the selection plus its index |
| ImageUpload.LastMarked | src/feature/blog/components/editor/ImageCustom.ts:194-222 | the last marked node, or none exactly when no node is marked |
| ImageUpload.ImageEditor.constructor | src/feature/blog/components/editor/ImageCustom.ts:174-177 | an editor with the given document and a text cursor between two nodes |
| ImageUpload.ImageEditor.InsertPlaceholder | src/feature/blog/components/editor/ImageCustom.ts:160-172 | the placeholder goes in at the position and is left selected, with the cursor just after it |
| ImageUpload.ImageEditor.SetPlaceholder | src/feature/blog/components/editor/ImageCustom.ts:173-184 | `setImage` replaces a selected node, or inserts at a text cursor; the new placeholder is left selected in either case |
| ImageUpload.ImageEditor.Drop | src/feature/blog/components/editor/ImageCustom.ts:91-123 | with no files, no image file or no position, nothing happens (the default is prevented once an image is present); otherwise the placeholders are at the drop position in reverse order with one upload per image, and the last one inserted is selected |
| ImageUpload.ImageEditor.PlaceAll | src/feature/blog/components/editor/ImageCustom.ts:118-120 | each image's placeholder goes in at the same position, so the last ends up first |
| ImageUpload.ImageEditor.Paste | src/feature/blog/components/editor/ImageCustom.ts:125-147 | without an image file nothing happens. Otherwise there is one upload per image, but each `setImage` replaces the placeholder the one before it left selected: only the last image's placeholder remains, over the original selection, and it is selected |
| ImageUpload.ImageEditor.PlaceEach | src/feature/blog/components/editor/ImageCustom.ts:142-144 | the paste loop as written: one upload per image, and the placeholders replace one another, so only the last stays |
| ImageUpload.ImageEditor.PasteInOrder | src/feature/blog/components/editor/ImageCustom.ts:125-147 | the paste as intended: the first placeholder replaces the selection and each later one goes just after the one before, so every image has its placeholder, in order, with the cursor after them |
| ImageUpload.ImageEditor.PlaceInOrder | src/feature/blog/components/editor/ImageCustom.ts:142-144 | the intended paste loop: the placeholders in order over the selection, one upload per image |
| ImageUpload.ImageEditor.InsertRestInOrder | src/feature/blog/components/editor/ImageCustom.ts:142-144 | each placeholder after the first goes in just past the one before, keeping the order |
| ImageUpload.ImageEditor.CompleteUpload | src/feature/blog/components/editor/ImageCustom.ts:186-226 | a successful answer gives `Replaced` and leaves the last replaced image selected; an unsuccessful answer changes nothing; a thrown error gives `Removed` and leaves a text cursor if anything was removed; the cursor ends where the last selection left it |
| ImageUpload.ImageEditor.ReplaceMarked | src/feature/blog/components/editor/ImageCustom.ts:191-207 | the walk over the document gives `Replaced`, with the cursor after the last replaced image and that image selected |
| ImageUpload.ImageEditor.RemoveMarked | src/feature/blog/components/editor/ImageCustom.ts:213-222 | the walk over the document gives `Removed`, with the cursor where the last deleted node stood and no node selected |
| RouteGuards.ProtectedRoute | src/router/guards/ProtectedRoute.tsx:13-23 | it renders exactly when authenticated; otherwise it replaces to /login with `from` set to the current location |
| RouteGuards.ReturnPath | src/router/guards/GuestRoute.tsx:19 | the remembered pathname when truthy, else "/"; never empty |
| RouteGuards.GuestRoute | src/router/guards/GuestRoute.tsx:13-23 | it renders exactly when signed out; otherwise it replaces to the return path |
| RouteGuards.LoginRoundTrip | src/router/guards/ProtectedRoute.tsx:19 | a signed-out visit lands on /login; once signed in there, the guest guard sends the visitor back to the original path |
| RouteGuards.RoundTripDropsQuery | src/router/guards/GuestRoute.tsx:19 | the query string of the original page does not survive the round trip |
| RouteGuards.GuestWithoutOriginGoesHome | src/router/guards/GuestRoute.tsx:19 | with no remembered page, a signed-in visitor goes home |
| RouteGuards.GuardsAreComplementary | src/router/guards/ProtectedRoute.tsx:17 | for any session, exactly one of the two guards renders its children |

## Left out

- `formatDate` in `blog.utils.ts` depends on the platform's date parsing and is not modelled.
- Toasts, `console.error`, `alert` and every HTTP call are I/O. Each call is a start step plus a completion step that takes the outcome as an input.
- Concurrency is not modelled. This covers the race of two requests refreshing at once, React's batching, and the effect cleanup.
- Lengths count Unicode code points, not UTF-16 units. This affects `ReadMinutes` for characters outside the BMP, the password length check and ProseMirror offsets.
- `toLowerCase` is modelled for ASCII letters only. `encodeURIComponent` leaves characters at or above 0x80 unescaped.
- `Api.OnResponseError`: the `_retry` flag and the headers are fields of a `RequestConfig` object. The replayed request itself is left out; the decision says `Replay`.
- The update request follows the seven-field object that `usePostEdit.ts:220-228` builds: title, excerpt, postType, content, status, stacks and tags. The `UpdatePostRequest` type it is annotated with is imported at `usePostEdit.ts:13` from `src/feature/blog/api/post.request.ts:12-19`. That type declares `category`, an optional `status` and optional `tags`, and has no `postType` or `stacks`. The model does not check the object against that declaration. Categories and post types are plain values.
- `BlogHome.CurrentTab`: `PostsFilter` (usePosts.types.ts) has no `postType` field, so `filter.postType` is always undefined in the code as written and the active tab is always ALL. The model takes the post type as an `Option` and shows both cases.
- The router (AppRouter.tsx) declares no `/:group/:stack` route. The tab and stack links are modelled by what the URL parser reads back (segments and `q`), not by which page renders them.
- `CodeBlock.ClassNames` does not remove duplicate class names as `classList` does. This does not change the first "language-" class, which is the only one read.
- `CodeBlock.CodeEditor.Enter` takes `exitCode` as succeeding. It models the document as a sequence of text blocks, with the cursor as a block index and text offset.
- `CodeBlock.CodeEditor.Backspace`: `clearNodes` is modelled on the cursor's block only.
- `CodeBlock.RenderParseRoundTrip` requires a language with no white space, since the class attribute is split on white space (`LanguageWithSpace` shows the loss).
- `ImageUpload.ImageEditor.Drop` and `Paste` take positions as indices between top-level nodes, not ProseMirror positions. A drop or a paste inside a paragraph, which would split it, is not modelled.
- `ImageUpload.ImageEditor.Paste`: the selection is either a text cursor between two top-level nodes or a node selection of the node just before the cursor. Two rules come from the editor library, whose code is not part of this model: an insertion leaves the inserted image selected as a node (tiptap places the selection near the end of the insertion, which at a node boundary is the new atom), and `setImage` at a node selection replaces that node. After a deletion the selection is taken to be a text cursor where the node stood.
- `ImageUpload.ImageEditor.Drop` and `Paste` take the placeholder ids as an input. `AsWrittenIds` and `EventIds` say which ids the code as written and the corrected code supply.
- `ImageUpload.ImageEditor.RemoveMarked` removes every marked node. When several nodes share a mark, the code's later deletions use positions computed before the first deletion, so they no longer point at the marked nodes. That drift is not modelled. With distinct ids only one node is marked, and the model is exact.
- A successful HTTP answer whose `success` flag is false leaves the "Uploading..." placeholder in the document. This is modelled as written.
- `RouteGuards`: the login page navigates to "/" itself after login (useLogin.ts). The round trip is modelled on the guards alone.
- The shortcut table of the code block is not a member of its own. `Mod-Alt-c` is modelled as `ToggleCodeBlock` with no attributes.

## Findings

| source | as written | input that shows it | evidently intended | confidence | as-written member | corrected member |
|---|---|---|---|---|---|---|
| src/feature/blog/pages/BlogHomePage.tsx:45 | the search keyword is spliced into `?q=` without escaping | keyword "c++": the page reads back `q` = "c  " | `encodeURIComponent(keyword)` | not executed | BlogHome.TabClickLosesPlus | BlogHome.TabClickEncoded |
| src/feature/blog/components/sidebar/Sidebar.tsx:34 | the stack name is spliced into the path without escaping | stack "C#" of group "LANG": the router reads the segments "lang", "C" | `encodeURIComponent(stackName)` | not executed | Sidebar.StackClickLosesHash | Sidebar.StackClickEncoded |
| src/feature/blog/components/editor/ImageCustom.ts:142-144 | each pasted image gets `focus().setImage(placeholder)`, which replaces the current selection, and that is the placeholder the previous call inserted and left selected | two images pasted with ids "a" and "b" into an empty document: only the placeholder "b" remains, and the answer to the upload of "a" changes nothing | each later placeholder inserted after the previous one, e.g. with `insertContentAt` at the end of the selection | not executed; rests on the editor library's selection rule | ImageUpload.TwoImagePasteLosesFirst | ImageUpload.ImageEditor.PasteInOrder |
| src/feature/blog/components/editor/ImageCustom.ts:158 | the placeholder id is `uploading-` plus one clock reading per image | two images dropped together, both read at millisecond 5: the first upload to answer fills both placeholders and the second image is lost | an id unique per upload, such as the reading plus the image's index | not executed | ImageUpload.CollidingUploadLosesImage | ImageUpload.EventIdsDistinct |
