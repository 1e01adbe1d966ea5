# StackTales core, modelled in Dafny

StackTales is a blogging site with an admin area. This project models the parts of it that compute something rather than draw or call a hosted service:

- the preview's content-block splitter, which cuts an author's HTML into raw-HTML blocks and `<Code language="…">` blocks;
- the textarea helpers that wrap the selection in tags or replace it with a list;
- the tag picker and the single-key draft storage;
- the blog editor's save and clear handlers;
- the chat message's code renderer;
- the media uploader's checks, upload list, gallery and abort-controller table;
- the analytics page's view and click figures, and its per-author reductions;
- the navigation bar's blog search;
- the home page's excerpts and author lookup;
- the profile box, the settings panel and the sign-in action.

There is one module per source file. Two modules are shared:

- `Str` holds JavaScript's string behaviour as these files use it: the `\s` whitespace set and `trim`, ASCII `toLowerCase`, `includes`, `startsWith`, and `||` defaulting of optional strings.
- `Avatar` holds the avatar check that the profile box and the settings panel both run.

## How the source is modelled

- State that a component or a browser object keeps is a class, and its handlers are methods with `modifies`:
  - `TextEditor.Textarea`, `TagInput.TagInput`, `BlogStorage.Storage`, `BlogEditor.Editor`;
  - `MediaUpload.Uploader`, `AdminAnalytics.Analytics`, `Navbar.Navbar`;
  - `AdminDashbox.Dashbox`, `AdminSettings.Settings`.
- Each handler is proved against a pure function of the old state. The properties the source promises are lemmas about that function.
- Loops stay loops:
  - the splitter's `exec` loop;
  - the uploader's validation, start and cancel loops;
  - the analytics counting and collecting loops.
- Everything outside the program is an input:
  - database answers, uploads, the image decoder's width and height;
  - `window.confirm`, the clock, the sign-out response;
  - the sign-in service, which is a function parameter.
- The regular expression at `PreviewBox.tsx:14` is an explicit matcher, `ContentParser.MatchAt`.
  - It is proved equal to a declarative description of what the pattern accepts (`ContentParser.IsMatch`).
  - `ContentParser.FindFrom` is the leftmost search that `exec` with the `g` flag performs.
- `parseInt` is modelled on strings: leading whitespace, a sign, a `0x` prefix, and the longest run of digits, with `NaN` as `None`.
- `Array.prototype.sort` is stable, so the descending click sort is an insertion sort by decreasing clicks.

The written description of the system mentions two things the source does not have: a slug derived from the title, and a debounced draft auto-save. They are not part of this model. The description also says that each upload can be cancelled on its own. The source's `cancelUpload` can also abort uploads of other files (see Findings). The model follows the code for the as-written member and uses the corrected test elsewhere.

## Model

| member | source | states |
|---|---|---|
| ContentParser.MatchAtSound | src/components/admin/PreviewBox.tsx:14 | whatever the matcher reports at an index has the declared shape, with the positions of `language=`, the closing quote, the `>` and the `</Code>` as witnesses |
| ContentParser.MatchAtComplete | src/components/admin/PreviewBox.tsx:14 | every match of the declared shape is the one the matcher reports at its start |
| ContentParser.MatchAtIff | src/components/admin/PreviewBox.tsx:14 | the matcher accepts at an index exactly the matches the case-insensitive pattern describes: `<Code`, whitespace, `language=`, a quote, a non-empty quote-free language, a quote, non-`>` attributes, `>`, and the shortest body up to the first `</Code>` |
| ContentParser.MatchFields | src/components/admin/PreviewBox.tsx:14-34 | a match's language is non-empty and quote-free, and its body is the verbatim text between the tag's `>` and the first following `</Code>`, which does not occur inside it |
| ContentParser.MatchNeedsAngle | src/components/admin/PreviewBox.tsx:14 | a match can start only at a `<` |
| ContentParser.FindFrom | src/components/admin/PreviewBox.tsx:20 | the search returns the leftmost index at or after the resume point where the pattern matches, or none when it matches nowhere |
| ContentParser.Scan | src/components/admin/PreviewBox.tsx:20-42 | the pieces of the scan lie inside the content and tile it from the resume point, each search resuming where the previous match ended |
| ContentParser.Coverage | src/components/admin/PreviewBox.tsx:22-45 | the gap slices and the matched spans, concatenated in order, rebuild the content exactly |
| ContentParser.ScanAlternates | src/components/admin/PreviewBox.tsx:20-45 | the pieces alternate gap, match, gap, …, and end with the final gap |
| ContentParser.ScanTagsMatch | src/components/admin/PreviewBox.tsx:20-41 | every code piece is the pattern's match at its own start |
| ContentParser.ScanGapsClear | src/components/admin/PreviewBox.tsx:20-22 | no index inside a gap starts a match, so the matches are the successive leftmost ones and do not overlap |
| ContentParser.EmitScanStep | src/components/admin/PreviewBox.tsx:21-41 | before each match the gap slice is emitted as HTML unless it is blank, then the code block with the match's language and body |
| ContentParser.EmitScanLast | src/components/admin/PreviewBox.tsx:44-54 | after the last match the remainder is emitted as HTML unless it is blank |
| ContentParser.Render | src/components/admin/PreviewBox.tsx:12-58 | the output is empty exactly when the content is empty |
| ContentParser.RenderNoMatch | src/components/admin/PreviewBox.tsx:44-58 | non-empty content with no match is one HTML block holding all of it |
| ContentParser.RenderPlainText | src/components/admin/PreviewBox.tsx:44-58 | non-empty content without `<` is one HTML block holding all of it |
| ContentParser.RenderBlank | src/components/admin/PreviewBox.tsx:56-58 | whitespace-only content emits nothing in the loop, so the fallback makes it one HTML block |
| ContentParser.ParseAndRenderContent | src/components/admin/PreviewBox.tsx:11-61 | the loop's block list equals the specification `Render` of the content, so the loop terminates and has every property above |
| TextEditor.WrappedLayout | src/utils/textEditor.ts:33-39 | the new value is the text before the selection, `before`, the selection, `after`, then the text after the selection; it grows by the two tags, and the old prefix and suffix are kept at the ends |
| TextEditor.TextCaretPlacement | src/utils/textEditor.ts:41-44 | with a selection the caret lands after the closing tag, and without one it lands between the two tags |
| TextEditor.InsertText | src/utils/textEditor.ts:26-49 | with a textarea, its value becomes the wrapped text, the selection collapses to the caret, it is focused and one input event is sent; with none, nothing changes |
| TextEditor.WithListLayout | src/utils/textEditor.ts:9-16 | the selection is replaced by `<T>\n  <li>C</li>\n</T>`, where C is the selected text or "List item", and the text around it is kept |
| TextEditor.InsertHtmlList | src/utils/textEditor.ts:1-24 | with a textarea, its value becomes the list text, the new selection covers exactly C after the eleven-character opening markup, it is focused and one input event is sent |
| TextEditor.Textarea.SetSelectionRange | src/utils/textEditor.ts:19-44 | the selection is clamped to the value, and an end before the start collapses it at the end |
| TagInput.StripSpaces | src/components/admin/TagInput.tsx:18 | the submitted tag has no whitespace character and is no longer than the input |
| TagInput.StripSpacesSplit | src/components/admin/TagInput.tsx:18 | whitespace removal distributes over concatenation, so the other characters are kept in order |
| TagInput.StripSpacesIdentity | src/components/admin/TagInput.tsx:18 | input without whitespace is submitted as typed, and blank input becomes `""` |
| TagInput.AddTagAppends | src/components/admin/TagInput.tsx:19-20 | the old tags stay in order at the front, a new tag goes at the end, and a present tag changes nothing |
| TagInput.AddTagNoDuplicates | src/components/admin/TagInput.tsx:19-21 | a duplicate-free list stays duplicate-free after a submit |
| TagInput.WithoutMembers | src/components/admin/TagInput.tsx:26 | after removal, exactly the tags different from the removed one remain |
| TagInput.WithoutSplit | src/components/admin/TagInput.tsx:26 | removal distributes over concatenation, so the rest keep their order |
| TagInput.WithoutAbsent | src/components/admin/TagInput.tsx:26 | removing an absent tag leaves the list unchanged |
| TagInput.WithoutNoDuplicates | src/components/admin/TagInput.tsx:26 | removal keeps a list duplicate-free |
| TagInput.TagInput.OnEnterInput | src/components/admin/TagInput.tsx:16-23 | the tags become the old tags with the stripped input added unless present, the input is cleared, and the list stays duplicate-free |
| TagInput.TagInput.RemoveTag | src/components/admin/TagInput.tsx:25-27 | the tags become the old tags without every copy of the removed tag, and the list stays duplicate-free |
| TagInput.TagInput.constructor | src/components/admin/TagInput.tsx:12-14 | the tags start as `Javascript`, `ReactJs` with empty input |
| BlogStorage.LoadAfterSave | src/utils/blogStorage.ts:6-17 | after a save in a working browser, load returns what was saved |
| BlogStorage.SaveKeepsOtherKeys | src/utils/blogStorage.ts:1-17 | a save touches only the key `admin_blog_content` |
| BlogStorage.SaveOverwrites | src/utils/blogStorage.ts:17 | a later save replaces an earlier one |
| BlogStorage.NoStorage | src/utils/blogStorage.ts:4-20 | without a window, or when storage throws, load gives `""` and save changes nothing |
| BlogStorage.Storage.Load | src/utils/blogStorage.ts:3-12 | load gives the stored content, or `""` when there is none |
| BlogStorage.Storage.Save | src/utils/blogStorage.ts:14-21 | the items become those after the save, and a failed `setItem` leaves them unchanged |
| BlogEditor.SavePlanChecks | src/components/admin/BlogEditor.tsx:131-149 | the four checks run in order (blank title, another admin's blog, blank content, no loaded admin id), each refusing exactly when it fails and the earlier ones pass, and a write happens only when all pass |
| BlogEditor.SavePlanPayload | src/components/admin/BlogEditor.tsx:156-186 | the title is stored trimmed and non-empty, the content untouched, and an empty series as null; an existing blog gets an update with no author or creation time, and a new one an insert with the loaded admin as author and a creation time |
| BlogEditor.SavePlanOwnBlogsOnly | src/components/admin/BlogEditor.tsx:136-140 | when an admin id is given, a write happens only if it is the loaded admin's |
| BlogEditor.Nullish | src/components/admin/BlogEditor.tsx:158 | an empty or missing series becomes null, and any other is kept |
| BlogEditor.Editor.HandleSave | src/components/admin/BlogEditor.tsx:130-199 | a refusal shows its message and writes nothing; otherwise the planned write is sent, the message says "updated" or "saved" by whether the blog id is set (or that saving failed), and saving ends |
| BlogEditor.Editor.HandleClear | src/components/admin/BlogEditor.tsx:201-208 | when confirmed, content, title, series and message are reset; otherwise nothing changes |
| ChatMessage.FindLanguage | src/components/admin/ChatMessage.tsx:28 | the search returns the leftmost `language-` followed by a word character, or none if there is no such place |
| ChatMessage.LanguageMatchSound | src/components/admin/ChatMessage.tsx:28-29 | the language is the maximal non-empty run of word characters right after the leftmost such `language-` |
| ChatMessage.LanguageMatchIff | src/components/admin/ChatMessage.tsx:28 | the class matches exactly when `language-` followed by a word character occurs in it |
| ChatMessage.StripFinalNewlineSpec | src/components/admin/ChatMessage.tsx:33 | exactly one final `\n` is removed when present, and every other character is kept |
| ChatMessage.RenderCodeChoice | src/components/admin/ChatMessage.tsx:27-44 | code is highlighted exactly when it is not inline and the class (missing counts as `''`) names a language; it then gets that language and the text less its final newline, and otherwise the children pass through unchanged |
| ChatMessage.RenderMessagePlainForUser | src/components/admin/ChatMessage.tsx:20-25 | user messages are plain paragraphs, only AI messages go through Markdown, and the text is passed on unchanged |
| MediaUpload.SupportedTypesDistinct | src/components/admin/MediaUpload.tsx:44-49 | there are eleven distinct accepted types, and no type is both an image and a video type |
| MediaUpload.ValidateFileSpec | src/components/admin/MediaUpload.tsx:51-66 | a file passes exactly when its type is listed and it is at most 50 MiB, and the type is checked before the size |
| MediaUpload.ValidateFileBoundary | src/components/admin/MediaUpload.tsx:43-63 | exactly 50 MiB is accepted and one byte more is refused |
| MediaUpload.GetFileCategorySpec | src/components/admin/MediaUpload.tsx:75-76 | the category is image exactly for the image types, and video for everything else |
| MediaUpload.FirstInvalid | src/components/admin/MediaUpload.tsx:157-160 | it returns the first invalid file and its problem, or none exactly when every file passes |
| MediaUpload.SetProgress | src/components/admin/MediaUpload.tsx:112-116 | only entries with the file's name get the new progress, and the others are unchanged |
| MediaUpload.MarkCompleted | src/components/admin/MediaUpload.tsx:136-142 | only entries with the file's name become completed at 100%, and the others are unchanged |
| MediaUpload.MarkFailed | src/components/admin/MediaUpload.tsx:145-149 | only entries with the file's name become failed with the message, and the others are unchanged |
| MediaUpload.KeepActiveSpec | src/components/admin/MediaUpload.tsx:232-235 | Clear Completed keeps exactly the entries still uploading or failed, in their order |
| MediaUpload.KeepActiveIdempotent | src/components/admin/MediaUpload.tsx:232-235 | clearing twice is the same as clearing once |
| MediaUpload.WithoutMediaSpec | src/components/admin/MediaUpload.tsx:290 | Remove deletes exactly the media with that id and keeps the rest in order |
| MediaUpload.Started | src/components/admin/MediaUpload.tsx:96 | each started file adds one entry with progress 0, status uploading and no error |
| MediaUpload.Registered | src/components/admin/MediaUpload.tsx:92-94 | starting a batch adds one unaborted controller per new key and leaves the other controllers as they were |
| MediaUpload.CancelMatchAsWrittenOvermatches | src/components/admin/MediaUpload.tsx:174-177 | the source's `includes` test matches the key of an upload of `ba.png` when `a.png` is cancelled |
| MediaUpload.KeyForExact | src/components/admin/MediaUpload.tsx:174-177 | the corrected test matches a key built as at line 92 (`name-time`) for its own file name and for no other |
| MediaUpload.Uploader.StartUpload | src/components/admin/MediaUpload.tsx:92-96 | the key is the name, a dash and the time; the key gets an unaborted controller, and one uploading entry is appended |
| MediaUpload.Uploader.OnProgress | src/components/admin/MediaUpload.tsx:110-117 | the upload list is updated by `SetProgress`, and nothing else changes |
| MediaUpload.Uploader.FinishUpload | src/components/admin/MediaUpload.tsx:121-152 | a response with an id and a url appends the media and marks the file completed; a response missing either, or an exception, marks it failed with the source's message; the controller is dropped |
| MediaUpload.Uploader.HandleFileUpload | src/components/admin/MediaUpload.tsx:155-161 | if some file is invalid, the first invalid one is reported with its problem and nothing starts; otherwise every file gets its entry, in order, and its controller |
| MediaUpload.Uploader.ClearCompleted | src/components/admin/MediaUpload.tsx:232-235 | the upload list becomes its active entries |
| MediaUpload.Uploader.RemoveMedia | src/components/admin/MediaUpload.tsx:290 | the gallery loses exactly the media with that id |
| MediaUpload.Uploader.CancelUpload | src/components/admin/MediaUpload.tsx:174-178 | every controller of this file's uploads is aborted, and no other controller changes |
| AdminAnalytics.ParseIntDigits | src/components/admin/AdminAnalytics.tsx:67 | a non-empty string of decimal digits is read whole, as the number it denotes |
| AdminAnalytics.ParseIntDecimal | src/components/admin/AdminAnalytics.tsx:67 | a stamp written in decimal parses back to its number |
| AdminAnalytics.ParseIntNaN | src/components/admin/AdminAnalytics.tsx:67-68 | text that does not start with a digit or a sign, after whitespace, is `NaN` and never counts |
| AdminAnalytics.ViewsOrdered | src/components/admin/AdminAnalytics.tsx:62-77 | the week's views are at most the month's, which are at most the total |
| AdminAnalytics.ViewsWithinMonotone | src/components/admin/AdminAnalytics.tsx:68-71 | a wider window never counts fewer views, and no window counts more than all views |
| AdminAnalytics.CountRowViews | src/components/admin/AdminAnalytics.tsx:66-74 | a blog's stamps are counted for a window when they parse and are at most that far in the past, future stamps included |
| AdminAnalytics.CountViews | src/components/admin/AdminAnalytics.tsx:62-76 | the counters equal the week and month counts, and the total is the sum of view-array lengths over rows with an array |
| AdminAnalytics.IncludedTotal | src/components/admin/AdminAnalytics.tsx:93-98 | the click total is the sum of the clicks of the listed blogs |
| AdminAnalytics.IncludedSpec | src/components/admin/AdminAnalytics.tsx:94-96 | a blog is listed exactly when its row's clicks are not null |
| AdminAnalytics.SortByClicksSorted | src/components/admin/AdminAnalytics.tsx:99 | the click list is ordered by decreasing clicks |
| AdminAnalytics.SortByClicksPermutes | src/components/admin/AdminAnalytics.tsx:99 | the sorted list is a permutation of the collected entries |
| AdminAnalytics.SortByClicksStable | src/components/admin/AdminAnalytics.tsx:99 | entries with equal clicks keep their row order |
| AdminAnalytics.CollectClicks | src/components/admin/AdminAnalytics.tsx:91-99 | the loop's total and its sorted list equal the total over rows with clicks and the sorted included entries |
| AdminAnalytics.ByAuthorSpec | src/components/admin/AdminAnalytics.tsx:180-193 | an author's blogs are exactly the listed entries with that author id, so the count shown is their number |
| AdminAnalytics.ByAuthorAppend | src/components/admin/AdminAnalytics.tsx:180 | the author filter distributes over concatenation, so it keeps list order |
| AdminAnalytics.MostBySound | src/components/admin/AdminAnalytics.tsx:183-196 | the reduction picks an entry with the highest score, which is above 0 and strictly higher than every earlier entry's, so ties keep the earlier entry |
| AdminAnalytics.MostByNone | src/components/admin/AdminAnalytics.tsx:183-196 | the reduction gives null exactly when every score is at most 0 |
| AdminAnalytics.MostTargetSpec | src/components/admin/AdminAnalytics.tsx:182-199 | the most viewed or clicked link goes to a top-scoring blog of that author, and there is none when all of the author's scores are 0 |
| AdminAnalytics.Analytics.GetViewsData | src/components/admin/AdminAnalytics.tsx:56-83 | a failed query keeps the figures; otherwise they become the week, month and total counts of the rows, ordered week ≤ month ≤ total |
| AdminAnalytics.Analytics.GetClicksData | src/components/admin/AdminAnalytics.tsx:85-106 | a failed query keeps the figures; otherwise they become the click total and the sorted click list |
| Navbar.MatchingSpec | src/components/layout/Navbar.tsx:69-73 | filtering keeps, in order, exactly the blogs whose lower-cased title contains the query |
| Navbar.FilterViewSpec | src/components/layout/Navbar.tsx:64-75 | a blank query shows every blog, or the four suggestions when there are none; any other query shows the base entries whose title contains the lower-cased untrimmed query, as a subsequence |
| Navbar.FilterViewIgnoresCase | src/components/layout/Navbar.tsx:69-73 | two queries that are equal when lower-cased find the same blogs |
| Navbar.Base | src/components/layout/Navbar.tsx:65-67 | the searched list is never empty |
| Navbar.Navbar.Refilter | src/components/layout/Navbar.tsx:64-75 | after the effect the shown list is the filter view of the blogs and the query |
| Navbar.Navbar.FetchBlogs | src/components/layout/Navbar.tsx:36-61 | an error or exception makes the suggestions the blog list, and a null result an empty one; the shown list follows |
| Navbar.Navbar.SetQuery | src/components/layout/Navbar.tsx:120-122 | the query becomes the typed text, and the shown list follows |
| Navbar.Navbar.SelectBlog | src/components/layout/Navbar.tsx:113-117 | the router goes to the blog's page, the box closes, the query is cleared and the full list is shown |
| Navbar.Navbar.MouseDown | src/components/layout/Navbar.tsx:90-110 | a press outside the open box closes it and clears the query, and a press inside changes nothing |
| Navbar.Navbar.ToggleSearchBox | src/components/layout/Navbar.tsx:139-142 | the box opens or closes, and the lists are unchanged |
| LatestBlogs.StripTagsNoTags | src/components/layout/LatestBlogs.tsx:70 | after stripping, no `<` is followed by anything but `>`, so no removable span is left |
| LatestBlogs.StripTagsPlain | src/components/layout/LatestBlogs.tsx:70 | text without `<` is left alone by the tag removal |
| LatestBlogs.CollapseNoDouble | src/components/layout/LatestBlogs.tsx:70 | after collapsing, no two whitespace characters are adjacent |
| LatestBlogs.ExcerptSpec | src/components/layout/LatestBlogs.tsx:70 | the excerpt ends with `....`, and the text before it is at most 100 characters, with no whitespace at either end and no double whitespace |
| LatestBlogs.ExcerptOfPlainText | src/components/layout/LatestBlogs.tsx:70 | short single-spaced text without tags only gains the four dots |
| LatestBlogs.FindAuthorSound | src/components/layout/LatestBlogs.tsx:66-67 | the author shown is the first admin whose id is the blog's author id |
| LatestBlogs.FindAuthorNone | src/components/layout/LatestBlogs.tsx:66-67 | no author is shown exactly when no admin has that id |
| Avatar.CheckOrder | src/components/admin/AdminDashbox.tsx:169-198 | the checks run in order (above 5 MiB, not `image/`, unreadable, below 300 in width or height, not square), each failing exactly when the earlier ones pass |
| Avatar.CheckPassed | src/components/admin/AdminSettings.tsx:113-131 | the avatar is uploaded exactly when it is at most 5 MiB, has an image type, and is a square of at least 300 pixels a side |
| Avatar.SizeBoundary | src/components/admin/AdminDashbox.tsx:169 | exactly 5 MiB passes the size check and one byte more fails it |
| AdminDashbox.FormFromDefaults | src/components/admin/AdminDashbox.tsx:106-111 | the username comes from the username, else the name, else `''`, and the other fields default to `''` |
| AdminDashbox.UrlOkIntro | src/components/admin/AdminDashbox.tsx:240 | `http://` or `https://` followed by a character that does not end a line passes the URL pattern, and a bare scheme does not |
| AdminDashbox.UrlOkShape | src/components/admin/AdminDashbox.tsx:240 | every URL that passes starts with `http://` or `https://` |
| AdminDashbox.SavePlanChecks | src/components/admin/AdminDashbox.tsx:233-248 | a blank username is refused first, then a non-empty malformed GitHub URL, then a LinkedIn one; empty URLs are not checked, and the update goes out exactly when all checks pass |
| AdminDashbox.SavePlanPayload | src/components/admin/AdminDashbox.tsx:252-263 | the username is sent untrimmed, and empty GitHub, LinkedIn and avatar fields are sent as null, the others as typed |
| AdminDashbox.SessionNameOnly | src/components/admin/AdminDashbox.tsx:277-282 | saving writes the username into the session's `name` and keeps every other field |
| AdminDashbox.Dashbox.LoadAdminData | src/components/admin/AdminDashbox.tsx:78-119 | a loaded row becomes the admin and fills the form; a failure shows the error's message or the default one |
| AdminDashbox.Dashbox.HandleAvatarChange | src/components/admin/AdminDashbox.tsx:165-213 | with a file and an admin, a failed check shows its message and uploads nothing; a passing image is uploaded, a returned url becomes the form's avatar, and an upload error is reported |
| AdminDashbox.Dashbox.HandleEdit | src/components/admin/AdminDashbox.tsx:215-228 | the editing flag flips and the error clears; cancelling an edit resets the form from the stored admin |
| AdminDashbox.Dashbox.HandleSave | src/components/admin/AdminDashbox.tsx:230-291 | without an admin nothing happens; a refusal shows its message and sends nothing; otherwise the planned update for the admin's own id is sent; on success the admin, the editing flag and the navigation avatar are updated, then a stored session object gets the new `name`, while a stored session that is not an object shows the exception's message; on error the database's message shows |
| AdminSettings.FormFromFields | src/components/admin/AdminSettings.tsx:53-59 | each fetched field is the row's value, or `''` when that is null or empty |
| AdminSettings.SavePlanSpec | src/components/admin/AdminSettings.tsx:137-155 | a save goes out exactly when the username is not blank, with no URL check; empty GitHub, LinkedIn, readme and avatar fields are sent as null |
| AdminSettings.SignedOutCases | src/components/admin/AdminSettings.tsx:179 | an ok, redirected or 302 answer signs out, and others, such as an unredirected 500 or a 301, do not |
| AdminSettings.Settings.FetchAdminData | src/components/admin/AdminSettings.tsx:44-70 | with an admin id, the fetched row fills the form and its avatar (or `''`) goes to the navigation; a failure shows `Could not load admin profile.` |
| AdminSettings.Settings.HandleAvatarChange | src/components/admin/AdminSettings.tsx:91-135 | with a file, a failed check shows its message and uploads nothing; a passing image is uploaded, a returned url becomes the form's avatar, and an upload failure is reported |
| AdminSettings.Settings.ToggleEdit | src/components/admin/AdminSettings.tsx:234 | the editing flag flips and the form is not reset |
| AdminSettings.Settings.HandleSave | src/components/admin/AdminSettings.tsx:137-168 | a blank username is refused; otherwise the update of the signed-in admin's row (its id from the `admin` prop) is sent, and success updates the navigation avatar and ends editing without clearing an earlier error, while failure shows the save error |
| AdminSettings.Settings.HandleLogout | src/components/admin/AdminSettings.tsx:170-185 | the admin is cleared exactly when the response is ok, redirected or a 302, and an exception changes nothing |
| LoginAction.LoginChecks | src/app/admin/login-action.ts:17-22 | a missing email or password is reported before a missing `@`, and neither result depends on the sign-in service |
| LoginAction.LoginAsks | src/app/admin/login-action.ts:23-26 | once the form passes, the service gets the trimmed, lower-cased email and the password as typed, and its answer decides the result |
| LoginAction.LoginSuccess | src/app/admin/login-action.ts:11-46 | sign-in succeeds, with redirect `/admin`, exactly when the client was created, the form passes and the service returned a user |
| LoginAction.RespondMessages | src/app/admin/login-action.ts:27-45 | `Invalid login credentials` maps to the wrong-credentials message, any other service error to the generic one, no user to the no-user message, and an exception to the unexpected-error message |
| LoginAction.NormalizeEmailKeepsAt | src/app/admin/login-action.ts:20-24 | the `@` the check found survives trimming and lower-casing |
| LoginAction.NormalizeEmailIdempotent | src/app/admin/login-action.ts:24 | normalising an email twice is the same as once |

## Left out

- Supabase queries, storage uploads, ImageKit signing and the `upload` SDK call are inputs or outcomes, not code. So are authentication and routing. The loaders in the core files (blog, author, tag and admin fetches) are represented only by the results they hand to the handlers.
- AdminDashbox's `handleLogout` (src/components/admin/AdminDashbox.tsx:293-317) only records a logout time through the database, removes the session key and calls back; it is not part of this model.
- The admin id lookup through `admin_session` at the start of `loadAdminData` in src/components/admin/AdminDashbox.tsx is left out. Its "No admin ID found" case is one of the load failures given as input.
- Floating point is left out:
  - `formatFileSize`;
  - the progress percentage `loaded / total * 100`, which is a `real` input to `OnProgress`;
  - the `toFixed` MiB figure inside the size error text.
- `validateFile`'s error strings are not modelled; the model gives the problem (type or size) instead of the sentence.
- Concurrency is left out: uploads run in parallel through `Promise.allSettled`, and `setTimeout` message clears and spinners run on timers.
  - The model starts uploads and finishes them one at a time.
  - The `uploading`, `saving`, `loggingOut` and `refreshing` flags are left out, except the blog editor's `isSaving`.
- The clock is a parameter. `Date.now()` is re-read on every iteration of the analytics loop, but the model uses one `now` per call.
- `parseInt` returns a double in JavaScript; the model's value is an exact integer, so precision loss on huge stamps is not modelled.
- Browser events are inputs: the image decoder's width and height (or its `onerror`), `window.confirm`, and the clicks that open the file picker. The clipboard, focus handling beyond a flag, and the `mousedown` listener of AdminSettings are left out.
- Rendering is left out: `dangerouslySetInnerHTML`, the syntax highlighter, Markdown, and the React keys of the preview's blocks (the `key` counter).
- The `Cancelled` upload status is declared but nothing sets it, as in the source.
- Full Unicode `\s`, `\w` and `toLowerCase` are not modelled. `\s` is the ECMAScript whitespace set. `\w` and lower-casing are ASCII.
- The `views` column of the analytics rows is a list of strings when it is an array, and is treated as no views otherwise. Array elements of other types are not modelled.
- AdminPanel's older copy of ChatMessage is not part of this model.
- `TextEditor.InsertText` and `TextEditor.InsertHtmlList` assume the textarea keeps `selectionStart <= selectionEnd <= |value|`, as the browser guarantees. The code does not check this, and the model does not check it either.
- LatestBlogs.Take100: lengths count Unicode characters, while `slice(0, 100)` counts UTF-16 code units. A character outside the Basic Multilingual Plane counts once here and twice in the source, and a cut between the two halves of a surrogate pair leaves a lone surrogate that a Dafny string cannot hold. So `ExcerptText` keeps more such characters than the source does.
- LatestBlogs.ExcerptOfPlainText: its `|content| <= 100` counts characters, so for text of more than 100 UTF-16 units (such as 60 emoji) the source cuts what the lemma says is kept whole. For text in the Basic Multilingual Plane the two counts agree. Textarea offsets in `TextEditor` are also character indices; they are used consistently, so their meaning is unaffected.
- AdminDashbox.Dashbox.HandleSave: a stored session that parses to an array, or to an object with non-string fields, is not modelled. The exception's message for a session that does not parse to an object is an input.
- MediaUpload.Uploader.CancelUpload: models the corrected key test, not the source's `includes`, whose over-matching is shown by `CancelMatchAsWrittenOvermatches`.

## Findings

| source | as written | input that shows it | evidently intended | confidence | as-written member | corrected member |
|---|---|---|---|---|---|---|
| src/components/admin/MediaUpload.tsx:174-177 | `cancelUpload(fileName)` aborts every controller whose key `includes(fileName)` | while `ba.png` is uploading under key `ba.png-5`, cancelling `a.png` aborts it, because `"ba.png-5"` contains `"a.png"` | abort only the uploads whose key is `fileName`, a dash and a time stamp, which is how `uploadSingleFile` builds keys (line 92) | not executed | MediaUpload.CancelMatchAsWrittenOvermatches | MediaUpload.KeyForExact |
