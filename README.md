# Portfolio site core, modelled in Dafny

This project models the logic behind Youssef Chouay's portfolio site, a Next.js application. The pieces modelled are:

- **the blog catalogue** (`lib/blog-data.ts`): the post table and the queries over it:
  - published posts, newest first;
  - the latest N posts;
  - lookup by slug;
  - a case-insensitive tag filter;
  - pagination.
- **the markdown utilities** (`lib/blog-content.ts`):
  - the reading-time estimate;
  - heading extraction for the table of contents, with slug ids;
  - the plain-text preview.
- **the `POST /api/ask` handler** (`app/api/ask/route.ts`), a retrieval-augmented chat endpoint:
  - request validation (400);
  - history defaulting;
  - context retrieval that degrades to "no context" on any failure;
  - the system prompt with its context markers;
  - the `[system, ...history, user]` message list;
  - the 500 error mapping.
- **`highlightCompanyNames`** (`components/education.tsx`): cuts a description into plain pieces and highlighted names.
- **the floating ask widget** (`components/ask-input.tsx`):
  - the keyword router that picks a canned answer;
  - the footer rule that hides the widget;
  - the dismiss button.
- **the blog card** (`components/blog-card.tsx`): the values it derives from its props.
- **the project table** (`lib/project-data.ts`): the table and `getProjectById`.

There is one Dafny module per source file. Three shared modules support them:

- `Text`: the JavaScript whitespace set, lower-casing, `trim`, `indexOf`, `includes` and `join`;
- `Seqs`: `filter`, `slice`, subsequences and flattening;
- `Numbers`: `Math.max`, `Math.min` and integer ceiling division.

Which Dafny form each part takes:

- **Pure TypeScript** becomes functions, with lemmas about them.
- **Loops**:
  - The `exec` loop of `extractHeadings` and the `forEach` of `highlightCompanyNames` are methods with loop invariants.
  - Each method is proved equal to a recursive specification function.
  - The properties are proved about that specification function.
- **The ask widget's React state** (`response`, `isVisible`) is a class. Its state-changing handlers are methods.

The outside world enters as parameters:

- Date parsing (`Date`) is a function parameter.
- OpenAI's embedding and chat-completion calls, and Supabase's `match_documents` RPC, are oracles in an `Env` value.
- The markdown-stripping pre-pass of the preview is a function parameter.

Retrieval failures in the ask handler degrade rather than abort:

- `getQueryEmbedding` re-throws an embedding failure (`app/api/ask/route.ts:51-53`).
- `findRelevantContext` throws when the `match_documents` RPC reports an error (`app/api/ask/route.ts:80-83`).
- Its own `catch` then swallows both and returns `[]` (`app/api/ask/route.ts:96-98`). The request goes on with the "no context" placeholder.
- `AskRoute.FindRelevantContext` models this. `AskRoute.EmbeddingFailureGivesNoContext` and `AskRoute.RpcErrorGivesNoContext` state it.

## Model

| member | source | states |
|---|---|---|
| BlogData.BlogPostsDataWellFormed | lib/blog-data.ts:20-70 | No two rows of the post table share a slug, and every row is published. |
| BlogData.ToDate | lib/blog-data.ts:82-85 | A date that does not parse has time value 0 (the epoch), never NaN. A date that parses keeps its time value. |
| BlogData.InsertNewest | lib/blog-data.ts:93-95 | Inserting a post yields the old multiset plus that post. |
| BlogData.InsertNewestKeepsOrder | lib/blog-data.ts:93-95 | Inserting into a newest-first list keeps it newest-first. |
| BlogData.SortNewestFirst | lib/blog-data.ts:93-95 | The comparator sort is a permutation of its input, and its result is newest-first. |
| BlogData.InsertNewestStable | lib/blog-data.ts:93-95 | Among posts with one time value, the insertion puts the new post before the existing ones and keeps their order. |
| BlogData.SortNewestFirstStable | lib/blog-data.ts:93-95 | The sort is stable: posts with equal time values keep their input order. |
| BlogData.IsPublished | lib/blog-data.ts:91 | The filter predicate `p.published`. GetAllPosts states the filter it selects. |
| BlogData.GetAllPosts | lib/blog-data.ts:90-97 | The result holds exactly the published posts, each as often as in the table, newest first. |
| BlogData.GetAllPostsStable | lib/blog-data.ts:90-97 | Published posts with equal dates come out in table order. |
| BlogData.GetLatestPosts | lib/blog-data.ts:102-104 | The result is a prefix of the published posts, of length `min(max(0, limit), total)`, with `limit` defaulting to 3. A limit of 0 or less gives nothing. |
| BlogData.FindPublishedSlug | lib/blog-data.ts:110 | Returns the first index at or after `k` whose row has the slug and is published, or -1 when there is none. |
| BlogData.GetPostBySlug | lib/blog-data.ts:109-112 | Returns `None` exactly when no published row has the slug. Otherwise returns the first such row. |
| BlogData.SlugLookupIsListed | lib/blog-data.ts:109-112 | A post found by slug is one of the published, sorted posts. |
| BlogData.SlugRoundTrip | lib/blog-data.ts:109-112 | When slugs are distinct, every published row is found again by its own slug. |
| BlogData.FilterNewestFirst | lib/blog-data.ts:119-121 | Filtering a newest-first list keeps it newest-first. |
| BlogData.HasTag | lib/blog-data.ts:120 | Some tag of the post lower-cases to the needle. GetPostsByTag states the posts it selects. |
| BlogData.GetPostsByTag | lib/blog-data.ts:117-122 | The result is a subsequence of the published sorted posts and is newest-first. A post is in it iff it is published and has a tag whose lower-case form equals the trimmed, lower-cased request. Each such post occurs as often as in the table. |
| BlogData.TagLookupIgnoresCase | lib/blog-data.ts:117-122 | Lower-casing or trimming the requested tag first changes nothing. |
| BlogData.TotalPages | lib/blog-data.ts:144 | At least one page. The pages hold every post, and only the last page may have room to spare. |
| BlogData.PageStartBounds | lib/blog-data.ts:145-147 | For an in-range page: its start lies within the posts, and every page after the first starts inside the list. Every page but the last ends before the list does. |
| BlogData.MulMonotone | lib/blog-data.ts:146 | Multiplying by the page size is monotone. |
| BlogData.Window | lib/blog-data.ts:140-147 | The page size is at least 1, and the page is clamped into `[1, totalPages]`. `start = (page-1)*size`, `end = start + size`, and the bounds above hold. |
| BlogData.PageOf | lib/blog-data.ts:128-159 | The page's posts are `all[start..min(end, total)]`. Page and size default to 1 and 10. `hasPrev` iff page > 1; `hasNext` iff page < totalPages. |
| BlogData.SliceNewestFirst | lib/blog-data.ts:148 | A contiguous piece of a newest-first list is newest-first. |
| BlogData.Paginate | lib/blog-data.ts:128-159 | Paginates the published sorted posts. Every post shown is a published row, and the page is newest-first. |
| BlogData.PageNeverEmpty | lib/blog-data.ts:145-148 | When any post exists, every request gets a non-empty page: an out-of-range page lands on the last one. |
| BlogData.EarlierPagesAreFull | lib/blog-data.ts:146-157 | A page that has a next page is full. |
| BlogData.WindowOfPage | lib/blog-data.ts:146-148 | Page `k` covers `[min((k-1)*size, total), min(k*size, total))`. |
| BlogData.PagesUpToPrefix | lib/blog-data.ts:140-148 | Pages 1..k, concatenated, are the first `min(k*size, total)` posts. |
| BlogData.PagesPartitionPosts | lib/blog-data.ts:128-159 | Pages 1..totalPages, concatenated, are exactly the published sorted posts: no post is lost or repeated. |
| BlogData.PagesCoverAll | lib/blog-data.ts:128-159 | For any post list and page size of at least 1, pages 1..totalPages taken in order and concatenated give back the whole list. |
| BlogContent.Span | lib/blog-content.ts:86 | The end of the longest run of matching characters from `k`. |
| BlogContent.SplitWs | lib/blog-content.ts:86 | Splitting at whitespace runs gives at least one piece. No piece holds whitespace, and only the first and last pieces may be empty. |
| BlogContent.RunInteriorNotStarts | lib/blog-content.ts:86 | No run (of whitespace, or of line feeds) begins inside another. |
| BlogContent.SplitCountsRuns | lib/blog-content.ts:86 | The number of pieces is one more than the number of whitespace runs. |
| BlogContent.WordCount | lib/blog-content.ts:86 | `split(/\s+/).length` is one more than the number of whitespace runs. |
| BlogContent.CalculateReadingTime | lib/blog-content.ts:84-89 | At least one minute: just enough 200-word minutes to cover the word count. |
| BlogContent.ReadingTimeSteps | lib/blog-content.ts:84-89 | Any `m` with `200(m-1) < words <= 200m` is the reading time. |
| BlogContent.CollapseFrom | lib/blog-content.ts:102 | Replacing runs of non-`[a-z0-9]` characters gives only `[a-z0-9-]`, never `--`. The result starts with `-` iff the input does not start with a slug character. |
| BlogContent.CollapseKeepsAlnum | lib/blog-content.ts:102 | Collapsing keeps every letter and digit, in order. |
| BlogContent.StripDashEnds | lib/blog-content.ts:102 | Removes only `-` characters, and only at the ends. On input without `--`, no `-` is left at either end. |
| BlogContent.FilterDropFirstDash | lib/blog-content.ts:102 | A leading `-` is not a slug character. |
| BlogContent.FilterDropLastDash | lib/blog-content.ts:102 | A trailing `-` is not a slug character. |
| BlogContent.StripDashEndsKeepsAlnum | lib/blog-content.ts:102 | Stripping the dashes at the ends keeps every letter and digit. |
| BlogContent.StripDashEndsIsSlug | lib/blog-content.ts:102 | On `[a-z0-9-]` text without `--`, stripping yields a slug. |
| BlogContent.SlugId | lib/blog-content.ts:102 | The id is a slug: `[a-z0-9-]`, no `--` and no `-` at either end. Its letters and digits are exactly those of the lower-cased text. |
| BlogContent.CollapseOfSlug | lib/blog-content.ts:102 | Collapsing a slug changes nothing. |
| BlogContent.LowerOfSlug | lib/blog-content.ts:102 | Lower-casing a slug changes nothing. |
| BlogContent.StripDashEndsOfSlug | lib/blog-content.ts:102 | Stripping a slug changes nothing. |
| BlogContent.SlugIdIdempotent | lib/blog-content.ts:102 | An id made from an id is the same id. |
| BlogContent.LastNonTerminator | lib/blog-content.ts:95 | Finds the last character within the whitespace that is not a line terminator, which the backtracking `(.+)` can take. |
| BlogContent.MatchAt | lib/blog-content.ts:95 | A match at `p` has level 1..6, and its text comes after the hashes and is non-empty. |
| BlogContent.MatchAtShape | lib/blog-content.ts:95 | A match starts a line with `level` hashes, then whitespace. Its text holds no line terminator and runs to the end of its line. |
| BlogContent.LevelIsHashCount | lib/blog-content.ts:100 | The level is the full length of the run of leading `#`. |
| BlogContent.SevenHashesNoHeading | lib/blog-content.ts:95 | A line opening with seven `#` is no heading. |
| BlogContent.NewlineSeparatorExample | lib/blog-content.ts:95 | `\s+` may cross a line break: `"#\nfoo"` is a level-1 heading with text `foo`. |
| BlogContent.FindMatch | lib/blog-content.ts:99 | A match found from `from` lies at or after `from`. |
| BlogContent.NoMatchGrow | lib/blog-content.ts:99 | The range with no match can be extended by one position. |
| BlogContent.FindMatchFound | lib/blog-content.ts:99 | What `exec` returns is a match at its start. |
| BlogContent.FindMatchIsFirst | lib/blog-content.ts:99 | `exec` returns the first matching position. When it returns `null`, no position matches. |
| BlogContent.Matches | lib/blog-content.ts:98-105 | The matches of the `g` loop are placed, and they do not overlap: each starts at or after the previous one's end. |
| BlogContent.MatchesAreMatches | lib/blog-content.ts:98-105 | Every listed match is a match of the pattern at its start. |
| BlogContent.ToHeading | lib/blog-content.ts:100-104 | One match becomes `{ level, text, id }`. ToHeadingWellFormed states its level, trimmed text and slug id. |
| BlogContent.ToHeadingWellFormed | lib/blog-content.ts:100-104 | A heading keeps its match's level, has trimmed text, and its id is the slug of that text. |
| BlogContent.HeadingsFrom | lib/blog-content.ts:98-105 | The headings of the matches from a position on. HeadingsFromMatches and HeadingsWellFormed state them, and ExtractHeadings is proved equal to it from 0. |
| BlogContent.HeadingsFromMatches | lib/blog-content.ts:98-105 | There is one heading per match, in document order. |
| BlogContent.HeadingsWellFormed | lib/blog-content.ts:94-108 | Every heading has level 1..6, trimmed text and a slug id. |
| BlogContent.ExtractHeadings | lib/blog-content.ts:94-108 | The `exec` loop returns exactly the headings of all matches from position 0, in order. |
| BlogContent.CollapseNewlinesFrom | lib/blog-content.ts:70 | Collapsing line-feed runs leaves no line feed and never lengthens the text. |
| BlogContent.CollapseWithoutNewlines | lib/blog-content.ts:70 | Text without line feeds passes through unchanged. |
| BlogContent.CollapseKeepsVisible | lib/blog-content.ts:70 | Every character that is neither a line feed nor a space survives, in order. |
| BlogContent.CollapseNewlinesIdempotent | lib/blog-content.ts:70 | Collapsing twice is collapsing once. |
| BlogContent.CollapseCountsRuns | lib/blog-content.ts:70 | Each run of line feeds becomes exactly one space: the output has the input's spaces plus one per line-feed run. |
| BlogContent.CollapseNewlines | lib/blog-content.ts:70 | `replace(/\n+/g, ' ')` on the whole text. CollapseNewlinesFrom, CollapseKeepsVisible and CollapseCountsRuns state what it does. |
| BlogContent.Collapsed | lib/blog-content.ts:56-70 | The text to truncate is trimmed and holds no line feed. |
| BlogContent.Truncated | lib/blog-content.ts:73-75 | The truncated preview ends in `...` and is at most `n + 3` long. The part before `...` is `c[lo..hi]`, where `c[..lo]` and `c[hi..n]` hold only whitespace and the kept part has none at its ends. That is the first `n` characters, trimmed. |
| BlogContent.ExtractContentPreview | lib/blog-content.ts:54-78 | Text within the limit (default 300) is returned whole. Longer text becomes its first `max(0, maxLength)` characters, trimmed (as `Text.Trim` specifies), followed by `...`. No line feed survives. |
| AskRoute.EmbeddingInput | app/api/ask/route.ts:47 | Same length, every `\n` becomes a space, all else unchanged. |
| AskRoute.EmbeddingInputWithoutNewlines | app/api/ask/route.ts:47 | Text without line feeds is embedded as it is. |
| AskRoute.Contents | app/api/ask/route.ts:93 | One `content` per row, in RPC order. |
| AskRoute.FindRelevantContext | app/api/ask/route.ts:58-100 | The result is non-empty iff the embedding and the RPC both succeed with non-empty data. It is then those rows' contents; otherwise it is `[]`. |
| AskRoute.EmbeddingFailureGivesNoContext | app/api/ask/route.ts:63-65 | A failed embedding gives no context instead of an error. |
| AskRoute.RpcErrorGivesNoContext | app/api/ask/route.ts:80-83 | An RPC error gives no context instead of an error. |
| AskRoute.ContextString | app/api/ask/route.ts:128-131 | With no context, the result is the placeholder. Otherwise it is the contexts joined by a blank line, and each context appears in it. |
| AskRoute.SingleContextVerbatim | app/api/ask/route.ts:128-131 | A single context is used verbatim. |
| AskRoute.SystemPrompt | app/api/ask/route.ts:134-139 | The prompt is the fixed instructions, then the context, then the END marker. |
| AskRoute.PromptRoundTrip | app/api/ask/route.ts:134-139 | The context can be read back from between the markers. |
| AskRoute.SystemPromptInjective | app/api/ask/route.ts:134-139 | Different contexts give different prompts. |
| AskRoute.ContextsInPrompt | app/api/ask/route.ts:128-139 | Every retrieved context appears in the system prompt. |
| AskRoute.BuildMessages | app/api/ask/route.ts:142-146 | The message list is the system message, then the history in order, then the user message. |
| AskRoute.Field | app/api/ask/route.ts:106 | Destructuring gives the field's value, or `undefined` when it is absent. |
| AskRoute.ConversationHistory | app/api/ask/route.ts:117-119 | An array history is kept as it is. Anything else becomes `[]`. |
| AskRoute.InternalError | app/api/ask/route.ts:159-167 | Anything thrown becomes status 500. |
| AskRoute.PlanRequest | app/api/ask/route.ts:106-146 | A `null` body fails at destructuring. A missing, empty or non-string message is rejected with 400. A completion is asked for only for a valid message. |
| AskRoute.Post | app/api/ask/route.ts:103-168 | A body that fails to parse gives 500. Every response has status 200, 400 or 500. The status is 200 exactly when the body parses, the request is planned and the completion succeeds. |
| AskRoute.InvalidMessageRejected | app/api/ask/route.ts:111-116 | An invalid message gives the 400 before any oracle is consulted. The same happens whatever the environment. |
| AskRoute.NonArrayHistoryIsEmpty | app/api/ask/route.ts:117-119 | A non-array history is the same as an empty one. |
| AskRoute.ValidRequestMessages | app/api/ask/route.ts:117-154 | For a valid message, the model is sent the system prompt carrying the retrieved context, then the history in order, then the message. The model and the token budget are fixed. |
| AskRoute.CompletionFailureIs500 | app/api/ask/route.ts:149-167 | A failing completion gives 500 with the error's message. |
| AskRoute.CompletionSuccessIs200 | app/api/ask/route.ts:149-158 | A valid request whose completion succeeds gets status 200 with `{ response: content }`, where a missing content is `null`. |
| AskRoute.ValidMessage | app/api/ask/route.ts:111 | The message passes iff it is a non-empty string. PlanRequest and InvalidMessageRejected state the 400 for the rest. |
| AskRoute.Details | app/api/ask/route.ts:161-163 | An `Error` contributes its message, and anything else "An unknown error occurred". InternalError and CompletionFailureIs500 carry it into the 500. |
| Education.RenderAppend | components/education.tsx:89-94 | Rendering distributes over concatenation. |
| Education.HighlightCompanyNames | components/education.tsx:53-95 | The loop produces exactly the specified segments, and they render back to the input text. |
| Education.ScanUnfold | components/education.tsx:64-87 | One turn of the `forEach`: a missing name is skipped; a found name emits the text before it, then the highlight. |
| Education.ScanRoundTrip | components/education.tsx:64-92 | The scan from `lastIndex` renders exactly the rest of the text. |
| Education.ScanFound | components/education.tsx:65-86 | When the current name occurs at or after `lastIndex`, the scan emits the plain text before that occurrence, then one highlight, then the scan of the remaining names from the end of the match. |
| Education.TailRender | components/education.tsx:90-92 | The trailing piece renders the rest of the text. |
| Education.RenderStep | components/education.tsx:66-85 | The text before a name, the name, and the rest render the text from `lastIndex` on. |
| Education.RenderOne | components/education.tsx:69-83 | A single segment renders as its text. |
| Education.Segments | components/education.tsx:53-92 | No highlights give the whole text as one piece, and otherwise the scan from 0. SegmentsRoundTrip and NoEmptyTextSegment state it. |
| Education.ScanFrom | components/education.tsx:64-92 | The `forEach` from `lastIndex`, ending with the remaining text. ScanUnfold, ScanFound, ScanRoundTrip, ScanHighlightsInOrder and ScanPlacesFirstOccurrence state it. |
| Education.SegmentsRoundTrip | components/education.tsx:53-95 | Round trip: the segments concatenate back to the text. This includes the case with no highlights. |
| Education.ScanNoEmptyText | components/education.tsx:68-92 | The scan never emits an empty plain segment. |
| Education.NoEmptyTextSegment | components/education.tsx:64-92 | With at least one highlight, no plain segment is empty. |
| Education.HighlightedAppend | components/education.tsx:77-83 | The highlights of a concatenation are the concatenated highlights. |
| Education.ScanHighlightsInOrder | components/education.tsx:64-87 | Highlights come out in list order, each at most once. |
| Education.ScanPlacesFirstOccurrence | components/education.tsx:65-85 | A name is highlighted at its first occurrence at or after `lastIndex`, and the scan continues after it. |
| Education.ScanSkipsMissing | components/education.tsx:65-66 | A name not found at or after `lastIndex` is skipped, and `lastIndex` stays where it was. |
| AskInput.AnswerText | components/ask-input.tsx:58-78 | Every canned answer is non-empty. |
| AskInput.AnswersDistinct | components/ask-input.tsx:58-78 | Different topics give different answers. |
| AskInput.ChooseResponse | components/ask-input.tsx:58-78 | Every query gets a non-empty answer. |
| AskInput.FirstMatching | components/ask-input.tsx:58-78 | The table router picks `General` or some rule's topic. |
| AskInput.FirstMatchingIsFirst | components/ask-input.tsx:58-78 | It picks the earliest rule that fires, and `General` exactly when none fires. |
| AskInput.RouteIsFirstMatchingRule | components/ask-input.tsx:58-78 | The `if`/`else if` chain equals the ordered keyword-rule table read top to bottom. |
| AskInput.Route | components/ask-input.tsx:58-78 | The `if`/`else if` chain on the lower-cased query. RouteIff, RouteIsFirstMatchingRule and RouteIgnoresCase state which topic it picks. |
| AskInput.RouteIff | components/ask-input.tsx:58-78 | Each topic is chosen iff one of its keywords occurs in the lower-cased query and no keyword of a higher rule does, in both directions. |
| AskInput.LowerSlice | components/ask-input.tsx:58 | Lower-casing commutes with taking a piece. |
| AskInput.KeywordInAnyCase | components/ask-input.tsx:58-70 | A keyword written in any case is found. |
| AskInput.ProjectAlwaysWins | components/ask-input.tsx:58-61 | "project" in any case wins over every other keyword. |
| AskInput.RouteIgnoresCase | components/ask-input.tsx:58-78 | Lower-casing the query first changes nothing. |
| AskInput.UpperCaseSkillsExample | components/ask-input.tsx:62-65 | `"SKILL"` gets the skills answer. |
| AskInput.FooterNear | components/ask-input.tsx:30 | The footer's top is less than 100 above the bottom of the window. CheckFooterVisibility hides the input exactly then. |
| AskInput.FooterNearMonotone | components/ask-input.tsx:30 | Once the footer is near, scrolling further keeps it near. |
| AskInput.AskInputState.constructor | components/ask-input.tsx:18-19 | The widget starts with no response and is visible. |
| AskInput.AskInputState.Render | components/ask-input.tsx:82-110 | A hidden widget renders nothing. A visible one shows the response panel iff the response is a non-empty string; the panel shows that response. |
| AskInput.AskInputState.Submit | components/ask-input.tsx:51-80 | After the timer fires, the response is the routed answer and visibility is unchanged. A visible widget shows that answer. |
| AskInput.AskInputState.CheckFooterVisibility | components/ask-input.tsx:23-36 | With a footer, the widget is visible iff `footer.top >= windowHeight + 100`. Without one, nothing changes. The response is kept. |
| AskInput.AskInputState.Dismiss | components/ask-input.tsx:103 | The response is cleared and visibility is kept. A visible widget shows no panel. |
| BlogCard.ImageSrc | components/blog-card.tsx:37 | The cover image when it is a non-empty string. Otherwise the placeholder. Never empty. |
| BlogCard.VisibleTags | components/blog-card.tsx:38 | The first `min(3, n)` tags. |
| BlogCard.TagsSplit | components/blog-card.tsx:38-39 | The visible tags followed by the hidden ones are the tag list. The hidden count is the number of hidden tags. |
| BlogCard.HiddenTagsCount | components/blog-card.tsx:39 | `Math.max(0, tags.length - visibleTags.length)`. TagsSplit and HiddenIffMoreThanThree state that it counts the tags after the first three. |
| BlogCard.HiddenIffMoreThanThree | components/blog-card.tsx:39 | Tags are hidden iff there are more than three, and then `n - 3` are. |
| BlogCard.PostHref | components/blog-card.tsx:49 | The link is `/blog/` followed by the slug. |
| BlogCard.PostHrefRoundTrip | components/blog-card.tsx:49 | The slug can be read back from the link, so different slugs give different links. |
| BlogCard.ReadingTimeShown | components/blog-card.tsx:75 | The reading time is shown iff it is given and positive. |
| BlogCard.TagRowOf | components/blog-card.tsx:86-102 | The tag row appears iff there are tags. The badge appears iff there are more than three, and it shows `n - 3`. |
| BlogCard.Card | components/blog-card.tsx:27-110 | All three links go to the post, and the image falls back to the placeholder. The reading time is shown iff positive. A missing `tags` means no tags, and the tag row and badge follow the rules above. |
| ProjectData.FindById | lib/project-data.ts:119-121 | `find` locates the first project with the id, and gives `None` iff none has it. |
| ProjectData.GetProjectById | lib/project-data.ts:119-121 | The lookup gives `None` iff no project has the id. Otherwise it gives a project of the table with that id. |
| ProjectData.FoundIsUnique | lib/project-data.ts:119-121 | When ids are distinct, the project at index `k` is what its id finds. |
| ProjectData.FindRoundTrip | lib/project-data.ts:119-121 | When ids are distinct, every project is found again by its id. |
| ProjectData.ProjectIds | lib/project-data.ts:17-117 | The table has four projects with the ids given in the source, and the ids are distinct. |
| ProjectData.ProjectRoundTrip | lib/project-data.ts:17-121 | Every project of the site is found by its own id. |
| ProjectData.UnknownIdExample | lib/project-data.ts:119-121 | An unknown id gives `None`. |
| Text.Lower | lib/blog-data.ts:118 | `toLowerCase` keeps the length and lower-cases each ASCII letter. |
| Text.Trim | lib/blog-data.ts:118 | `trim` returns the piece of the input between the leading and the trailing whitespace, and that piece has no whitespace at either end. |
| Text.TrimIdempotent | lib/blog-data.ts:118 | Trimming twice is trimming once. |
| Text.TrimLower | lib/blog-data.ts:118 | Trimming and lower-casing commute. |
| Text.TrimIsInfix | lib/blog-content.ts:70 | A trimmed string is a piece of its input. |
| Text.TrimOfPrefix | lib/blog-content.ts:74 | Trimming the first `n` characters keeps `s[lo..hi]`, with only whitespace in `s[..lo]` and in `s[hi..n]`. |
| Text.IndexOf | components/education.tsx:65 | `indexOf(pat, from)` is -1 or an occurrence at or after the clamped `from`. |
| Text.IndexOfIsFirst | components/education.tsx:65 | `indexOf` is -1 iff there is no occurrence at or after `from`. Otherwise it is the first one. |
| Text.IndexOfFindsFirst | components/education.tsx:65 | The first occurrence at or after `from` is what `indexOf` returns. |
| Text.Contains | components/ask-input.tsx:58 | `includes`, as `indexOf(pat) !== -1`. ContainsIff states that it holds iff the pattern occurs. |
| Text.ContainsIff | components/ask-input.tsx:58 | `includes` holds iff the pattern occurs somewhere. |
| Text.Join | app/api/ask/route.ts:130 | `join`: the parts with the separator between them. JoinContainsParts states that each part occurs in the result. |
| Text.JoinContainsParts | app/api/ask/route.ts:130 | Every part of a `join` occurs in the result. |
| Numbers.CeilDiv | lib/blog-data.ts:144 | `Math.ceil(n / d)` is the least `q` with `q * d >= n`. |
| Seqs.Slice | lib/blog-data.ts:148 | For non-negative bounds, `slice(start, end)` is the piece between the bounds clamped to the length, and it is empty when `end <= start`. |
| Seqs.Filter | lib/blog-data.ts:91 | `filter` never lengthens. |
| Seqs.FilterMembers | lib/blog-data.ts:91 | An element is in the filtered list iff it is in the list and selected. |
| Seqs.FilterCount | lib/blog-data.ts:91 | Filtering keeps each selected element as often as it occurs, and drops the rest. |
| Seqs.FilterIsSubseq | lib/blog-data.ts:119-121 | Filtering keeps the order of what it keeps. |

## Left out

- Reading blog markdown from disk (`getPostContent`, `getMultiplePostContents`) is left out. It is file I/O and has no logic beyond its fallback text.
- `formatPostDate` is left out because it is locale formatting through `toLocaleDateString`. `Date` parsing itself is the parameter `parse`.
- The deep copy `clone` is left out. Dafny values are immutable, so a copy cannot be told apart from the original, and `__rawBlogPosts` is the table itself.
- BlogData.Paginate: `Math.floor` on the page and page-size arguments is not modelled.
  - The arguments are integers, so non-integral, infinite and NaN numbers are out of scope.
- BlogData.ToDate: `Date` parsing is a parameter.
  - The model does not say which strings parse.
  - The model assumes a parsed time value is an integer.
- BlogContent.ExtractContentPreview: the six markdown-stripping regular expressions (headers, code blocks, inline code, bold, italic, links; `lib/blog-content.ts:56-67`) are the parameter `strip`.
  - Their semantics, including the lazy matching of the code-block, bold, italic and link patterns, are not modelled.
  - The newline collapse, `trim` and truncation that follow are modelled.
- BlogContent.ExtractContentPreview, Text.IndexOf and Education.HighlightCompanyNames count characters as Dafny does, one per code point.
  - JavaScript's `length`, `substring` and `indexOf` count UTF-16 code units.
  - For text outside the Basic Multilingual Plane, such as emoji, the source cuts the preview and reports `indexOf`/`lastIndex` positions at other places than the model.
- `Text.Lower` lower-cases ASCII letters only. JavaScript's `toLowerCase` also maps non-ASCII letters.
- The whitespace set is the one `\s` and `trim` use, written out character by character.
- AskRoute: the OpenAI and Supabase calls are oracles in `Env`, and these parts are not modelled:
  - the embedding values;
  - the similarity search;
  - the completion text;
  - the absent-environment-variable checks at module load;
  - the logging.
  - An embedding reply without `data[0]` is the oracle's `None`.
- AskRoute.Post: the history items are passed to the model as given, without checking their roles. The source does the same.
- AskInput.AskInputState.Submit: the 500 ms `setTimeout` is not modelled.
  - The method is the timer callback.
  - A second submission before the timer fires, and the order of overlapping callbacks, are not captured.
- AskInput.AskInputState.CheckFooterVisibility: positions are `real` numbers. Browser floating point and NaN are not modelled.
  - The listener registration in the effect is not modelled.
  - A missing `footer` element is `None`.
- React rendering, motion animations, the placeholder prompts of the input, `LinkPreview` previews, icons and class names are left out. They are presentation only.
- ProjectData: the `description` paragraphs of each project are not part of the modelled table, and neither is the `icon`.
  - Only `getProjectById` reads the table, and it looks only at `id`.
- BlogCard.Card: a `null` `tags` prop is not modelled. It skips the `= []` default and makes `tags.slice` throw, and the prop type excludes it.
- BlogCard.Card: what the card shows in text (title, excerpt, formatted date) is not modelled. It passes those props through.
