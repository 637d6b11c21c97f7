# AI course generator: verified model of the request-handling core

This project models, in Dafny, the decision and transformation logic of a
Next.js course-generation application:

- **Layout generation** (`POST /api/course/layout`). A prompt is sent to an
  upstream completion service. Markdown fences are stripped from the answer
  (`extractJSON`). The answer is parsed. Its loosely keyed fields are mapped onto
  `{CourseName, Description, Chapters[{ChapterName, About, Duration}]}`
  (`normalizeCourseOutput`). A fixed ladder of guards decides the status code.
- **The ownership and visibility gate** (`verifyAuth`, `verifyCourseOwnership`,
  `verifyAuthAndOwnership`, `isCoursePublished`).
- **The chapter endpoints** (`/api/chapters`):
  - GET applies a three-way read policy (published, owner, refused) and then
    filters rows;
  - POST validates the request, checks ownership and inserts one row.
- **The course endpoints** (`/api/courses`):
  - GET lists courses under conjunctive equality filters, newest id first;
  - POST inserts one row with fixed defaults.
- **The route-protection middleware.** For a method and a pathname, it decides
  whether the middleware runs at all (its path matcher skips Next.js internals
  and static-looking files outside "/api" and "/trpc") and, if it does,
  whether sign-in is enforced.
- **The course-creation wizard.** It covers:
  - the per-step completeness check;
  - the three-step stepper;
  - the prompt assembly;
  - the client flow that requests a layout, checks it, saves it and navigates
    to the new course.

Modules:

| file | module | contents |
|---|---|---|
| text.dfy | `Text` | ECMAScript whitespace, `trim`, decimal rendering of integers, prefix and substring tests |
| js.dfy | `Js` | parsed JSON values plus `undefined`, truthiness, `\|\|`, property reads, `String(v)` |
| schema.dfy | `Schema` | CourseList and Chapters rows, the first-match `limit(1)` lookup |
| security.dfy | `ApiSecurity` | the ownership and visibility gate |
| layout.dfy | `CourseLayout` | fence stripping, normalisation, the layout POST handler |
| chapters.dfy | `ChaptersApi` | chapter GET policy and filter; the Chapters store and its POST |
| courses.dfy | `CoursesApi` | course listing and creation over the CourseList store |
| middleware.dfy | `Middleware` | the path matcher and the protection decision |
| create_course.dfy | `CreateCourse` | wizard checks, stepper, prompt and client flow |

Stateful entities are classes whose methods change their fields:
- `ChaptersApi.ChapterStore` for the Chapters table;
- `CoursesApi.CourseStore` for the CourseList table, with a serial `id`;
- `CreateCourse.Stepper` for the wizard's `activeIndex`.

Everything the handlers cannot see becomes an input:
- the identity provider's answer (`AuthState`);
- whether a store call fails;
- the upstream reply;
- `JSON.parse`, as a function-typed parameter;
- the client's two HTTP exchanges;
- the fresh uuid.

A store failure that the source catches becomes the source's negative answer
or its 500.

POST /api/courses takes a course's `createdBy` from the request body. It checks
only that the caller has a session with a user id. It does not compare that
field with the caller's email address. The model does the same: `CoursesApi.NewCourse` copies `createdBy` from the
body. `CreateCourse.SavedCourseOwnedByUser` shows that the wizard sends the
signed-in user's own email address there.

## Model

| member | source | states |
|---|---|---|
| Text.Trim | app/api/course/layout/route.jsx:12 | `trim` yields the infix of the input between whitespace-only margins, and neither end of it is ECMAScript whitespace |
| Text.TrimEmptyIffAllSpace | app/api/course/layout/route.jsx:69 | `s.trim().length === 0` holds exactly when every character of `s` is whitespace |
| Text.TrimUntrimmed | app/api/course/layout/route.jsx:12 | trimming text without surrounding whitespace returns it unchanged |
| Text.NatToString | app/api/course/layout/route.jsx:33 | the decimal rendering of `index + 1` is a non-empty digit string without leading zeros |
| Text.ParseNatToString | app/api/course/layout/route.jsx:33 | reading the decimal rendering back gives the number, so the rendering loses nothing |
| Text.NatToStringInjective | app/api/course/layout/route.jsx:33 | distinct chapter positions get distinct fallback numbers |
| Text.IntToStringRoundTrip | app/api/chapters/route.js:99 | the rendering of every integer is a digit run, with "-" in front for negatives, and it reads back as that integer, so no two integers render alike |
| Text.ContainsIffOccurs | middleware.js:27-28 | `includes(sub)` holds exactly when `sub` occurs at some offset |
| Text.PrefixContained | middleware.js:27-28 | a string includes each of its prefixes, and no string longer than itself |
| Js.Or | app/api/course/layout/route.jsx:18-22 | `a \|\| b` is `a` when `a` is truthy and `b` otherwise; `""`, 0, null, undefined and false are falsy, while empty arrays and objects are truthy |
| Js.Field | app/api/course/layout/route.jsx:19-21 | a property read yields the stored value exactly when the value is an object that holds the key, and `undefined` otherwise |
| Js.Length | app/create-course/page.jsx:107 | `.length` is the size of a string or an array, the own "length" key of an object, and `undefined` on numbers and booleans; it is never read on `null` or `undefined` |
| Js.ToJsString | app/api/chapters/route.js:99 | `String(v)` returns a string unchanged and renders an integer in decimal |
| Schema.FindCourse | lib/api-security.js:39-43 | `where courseId = id limit 1` finds nothing exactly when no row has that id; otherwise it finds the first such row in table order |
| ApiSecurity.VerifyAuth | lib/api-security.js:10-25 | there is no caller exactly when there is no session, the user id is empty, or the provider throws; otherwise the caller has the session's user id and the user's email, possibly absent |
| ApiSecurity.VerifyCourseOwnership | lib/api-security.js:33-55 | an empty course id, a missing email or a failed lookup gives {false, null}; otherwise the course is the first match, and the answer is true exactly when its `createdBy` equals the email |
| ApiSecurity.VerifyAuthAndOwnership | lib/api-security.js:62-78 | with no caller the answer is {false, null, null}; otherwise it is the ownership answer for the caller's email with the caller attached, so an authorized answer always carries a user and a course |
| ApiSecurity.IsCoursePublished | lib/api-security.js:85-98 | true exactly when the lookup succeeds, a row with that id exists, and the first such row is published |
| ApiSecurity.ForbiddenIsNotNotFound | lib/api-security.js:45-50 | for an existing course the record is returned, and ownership is an exact email comparison, so "forbidden" is distinguishable from "not found" |
| ApiSecurity.UnknownCourseNotFound | lib/api-security.js:45-47 | an unknown course id is refused with no course |
| ApiSecurity.NoEmailNeverAuthorized | lib/api-security.js:17-37 | a signed-in caller without an email address is never authorized |
| ApiSecurity.PublishedIffFirstRowPublished | lib/api-security.js:85-93 | the publish flag of the first row with the course id decides publication |
| CourseLayout.RemoveJsonFences | app/api/course/layout/route.jsx:10 | removing "```json" in any case never lengthens the text and leaves backtick-free text unchanged |
| CourseLayout.RemoveFences | app/api/course/layout/route.jsx:11 | removing "```" never lengthens the text and leaves backtick-free text unchanged |
| CourseLayout.NoFenceAfterRemoval | app/api/course/layout/route.jsx:11 | after the global left-to-right removal of "```", no "```" remains, even where removal brings backticks together |
| CourseLayout.NoFenceInfix | app/api/course/layout/route.jsx:12 | every infix of text without "```" is also without "```" |
| CourseLayout.TrimKeepsNoFence | app/api/course/layout/route.jsx:12 | trimming text that has no "```" leaves it without one |
| CourseLayout.ExtractJson | app/api/course/layout/route.jsx:6-13 | empty input gives null; otherwise the result contains no "```" and has no whitespace at either end; for backtick-free input it is exactly the trimmed input |
| CourseLayout.RemoveJsonFencesSkipsPlainPrefix | app/api/course/layout/route.jsx:10 | a backtick-free prefix passes through the "```json" removal untouched |
| CourseLayout.RemoveFencesSkipsPlainPrefix | app/api/course/layout/route.jsx:11 | a backtick-free prefix passes through the "```" removal untouched |
| CourseLayout.DropsLeadingJsonFence | app/api/course/layout/route.jsx:10 | a leading "```json" is removed whole |
| CourseLayout.FenceAlone | app/api/course/layout/route.jsx:10-11 | a bare "```" survives the first removal and is removed by the second |
| CourseLayout.StripFencedBlock | app/api/course/layout/route.jsx:10-11 | the two removals turn "```json", newline, content, newline, "```" into the content between its two newlines, when the content has no backtick |
| CourseLayout.TrimNewlines | app/api/course/layout/route.jsx:12 | trimming removes exactly one newline on each side of content without surrounding whitespace |
| CourseLayout.ExtractFencedBlock | app/api/course/layout/route.jsx:6-13 | a block written as "```json", newline, content, newline, "```" comes out as exactly its content, when the content has no backtick and no surrounding whitespace |
| CourseLayout.FirstTruthyOfTwo | app/api/course/layout/route.jsx:24-27 | a two-key `\|\|` chain with a fallback reads a two-entry variant table in order |
| CourseLayout.FirstTruthyOfThree | app/api/course/layout/route.jsx:18-22 | the three-key CourseName chain reads its three-entry variant table in order |
| CourseLayout.FirstTruthyIsFirst | app/api/course/layout/route.jsx:16-46 | a variant-table lookup yields the value of the first key whose value is truthy, or the fallback when no key's value is truthy |
| CourseLayout.FallbackChapterName | app/api/course/layout/route.jsx:33 | the fallback name is "Chapter " followed by the decimal 1-based position |
| CourseLayout.NormalizeChapterFields | app/api/course/layout/route.jsx:30-43 | ChapterName, About and Duration are each the first truthy of their two key variants, else "Chapter n", "" and ""; the name is never falsy |
| CourseLayout.NormalizeCourseOutputSpec | app/api/course/layout/route.jsx:16-46 | normalisation succeeds exactly when the chapter source is an array without null entries; CourseName and Description follow their variant tables; the chapters keep the length and order of `Chapters \|\| chapters \|\| []`, entry i normalised with fallback "Chapter i+1" |
| CourseLayout.EmptyChaptersShadows | app/api/course/layout/route.jsx:29 | an empty `Chapters` array is truthy, so it hides a non-empty `chapters` and yields no chapters |
| CourseLayout.FallbackNameForUnnamedChapter | app/api/course/layout/route.jsx:29-43 | a chapter with no truthy name, about or duration key becomes {"Chapter i+1", "", ""} |
| CourseLayout.AfterUpstream | app/api/course/layout/route.jsx:113-208 | an upstream failure with status s is answered with s when 400 ≤ s < 500, and with 500 otherwise; after a successful upstream call the answer is 200 or 500 |
| CourseLayout.GeneratedIffUsable | app/api/course/layout/route.jsx:129-208 | the answer is 200 with an outline exactly when the upstream call succeeded and its content cleans to non-empty text that parses to a truthy object, normalises, and has a non-blank string CourseName and at least one chapter |
| CourseLayout.LayoutPost | app/api/course/layout/route.jsx:48-219 | no caller gives 401 with nothing sent upstream; the upstream call happens exactly when the caller, the JSON body, a non-blank string prompt and the API key are all present; the message sent is the prompt followed by the fixed instruction; without an upstream call the status is 400, 401 or 500 |
| CourseLayout.GuardLadder | app/api/course/layout/route.jsx:51-83 | for a signed-in caller, a body that is not JSON gives 400, a `null` body gives 500, a missing or blank prompt gives 400, and a missing key with a usable prompt gives 500, each before any upstream call |
| CourseLayout.NormalizedChaptersWellFormed | app/api/course/layout/route.jsx:29-44 | every normalised chapter has a truthy name, and an About and a Duration that are truthy or "" |
| CourseLayout.ValidateChaptersKeepsWellFormed | app/api/course/layout/route.jsx:195-200 | the final `validatedChapters` pass changes nothing on normalised chapters |
| CourseLayout.GeneratedIsNormalized | app/api/course/layout/route.jsx:175-208 | a 200 reply is the normalised parse of the cleaned upstream content, with Description defaulting to ""; it has a non-blank string CourseName, at least one chapter, and a truthy name on every chapter |
| ChaptersApi.SelectChapters | app/api/chapters/route.js:42-56 | the query returns exactly the rows of the course, restricted to the chapter id when that parameter is present, each as many times as it occurs in the table |
| ChaptersApi.GetChapters | app/api/chapters/route.js:8-66 | a missing or empty courseId gives 400; otherwise rows come back exactly when the course is published, or the caller owns it, and the query succeeds; refused access gives 403; a failed query on a readable course gives 500; every returned row matches the filter |
| ChaptersApi.PublishedOpenToAnyone | app/api/chapters/route.js:21-58 | a published course's chapters are served to every caller, anonymous or not, owner or not |
| ChaptersApi.UnpublishedOwnerOnly | app/api/chapters/route.js:25-40 | an unpublished course is refused (403) to an anonymous caller; a signed-in caller reads it exactly when the course exists and its creator is the caller's email |
| ChaptersApi.EmptyChapterIdStillFilters | app/api/chapters/route.js:47-54 | a present but empty chapterId still filters, to rows whose chapterId is "" |
| ChaptersApi.NewChapter | app/api/chapters/route.js:95-102 | the inserted row carries the course id, `String(chapterId)`, the content, and the video ids, or `[]` when those are falsy |
| ChaptersApi.PostStatus | app/api/chapters/route.js:69-113 | no caller gives 401; then a missing courseId, an undefined chapterId or falsy content gives 400; then a non-owner gives 403; then 201 unless the insert fails |
| ChaptersApi.ChapterZeroAccepted | app/api/chapters/route.js:79-99 | chapter position 0 passes the `=== undefined` check and is stored as "0" |
| ChaptersApi.ChapterStore.Post | app/api/chapters/route.js:69-113 | on 201 exactly the new row is appended; on every other status the table is unchanged |
| CoursesApi.NewestFirst | app/api/courses/route.js:15-43 | the listing holds exactly the rows that satisfy every condition |
| CoursesApi.NewestFirstDecreasing | app/api/courses/route.js:41 | over a table whose ids increase, the listing is in strictly decreasing id order |
| CoursesApi.NoConditionsListsAll | app/api/courses/route.js:33-41 | with no condition every row is listed, newest first |
| CoursesApi.NewRowListedFirst | app/api/courses/route.js:41 | a newly appended row that passes the filters heads the listing |
| CoursesApi.CourseStore.List | app/api/courses/route.js:8-53 | a failed query gives 500; otherwise the result holds exactly the rows matching a truthy courseId, a truthy createdBy, and publish == (param == "true") when that param is present, in strictly decreasing id order |
| CoursesApi.NewCourse | app/api/courses/route.js:83-98 | the inserted row copies the body's fields, including createdBy; publish is false, the banner is "/placeholder.png", includeVideo is the given value or "Yes", and the id is the next serial |
| CoursesApi.CreateStatus | app/api/courses/route.js:56-108 | no user id gives 401; a provider error gives 500; any falsy required field gives 400; success gives 201 unless the insert fails |
| CoursesApi.CreateNeedsOnlySession | app/api/courses/route.js:57-61 | creation consults only the session's user id, so it succeeds even where the user lookup behind `verifyAuth` would fail |
| CoursesApi.CourseStore.Create | app/api/courses/route.js:56-108 | on 201 exactly one row is appended under the next serial id, and the ids stay increasing; on every other status the table and counter are unchanged |
| Middleware.ProtectInvoked | middleware.js:15-43 | protection is invoked exactly when the path matcher admits the path and then the page rule matches, or the API rule matches and the request is not a public course GET |
| Middleware.ApiPathsAlwaysRun | middleware.js:36-43 | every pathname under "/api" is admitted by the path matcher |
| Middleware.PagesProtected | middleware.js:3-19 | every path under /dashboard or /create-course that does not look like a static file is protected for every method |
| Middleware.StaticLookingPageSkipped | middleware.js:36-43 | a path "/create-course/<name>.png" is skipped by the path matcher and so is never protected |
| Middleware.NonGetApiProtected | middleware.js:9-31 | every non-GET request to a protected API route is protected |
| Middleware.PublicGetsExempt | middleware.js:24-31 | GETs below "/api/courses/" and under "/api/chapters" are exempt |
| Middleware.ListingGetProtected | middleware.js:24-31 | a GET of "/api/courses" (no trailing slash) is still protected |
| Middleware.LayoutGetProtected | middleware.js:9-31 | a GET of "/api/course/layout" is still protected |
| Middleware.UnmatchedNeverProtected | middleware.js:15-34 | a path matching neither list is never protected |
| CreateCourse.CheckStatus | app/create-course/page.jsx:35-56 | step 0 blocks exactly when the category is missing or "Others"; step 1 exactly when the topic is missing; step 2 passes exactly when level, video choice and duration are given and the chapter count is between 1 and 20; any other index never blocks |
| CreateCourse.AllStepsPassIffComplete | app/create-course/page.jsx:35-56 | no step blocks exactly when the category is given and not "Others", topic, level, video choice and duration are given, and the chapter count is 1..20 |
| CreateCourse.NextIndex | app/create-course/page.jsx:228-243 | the index stays in 0..2 and moves by at most one step; it advances exactly on Next before the last step when the step does not block, and it goes back exactly on Previous above step 0 |
| CreateCourse.Stepper.Previous | app/create-course/page.jsx:228-234 | Previous moves back one step, and is disabled at step 0 |
| CreateCourse.Stepper.Next | app/create-course/page.jsx:236-243 | Next advances exactly when it is shown and the current step does not block |
| CreateCourse.Stepper.Generate | app/create-course/page.jsx:245-249 | the layout flow starts exactly at the last step when that step does not block, so a start means level, video choice and duration are given and the chapter count is between 1 and 20 |
| CreateCourse.CoursePrompt | app/create-course/page.jsx:74-90 | the prompt is the fixed instruction followed by the labelled answers, in order |
| CreateCourse.WizardPromptUsable | app/create-course/page.jsx:90-96 | the wizard's prompt always passes the layout endpoint's prompt check |
| CreateCourse.OutlineAcceptable | app/create-course/page.jsx:106-109 | an outline whose CourseName is a string not made only of whitespace, with at least one chapter, passes the client's layout check |
| CreateCourse.ChaptersLengthKeyRefused | app/create-course/page.jsx:107 | a `Chapters` object whose own "length" key is 0 fails the layout check, and one without that key passes it |
| CreateCourse.GeneratedOutlineAcceptable | app/create-course/page.jsx:106-109 | every 200 answer of the layout endpoint passes the client's layout check |
| CreateCourse.GenerateCourseLayout | app/create-course/page.jsx:59-178 | a layout is requested exactly when category and topic are given; a save of the layout is requested exactly when the layout reply is ok and has a truthy CourseName, truthy Chapters and a `Chapters.length` that is not 0; navigation to "/create-course/" + id happens exactly when the save is ok and answers with a truthy courseId |
| CreateCourse.SaveBodyAcceptedIff | app/create-course/page.jsx:147-163 | the save request passes the courses endpoint's required-field check exactly when id, topic, level, category and the user's email are present |
| CreateCourse.SavedCourseOwnedByUser | app/create-course/page.jsx:152-162 | the saved course is created by the signed-in user's email under the sent uuid, with video "Yes" when no choice was made |

## Left out

- Network I/O is not modelled. This covers the upstream completion call, its
  headers and request options, and the client's `fetch` calls. Each exchange is
  an input value.
- An upstream reply whose body is not JSON is left out. So is an upstream
  content value that is not a string. In the source both end in the catch-all
  500.
- The choice among `choices[0].message.content`, `choices[0].text` and
  `content` in the upstream reply is not modelled. The model receives the
  content already chosen.
- `JSON.parse` is a function-typed input. Parsing itself is not modelled.
- JSON numbers are integers. Fractional numbers, and how they render as text,
  are left out.
- Text columns in request bodies (courseId, name, level, category, createdBy
  and similar) are modelled as absent or a string. A non-string value sent in
  one of them is left out.
- The route matcher is modelled as a plain prefix match for patterns ending in
  `(.*)`, and as an exact match for "/api/course/layout". The matcher's case
  handling and trailing-slash handling are not modelled.
- Error message texts, `console.error`, toasts, the loading flag and rendering
  are not modelled. Only statuses, error kinds and data are.
- Concurrency between requests is not modelled. Each handler is one sequential
  call over the store.
- The store's serial id is modelled as a counter on the store class.
  `CourseStore.List` returns rows in reverse insertion order. It proves this
  equals ordering by id descending, given the store invariant.
- The content-generation pipeline is not part of this model. Neither are the
  banner, publish, update and delete routes, the explore page, or the AI model
  configuration. None of them is in the modelled handlers.
- CourseLayout.ExtractJson: for input that contains backticks, the contract
  states only that no "```" remains and that the ends are trimmed. The exact
  text is the composition of RemoveJsonFences and RemoveFences.
- Js.ToJsString and Text.IntToString render every integer digit by digit. In
  JavaScript a JSON number is a double: `JSON.parse` already rounds integers
  above 2^53, and `String(n)` uses exponent form from 1e21 up ("1e+21"). The
  model does not capture either.
- Middleware.MiddlewareRuns applies the path matcher to the pathname as
  given. Next.js's own rewriting of the pathname before matching (base path,
  locales) is not modelled.
- Js.Length counts a string's characters, not its UTF-16 code units as
  JavaScript does. The only use compares an array's or object's length with 0,
  where the two agree.
- The wizard's chapter count is modelled as a number. The form control that
  sets it is not part of this model. If it held the typed text instead, a
  non-numeric entry such as "abc" would pass step 2, because both `< 1` and
  `> 20` are false for it. The prompt would also carry that text as typed.
