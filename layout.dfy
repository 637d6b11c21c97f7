/** POST /api/course/layout: turns a course prompt into a course outline by asking
    an upstream completion service, stripping Markdown fences from its answer,
    parsing it, and mapping loosely keyed output onto
    {CourseName, Description, Chapters[{ChapterName, About, Duration}]}.
    The upstream call and `JSON.parse` are function-typed inputs. */
module CourseLayout {
  import opened Text
  import opened Js
  import opened ApiSecurity

  const Fence := "```"

  predicate NoBacktick(s: string) {
    forall k :: 0 <= k < |s| ==> s[k] != '`'
  }

  /** No "```" anywhere in `t`. */
  predicate NoFence(t: string) {
    forall i :: 0 <= i <= |t| - 3 ==> !OccursAt(t, Fence, i)
  }

  /** "json" in any mix of ASCII case, as the `i` flag matches it. */
  predicate IsJsonTag(t: string) {
    && |t| == 4
    && (t[0] == 'j' || t[0] == 'J') && (t[1] == 's' || t[1] == 'S')
    && (t[2] == 'o' || t[2] == 'O') && (t[3] == 'n' || t[3] == 'N')
  }

  /** `s.replace(/```json/gi, "")`: the global scan from the left drops each match
      and keeps every other character. */
  function RemoveJsonFences(s: string): (r: string)
    ensures |r| <= |s|
    ensures NoBacktick(s) ==> r == s
    decreases |s|
  {
    if |s| >= 7 && s[..3] == Fence && IsJsonTag(s[3..7]) then RemoveJsonFences(s[7..])
    else if s == [] then []
    else [s[0]] + RemoveJsonFences(s[1..])
  }

  /** `s.replace(/```/g, "")`. */
  function RemoveFences(s: string): (r: string)
    ensures |r| <= |s|
    ensures NoBacktick(s) ==> r == s
    decreases |s|
  {
    if |s| >= 3 && s[..3] == Fence then RemoveFences(s[3..])
    else if s == [] then []
    else [s[0]] + RemoveFences(s[1..])
  }

  /** A kept leading backtick was a backtick of the input. */
  lemma FirstKept(u: string)
    requires |RemoveFences(u)| > 0 && RemoveFences(u)[0] == '`'
    ensures |u| > 0 && u[0] == '`'
  {
  }

  /** Two kept leading backticks were the input's first two characters. */
  lemma TwoKept(t: string)
    requires |RemoveFences(t)| >= 2 && RemoveFences(t)[0] == '`' && RemoveFences(t)[1] == '`'
    ensures |t| >= 2 && t[0] == '`' && t[1] == '`'
  {
    if !(|t| >= 3 && t[..3] == Fence) {
      assert RemoveFences(t) == [t[0]] + RemoveFences(t[1..]);
      FirstKept(t[1..]);
    }
  }

  /** Removing every "```" in one left-to-right pass leaves none behind: the
      characters on both sides of a removed fence never join into a new one. */
  lemma {:induction false} NoFenceAfterRemoval(s: string)
    ensures NoFence(RemoveFences(s))
    decreases |s|
  {
    var r := RemoveFences(s);
    if |s| >= 3 && s[..3] == Fence {
      NoFenceAfterRemoval(s[3..]);
    } else if s != [] {
      var tail := RemoveFences(s[1..]);
      NoFenceAfterRemoval(s[1..]);
      assert r == [s[0]] + tail;
      forall i | 0 <= i <= |r| - 3
        ensures !OccursAt(r, Fence, i)
      {
        if i > 0 {
          assert r[i..i + 3] == tail[i - 1..i + 2];
          assert !OccursAt(tail, Fence, i - 1);
        } else if r[..3] == Fence {
          TwoKept(s[1..]);
        }
      }
    }
  }

  lemma NoFenceInfix(s: string, i: nat, j: nat)
    requires NoFence(s) && i <= j <= |s|
    ensures NoFence(s[i..j])
  {
    var t := s[i..j];
    forall k | 0 <= k <= |t| - 3
      ensures !OccursAt(t, Fence, k)
    {
      var u, v := t[k..k + 3], s[i + k..i + k + 3];
      assert u == v by {
        assert forall m | 0 <= m < 3 :: u[m] == v[m];
      }
      assert !OccursAt(s, Fence, i + k);
    }
  }

  /** Trimming fence-free text leaves it fence-free. */
  lemma TrimKeepsNoFence(s: string)
    requires NoFence(s)
    ensures NoFence(Trim(s))
  {
    var i, j :| 0 <= i <= j <= |s| && Trim(s) == s[i..j] && AllSpace(s[..i]) && AllSpace(s[j..]);
    NoFenceInfix(s, i, j);
  }

  /** `extractJSON`: nothing for empty input; otherwise the input with every
      "```json" (any case) and then every "```" removed, and trimmed. */
  function ExtractJson(text: string): (r: Option<string>)
    ensures r.None? <==> text == ""
    ensures r.Some? ==> NoFence(r.value)
    ensures r.Some? ==> r.value == [] || (!IsJsSpace(r.value[0]) && !IsJsSpace(r.value[|r.value| - 1]))
    ensures text != "" && NoBacktick(text) ==> r == Some(Trim(text))
  {
    if text == "" then None
    else
      var stripped := RemoveFences(RemoveJsonFences(text));
      NoFenceAfterRemoval(RemoveJsonFences(text));
      TrimKeepsNoFence(stripped);
      Some(Trim(stripped))
  }

  lemma {:induction false} RemoveJsonFencesSkipsPlainPrefix(a: string, b: string)
    requires NoBacktick(a)
    ensures RemoveJsonFences(a + b) == a + RemoveJsonFences(b)
    decreases |a|
  {
    if a != [] {
      var ab := a + b;
      assert ab[0] == a[0];
      assert |ab| >= 3 ==> ab[..3] != Fence by { assert |ab| >= 3 ==> ab[..3][0] == ab[0]; }
      assert ab[1..] == a[1..] + b;
      assert RemoveJsonFences(ab) == [a[0]] + RemoveJsonFences(ab[1..]);
      RemoveJsonFencesSkipsPlainPrefix(a[1..], b);
      calc {
        RemoveJsonFences(ab);
        [a[0]] + RemoveJsonFences(a[1..] + b);
        [a[0]] + (a[1..] + RemoveJsonFences(b));
        ([a[0]] + a[1..]) + RemoveJsonFences(b);
        { assert [a[0]] + a[1..] == a; }
        a + RemoveJsonFences(b);
      }
    } else {
      assert a + b == b;
    }
  }


  lemma {:induction false} RemoveFencesSkipsPlainPrefix(a: string, b: string)
    requires NoBacktick(a)
    ensures RemoveFences(a + b) == a + RemoveFences(b)
    decreases |a|
  {
    if a != [] {
      var ab := a + b;
      assert ab[0] == a[0];
      assert |ab| >= 3 ==> ab[..3] != Fence by { assert |ab| >= 3 ==> ab[..3][0] == ab[0]; }
      assert ab[1..] == a[1..] + b;
      RemoveFencesSkipsPlainPrefix(a[1..], b);
      calc {
        RemoveFences(ab);
        [a[0]] + RemoveFences(a[1..] + b);
        [a[0]] + (a[1..] + RemoveFences(b));
        ([a[0]] + a[1..]) + RemoveFences(b);
        { assert [a[0]] + a[1..] == a; }
        a + RemoveFences(b);
      }
    } else {
      assert a + b == b;
    }
  }


  /** A leading "```json" is dropped whole. */
  lemma DropsLeadingJsonFence(x: string)
    ensures RemoveJsonFences("```json" + x) == RemoveJsonFences(x)
  {
    var s := "```json" + x;
    assert s[..3] == Fence && s[3..7] == "json" && s[7..] == x;
  }

  /** A lone "```" survives the first pass and is removed by the second. */
  lemma FenceAlone()
    ensures RemoveJsonFences(Fence) == Fence
    ensures RemoveFences(Fence) == []
  {
    assert Fence[1..] == "``" && Fence[1..][1..] == "`" && Fence[1..][1..][1..] == [];
    assert RemoveJsonFences("`") == "`";
    assert RemoveJsonFences("``") == "``";
  }

  /** Both passes over a "```json" block leave the content between its newlines. */
  lemma StripFencedBlock(body: string)
    requires NoBacktick(body)
    ensures RemoveFences(RemoveJsonFences("```json\n" + body + "\n```")) == "\n" + body + "\n"
  {
    var inner := "\n" + body + "\n";
    assert NoBacktick(inner);
    var fenced := inner + Fence;
    assert "```json\n" + body + "\n```" == "```json" + fenced;
    DropsLeadingJsonFence(fenced);
    RemoveJsonFencesSkipsPlainPrefix(inner, Fence);
    FenceAlone();
    assert RemoveJsonFences(fenced) == fenced;
    RemoveFencesSkipsPlainPrefix(inner, Fence);
    assert inner + [] == inner;
  }

  /** Trimming removes exactly one newline on each side of unpadded content. */
  lemma TrimNewlines(body: string)
    requires body != [] && !IsJsSpace(body[0]) && !IsJsSpace(body[|body| - 1])
    ensures Trim("\n" + body + "\n") == body
  {
    var inner := "\n" + body + "\n";
    var tail := body + "\n";
    assert inner[1..] == tail;
    assert tail[0] == body[0];
    assert TrimStart(tail) == tail;
    assert TrimStart(inner) == tail;
    assert tail[..|body|] == body;
    assert TrimEnd(tail) == TrimEnd(body);
    assert TrimEnd(body) == body;
  }

  /** A block fenced as "```json", with the fences on their own lines, is unwrapped
      to exactly its content when that content has no backtick and no surrounding
      whitespace. */
  lemma ExtractFencedBlock(body: string)
    requires NoBacktick(body) && body != []
    requires !IsJsSpace(body[0]) && !IsJsSpace(body[|body| - 1])
    ensures ExtractJson("```json\n" + body + "\n```") == Some(body)
  {
    var text := "```json\n" + body + "\n```";
    assert text != "" by { assert |text| > 0; }
    StripFencedBlock(body);
    TrimNewlines(body);
  }

  // ---------------------------------------------------------------------------
  // Normalisation of the parsed answer

  datatype ChapterOutline = ChapterOutline(chapterName: JsValue, about: JsValue, duration: JsValue)

  datatype Outline = Outline(courseName: JsValue, description: JsValue, chapters: seq<ChapterOutline>)

  /** The key variants tried, in order, for each canonical field. */
  const CourseNameKeys: seq<string> := ["CourseName", "courseName", "name"]
  const DescriptionKeys: seq<string> := ["Description", "description"]
  const ChaptersKeys: seq<string> := ["Chapters", "chapters"]
  const ChapterNameKeys: seq<string> := ["ChapterName", "chapterName"]
  const AboutKeys: seq<string> := ["About", "about"]
  const DurationKeys: seq<string> := ["Duration", "duration"]

  /** Reference reading of a variant table: `r` is the value of the first key whose
      value is truthy, or `fallback` when none is. */
  ghost predicate IsFirstTruthy(v: JsValue, keys: seq<string>, fallback: JsValue, r: JsValue) {
    || (exists k :: 0 <= k < |keys| && Truthy(Field(v, keys[k])) && r == Field(v, keys[k])
                    && forall j :: 0 <= j < k ==> !Truthy(Field(v, keys[j])))
    || ((forall k :: 0 <= k < |keys| ==> !Truthy(Field(v, keys[k]))) && r == fallback)
  }

  /** Table-driven lookup over a list of key variants. */
  function FirstTruthy(v: JsValue, keys: seq<string>, fallback: JsValue): JsValue {
    if keys == [] then fallback else Or(Field(v, keys[0]), FirstTruthy(v, keys[1..], fallback))
  }

  /** The `||` chains of the source read the two- and three-entry tables in order. */
  lemma FirstTruthyOfTwo(v: JsValue, a: string, b: string, fallback: JsValue)
    ensures FirstTruthy(v, [a, b], fallback) == Or(Or(Field(v, a), Field(v, b)), fallback)
  {
    assert [a, b][1..] == [b];
    assert [b][1..] == [];
    assert FirstTruthy(v, [b], fallback) == Or(Field(v, b), fallback);
    assert FirstTruthy(v, [a, b], fallback) == Or(Field(v, a), Or(Field(v, b), fallback));
  }

  lemma FirstTruthyOfThree(v: JsValue, a: string, b: string, c: string, fallback: JsValue)
    ensures FirstTruthy(v, [a, b, c], fallback) == Or(Or(Or(Field(v, a), Field(v, b)), Field(v, c)), fallback)
  {
    assert [a, b, c][1..] == [b, c];
    FirstTruthyOfTwo(v, b, c, fallback);
  }

  lemma {:induction false} FirstTruthyIsFirst(v: JsValue, keys: seq<string>, fallback: JsValue)
    ensures IsFirstTruthy(v, keys, fallback, FirstTruthy(v, keys, fallback))
  {
    var r := FirstTruthy(v, keys, fallback);
    if keys != [] {
      if Truthy(Field(v, keys[0])) {
        assert Truthy(Field(v, keys[0])) && r == Field(v, keys[0]);
      } else {
        var rest := keys[1..];
        FirstTruthyIsFirst(v, rest, fallback);
        if exists k :: 0 <= k < |rest| && Truthy(Field(v, rest[k])) && r == Field(v, rest[k])
                       && forall j :: 0 <= j < k ==> !Truthy(Field(v, rest[j])) {
          var k :| 0 <= k < |rest| && Truthy(Field(v, rest[k])) && r == Field(v, rest[k])
                   && forall j :: 0 <= j < k ==> !Truthy(Field(v, rest[j]));
          assert keys[k + 1] == rest[k];
          assert forall j :: 0 <= j < k + 1 ==> !Truthy(Field(v, keys[j])) by {
            forall j | 0 <= j < k + 1 ensures !Truthy(Field(v, keys[j])) {
              if j > 0 { assert keys[j] == rest[j - 1]; }
            }
          }
        } else {
          forall k | 0 <= k < |keys| ensures !Truthy(Field(v, keys[k])) {
            if k > 0 { assert keys[k] == rest[k - 1]; }
          }
        }
      }
    }
  }

  /** "Chapter n" for the chapter at 0-based position `index`. */
  function FallbackChapterName(index: nat): (r: string)
    ensures |r| > 8 && r[..8] == "Chapter " && r[8..] == NatToString(index + 1)
  {
    "Chapter " + NatToString(index + 1)
  }

  function NormalizeChapter(ch: JsValue, index: nat): ChapterOutline {
    ChapterOutline(
      Or(Or(Field(ch, "ChapterName"), Field(ch, "chapterName")), Str(FallbackChapterName(index))),
      Or(Or(Field(ch, "About"), Field(ch, "about")), Str("")),
      Or(Or(Field(ch, "Duration"), Field(ch, "duration")), Str("")))
  }

  /** `ai.Chapters || ai.chapters || []`. */
  function ChapterSource(ai: JsValue): JsValue {
    Or(Or(Field(ai, "Chapters"), Field(ai, "chapters")), Arr([]))
  }

  /** `normalizeCourseOutput(ai)`; None when it throws a TypeError: reading a field
      of null, calling `.map` on a chapters value that is not an array, or reading
      a field of a null chapter entry. */
  function NormalizeCourseOutput(ai: JsValue): Option<Outline> {
    if Nullish(ai) then None
    else
      var src := ChapterSource(ai);
      if !src.Arr? then None
      else if exists i :: 0 <= i < |src.items| && Nullish(src.items[i]) then None
      else Some(Outline(
        Or(Or(Or(Field(ai, "CourseName"), Field(ai, "courseName")), Field(ai, "name")), Str("")),
        Or(Or(Field(ai, "Description"), Field(ai, "description")), Str("")),
        seq(|src.items|, i requires 0 <= i < |src.items| => NormalizeChapter(src.items[i], i))))
  }

  /** Every field of a chapter is the first truthy value among its key variants,
      with "Chapter n" or "" as the fallback; the name is therefore never falsy. */
  lemma NormalizeChapterFields(ch: JsValue, index: nat)
    ensures var c := NormalizeChapter(ch, index);
            && IsFirstTruthy(ch, ChapterNameKeys, Str(FallbackChapterName(index)), c.chapterName)
            && IsFirstTruthy(ch, AboutKeys, Str(""), c.about)
            && IsFirstTruthy(ch, DurationKeys, Str(""), c.duration)
            && Truthy(c.chapterName)
  {
    var c := NormalizeChapter(ch, index);
    FirstTruthyOfTwo(ch, "ChapterName", "chapterName", Str(FallbackChapterName(index)));
    FirstTruthyOfTwo(ch, "About", "about", Str(""));
    FirstTruthyOfTwo(ch, "Duration", "duration", Str(""));
    FirstTruthyIsFirst(ch, ChapterNameKeys, Str(FallbackChapterName(index)));
    FirstTruthyIsFirst(ch, AboutKeys, Str(""));
    FirstTruthyIsFirst(ch, DurationKeys, Str(""));
  }

  /** What `normalizeCourseOutput` promises: it succeeds exactly when the chapter
      source is an array without null entries; CourseName and Description follow
      their variant tables; the chapters keep the source's length and order, the
      entry at position i being normalised with "Chapter i+1" as its fallback name. */
  lemma NormalizeCourseOutputSpec(ai: JsValue)
    ensures var r := NormalizeCourseOutput(ai);
            var src := ChapterSource(ai);
            && (r.Some? <==> !Nullish(ai) && src.Arr? && forall i :: 0 <= i < |src.items| ==> !Nullish(src.items[i]))
            && (r.Some? ==>
                  && IsFirstTruthy(ai, CourseNameKeys, Str(""), r.value.courseName)
                  && IsFirstTruthy(ai, DescriptionKeys, Str(""), r.value.description)
                  && IsFirstTruthy(ai, ChaptersKeys, Arr([]), src)
                  && |r.value.chapters| == |src.items|
                  && forall i :: 0 <= i < |src.items| ==> r.value.chapters[i] == NormalizeChapter(src.items[i], i))
  {
    var r := NormalizeCourseOutput(ai);
    var src := ChapterSource(ai);
    if r.Some? {
      FirstTruthyOfThree(ai, "CourseName", "courseName", "name", Str(""));
      FirstTruthyOfTwo(ai, "Description", "description", Str(""));
      FirstTruthyOfTwo(ai, "Chapters", "chapters", Arr([]));
      FirstTruthyIsFirst(ai, CourseNameKeys, Str(""));
      FirstTruthyIsFirst(ai, DescriptionKeys, Str(""));
      FirstTruthyIsFirst(ai, ChaptersKeys, Arr([]));
    }
  }

  /** An empty `Chapters` array is truthy, so it hides a non-empty `chapters`. */
  lemma EmptyChaptersShadows(fields: map<string, JsValue>)
    requires "Chapters" in fields && fields["Chapters"] == Arr([])
    ensures NormalizeCourseOutput(Obj(fields)).Some?
    ensures NormalizeCourseOutput(Obj(fields)).value.chapters == []
  {
  }

  /** A chapter entry with neither name key gets "Chapter i+1"; About and Duration
      default to "". */
  lemma FallbackNameForUnnamedChapter(ai: JsValue, i: nat)
    requires NormalizeCourseOutput(ai).Some?
    requires i < |ChapterSource(ai).items|
    requires var ch := ChapterSource(ai).items[i];
             !Truthy(Field(ch, "ChapterName")) && !Truthy(Field(ch, "chapterName"))
             && !Truthy(Field(ch, "About")) && !Truthy(Field(ch, "about"))
             && !Truthy(Field(ch, "Duration")) && !Truthy(Field(ch, "duration"))
    ensures NormalizeCourseOutput(ai).value.chapters[i]
            == ChapterOutline(Str(FallbackChapterName(i)), Str(""), Str(""))
  {
    NormalizeCourseOutputSpec(ai);
  }

  // ---------------------------------------------------------------------------
  // The request handler

  const PromptSuffix: string :=
    "\n\nIMPORTANT: Return ONLY raw JSON. No markdown. No ```. The JSON must include CourseName, Description, and Chapters array with ChapterName, About, and Duration fields."

  /** The request body: not JSON at all, or a parsed JSON value. */
  datatype RequestBody = Malformed | Parsed(json: JsValue)

  /** The upstream reply: its HTTP status and the message content found in it, if any. */
  datatype UpstreamReply = UpstreamReply(status: int, content: Option<string>)

  predicate UpstreamOk(u: UpstreamReply) {
    200 <= u.status <= 299
  }

  datatype LayoutError =
    | Unauthorized | InvalidBody | InvalidPrompt | NotConfigured | UpstreamFailed
    | NoContent | NoJson | InvalidJson | InvalidStructure | MissingCourseName
    | MissingChapters | ServerError

  datatype LayoutReply = Generated(outline: Outline) | Failed(status: int, error: LayoutError)

  /** The handler's reply together with the message it sent upstream, if it got that far. */
  datatype LayoutExchange = LayoutExchange(reply: LayoutReply, sent: Option<string>)

  function StatusOf(r: LayoutReply): int {
    if r.Generated? then 200 else r.status
  }

  /** `!prompt || typeof prompt !== "string" || prompt.trim().length === 0` fails. */
  predicate UsablePrompt(p: JsValue) {
    p.Str? && Trim(p.s) != ""
  }

  /** The final `validatedChapters` pass. */
  function ValidateChapters(chs: seq<ChapterOutline>): seq<ChapterOutline> {
    seq(|chs|, i requires 0 <= i < |chs| =>
      ChapterOutline(Or(chs[i].chapterName, Str(FallbackChapterName(i))),
                     Or(chs[i].about, Str("")),
                     Or(chs[i].duration, Str(""))))
  }

  /** An upstream answer the handler can turn into an outline: a successful status
      with content that cleans to non-empty text, parses to a truthy object that
      normalises, and yields a non-blank string CourseName and at least one
      chapter. */
  predicate UsableAnswer(u: UpstreamReply, parse: string -> Option<JsValue>) {
    && UpstreamOk(u) && Present(u.content)
    && var cleaned := ExtractJson(u.content.value);
    && cleaned.Some? && cleaned.value != ""
    && var parsed := parse(cleaned.value);
    && parsed.Some? && Truthy(parsed.value) && IsObjectType(parsed.value)
    && var n := NormalizeCourseOutput(parsed.value);
    && n.Some? && n.value.courseName.Str? && Trim(n.value.courseName.s) != ""
    && |n.value.chapters| >= 1
  }

  /** Everything after a successful upstream call: content, fence stripping,
      parsing, shape check, normalisation and the final validation. */
  function AfterUpstream(u: UpstreamReply, parse: string -> Option<JsValue>): (r: LayoutReply)
    ensures !UpstreamOk(u) && 400 <= u.status < 500 ==> r == Failed(u.status, UpstreamFailed)
    ensures !UpstreamOk(u) && !(400 <= u.status < 500) ==> r == Failed(500, UpstreamFailed)
    ensures UpstreamOk(u) ==> StatusOf(r) in {200, 500}
  {
    if !UpstreamOk(u) then Failed(if 400 <= u.status < 500 then u.status else 500, UpstreamFailed)
    else if !Present(u.content) then Failed(500, NoContent)
    else
      var cleaned := ExtractJson(u.content.value);
      if cleaned.None? || cleaned.value == "" then Failed(500, NoJson)
      else match parse(cleaned.value)
        case None => Failed(500, InvalidJson)
        case Some(parsed) =>
          if !Truthy(parsed) || !IsObjectType(parsed) then Failed(500, InvalidStructure)
          else match NormalizeCourseOutput(parsed)
            case None => Failed(500, ServerError)
            case Some(n) =>
              if !Truthy(n.courseName) then Failed(500, MissingCourseName)
              else if !n.courseName.Str? then Failed(500, ServerError)
              else if Trim(n.courseName.s) == "" then Failed(500, MissingCourseName)
              else if |n.chapters| == 0 then Failed(500, MissingChapters)
              else Generated(Outline(n.courseName, Or(n.description, Str("")), ValidateChapters(n.chapters)))
  }

  /** A successful upstream call yields an outline exactly when its answer is
      usable. */
  lemma GeneratedIffUsable(u: UpstreamReply, parse: string -> Option<JsValue>)
    ensures AfterUpstream(u, parse).Generated? <==> UsableAnswer(u, parse)
  {
    if UpstreamOk(u) && Present(u.content) {
      var cleaned := ExtractJson(u.content.value);
      if cleaned.Some? && cleaned.value != "" {
        var parsed := parse(cleaned.value);
        if parsed.Some? && Truthy(parsed.value) && IsObjectType(parsed.value) {
          var n := NormalizeCourseOutput(parsed.value);
          if n.Some? && n.value.courseName.Str? {
            BlankNameIsBlank(n.value.courseName.s);
          }
        }
      }
    }
  }

  /** The empty name is blank, so a name that is not blank is truthy. */
  lemma BlankNameIsBlank(s: string)
    ensures s == "" ==> Trim(s) == ""
  {
    if s == "" {
      assert TrimStart(s) == s;
    }
  }

  /** The POST handler: the guard ladder (401, 400, 500 for configuration) before
      any upstream call, then the upstream exchange. */
  function LayoutPost(auth: AuthState, body: RequestBody, apiKey: Option<string>,
                      upstream: string -> UpstreamReply, parse: string -> Option<JsValue>): (r: LayoutExchange)
    ensures VerifyAuth(auth).None? ==> r == LayoutExchange(Failed(401, Unauthorized), None)
    ensures r.sent.Some? <==>
              VerifyAuth(auth).Some? && body.Parsed? && UsablePrompt(Field(body.json, "prompt")) && Present(apiKey)
    ensures r.sent.Some? ==> r.sent.value == Field(body.json, "prompt").s + PromptSuffix
    ensures r.sent.Some? ==> r.reply == AfterUpstream(upstream(r.sent.value), parse)
    ensures r.sent.None? ==> StatusOf(r.reply) in {400, 401, 500}
  {
    if VerifyAuth(auth).None? then LayoutExchange(Failed(401, Unauthorized), None)
    else if body.Malformed? then LayoutExchange(Failed(400, InvalidBody), None)
    else if Nullish(body.json) then LayoutExchange(Failed(500, ServerError), None)
    else
      var prompt := Field(body.json, "prompt");
      if !Truthy(prompt) || !prompt.Str? || Trim(prompt.s) == "" then LayoutExchange(Failed(400, InvalidPrompt), None)
      else if !Present(apiKey) then LayoutExchange(Failed(500, NotConfigured), None)
      else
        var sent := prompt.s + PromptSuffix;
        LayoutExchange(AfterUpstream(upstream(sent), parse), Some(sent))
  }

  /** The guards run in the order 401, 400, 500 and none of them consults the
      upstream service or the parser. */
  lemma GuardLadder(auth: AuthState, body: RequestBody, apiKey: Option<string>,
                    upstream: string -> UpstreamReply, parse: string -> Option<JsValue>)
    requires VerifyAuth(auth).Some?
    ensures body.Parsed? && !Nullish(body.json) && !UsablePrompt(Field(body.json, "prompt"))
            ==> LayoutPost(auth, body, apiKey, upstream, parse).reply == Failed(400, InvalidPrompt)
    ensures body.Parsed? && UsablePrompt(Field(body.json, "prompt")) && !Present(apiKey)
            ==> LayoutPost(auth, body, apiKey, upstream, parse).reply == Failed(500, NotConfigured)
    ensures body.Malformed? ==> LayoutPost(auth, body, apiKey, upstream, parse).reply == Failed(400, InvalidBody)
    ensures body.Parsed? && Nullish(body.json)
            ==> LayoutPost(auth, body, apiKey, upstream, parse).reply == Failed(500, ServerError)
  {
  }

  /** The chapters `normalizeCourseOutput` produces: named, with About and Duration
      either truthy or "". */
  predicate WellFormedChapters(chs: seq<ChapterOutline>) {
    forall i :: 0 <= i < |chs| ==>
      Truthy(chs[i].chapterName)
      && (Truthy(chs[i].about) || chs[i].about == Str(""))
      && (Truthy(chs[i].duration) || chs[i].duration == Str(""))
  }

  lemma NormalizedChaptersWellFormed(ai: JsValue)
    requires NormalizeCourseOutput(ai).Some?
    ensures WellFormedChapters(NormalizeCourseOutput(ai).value.chapters)
  {
    var chs := NormalizeCourseOutput(ai).value.chapters;
    NormalizeCourseOutputSpec(ai);
    forall i | 0 <= i < |chs|
      ensures Truthy(chs[i].chapterName)
    {
      NormalizeChapterFields(ChapterSource(ai).items[i], i);
    }
  }

  /** The final validation pass changes nothing on normalised chapters. */
  lemma ValidateChaptersKeepsWellFormed(chs: seq<ChapterOutline>)
    requires WellFormedChapters(chs)
    ensures ValidateChapters(chs) == chs
  {
  }

  /** A 200 reply carries a non-blank string CourseName and at least one chapter,
      every chapter named, and it is exactly the normalised parse of the cleaned
      upstream content (Description defaulting to ""). */
  lemma GeneratedIsNormalized(auth: AuthState, body: RequestBody, apiKey: Option<string>,
                              upstream: string -> UpstreamReply, parse: string -> Option<JsValue>)
    requires LayoutPost(auth, body, apiKey, upstream, parse).reply.Generated?
    ensures var r := LayoutPost(auth, body, apiKey, upstream, parse);
            var o := r.reply.outline;
            && r.sent.Some?
            && var u := upstream(r.sent.value);
            && UpstreamOk(u) && Present(u.content)
            && var cleaned := ExtractJson(u.content.value).value;
            && parse(cleaned).Some?
            && var n := NormalizeCourseOutput(parse(cleaned).value);
            && n.Some?
            && o.courseName == n.value.courseName && o.chapters == n.value.chapters
            && o.description == Or(n.value.description, Str(""))
            && o.courseName.Str? && Trim(o.courseName.s) != ""
            && |o.chapters| >= 1
            && forall i :: 0 <= i < |o.chapters| ==> Truthy(o.chapters[i].chapterName)
  {
    var r := LayoutPost(auth, body, apiKey, upstream, parse);
    var u := upstream(r.sent.value);
    var cleaned := ExtractJson(u.content.value).value;
    var parsed := parse(cleaned).value;
    NormalizedChaptersWellFormed(parsed);
    ValidateChaptersKeepsWellFormed(NormalizeCourseOutput(parsed).value.chapters);
  }

  /** The outline as `NextResponse.json` sends it. */
  function OutlineJson(o: Outline): JsValue {
    Obj(map[
      "CourseName" := o.courseName,
      "Description" := o.description,
      "Chapters" := Arr(seq(|o.chapters|, i requires 0 <= i < |o.chapters| =>
        Obj(map["ChapterName" := o.chapters[i].chapterName,
                "About" := o.chapters[i].about,
                "Duration" := o.chapters[i].duration])))])
  }
}
