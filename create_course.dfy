/** The course-creation wizard: three steps (category, topic, options) each gated
    by a completeness check, the prompt assembled from the answers, and the
    client-side flow that asks for a layout, checks it, saves it as a course and
    navigates to the new course. The two HTTP exchanges and the uuid are inputs. */
module CreateCourse {
  import opened Text
  import opened Js
  import opened CourseLayout
  import opened CoursesApi

  /** The wizard's answers; a field never filled in is None. The chapter count is a
      number. */
  datatype CourseInput = CourseInput(
    category: Option<string>,
    topic: Option<string>,
    level: Option<string>,
    displayVideo: Option<string>,
    duration: Option<string>,
    noOfChapters: Option<int>)

  /** `!x` on the chapter count: absent or 0. */
  predicate CountGiven(n: Option<int>) {
    n.Some? && n.value != 0
  }

  /** `checkStatus()`: true blocks the step's forward button. Step 0 needs a
      category other than "Others", step 1 a topic, step 2 a level, a video choice,
      a duration and a chapter count between 1 and 20; no other index blocks. */
  function CheckStatus(activeIndex: int, u: CourseInput): (blocked: bool)
    ensures activeIndex !in {0, 1, 2} ==> !blocked
    ensures activeIndex == 0 ==> (blocked <==> !Present(u.category) || u.category.value == "Others")
    ensures activeIndex == 1 ==> (blocked <==> !Present(u.topic))
    ensures activeIndex == 2 ==>
              (!blocked <==> && Present(u.level) && Present(u.displayVideo) && Present(u.duration)
                             && u.noOfChapters.Some? && 1 <= u.noOfChapters.value <= 20)
  {
    if activeIndex == 0 && (!Present(u.category) || u.category.value == "Others") then true
    else if activeIndex == 1 && !Present(u.topic) then true
    else if activeIndex == 2 &&
            (|| !Present(u.level) || !Present(u.displayVideo) || !CountGiven(u.noOfChapters)
             || !Present(u.duration) || u.noOfChapters.value < 1 || u.noOfChapters.value > 20) then true
    else false
  }

  /** A fully answered wizard: a real category (not "Others"), a topic, a level,
      a video choice, a duration and between 1 and 20 chapters. */
  predicate Complete(u: CourseInput) {
    && Present(u.category) && u.category.value != "Others"
    && Present(u.topic)
    && Present(u.level) && Present(u.displayVideo) && Present(u.duration)
    && u.noOfChapters.Some? && 1 <= u.noOfChapters.value <= 20
  }

  /** No step blocks exactly when the answers are complete. */
  lemma AllStepsPassIffComplete(u: CourseInput)
    ensures (!CheckStatus(0, u) && !CheckStatus(1, u) && !CheckStatus(2, u)) <==> Complete(u)
  {
  }

  datatype Click = PreviousClick | NextClick

  /** The step after a click: Previous is disabled at step 0; Next is only shown
      before the last step and is disabled while the current step blocks. */
  function NextIndex(activeIndex: int, click: Click, u: CourseInput): (r: int)
    requires 0 <= activeIndex <= 2
    ensures 0 <= r <= 2
    ensures r in {activeIndex - 1, activeIndex, activeIndex + 1}
    ensures r == activeIndex + 1 <==> click == NextClick && activeIndex < 2 && !CheckStatus(activeIndex, u)
    ensures r == activeIndex - 1 <==> click == PreviousClick && activeIndex > 0
  {
    match click
    case PreviousClick => if activeIndex == 0 then activeIndex else activeIndex - 1
    case NextClick => if activeIndex != 2 && !CheckStatus(activeIndex, u) then activeIndex + 1 else activeIndex
  }

  /** The stepper's state. */
  class Stepper {
    var activeIndex: int

    predicate Valid()
      reads this
    {
      0 <= activeIndex <= 2
    }

    constructor()
      ensures Valid() && activeIndex == 0
    {
      activeIndex := 0;
    }

    method Previous(u: CourseInput)
      requires Valid()
      modifies this
      ensures Valid() && activeIndex == NextIndex(old(activeIndex), PreviousClick, u)
    {
      activeIndex := NextIndex(activeIndex, PreviousClick, u);
    }

    method Next(u: CourseInput)
      requires Valid()
      modifies this
      ensures Valid() && activeIndex == NextIndex(old(activeIndex), NextClick, u)
    {
      activeIndex := NextIndex(activeIndex, NextClick, u);
    }

    /** The Generate button: shown only at the last step and disabled while it
        blocks. Reports whether the layout flow starts; a start means the options
        step is fully answered. */
    method Generate(u: CourseInput) returns (started: bool)
      requires Valid()
      ensures started <==> activeIndex == 2 && !CheckStatus(2, u)
      ensures started ==> && Present(u.level) && Present(u.displayVideo) && Present(u.duration)
                          && u.noOfChapters.Some? && 1 <= u.noOfChapters.value <= 20
    {
      started := activeIndex == 2 && !CheckStatus(2, u);
    }
  }

  const BasicPrompt: string :=
    "Generate A Course Tutorial on Following Details With field as Course Name, Description, Along with Chapter Name, about, Duration :\n"

  /** The number as string concatenation renders it, "undefined" when absent. */
  function CountText(n: Option<int>): string {
    if n.Some? then IntToString(n.value) else "undefined"
  }

  const FormatRequest: string := ", in JSON format"

  /** The answers in their fixed order after the labels. */
  function UserInputPrompt(u: CourseInput): string {
    "Category: " + ConcatText(u.category) + ", Topic: " + ConcatText(u.topic)
    + ", Level: " + ConcatText(u.level) + ", Duration: " + ConcatText(u.duration)
    + ", NoOfChapters: " + CountText(u.noOfChapters) + FormatRequest
  }

  /** `FINAL_PROMPT`: the fixed instruction, then the answers. */
  function CoursePrompt(u: CourseInput): (r: string)
    ensures |r| > |BasicPrompt| && r[..|BasicPrompt|] == BasicPrompt
    ensures r[|BasicPrompt|..] == UserInputPrompt(u)
  {
    BasicPrompt + UserInputPrompt(u)
  }

  /** The prompt always passes the layout endpoint's prompt check: it is a string
      and it is not blank. */
  lemma WizardPromptUsable(u: CourseInput)
    ensures UsablePrompt(Field(Obj(map["prompt" := Str(CoursePrompt(u))]), "prompt"))
  {
    var p := CoursePrompt(u);
    var q := UserInputPrompt(u);
    assert q[|q| - 1] == FormatRequest[|FormatRequest| - 1] == 't';
    assert p[|p| - 1] == q[|q| - 1] by { assert p[|BasicPrompt|..] == q; }
    assert !AllSpace(p) by { assert !IsJsSpace(p[|p| - 1]); }
    TrimEmptyIffAllSpace(p);
    var body := Obj(map["prompt" := Str(p)]);
    assert Field(body, "prompt") == Str(p);
  }

  /** The layout check before saving: the response has a truthy CourseName, truthy
      Chapters, and `Chapters.length` is not the number 0 (`=== 0`). */
  predicate AcceptableLayout(data: JsValue) {
    && Truthy(data)
    && Truthy(Field(data, "CourseName"))
    && Truthy(Field(data, "Chapters"))
    && Length(Field(data, "Chapters")) != Num(0)
  }

  /** A `Chapters` object whose own "length" key is 0 is refused, like an empty
      array; an object without that key has `length` undefined and passes. */
  lemma ChaptersLengthKeyRefused(name: string, chapters: map<string, JsValue>)
    requires name != ""
    ensures "length" in chapters && chapters["length"] == Num(0)
            ==> !AcceptableLayout(Obj(map["CourseName" := Str(name), "Chapters" := Obj(chapters)]))
    ensures "length" !in chapters
            ==> AcceptableLayout(Obj(map["CourseName" := Str(name), "Chapters" := Obj(chapters)]))
  {
    var data := Obj(map["CourseName" := Str(name), "Chapters" := Obj(chapters)]);
    assert Field(data, "CourseName") == Str(name);
    assert Field(data, "Chapters") == Obj(chapters);
  }

  /** An outline with a string CourseName that is not all whitespace and at least
      one chapter, sent as JSON, passes the client's check. */
  lemma OutlineAcceptable(o: Outline)
    requires o.courseName.Str? && !AllSpace(o.courseName.s) && |o.chapters| >= 1
    ensures AcceptableLayout(OutlineJson(o))
  {
    var json := OutlineJson(o);
    assert Field(json, "CourseName") == o.courseName;
    assert Field(json, "Chapters").Arr? && |Field(json, "Chapters").items| == |o.chapters|;
  }

  /** Every outline the layout endpoint answers 200 with passes the client's check. */
  lemma GeneratedOutlineAcceptable(auth: ApiSecurity.AuthState, body: RequestBody, apiKey: Option<string>,
                                   upstream: string -> UpstreamReply, parse: string -> Option<JsValue>)
    requires LayoutPost(auth, body, apiKey, upstream, parse).reply.Generated?
    ensures AcceptableLayout(OutlineJson(LayoutPost(auth, body, apiKey, upstream, parse).reply.outline))
  {
    GeneratedIsNormalized(auth, body, apiKey, upstream, parse);
    TrimEmptyIffAllSpace(LayoutPost(auth, body, apiKey, upstream, parse).reply.outline.courseName.s);
    OutlineAcceptable(LayoutPost(auth, body, apiKey, upstream, parse).reply.outline);
  }

  /** The signed-in user as the client sees it. */
  datatype ClientUser = ClientUser(email: Option<string>, fullName: Option<string>, imageUrl: Option<string>)

  /** An HTTP reply as the client reads it: `res.ok`, and the body if it is JSON. */
  datatype Reply = Reply(ok: bool, json: Option<JsValue>)

  /** What the flow did: the prompt it sent for a layout, the course it asked to
      save, and where it navigated. */
  datatype WizardOutcome = WizardOutcome(layoutPrompt: Option<string>, saved: Option<CourseBody>, navigatedTo: Option<string>)

  /** The body of the save request for layout `data` under the fresh id. */
  function SaveBody(u: CourseInput, user: Option<ClientUser>, id: string, data: JsValue): CourseBody {
    CourseBody(
      Some(id), u.topic, u.level, u.category, data,
      if user.Some? then user.value.email else None,
      if user.Some? then user.value.fullName else None,
      u.displayVideo,
      if user.Some? then user.value.imageUrl else None)
  }

  /** `GenerateCourseLayout` followed by `SaveCourseLayoutInDB`, with the layout
      endpoint, the courses endpoint and the uuid as inputs. Every failure ends the
      flow with a message and without navigation. */
  function GenerateCourseLayout(u: CourseInput, user: Option<ClientUser>, id: string,
                                layout: string -> Reply, save: CourseBody -> Reply): (r: WizardOutcome)
    ensures r.layoutPrompt.Some? <==> Present(u.category) && Present(u.topic)
    ensures r.layoutPrompt.Some? ==> r.layoutPrompt.value == CoursePrompt(u)
    ensures r.saved.Some? ==>
              && r.layoutPrompt.Some?
              && var answer := layout(CoursePrompt(u));
              && answer.ok && answer.json.Some? && AcceptableLayout(answer.json.value)
              && r.saved.value == SaveBody(u, user, id, answer.json.value)
    ensures (&& Present(u.category) && Present(u.topic)
             && var answer := layout(CoursePrompt(u));
             answer.ok && answer.json.Some? && AcceptableLayout(answer.json.value))
            ==> r.saved == Some(SaveBody(u, user, id, layout(CoursePrompt(u)).json.value))
    ensures r.navigatedTo.Some? <==>
              && r.saved.Some?
              && var stored := save(r.saved.value);
              && stored.ok && stored.json.Some? && Truthy(stored.json.value)
              && Truthy(Field(stored.json.value, "courseId"))
    ensures r.navigatedTo.Some? ==> r.navigatedTo.value == "/create-course/" + id
  {
    if !Present(u.category) || !Present(u.topic) then WizardOutcome(None, None, None)
    else
      var prompt := CoursePrompt(u);
      var answer := layout(prompt);
      if !answer.ok || answer.json.None? || !AcceptableLayout(answer.json.value) then
        WizardOutcome(Some(prompt), None, None)
      else
        var request := SaveBody(u, user, id, answer.json.value);
        var stored := save(request);
        if stored.ok && stored.json.Some? && Truthy(stored.json.value) && Truthy(Field(stored.json.value, "courseId"))
        then WizardOutcome(Some(prompt), Some(request), Some("/create-course/" + id))
        else WizardOutcome(Some(prompt), Some(request), None)
  }

  /** A save request passes the courses endpoint's required-field check exactly
      when the topic, level and category were answered, the user has an email
      address, and the uuid is not empty; the layout itself always passes. */
  lemma SaveBodyAcceptedIff(u: CourseInput, user: Option<ClientUser>, id: string, data: JsValue)
    requires AcceptableLayout(data)
    ensures HasRequiredFields(SaveBody(u, user, id, data))
            <==> id != "" && Present(u.topic) && Present(u.level) && Present(u.category)
                 && user.Some? && Present(user.value.email)
  {
  }

  /** The saved course is owned by the signed-in user's email address, and the
      video choice falls back to "Yes" on the server when it was not made. */
  lemma SavedCourseOwnedByUser(u: CourseInput, user: ClientUser, id: string, data: JsValue, serial: int)
    requires HasRequiredFields(SaveBody(u, Some(user), id, data))
    ensures NewCourse(SaveBody(u, Some(user), id, data), serial).createdBy == user.email.value
    ensures NewCourse(SaveBody(u, Some(user), id, data), serial).courseId == id
    ensures !Present(u.displayVideo) ==> NewCourse(SaveBody(u, Some(user), id, data), serial).includeVideo == "Yes"
  {
  }
}
