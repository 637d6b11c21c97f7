/** /api/chapters: reading the chapters of a course under the visibility policy
    (published courses are open, unpublished ones only to their owner), and
    adding a chapter to a course the caller owns. The Chapters table is a store
    whose rows the POST handler appends to; store failures are inputs. */
module ChaptersApi {
  import opened Js
  import opened Schema
  import opened ApiSecurity

  /** The query string: each parameter is absent (`searchParams.get` gives null)
      or present, possibly as "". */
  datatype ChapterQuery = ChapterQuery(courseId: Option<string>, chapterId: Option<string>)

  datatype ChaptersReply = Rows(rows: seq<Chapter>) | Refused(status: int)

  /** The row filter: the requested course, and the requested chapter when a
      `chapterId` parameter is present at all (even as ""). */
  predicate Selected(c: Chapter, courseId: string, chapterId: Option<string>) {
    c.courseId == courseId && (chapterId.Some? ==> c.chapterId == chapterId.value)
  }

  /** `select … where …`: the matching rows, in table order. */
  function SelectChapters(table: seq<Chapter>, courseId: string, chapterId: Option<string>): (r: seq<Chapter>)
    ensures |r| <= |table|
    ensures forall c :: c in r <==> c in table && Selected(c, courseId, chapterId)
    ensures forall c :: multiset(r)[c] == if Selected(c, courseId, chapterId) then multiset(table)[c] else 0
  {
    if table == [] then []
    else
      var rest := SelectChapters(table[1..], courseId, chapterId);
      assert table == [table[0]] + table[1..];
      assert forall c :: c in table <==> c == table[0] || c in table[1..];
      assert multiset(table) == multiset{table[0]} + multiset(table[1..]);
      if Selected(table[0], courseId, chapterId) then [table[0]] + rest else rest
  }

  /** The read-access decision: a published course is open to anyone; an
      unpublished one only to a signed-in caller who owns it. */
  predicate MayRead(auth: AuthState, courses: seq<Course>, publishLookupFails: bool,
                    ownerLookupFails: bool, courseId: string)
  {
    || IsCoursePublished(courses, publishLookupFails, courseId)
    || (VerifyAuth(auth).Some?
        && VerifyCourseOwnership(courses, ownerLookupFails, courseId, VerifyAuth(auth).value.email).authorized)
  }

  /** GET /api/chapters?courseId=…[&chapterId=…]. The two lookups of the course
      table and the chapter query may each fail; the lookups fail closed, a failed
      chapter query answers 500. */
  function GetChapters(q: ChapterQuery, auth: AuthState, courses: seq<Course>, chapters: seq<Chapter>,
                       publishLookupFails: bool, ownerLookupFails: bool, queryFails: bool): (r: ChaptersReply)
    ensures !Present(q.courseId) ==> r == Refused(400)
    ensures Present(q.courseId) ==>
              (r.Rows? <==> MayRead(auth, courses, publishLookupFails, ownerLookupFails, q.courseId.value) && !queryFails)
    ensures Present(q.courseId) && !MayRead(auth, courses, publishLookupFails, ownerLookupFails, q.courseId.value)
            ==> r == Refused(403)
    ensures Present(q.courseId) && queryFails
            && MayRead(auth, courses, publishLookupFails, ownerLookupFails, q.courseId.value)
            ==> r == Refused(500)
    ensures r.Rows? ==> forall c :: c in r.rows <==> c in chapters && Selected(c, q.courseId.value, q.chapterId)
  {
    if !Present(q.courseId) then Refused(400)
    else
      var courseId := q.courseId.value;
      var caller := VerifyAuth(auth);
      var published := IsCoursePublished(courses, publishLookupFails, courseId);
      if !published && caller.Some? && !VerifyCourseOwnership(courses, ownerLookupFails, courseId, caller.value.email).authorized
      then Refused(403)
      else if !published && caller.None? then Refused(403)
      else if queryFails then Refused(500)
      else Rows(SelectChapters(chapters, courseId, q.chapterId))
  }

  /** A published course's chapters are served to every caller, signed in or not,
      owner or not. */
  lemma PublishedOpenToAnyone(q: ChapterQuery, auth: AuthState, courses: seq<Course>, chapters: seq<Chapter>,
                              ownerLookupFails: bool)
    requires Present(q.courseId) && IsCoursePublished(courses, false, q.courseId.value)
    ensures GetChapters(q, auth, courses, chapters, false, ownerLookupFails, false)
            == Rows(SelectChapters(chapters, q.courseId.value, q.chapterId))
  {
  }

  /** An unpublished course is refused to an anonymous caller, and to a signed-in
      caller who does not own it; its owner reads it. */
  lemma UnpublishedOwnerOnly(q: ChapterQuery, auth: AuthState, courses: seq<Course>, chapters: seq<Chapter>)
    requires Present(q.courseId) && !IsCoursePublished(courses, false, q.courseId.value)
    ensures VerifyAuth(auth).None? ==> GetChapters(q, auth, courses, chapters, false, false, false) == Refused(403)
    ensures VerifyAuth(auth).Some? ==>
              var owned := FindCourse(courses, q.courseId.value);
              (GetChapters(q, auth, courses, chapters, false, false, false).Rows?
               <==> owned.Some? && Present(VerifyAuth(auth).value.email)
                    && owned.value.createdBy == VerifyAuth(auth).value.email.value)
  {
  }

  /** A present but empty `chapterId` still filters: only rows whose chapterId is
      "" come back. */
  lemma EmptyChapterIdStillFilters(table: seq<Chapter>, courseId: string, c: Chapter)
    requires c in SelectChapters(table, courseId, Some(""))
    ensures c.chapterId == "" && c.courseId == courseId
  {
  }

  /** The fields of a POST body after destructuring. The text column courseId is
      absent or a string; the others are any JSON value, `Undefined` when the key
      is missing. */
  datatype ChapterBody = ChapterBody(courseId: Option<string>, chapterId: JsValue, content: JsValue, videoId: JsValue)

  /** The row a successful POST inserts. */
  function NewChapter(b: ChapterBody): (r: Chapter)
    requires b.courseId.Some?
    ensures r.courseId == b.courseId.value && r.content == b.content
    ensures r.chapterId == ToJsString(b.chapterId)
    ensures Truthy(b.videoId) ==> r.videoId == b.videoId
    ensures !Truthy(b.videoId) ==> r.videoId == Arr([])
  {
    Chapter(b.courseId.value, ToJsString(b.chapterId), b.content, Or(b.videoId, Arr([])))
  }

  /** The status of POST /api/chapters. `body` is None when the request body is not
      JSON or is `null` (destructuring throws): both end in the catch-all 500. */
  function PostStatus(auth: AuthState, body: Option<ChapterBody>, courses: seq<Course>,
                      ownerLookupFails: bool, insertFails: bool): (status: int)
    ensures status in {201, 400, 401, 403, 500}
    ensures VerifyAuth(auth).None? <==> status == 401
    ensures status == 400 <==>
              VerifyAuth(auth).Some? && body.Some?
              && (!Present(body.value.courseId) || body.value.chapterId.Undefined? || !Truthy(body.value.content))
    ensures status == 403 <==>
              VerifyAuth(auth).Some? && body.Some? && Present(body.value.courseId)
              && !body.value.chapterId.Undefined? && Truthy(body.value.content)
              && !VerifyCourseOwnership(courses, ownerLookupFails, body.value.courseId.value, VerifyAuth(auth).value.email).authorized
    ensures status == 201 <==>
              VerifyAuth(auth).Some? && body.Some? && Present(body.value.courseId)
              && !body.value.chapterId.Undefined? && Truthy(body.value.content)
              && VerifyCourseOwnership(courses, ownerLookupFails, body.value.courseId.value, VerifyAuth(auth).value.email).authorized
              && !insertFails
  {
    var caller := VerifyAuth(auth);
    if caller.None? then 401
    else if body.None? then 500
    else
      var b := body.value;
      if !Present(b.courseId) || b.chapterId.Undefined? || !Truthy(b.content) then 400
      else if !VerifyCourseOwnership(courses, ownerLookupFails, b.courseId.value, caller.value.email).authorized then 403
      else if insertFails then 500
      else 201
  }

  /** A numeric chapter position 0 is accepted (only `undefined` is refused) and is
      stored as the text "0". */
  lemma ChapterZeroAccepted(b: ChapterBody)
    requires b.courseId.Some? && b.chapterId == Num(0)
    ensures !b.chapterId.Undefined?
    ensures NewChapter(b).chapterId == "0"
  {
  }

  /** The Chapters table. */
  class ChapterStore {
    var rows: seq<Chapter>

    constructor(initial: seq<Chapter>)
      ensures rows == initial
    {
      rows := initial;
    }

    /** POST /api/chapters: appends exactly the new row on 201 and leaves the table
        as it was on every other status. */
    method Post(auth: AuthState, body: Option<ChapterBody>, courses: seq<Course>,
                ownerLookupFails: bool, insertFails: bool)
      returns (status: int, created: Option<Chapter>)
      modifies this
      ensures status == PostStatus(auth, body, courses, ownerLookupFails, insertFails)
      ensures status == 201 ==> created == Some(NewChapter(body.value)) && rows == old(rows) + [created.value]
      ensures status != 201 ==> created == None && rows == old(rows)
    {
      status := PostStatus(auth, body, courses, ownerLookupFails, insertFails);
      if status != 201 {
        return status, None;
      }
      var row := NewChapter(body.value);
      rows := rows + [row];
      created := Some(row);
    }
  }
}
