/** /api/courses: listing courses under optional equality filters, newest first,
    and creating a course row with its fixed defaults. The CourseList table is a
    store with a serial id; store failures are inputs. */
module CoursesApi {
  import opened Js
  import opened Schema
  import opened ApiSecurity

  /** The query string of GET /api/courses: each parameter absent or present. */
  datatype CourseQuery = CourseQuery(createdBy: Option<string>, publish: Option<string>, courseId: Option<string>)

  /** One `eq(column, value)` condition. */
  datatype Condition = CourseIdIs(courseId: string) | CreatedByIs(email: string) | PublishIs(published: bool)

  predicate Holds(cond: Condition, c: Course) {
    match cond
    case CourseIdIs(id) => c.courseId == id
    case CreatedByIs(email) => c.createdBy == email
    case PublishIs(p) => c.publish == p
  }

  /** `and(...conditions)`; a single condition, or none, reads the same way. */
  predicate HoldsAll(conds: seq<Condition>, c: Course) {
    forall k :: 0 <= k < |conds| ==> Holds(conds[k], c)
  }

  /** What the query string asks for, read directly off the parameters: a truthy
      courseId or createdBy must match; a present publish parameter selects
      published rows when it is "true" and unpublished rows otherwise. */
  predicate Wanted(q: CourseQuery, c: Course) {
    && (Present(q.courseId) ==> c.courseId == q.courseId.value)
    && (Present(q.createdBy) ==> c.createdBy == q.createdBy.value)
    && (q.publish.Some? ==> c.publish == (q.publish.value == "true"))
  }

  /** Ids strictly increase along the table, as a serial column's do. */
  predicate IdsIncreasing(rows: seq<Course>) {
    forall i, j :: 0 <= i < j < |rows| ==> rows[i].id < rows[j].id
  }

  predicate IdsDecreasing(rows: seq<Course>) {
    forall i, j :: 0 <= i < j < |rows| ==> rows[i].id > rows[j].id
  }

  /** The rows that satisfy `conds`, newest (last inserted) first. */
  function NewestFirst(rows: seq<Course>, conds: seq<Condition>): (r: seq<Course>)
    ensures forall c :: c in r <==> c in rows && HoldsAll(conds, c)
  {
    if rows == [] then []
    else
      var init, last := rows[..|rows| - 1], rows[|rows| - 1];
      assert rows == init + [last];
      var rest := NewestFirst(init, conds);
      if HoldsAll(conds, last) then [last] + rest else rest
  }

  /** Over a table whose ids increase, the listing's ids strictly decrease. */
  lemma {:induction false} NewestFirstDecreasing(rows: seq<Course>, conds: seq<Condition>)
    requires IdsIncreasing(rows)
    ensures IdsDecreasing(NewestFirst(rows, conds))
  {
    if rows != [] {
      var init, last := rows[..|rows| - 1], rows[|rows| - 1];
      assert IdsIncreasing(init) by {
        forall i, j | 0 <= i < j < |init| ensures init[i].id < init[j].id {
          assert init[i] == rows[i] && init[j] == rows[j];
        }
      }
      NewestFirstDecreasing(init, conds);
      var rest := NewestFirst(init, conds);
      if HoldsAll(conds, last) {
        forall c | c in rest ensures c.id < last.id {
          var k :| 0 <= k < |init| && init[k] == c;
          assert rows[k] == c;
        }
        var r := [last] + rest;
        assert NewestFirst(rows, conds) == r;
        forall i, j | 0 <= i < j < |r| ensures r[i].id > r[j].id {
          assert r[j] == rest[j - 1];
          if i > 0 {
            assert r[i] == rest[i - 1];
          }
        }
      }
    }
  }

  /** With no condition every row is listed, in reverse insertion order. */
  lemma {:induction false} NoConditionsListsAll(rows: seq<Course>)
    ensures |NewestFirst(rows, [])| == |rows|
    ensures forall i :: 0 <= i < |rows| ==> NewestFirst(rows, [])[i] == rows[|rows| - 1 - i]
  {
    if rows != [] {
      var init, last := rows[..|rows| - 1], rows[|rows| - 1];
      NoConditionsListsAll(init);
      var rest := NewestFirst(init, []);
      assert HoldsAll([], last);
      var r := NewestFirst(rows, []);
      assert r == [last] + rest;
      forall i | 0 <= i < |rows| ensures r[i] == rows[|rows| - 1 - i] {
        if i > 0 {
          assert r[i] == rest[i - 1] == init[|init| - 1 - (i - 1)];
        }
      }
    }
  }

  /** The fields of a POST body after destructuring: text columns absent or a
      string, the outline any JSON value. */
  datatype CourseBody = CourseBody(
    courseId: Option<string>,
    name: Option<string>,
    level: Option<string>,
    category: Option<string>,
    courseOutput: JsValue,
    createdBy: Option<string>,
    userName: Option<string>,
    includeVideo: Option<string>,
    userProfileImage: Option<string>)

  /** The six fields the handler insists on, tested with `!x`. */
  predicate HasRequiredFields(b: CourseBody) {
    && Present(b.courseId) && Present(b.name) && Present(b.level) && Present(b.category)
    && Truthy(b.courseOutput) && Present(b.createdBy)
  }

  /** The row a successful POST inserts under serial id `id`: every column copied
      from the body, including `createdBy`, with the fixed defaults. */
  function NewCourse(b: CourseBody, id: int): (r: Course)
    requires HasRequiredFields(b)
    ensures r.id == id && !r.publish && r.courseBanner == "/placeholder.png"
    ensures r.includeVideo == (if Present(b.includeVideo) then b.includeVideo.value else "Yes")
    ensures r.courseId == b.courseId.value && r.name == b.name.value && r.level == b.level.value
    ensures r.category == b.category.value && r.courseOutput == b.courseOutput
    ensures r.createdBy == b.createdBy.value
    ensures r.userName == b.userName && r.userProfileImage == b.userProfileImage
  {
    Course(id, b.courseId.value, b.name.value, b.level.value, b.category.value, b.courseOutput,
           b.createdBy.value, b.userName,
           if Present(b.includeVideo) then b.includeVideo.value else "Yes",
           b.userProfileImage, "/placeholder.png", false)
  }

  /** The status of POST /api/courses. Only the session's user id is consulted
      (not the user record), and a provider error is caught as a 500. `body` is
      None when the request body is not JSON or is `null`. */
  function CreateStatus(auth: AuthState, body: Option<CourseBody>, insertFails: bool): (status: int)
    ensures status in {201, 400, 401, 500}
    ensures status == 401 <==> auth.Anonymous? || (auth.Session? && auth.userId == "")
    ensures status == 400 <==> auth.Session? && auth.userId != "" && body.Some? && !HasRequiredFields(body.value)
    ensures status == 201 <==> auth.Session? && auth.userId != "" && body.Some? && HasRequiredFields(body.value) && !insertFails
  {
    match auth
    case AuthThrows => 500
    case Anonymous => 401
    case Session(userId, _) =>
      if userId == "" then 401
      else if body.None? then 500
      else if !HasRequiredFields(body.value) then 400
      else if insertFails then 500
      else 201
  }

  /** Unlike the ownership-checked handlers, course creation does not need the
      caller's user record: a session whose user lookup fails still creates. */
  lemma CreateNeedsOnlySession(userId: string, body: CourseBody)
    requires userId != "" && HasRequiredFields(body)
    ensures CreateStatus(Session(userId, UserThrows), Some(body), false) == 201
    ensures VerifyAuth(Session(userId, UserThrows)).None?
  {
  }

  /** A newly appended row that passes the filters heads the listing. */
  lemma NewRowListedFirst(rows: seq<Course>, c: Course, conds: seq<Condition>)
    requires HoldsAll(conds, c)
    ensures NewestFirst(rows + [c], conds) == [c] + NewestFirst(rows, conds)
  {
    var all := rows + [c];
    assert all[..|all| - 1] == rows;
  }

  datatype ListReply = Listed(courses: seq<Course>) | ListFailed(status: int)

  /** The CourseList table, with the next value of its serial `id`. */
  class CourseStore {
    var rows: seq<Course>
    var nextId: int

    /** The serial column hands out increasing ids, all below `nextId`. */
    predicate Valid()
      reads this
    {
      IdsIncreasing(rows) && forall i :: 0 <= i < |rows| ==> rows[i].id < nextId
    }

    constructor()
      ensures Valid() && rows == [] && nextId == 1
    {
      rows := [];
      nextId := 1;
    }

    /** GET /api/courses: collects one condition per given filter, applies them
        together and orders by id descending. A failed query answers 500. */
    method List(q: CourseQuery, queryFails: bool) returns (r: ListReply)
      requires Valid()
      ensures queryFails <==> r == ListFailed(500)
      ensures r.Listed? ==> forall c :: c in r.courses <==> c in rows && Wanted(q, c)
      ensures r.Listed? ==> IdsDecreasing(r.courses)
    {
      var conditions: seq<Condition> := [];
      if Present(q.courseId) {
        conditions := conditions + [CourseIdIs(q.courseId.value)];
      }
      if Present(q.createdBy) {
        conditions := conditions + [CreatedByIs(q.createdBy.value)];
      }
      if q.publish.Some? {
        var isPublished := q.publish.value == "true";
        conditions := conditions + [PublishIs(isPublished)];
      }
      forall c: Course
        ensures HoldsAll(conditions, c) <==> Wanted(q, c)
      {
        if !Wanted(q, c) {
          var k :| 0 <= k < |conditions| && !Holds(conditions[k], c) by {
            var p := if Present(q.courseId) then 1 else 0;
            var m := p + if Present(q.createdBy) then 1 else 0;
            if Present(q.courseId) && c.courseId != q.courseId.value {
              assert !Holds(conditions[0], c);
            } else if Present(q.createdBy) && c.createdBy != q.createdBy.value {
              assert !Holds(conditions[p], c);
            } else {
              assert !Holds(conditions[m], c);
            }
          }
        }
      }
      if queryFails {
        return ListFailed(500);
      }
      NewestFirstDecreasing(rows, conditions);
      return Listed(NewestFirst(rows, conditions));
    }

    /** POST /api/courses: on 201 exactly one row is appended, under the next serial
        id; on every other status the table is as it was. */
    method Create(auth: AuthState, body: Option<CourseBody>, insertFails: bool)
      returns (status: int, created: Option<Course>)
      requires Valid()
      modifies this
      ensures Valid()
      ensures status == CreateStatus(auth, body, insertFails)
      ensures status == 201 ==> created == Some(NewCourse(body.value, old(nextId)))
                                && rows == old(rows) + [created.value] && nextId == old(nextId) + 1
      ensures status != 201 ==> created == None && rows == old(rows) && nextId == old(nextId)
    {
      status := CreateStatus(auth, body, insertFails);
      if status != 201 {
        return status, None;
      }
      var row := NewCourse(body.value, nextId);
      rows := rows + [row];
      nextId := nextId + 1;
      created := Some(row);
    }
  }
}
