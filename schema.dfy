/** The two tables the handlers read and write: CourseList and Chapters, with the
    columns the handlers set, and the `where courseId = … limit 1` lookup. */
module Schema {
  import opened Js

  /** A CourseList row. `id` is the serial key the course listing orders by. */
  datatype Course = Course(
    id: int,
    courseId: string,
    name: string,
    level: string,
    category: string,
    courseOutput: JsValue,
    createdBy: string,
    userName: Option<string>,
    includeVideo: string,
    userProfileImage: Option<string>,
    courseBanner: string,
    publish: bool)

  /** A Chapters row: `chapterId` is the chapter's position, stored as text. */
  datatype Chapter = Chapter(courseId: string, chapterId: string, content: JsValue, videoId: JsValue)

  /** `select … where courseId = id limit 1`: the first row, in table order, whose
      courseId is `id`. */
  function FindCourse(table: seq<Course>, id: string): (r: Option<Course>)
    ensures r.None? <==> forall k :: 0 <= k < |table| ==> table[k].courseId != id
    ensures r.Some? ==> exists k :: 0 <= k < |table| && table[k] == r.value && r.value.courseId == id
                                    && forall j :: 0 <= j < k ==> table[j].courseId != id
  {
    if table == [] then None
    else if table[0].courseId == id then Some(table[0])
    else
      var r := FindCourse(table[1..], id);
      assert forall k :: 1 <= k < |table| ==> table[k] == table[1..][k - 1];
      r
  }
}
