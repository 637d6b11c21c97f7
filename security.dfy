/** The ownership and visibility gate shared by the API handlers: who is calling,
    whether the caller owns a course, whether a course is published. The identity
    provider and the CourseList store are inputs: what the provider answers, and
    whether a store lookup fails (a failure collapses to the negative answer). */
module ApiSecurity {
  import opened Js
  import opened Schema

  /** What the provider's `currentUser()` yields for a signed-in session. */
  datatype UserLookup = UserThrows | NoUser | User(email: Option<string>)

  /** What the provider's `auth()` yields. A session whose userId is "" counts as
      no session, as `!userId` does. */
  datatype AuthState = Anonymous | AuthThrows | Session(userId: string, user: UserLookup)

  /** The caller `verifyAuth` reports: a user id and a possibly absent email. */
  datatype Identity = Identity(userId: string, email: Option<string>)

  datatype Ownership = Ownership(authorized: bool, course: Option<Course>)

  datatype AuthOwnership = AuthOwnership(authorized: bool, course: Option<Course>, user: Option<Identity>)

  /** `verifyAuth`: no caller when there is no session, the session has no user id,
      or the provider throws; otherwise the user id with the primary email, if any. */
  function VerifyAuth(a: AuthState): (r: Option<Identity>)
    ensures r.None? <==> (a.Session? ==> a.userId == "" || a.user.UserThrows?)
    ensures r.Some? ==> r.value.userId == a.userId && r.value.userId != ""
    ensures r.Some? && a.user.User? ==> r.value.email == a.user.email
    ensures r.Some? && a.user.NoUser? ==> r.value.email == None
  {
    match a
    case Anonymous => None
    case AuthThrows => None
    case Session(userId, user) =>
      if userId == "" then None
      else match user
        case UserThrows => None
        case NoUser => Some(Identity(userId, None))
        case User(email) => Some(Identity(userId, email))
  }

  /** `verifyCourseOwnership`: an empty course id or a missing email answers "no"
      without a lookup; an unknown course or a failed lookup answers "no" with no
      course; an existing course is returned, and owned exactly when its creator is
      the given email. */
  function VerifyCourseOwnership(table: seq<Course>, lookupFails: bool, courseId: string, email: Option<string>): (r: Ownership)
    ensures r.authorized ==> r.course.Some?
    ensures (courseId == "" || !Present(email) || lookupFails) ==> r == Ownership(false, None)
    ensures !(courseId == "" || !Present(email) || lookupFails) ==>
              r.course == FindCourse(table, courseId)
              && (r.authorized <==> r.course.Some? && r.course.value.createdBy == email.value)
  {
    if courseId == "" || !Present(email) then Ownership(false, None)
    else if lookupFails then Ownership(false, None)
    else match FindCourse(table, courseId)
      case None => Ownership(false, None)
      case Some(c) => Ownership(c.createdBy == email.value, Some(c))
  }

  /** `verifyAuthAndOwnership`: no caller gives {false, null, null}; otherwise the
      ownership answer for the caller's email, with the caller attached. */
  function VerifyAuthAndOwnership(a: AuthState, table: seq<Course>, lookupFails: bool, courseId: string): (r: AuthOwnership)
    ensures r.authorized ==> r.user.Some? && r.course.Some?
    ensures VerifyAuth(a).None? ==> r == AuthOwnership(false, None, None)
    ensures VerifyAuth(a).Some? ==>
              var o := VerifyCourseOwnership(table, lookupFails, courseId, VerifyAuth(a).value.email);
              r == AuthOwnership(o.authorized, o.course, VerifyAuth(a))
  {
    match VerifyAuth(a)
    case None => AuthOwnership(false, None, None)
    case Some(caller) =>
      var o := VerifyCourseOwnership(table, lookupFails, courseId, caller.email);
      AuthOwnership(o.authorized, o.course, Some(caller))
  }

  /** `isCoursePublished`: the first row with that course id exists and its publish
      flag is set; false for an unknown course and for a failed lookup. */
  function IsCoursePublished(table: seq<Course>, lookupFails: bool, courseId: string): (r: bool)
    ensures r <==> !lookupFails && FindCourse(table, courseId).Some? && FindCourse(table, courseId).value.publish
  {
    if lookupFails then false
    else match FindCourse(table, courseId)
      case None => false
      case Some(c) => c.publish
  }

  /** An existing course owned by someone else is told apart from an unknown one:
      both are refused, but only the first comes back with its row. */
  lemma ForbiddenIsNotNotFound(table: seq<Course>, courseId: string, email: string, k: nat)
    requires courseId != "" && email != ""
    requires k < |table| && table[k].courseId == courseId
    ensures VerifyCourseOwnership(table, false, courseId, Some(email)).course.Some?
    ensures VerifyCourseOwnership(table, false, courseId, Some(email)).authorized
            <==> FindCourse(table, courseId).value.createdBy == email
  {
  }

  /** An unknown course id is refused with no course. */
  lemma UnknownCourseNotFound(table: seq<Course>, lookupFails: bool, courseId: string, email: Option<string>)
    requires forall k :: 0 <= k < |table| ==> table[k].courseId != courseId
    ensures VerifyCourseOwnership(table, lookupFails, courseId, email) == Ownership(false, None)
  {
  }

  /** A signed-in caller without an email address owns nothing. */
  lemma NoEmailNeverAuthorized(a: AuthState, table: seq<Course>, lookupFails: bool, courseId: string)
    requires a.Session? && (a.user.NoUser? || (a.user.User? && !Present(a.user.email)))
    ensures !VerifyAuthAndOwnership(a, table, lookupFails, courseId).authorized
  {
  }

  /** The rows published by this table: the first row of each course id decides. */
  lemma PublishedIffFirstRowPublished(table: seq<Course>, courseId: string, k: nat)
    requires k < |table| && table[k].courseId == courseId
    requires forall j :: 0 <= j < k ==> table[j].courseId != courseId
    ensures IsCoursePublished(table, false, courseId) <==> table[k].publish
  {
    var r := FindCourse(table, courseId);
    var m :| 0 <= m < |table| && table[m] == r.value && r.value.courseId == courseId
             && forall j :: 0 <= j < m ==> table[j].courseId != courseId;
    assert m == k;
  }
}
