/** The route-protection decision of the middleware: for a request's method and
    pathname, whether the middleware runs at all (its `config.matcher`) and, if it
    does, whether the identity provider's `protect()` is invoked, which sends a
    signed-out caller to sign in. Route patterns ending in `(.*)` match every
    pathname with that prefix; "/api/course/layout" matches only itself. */
module Middleware {
  import opened Text

  /** The extensions of the first matcher pattern, each as the shortest text its
      alternative matches (the pattern has no end anchor after them, so `html?`
      matches wherever "htm" does, `woff2?` wherever "woff" does, and so on).
      `js(?!on)` is handled on its own. */
  const StaticExtensions: seq<string> :=
    ["htm", "css", "jpg", "jpeg", "webp", "png", "gif", "svg", "ttf", "woff", "ico",
     "csv", "doc", "xls", "zip", "webmanifest"]

  /** A dot at offset `i` of `rest` followed by one of the static-file extensions. */
  predicate StaticDotAt(rest: string, i: int) {
    && 0 <= i < |rest| && rest[i] == '.'
    && (|| (exists k :: 0 <= k < |StaticExtensions| && StartsWith(rest[i + 1..], StaticExtensions[k]))
        || (StartsWith(rest[i + 1..], "js") && !StartsWith(rest[i + 3..], "on")))
  }

  /** `[^?]*\.(?:…)` matches at the start of `rest`: a static-file dot occurs
      before any '?'. */
  predicate LooksStatic(rest: string) {
    exists i :: 0 <= i < |rest| && StaticDotAt(rest, i) && (forall k :: 0 <= k < i ==> rest[k] != '?')
  }

  /** `config.matcher`: the first pattern admits "/" followed by anything that
      neither starts with "_next" nor looks like a static file; the second admits
      every pathname under "/api" or "/trpc". */
  predicate MiddlewareRuns(path: string) {
    || (|path| >= 1 && path[0] == '/' && !StartsWith(path[1..], "_next") && !LooksStatic(path[1..]))
    || StartsWith(path, "/api") || StartsWith(path, "/trpc")
  }

  /** `/dashboard(.*)` or `/create-course(.*)`. */
  predicate IsProtectedRoute(path: string) {
    StartsWith(path, "/dashboard") || StartsWith(path, "/create-course")
  }

  /** `/api/courses(.*)`, `/api/chapters(.*)` or exactly `/api/course/layout`. */
  predicate IsProtectedApiRoute(path: string) {
    StartsWith(path, "/api/courses") || StartsWith(path, "/api/chapters") || path == "/api/course/layout"
  }

  /** A GET whose pathname contains "/api/courses/" or "/api/chapters". */
  predicate IsPublicCourseGet(verb: string, path: string) {
    verb == "GET" && (Contains(path, "/api/courses/") || Contains(path, "/api/chapters"))
  }

  /** Whether `protect()` is called (at least once) for this request: the
      middleware runs, and then the callback's page rule or API rule applies. */
  function ProtectInvoked(verb: string, path: string): (r: bool)
    ensures r <==> MiddlewareRuns(path)
                   && (IsProtectedRoute(path) || (IsProtectedApiRoute(path) && !IsPublicCourseGet(verb, path)))
  {
    if !MiddlewareRuns(path) then false
    else
      var pageRule := IsProtectedRoute(path);
      var apiRule := IsProtectedApiRoute(path) && !IsPublicCourseGet(verb, path);
      pageRule || apiRule
  }

  /** Every pathname under "/api" reaches the callback, whatever it looks like. */
  lemma ApiPathsAlwaysRun(path: string)
    requires |path| >= 4 && path[..4] == "/api"
    ensures MiddlewareRuns(path)
  {
  }

  /** Every page under /dashboard or /create-course that does not look like a
      static file is protected, whatever the method. */
  lemma PagesProtected(verb: string, path: string)
    requires StartsWith(path, "/dashboard") || StartsWith(path, "/create-course")
    requires !LooksStatic(path[1..])
    ensures ProtectInvoked(verb, path)
  {
    if StartsWith(path, "/dashboard") {
      assert path[0] == path[..10][0] && path[1] == path[..10][1];
    } else {
      assert path[0] == path[..14][0] && path[1] == path[..14][1];
    }
    assert !StartsWith(path[1..], "_next") by { assert path[1..][0] == path[1]; }
  }

  /** A page path whose last segment ends in ".png" never reaches the callback, so
      it is not protected even under /create-course. */
  lemma StaticLookingPageSkipped(verb: string, name: string)
    requires forall k :: 0 <= k < |name| ==> name[k] != '?'
    ensures !ProtectInvoked(verb, "/create-course/" + name + ".png")
  {
    var path := "/create-course/" + name + ".png";
    var rest := path[1..];
    var i := |"create-course/" + name|;
    assert rest == "create-course/" + name + ".png";
    assert rest[i] == '.';
    assert rest[i + 1..] == "png";
    assert StartsWith(rest[i + 1..], StaticExtensions[5]);
    assert StaticDotAt(rest, i);
    forall k | 0 <= k < i ensures rest[k] != '?' {
      if k >= |"create-course/"| {
        assert rest[k] == name[k - |"create-course/"|];
      }
    }
    assert LooksStatic(rest);
    assert !StartsWith(path, "/api") by { assert path[1] != "/api"[1]; }
    assert !StartsWith(path, "/trpc") by { assert path[1] != "/trpc"[1]; }
  }

  /** Every request other than a GET to a protected API route is protected. */
  lemma NonGetApiProtected(verb: string, path: string)
    requires verb != "GET" && IsProtectedApiRoute(path)
    ensures ProtectInvoked(verb, path)
  {
    assert path[..4] == "/api" by {
      if StartsWith(path, "/api/courses") {
        assert path[..4] == path[..12][..4];
      } else if StartsWith(path, "/api/chapters") {
        assert path[..4] == path[..13][..4];
      }
    }
  }

  /** GETs below /api/courses/ and under /api/chapters pass the API rule: the
      handlers apply their own published-or-owner policy. */
  lemma PublicGetsExempt(path: string, id: string)
    ensures !ProtectInvoked("GET", "/api/courses/" + id)
    ensures !ProtectInvoked("GET", "/api/chapters" + id)
  {
    var c, h := "/api/courses/" + id, "/api/chapters" + id;
    PrefixContained(c, "/api/courses/");
    assert c[..|"/api/courses/"|] == "/api/courses/";
    assert !StartsWith(c, "/dashboard") by { assert c[1] != "/dashboard"[1]; }
    assert !StartsWith(c, "/create-course") by { assert c[1] != "/create-course"[1]; }
    PrefixContained(h, "/api/chapters");
    assert h[..|"/api/chapters"|] == "/api/chapters";
    assert !StartsWith(h, "/dashboard") by { assert h[1] != "/dashboard"[1]; }
    assert !StartsWith(h, "/create-course") by { assert h[1] != "/create-course"[1]; }
  }

  /** A string shorter than `sub` does not contain it. */
  lemma TooShortToContain(s: string, sub: string)
    requires |s| < |sub|
    ensures !Contains(s, sub)
  {
    PrefixContained(s, sub);
  }

  /** The course listing itself (no trailing slash) is protected for GET: its
      pathname contains neither "/api/courses/" nor "/api/chapters". */
  lemma ListingGetProtected(path: string)
    requires path == "/api/courses"
    ensures ProtectInvoked("GET", path)
  {
    TooShortToContain(path, "/api/courses/");
    TooShortToContain(path, "/api/chapters");
    assert path[..|"/api/courses"|] == "/api/courses";
    assert path[..4] == "/api";
  }

  /** One mismatching character rules out an occurrence at offset `i`. */
  lemma MismatchRulesOut(s: string, sub: string, i: int, k: nat)
    requires 0 <= i && k < |sub| && i + k < |s| && s[i + k] != sub[k]
    ensures !OccursAt(s, sub, i)
  {
  }

  /** Layout generation is protected for GET as well. */
  lemma LayoutGetProtected(path: string)
    requires path == "/api/course/layout"
    ensures ProtectInvoked("GET", path)
  {
    var courses, chapters := "/api/courses/", "/api/chapters";
    forall i ensures !OccursAt(path, courses, i) && !OccursAt(path, chapters, i) {
      if i == 0 {
        MismatchRulesOut(path, courses, 0, 11);
        MismatchRulesOut(path, chapters, 0, 6);
      } else if i == 4 {
        MismatchRulesOut(path, courses, 4, 1);
        MismatchRulesOut(path, chapters, 4, 1);
      } else if 0 < i <= |path| - |courses| {
        MismatchRulesOut(path, courses, i, 0);
        MismatchRulesOut(path, chapters, i, 0);
      }
    }
    ContainsIffOccurs(path, courses);
    ContainsIffOccurs(path, chapters);
    assert path[..4] == "/api";
  }

  /** A pathname matching neither list is never protected. */
  lemma UnmatchedNeverProtected(verb: string, path: string)
    requires !IsProtectedRoute(path) && !IsProtectedApiRoute(path)
    ensures !ProtectInvoked(verb, path)
  {
  }
}
