/** Operations shared by the cart and the wishlist: both keep a sequence of
    entries keyed by course identifier, look an entry up with a first-match
    search and remove entries with a filter. */
module Items {
  import opened Responses
  import opened Records

  /** The items of a per-user document; a missing document reads as empty. */
  function ItemsOf<D>(doc: Option<seq<Entry<D>>>): seq<Entry<D>> {
    doc.GetOr([])
  }

  /** `GET /cart` and `GET /wishlist`: a session user is required, and a
      user without a document gets the empty list rather than an error. */
  function List<D>(session: string, doc: Option<seq<Entry<D>>>): (r: Result<seq<Entry<D>>>)
    ensures r.Err? <==> !Present(session)
    ensures r.Err? ==> r.code == Unauthorized
    ensures r.Ok? && doc.None? ==> r.value == []
    ensures r.Ok? && doc.Some? ==> r.value == doc.value
  {
    if !Present(session) then Err(Unauthorized) else Ok(ItemsOf(doc))
  }

  /** Some entry carries course `id`. */
  predicate HasCourse<D>(s: seq<Entry<D>>, id: string) {
    exists i :: 0 <= i < |s| && s[i].courseId == id
  }

  /** No two entries share a course identifier. */
  predicate Distinct<D>(s: seq<Entry<D>>) {
    forall i, j :: 0 <= i < j < |s| ==> s[i].courseId != s[j].courseId
  }

  /** The set of course identifiers a list holds. */
  function CourseIds<D>(s: seq<Entry<D>>): (ids: set<string>)
    ensures forall id :: id in ids <==> HasCourse(s, id)
  {
    set i | 0 <= i < |s| :: s[i].courseId
  }

  /** Appending an entry adds its course to the set of courses. */
  lemma CourseIdsAppend<D>(s: seq<Entry<D>>, e: Entry<D>)
    ensures CourseIds(s + [e]) == CourseIds(s) + {e.courseId}
  {
    var t := s + [e];
    forall c | c in CourseIds(t) ensures c in CourseIds(s) + {e.courseId} {
      var i :| 0 <= i < |t| && t[i].courseId == c;
      if i < |s| {
        assert t[i] == s[i];
      }
    }
    forall c | c in CourseIds(s) ensures c in CourseIds(t) {
      var i :| 0 <= i < |s| && s[i].courseId == c;
      assert t[i] == s[i];
    }
    assert t[|s|] == e;
  }

  /** Index of the first entry for course `id`, as an array `find` with
      `===` returns it; `None` when no entry matches. */
  function FindCourse<D>(s: seq<Entry<D>>, id: string): (r: Option<nat>)
    ensures r.None? <==> !HasCourse(s, id)
    ensures r.Some? ==> r.value < |s| && s[r.value].courseId == id
    ensures r.Some? ==> forall j :: 0 <= j < r.value ==> s[j].courseId != id
  {
    if |s| == 0 then None
    else if s[0].courseId == id then Some(0)
    else
      match FindCourse(s[1..], id)
      case None => None
      case Some(k) => Some(k + 1)
  }

  /** The entries whose course identifier differs from `id`, in their
      original order: the filter the remove handlers apply. */
  function Without<D>(s: seq<Entry<D>>, id: string): (r: seq<Entry<D>>)
    ensures |r| <= |s|
    ensures forall i :: 0 <= i < |r| ==> r[i] in s && r[i].courseId != id
    ensures forall i :: 0 <= i < |s| && s[i].courseId != id ==> s[i] in r
    ensures !HasCourse(r, id)
  {
    if |s| == 0 then []
    else
      assert s == [s[0]] + s[1..];
      if s[0].courseId == id then Without(s[1..], id)
      else [s[0]] + Without(s[1..], id)
  }

  /** Filtering out a course that is not there leaves the list as it was. */
  lemma {:induction false} WithoutAbsent<D>(s: seq<Entry<D>>, id: string)
    requires !HasCourse(s, id)
    ensures Without(s, id) == s
  {
    if |s| > 0 {
      assert !HasCourse(s[1..], id) by {
        forall j | 0 <= j < |s[1..]| ensures s[1..][j].courseId != id {
          assert s[1..][j] == s[j + 1];
        }
      }
      WithoutAbsent(s[1..], id);
      assert s == [s[0]] + s[1..];
    }
  }

  /** The filter works entry by entry: filtering a concatenation is the
      concatenation of the filtered parts, so the kept entries keep their
      relative order. */
  lemma {:induction false} WithoutAppend<D>(a: seq<Entry<D>>, b: seq<Entry<D>>, id: string)
    ensures Without(a + b, id) == Without(a, id) + Without(b, id)
  {
    if |a| == 0 {
      assert a + b == b;
    } else {
      assert (a + b)[0] == a[0];
      assert (a + b)[1..] == a[1..] + b;
      WithoutAppend(a[1..], b, id);
    }
  }

  /** Filtering a single entry keeps it exactly when it is for another course. */
  lemma WithoutSingle<D>(e: Entry<D>, id: string)
    ensures Without([e], id) == if e.courseId == id then [] else [e]
  {
  }

  /** Removing the same course twice is the same as removing it once. */
  lemma WithoutIdempotent<D>(s: seq<Entry<D>>, id: string)
    ensures Without(Without(s, id), id) == Without(s, id)
  {
    WithoutAbsent(Without(s, id), id);
  }

  /** The course identifiers left after the filter are the old ones less `id`. */
  lemma WithoutCourseIds<D>(s: seq<Entry<D>>, id: string)
    ensures CourseIds(Without(s, id)) == CourseIds(s) - {id}
  {
  }

  /** Filtering never introduces a duplicate. */
  lemma {:induction false} WithoutDistinct<D>(s: seq<Entry<D>>, id: string)
    requires Distinct(s)
    ensures Distinct(Without(s, id))
  {
    if |s| > 0 {
      var tail := s[1..];
      assert Distinct(tail) by {
        forall i, j | 0 <= i < j < |tail| ensures tail[i].courseId != tail[j].courseId {
          assert tail[i] == s[i + 1] && tail[j] == s[j + 1];
        }
      }
      WithoutDistinct(tail, id);
      if s[0].courseId != id {
        var rest := Without(tail, id);
        forall k | 0 <= k < |rest| ensures rest[k].courseId != s[0].courseId {
          assert rest[k] in rest;
          var m :| 0 <= m < |tail| && tail[m] == rest[k];
          assert tail[m] == s[m + 1];
        }
      }
    }
  }

  /** `POST /cart/remove` and `POST /wishlist/remove`: a session user, a
      course identifier and an existing document are required, in that
      order; the stored items are then filtered, and an absent course is not
      an error. */
  function Remove<D>(session: string, doc: Option<seq<Entry<D>>>, courseId: string): (r: Result<seq<Entry<D>>>)
    ensures !Present(session) ==> r == Err(Unauthorized)
    ensures Present(session) && !Present(courseId) ==> r == Err(BadRequest)
    ensures Present(session) && Present(courseId) && doc.None? ==> r == Err(NotFound)
    ensures r.Ok? <==> Present(session) && Present(courseId) && doc.Some?
    ensures r.Ok? ==> !HasCourse(r.value, courseId)
    ensures r.Ok? ==> forall i :: 0 <= i < |doc.value| && doc.value[i].courseId != courseId ==> doc.value[i] in r.value
    ensures r.Ok? ==> forall i :: 0 <= i < |r.value| ==> r.value[i] in doc.value
    ensures r.Ok? ==> r.value == Without(doc.value, courseId)
  {
    if !Present(session) then Err(Unauthorized)
    else if !Present(courseId) then Err(BadRequest)
    else if doc.None? then Err(NotFound)
    else Ok(Without(doc.value, courseId))
  }

  /** Removing a course that is not in the list leaves the list unchanged. */
  lemma RemoveAbsent<D>(session: string, doc: Option<seq<Entry<D>>>, courseId: string)
    requires Remove(session, doc, courseId).Ok?
    requires !HasCourse(doc.value, courseId)
    ensures Remove(session, doc, courseId).value == doc.value
  {
    WithoutAbsent(doc.value, courseId);
  }
}
