/** The per-user wishlist add handler; listing and removal are shared with
    the cart (`Items.List`, `Items.Remove`). A wishlist holds each
    course at most once and has no quantities. */
module Wishlist {
  import opened Responses
  import opened Records
  import opened Items

  /** The item `/wishlist/add` appends; the request's image URL has no
      field to go to and is dropped. */
  function NewItem(req: AddRequest, now: Timestamp): WishlistItem {
    Entry(req.courseId, WishlistFields(req.title, req.price, req.duration, now))
  }

  /** The shape every wishlist built by these handlers keeps. */
  predicate WellFormed(s: seq<WishlistItem>) {
    Distinct(s) && forall i :: 0 <= i < |s| ==> Present(s[i].courseId)
  }

  // ---------------------------------------------------------------------
  // POST /wishlist/add

  /** Adds a course unless it is already listed, creating the wishlist if
      needed. */
  function Add(session: string, doc: Option<seq<WishlistItem>>, req: AddRequest, now: Timestamp): (r: Result<seq<WishlistItem>>)
    ensures !Present(session) ==> r == Err(Unauthorized)
    ensures Present(session) && !Present(req.courseId) ==> r == Err(BadRequest)
    ensures r.Ok? <==> Present(session) && Present(req.courseId)
    ensures r.Ok? && HasCourse(ItemsOf(doc), req.courseId) ==> r.value == ItemsOf(doc)
    ensures r.Ok? && !HasCourse(ItemsOf(doc), req.courseId) ==>
      && |r.value| == |ItemsOf(doc)| + 1
      && r.value[..|ItemsOf(doc)|] == ItemsOf(doc)
      && r.value[|ItemsOf(doc)|] == NewItem(req, now)
    ensures r.Ok? ==> HasCourse(r.value, req.courseId)
  {
    if !Present(session) then Err(Unauthorized)
    else if !Present(req.courseId) then Err(BadRequest)
    else
      var s := ItemsOf(doc);
      if HasCourse(s, req.courseId) then Ok(s)
      else
        var r := s + [NewItem(req, now)];
        assert r[|s|].courseId == req.courseId;
        Ok(r)
  }

  /** Adding is idempotent: a second add of the same course, at any later
      time, leaves the wishlist as the first add made it. */
  lemma AddIdempotent(session: string, doc: Option<seq<WishlistItem>>, req: AddRequest, t1: Timestamp, t2: Timestamp)
    requires Add(session, doc, req, t1).Ok?
    ensures Add(session, Some(Add(session, doc, req, t1).value), req, t2) == Add(session, doc, req, t1)
  {
  }

  /** Adding keeps a wishlist well-formed and its set of courses gains
      exactly the added course. */
  lemma AddWellFormed(session: string, doc: Option<seq<WishlistItem>>, req: AddRequest, now: Timestamp)
    requires WellFormed(ItemsOf(doc))
    requires Add(session, doc, req, now).Ok?
    ensures WellFormed(Add(session, doc, req, now).value)
    ensures CourseIds(Add(session, doc, req, now).value) == CourseIds(ItemsOf(doc)) + {req.courseId}
  {
  }

  /** A well-formed wishlist is exactly as long as its set of courses. */
  lemma {:induction false} SizeIsCourseCount(s: seq<WishlistItem>)
    requires Distinct(s)
    ensures |CourseIds(s)| == |s|
  {
    if |s| > 0 {
      var init := s[..|s| - 1];
      var last := s[|s| - 1];
      assert Distinct(init) by {
        forall i, j | 0 <= i < j < |init| ensures init[i].courseId != init[j].courseId {
          assert init[i] == s[i] && init[j] == s[j];
        }
      }
      SizeIsCourseCount(init);
      forall i | 0 <= i < |init| ensures init[i].courseId != last.courseId {
        assert init[i] == s[i];
      }
      assert s == init + [last];
      CourseIdsAppend(init, last);
    }
  }

  // ---------------------------------------------------------------------
  // POST /wishlist/remove

  /** Removing keeps a wishlist well-formed and takes exactly that course
      out of its set of courses. */
  lemma RemoveWellFormed(session: string, doc: Option<seq<WishlistItem>>, courseId: string)
    requires Remove(session, doc, courseId).Ok?
    requires WellFormed(doc.value)
    ensures WellFormed(Remove(session, doc, courseId).value)
    ensures CourseIds(Remove(session, doc, courseId).value) == CourseIds(doc.value) - {courseId}
  {
    WithoutDistinct(doc.value, courseId);
    WithoutCourseIds(doc.value, courseId);
    var r := Remove(session, doc, courseId).value;
    forall i | 0 <= i < |r| ensures Present(r[i].courseId) {
      assert r[i] in doc.value;
    }
  }
}
