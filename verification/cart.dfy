/** The per-user shopping cart handlers: add and update quantity; listing
    and removal are shared with the wishlist (`Items.List`, `Items.Remove`).
    Each one receives the acting session user (empty when there is no
    session), the user's cart document if one exists, and the request; it
    answers with an error code or with the item list it stores and returns. */
module Cart {
  import opened Responses
  import opened Records
  import opened Items

  /** The item `/cart/add` appends for a course not yet in the cart. */
  function NewItem(req: AddRequest, now: Timestamp): CartItem {
    Entry(req.courseId, CartFields(req.title, req.price, req.duration, req.imageUrl, 1, now))
  }

  /** `e` with its quantity replaced by `q` and every other field kept. */
  function WithQuantity(e: CartItem, q: int): (r: CartItem)
    ensures r.courseId == e.courseId && r.fields.quantity == q
  {
    e.(fields := e.fields.(quantity := q))
  }

  /** What one entry contributes to the quantity of course `id`. */
  function Share(e: CartItem, id: string): int {
    if e.courseId == id then e.fields.quantity else 0
  }

  /** Total quantity held for course `id`: the cart read as a bag of courses. */
  function QuantityOf(s: seq<CartItem>, id: string): int {
    if |s| == 0 then 0
    else Share(s[0], id) + QuantityOf(s[1..], id)
  }

  /** The shape every cart built by these handlers keeps: one entry per
      course, each with a course identifier and a quantity of at least 1. */
  predicate WellFormed(s: seq<CartItem>) {
    && Distinct(s)
    && forall i :: 0 <= i < |s| ==> Present(s[i].courseId) && s[i].fields.quantity >= 1
  }

  // ---------------------------------------------------------------------
  // POST /cart/add

  /** Adds a course: bumps the first entry for that course by one, or
      appends a fresh entry with quantity 1, creating the cart if needed. */
  function Add(session: string, doc: Option<seq<CartItem>>, req: AddRequest, now: Timestamp): (r: Result<seq<CartItem>>)
    ensures !Present(session) ==> r == Err(Unauthorized)
    ensures Present(session) && !Present(req.courseId) ==> r == Err(BadRequest)
    ensures r.Ok? <==> Present(session) && Present(req.courseId)
    ensures r.Ok? && HasCourse(ItemsOf(doc), req.courseId) ==>
      var s := ItemsOf(doc);
      var k := FindCourse(s, req.courseId).value;
      && |r.value| == |s|
      && r.value[k] == WithQuantity(s[k], s[k].fields.quantity + 1)
      && forall j :: 0 <= j < |s| && j != k ==> r.value[j] == s[j]
    ensures r.Ok? && !HasCourse(ItemsOf(doc), req.courseId) ==>
      && |r.value| == |ItemsOf(doc)| + 1
      && r.value[..|ItemsOf(doc)|] == ItemsOf(doc)
      && r.value[|ItemsOf(doc)|] == NewItem(req, now)
  {
    if !Present(session) then Err(Unauthorized)
    else if !Present(req.courseId) then Err(BadRequest)
    else
      var s := ItemsOf(doc);
      match FindCourse(s, req.courseId)
      case Some(k) => Ok(s[k := WithQuantity(s[k], s[k].fields.quantity + 1)])
      case None => Ok(s + [NewItem(req, now)])
  }

  // ---------------------------------------------------------------------
  // POST /cart/update-quantity

  datatype Action = Increment | Decrement

  /** The `action` field; anything but the two known words is rejected. */
  function ParseAction(s: string): (r: Option<Action>)
    ensures r.Some? <==> s == "increment" || s == "decrement"
    ensures r == Some(Increment) <==> s == "increment"
  {
    if s == "increment" then Some(Increment)
    else if s == "decrement" then Some(Decrement)
    else None
  }

  /** New quantity after an action: increment is unbounded, decrement only
      acts on a quantity above 1. */
  function Step(q: int, a: Action): (r: int)
    ensures a == Increment ==> r == q + 1
    ensures a == Decrement && q > 1 ==> r == q - 1
    ensures a == Decrement && q <= 1 ==> r == q
    ensures q >= 1 ==> r >= 1
  {
    match a
    case Increment => q + 1
    case Decrement => if q > 1 then q - 1 else q
  }

  /** Changes the quantity of the first entry for `courseId`. */
  function UpdateQuantity(session: string, doc: Option<seq<CartItem>>, courseId: string, action: string): (r: Result<seq<CartItem>>)
    ensures !Present(session) ==> r == Err(Unauthorized)
    ensures Present(session) && (!Present(courseId) || ParseAction(action).None?) ==> r == Err(BadRequest)
    ensures Present(session) && Present(courseId) && ParseAction(action).Some? && doc.None? ==> r == Err(NotFound)
    ensures (Present(session) && Present(courseId) && ParseAction(action).Some? && doc.Some?
             && !HasCourse(doc.value, courseId)) ==> r == Err(NotFound)
    ensures r.Ok? <==>
      Present(session) && Present(courseId) && ParseAction(action).Some? && doc.Some? && HasCourse(doc.value, courseId)
    ensures r.Ok? ==>
      var s := doc.value;
      var k := FindCourse(s, courseId).value;
      && |r.value| == |s|
      && r.value[k] == WithQuantity(s[k], Step(s[k].fields.quantity, ParseAction(action).value))
      && forall j :: 0 <= j < |s| && j != k ==> r.value[j] == s[j]
  {
    if !Present(session) then Err(Unauthorized)
    else if !Present(courseId) || ParseAction(action).None? then Err(BadRequest)
    else if doc.None? then Err(NotFound)
    else
      var s := doc.value;
      match FindCourse(s, courseId)
      case None => Err(NotFound)
      case Some(k) => Ok(s[k := WithQuantity(s[k], Step(s[k].fields.quantity, ParseAction(action).value))])
  }

  // ---------------------------------------------------------------------
  // The cart as a bag of courses

  lemma {:induction false} QuantityAppend(s: seq<CartItem>, e: CartItem, id: string)
    ensures QuantityOf(s + [e], id) == QuantityOf(s, id) + Share(e, id)
  {
    if |s| == 0 {
      assert (s + [e])[1..] == [];
    } else {
      assert (s + [e])[0] == s[0];
      assert (s + [e])[1..] == s[1..] + [e];
      QuantityAppend(s[1..], e, id);
    }
  }

  lemma {:induction false} QuantityUpdate(s: seq<CartItem>, k: nat, e: CartItem, id: string)
    requires k < |s|
    ensures QuantityOf(s[k := e], id) == QuantityOf(s, id) - Share(s[k], id) + Share(e, id)
  {
    if k == 0 {
      assert s[k := e][1..] == s[1..];
    } else {
      assert s[k := e][1..] == s[1..][k - 1 := e];
      QuantityUpdate(s[1..], k - 1, e, id);
    }
  }

  lemma {:induction false} QuantityWithout(s: seq<CartItem>, id: string, c: string)
    ensures QuantityOf(Without(s, id), c) == if c == id then 0 else QuantityOf(s, c)
  {
    if |s| > 0 {
      QuantityWithout(s[1..], id, c);
      if s[0].courseId != id {
        var rest := Without(s[1..], id);
        assert ([s[0]] + rest)[0] == s[0];
        assert ([s[0]] + rest)[1..] == rest;
      }
    }
  }

  /** Adding a course puts exactly one more unit of it in the cart and
      leaves every other course's quantity alone. */
  lemma AddQuantities(session: string, doc: Option<seq<CartItem>>, req: AddRequest, now: Timestamp, c: string)
    requires Add(session, doc, req, now).Ok?
    ensures QuantityOf(Add(session, doc, req, now).value, c)
      == QuantityOf(ItemsOf(doc), c) + (if c == req.courseId then 1 else 0)
  {
    var s := ItemsOf(doc);
    match FindCourse(s, req.courseId)
    case Some(k) =>
      QuantityUpdate(s, k, WithQuantity(s[k], s[k].fields.quantity + 1), c);
    case None =>
      QuantityAppend(s, NewItem(req, now), c);
  }

  /** Adding keeps the course identifiers distinct and the set of courses
      grows by exactly the added one. */
  lemma AddWellFormed(session: string, doc: Option<seq<CartItem>>, req: AddRequest, now: Timestamp)
    requires WellFormed(ItemsOf(doc))
    requires Add(session, doc, req, now).Ok?
    ensures WellFormed(Add(session, doc, req, now).value)
    ensures CourseIds(Add(session, doc, req, now).value) == CourseIds(ItemsOf(doc)) + {req.courseId}
  {
  }

  /** With no cart document, adding a course yields that one course with
      quantity 1. */
  lemma AddToMissingCart(session: string, req: AddRequest, now: Timestamp)
    requires Present(session) && Present(req.courseId)
    ensures Add(session, None, req, now) == Ok([NewItem(req, now)])
    ensures Add(session, None, req, now).value[0].fields.quantity == 1
  {
  }

  /** Adding the same new course twice gives a single entry with quantity 2,
      not two entries. */
  lemma AddTwice(session: string, doc: Option<seq<CartItem>>, req: AddRequest, t1: Timestamp, t2: Timestamp)
    requires Present(session) && Present(req.courseId)
    requires !HasCourse(ItemsOf(doc), req.courseId)
    ensures var once := Add(session, doc, req, t1).value;
      var twice := Add(session, Some(once), req, t2).value;
      && |twice| == |ItemsOf(doc)| + 1
      && twice[|ItemsOf(doc)|] == WithQuantity(NewItem(req, t1), 2)
      && QuantityOf(twice, req.courseId) == 2
  {
    var s := ItemsOf(doc);
    var once := Add(session, doc, req, t1).value;
    assert once[|s|].courseId == req.courseId;
    AddQuantities(session, doc, req, t1, req.courseId);
    AddQuantities(session, Some(once), req, t2, req.courseId);
    assert QuantityOf(s, req.courseId) == 0 by {
      QuantityWithout(s, req.courseId, req.courseId);
      WithoutAbsent(s, req.courseId);
    }
  }

  /** An increment adds one unit of the course; a decrement removes one only
      when the entry holds more than one; other courses are untouched. */
  lemma UpdateQuantities(session: string, doc: Option<seq<CartItem>>, courseId: string, action: string, c: string)
    requires UpdateQuantity(session, doc, courseId, action).Ok?
    ensures var before := doc.value[FindCourse(doc.value, courseId).value].fields.quantity;
      var delta := if action == "increment" then 1 else if before > 1 then -1 else 0;
      QuantityOf(UpdateQuantity(session, doc, courseId, action).value, c)
        == QuantityOf(doc.value, c) + (if c == courseId then delta else 0)
  {
    var s := doc.value;
    var k := FindCourse(s, courseId).value;
    QuantityUpdate(s, k, WithQuantity(s[k], Step(s[k].fields.quantity, ParseAction(action).value)), c);
  }

  /** Updating a quantity keeps a well-formed cart well-formed: in
      particular no quantity drops below 1. */
  lemma UpdateWellFormed(session: string, doc: Option<seq<CartItem>>, courseId: string, action: string)
    requires UpdateQuantity(session, doc, courseId, action).Ok?
    requires WellFormed(doc.value)
    ensures WellFormed(UpdateQuantity(session, doc, courseId, action).value)
    ensures CourseIds(UpdateQuantity(session, doc, courseId, action).value) == CourseIds(doc.value)
  {
  }

  /** Decrementing an entry whose quantity is 1 leaves the cart unchanged. */
  lemma DecrementAtOne(session: string, doc: Option<seq<CartItem>>, courseId: string)
    requires UpdateQuantity(session, doc, courseId, "decrement").Ok?
    requires doc.value[FindCourse(doc.value, courseId).value].fields.quantity == 1
    ensures UpdateQuantity(session, doc, courseId, "decrement").value == doc.value
  {
  }

  /** Removing a course empties its quantity and leaves every other course's
      quantity, and the cart's well-formedness, as they were. */
  lemma RemoveQuantities(session: string, doc: Option<seq<CartItem>>, courseId: string, c: string)
    requires Remove(session, doc, courseId).Ok?
    ensures QuantityOf(Remove(session, doc, courseId).value, c)
      == if c == courseId then 0 else QuantityOf(doc.value, c)
  {
    QuantityWithout(doc.value, courseId, c);
  }

  lemma RemoveWellFormed(session: string, doc: Option<seq<CartItem>>, courseId: string)
    requires Remove(session, doc, courseId).Ok?
    requires WellFormed(doc.value)
    ensures WellFormed(Remove(session, doc, courseId).value)
    ensures CourseIds(Remove(session, doc, courseId).value) == CourseIds(doc.value) - {courseId}
  {
    WithoutDistinct(doc.value, courseId);
    WithoutCourseIds(doc.value, courseId);
    var r := Remove(session, doc, courseId).value;
    forall i | 0 <= i < |r| ensures Present(r[i].courseId) && r[i].fields.quantity >= 1 {
      assert r[i] in doc.value;
    }
  }
}
