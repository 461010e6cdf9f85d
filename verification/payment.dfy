/** The payment-success sequence: validate the callback, advance the "order"
    counter, build the order from the purchased courses and one `enrolled`
    progress record per course. Storage is left out, so the counter is a
    value passed in and handed back. */
module Payment {
  import opened Responses
  import opened Records

  /** A purchased course as it arrives in the callback body. */
  datatype Purchase = Purchase(courseId: string, title: string, price: int, duration: string)

  /** Body of `/payment/success`. An absent `courses` array is `None`; an
      absent `totalAmount` reads as 0, which is falsy like it. */
  datatype PaymentRequest = PaymentRequest(
    userId: string,
    courses: Option<seq<Purchase>>,
    totalAmount: int,
    status: string,
    paymentDate: Timestamp)

  /** The counter document named "order"; a counter not yet created holds 0. */
  datatype Counter = Counter(order: nat)

  /** What a successful callback writes: the order and its progress records. */
  datatype Receipt = Receipt(order: Order, progress: seq<Progress>)

  /** The handler's answer together with the counter it leaves behind, which
      may have moved even when the answer is an error. */
  datatype Outcome = Outcome(counter: Counter, result: Result<Receipt>)

  /** Every required field is truthy. An empty course list is truthy; a total
      of 0 is not. */
  predicate Complete(req: PaymentRequest) {
    && Present(req.userId)
    && req.courses.Some?
    && req.totalAmount != 0
    && Present(req.status)
    && Present(req.paymentDate)
  }

  /** The courses as the order keeps them: identifier, title and price. */
  function Project(cs: seq<Purchase>): (r: seq<OrderCourse>)
    ensures |r| == |cs|
    ensures forall i :: 0 <= i < |cs| ==>
      r[i].courseId == cs[i].courseId && r[i].title == cs[i].title && r[i].price == cs[i].price
  {
    if |cs| == 0 then []
    else [OrderCourse(cs[0].courseId, cs[0].title, cs[0].price)] + Project(cs[1..])
  }

  /** One progress record per purchased course, each enrolled at `date`. */
  function Enrol(userId: string, cs: seq<Purchase>, date: Timestamp): (r: seq<Progress>)
    ensures |r| == |cs|
    ensures forall i :: 0 <= i < |cs| ==>
      && r[i].userId == userId
      && r[i].courseId == cs[i].courseId && r[i].title == cs[i].title
      && r[i].price == cs[i].price && r[i].duration == cs[i].duration
      && r[i].status == Enrolled && r[i].enrolledAt == date
  {
    if |cs| == 0 then []
    else
      [Progress(userId, cs[0].courseId, cs[0].title, cs[0].price, cs[0].duration, Enrolled, date)]
        + Enrol(userId, cs[1..], date)
  }

  /** Handles one payment callback. An incomplete body is rejected with 400
      before the counter is touched. Otherwise the counter moves up by one and
      its new value numbers the order; a status outside the order schema's
      enum then fails validation on save, answering 500 with the counter
      already advanced and nothing written. */
  function PaymentSuccess(counter: Counter, req: PaymentRequest): (out: Outcome)
    ensures !Complete(req) ==> out == Outcome(counter, Err(BadRequest))
    ensures Complete(req) ==> out.counter.order == counter.order + 1
    ensures Complete(req) && ParseOrderStatus(req.status).None? ==> out.result == Err(ServerError)
    ensures out.result.Ok? <==> Complete(req) && ParseOrderStatus(req.status).Some?
    ensures out.result.Ok? ==>
      var o := out.result.value.order;
      && o.orderId == out.counter.order
      && o.userId == req.userId
      && o.totalAmount == req.totalAmount
      && Some(o.status) == ParseOrderStatus(req.status)
      && o.paymentDate == req.paymentDate
      && o.courses == Project(req.courses.value)
      && out.result.value.progress == Enrol(req.userId, req.courses.value, req.paymentDate)
  {
    if !Complete(req) then Outcome(counter, Err(BadRequest))
    else
      var next := Counter(counter.order + 1);
      match ParseOrderStatus(req.status)
      case None => Outcome(next, Err(ServerError))
      case Some(st) =>
        var cs := req.courses.value;
        var order := Order(next.order, req.userId, Project(cs), req.totalAmount, st, req.paymentDate);
        Outcome(next, Ok(Receipt(order, Enrol(req.userId, cs, req.paymentDate))))
  }

  /** The order and its progress records agree: the i-th progress record is
      for the i-th ordered course, belongs to the order's user, is enrolled
      and dates from the payment. */
  lemma ReceiptConsistent(counter: Counter, req: PaymentRequest)
    requires PaymentSuccess(counter, req).result.Ok?
    ensures var rc := PaymentSuccess(counter, req).result.value;
      && |rc.progress| == |rc.order.courses|
      && forall i :: 0 <= i < |rc.progress| ==>
        && rc.progress[i].courseId == rc.order.courses[i].courseId
        && rc.progress[i].title == rc.order.courses[i].title
        && rc.progress[i].price == rc.order.courses[i].price
        && rc.progress[i].userId == rc.order.userId
        && rc.progress[i].status == Enrolled
        && rc.progress[i].enrolledAt == rc.order.paymentDate
  {
  }

  /** A callback with two courses makes one order holding both courses and
      two enrolled progress records. */
  lemma TwoCourses(counter: Counter, req: PaymentRequest)
    requires Complete(req) && req.status == "success"
    requires |req.courses.value| == 2
    ensures var out := PaymentSuccess(counter, req);
      && out.result.Ok?
      && out.result.value.order.orderId == counter.order + 1
      && |out.result.value.order.courses| == 2
      && |out.result.value.progress| == 2
      && out.result.value.progress[0].status == Enrolled
      && out.result.value.progress[1].status == Enrolled
  {
  }

  // ---------------------------------------------------------------------
  // A run of callbacks handled one after another

  /** Handles the callbacks in order, threading the counter, and collects the
      orders written. */
  function Run(counter: Counter, reqs: seq<PaymentRequest>): (Counter, seq<Order>)
    decreases |reqs|
  {
    if |reqs| == 0 then (counter, [])
    else
      var out := PaymentSuccess(counter, reqs[0]);
      var (last, orders) := Run(out.counter, reqs[1..]);
      (last, (if out.result.Ok? then [out.result.value.order] else []) + orders)
  }

  /** How many callbacks pass the 400 guard and so take a number. */
  function Allocations(reqs: seq<PaymentRequest>): nat
  {
    if |reqs| == 0 then 0
    else (if Complete(reqs[0]) then 1 else 0) + Allocations(reqs[1..])
  }

  /** Order numbers handed out over a run are strictly increasing, lie above
      the starting counter and no higher than the final one, and the counter
      advances by exactly one per callback that passed the guard. */
  lemma {:induction false} RunNumbersIncrease(counter: Counter, reqs: seq<PaymentRequest>)
    ensures var (last, orders) := Run(counter, reqs);
      && last.order == counter.order + Allocations(reqs)
      && (forall i :: 0 <= i < |orders| ==> counter.order < orders[i].orderId <= last.order)
      && (forall i, j :: 0 <= i < j < |orders| ==> orders[i].orderId < orders[j].orderId)
    decreases |reqs|
  {
    if |reqs| > 0 {
      var out := PaymentSuccess(counter, reqs[0]);
      RunNumbersIncrease(out.counter, reqs[1..]);
      var (last, rest) := Run(out.counter, reqs[1..]);
      var head := if out.result.Ok? then [out.result.value.order] else [];
      var orders := head + rest;
      forall i | 0 <= i < |orders| ensures counter.order < orders[i].orderId <= last.order {
        if i >= |head| {
          assert orders[i] == rest[i - |head|];
        }
      }
      forall i, j | 0 <= i < j < |orders| ensures orders[i].orderId < orders[j].orderId {
        assert orders[j] == rest[j - |head|];
        if i >= |head| {
          assert orders[i] == rest[i - |head|];
        }
      }
    }
  }
}
