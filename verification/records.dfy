/** The document shapes of the Cart, Wishlist, Order and Progress schemas, and
    the request bodies the handlers read. */
module Records {
  import opened Responses

  /** Dates are passed through unchanged and never inspected, so they are
      kept as the text that travels in a request body. */
  type Timestamp = string

  /** JavaScript truthiness of a string request field: an absent field and
      the empty string are both falsy. */
  predicate Present(s: string) {
    s != ""
  }

  /** An entry of a per-user item list. Both carts and wishlists are keyed by
      `courseId`; the remaining fields depend on the list. */
  datatype Entry<D> = Entry(courseId: string, fields: D)

  /** Fields of a cart item; `quantity` defaults to 1. */
  datatype CartFields = CartFields(
    title: string,
    price: int,
    duration: string,
    imageUrl: string,
    quantity: int,
    addedAt: Timestamp)

  type CartItem = Entry<CartFields>

  /** Fields of a wishlist item. The schema has no image field, so an image
      URL in the request is dropped when the item is stored. */
  datatype WishlistFields = WishlistFields(
    title: string,
    price: int,
    duration: string,
    addedAt: Timestamp)

  type WishlistItem = Entry<WishlistFields>

  /** Body of `/cart/add` and `/wishlist/add`. */
  datatype AddRequest = AddRequest(
    courseId: string,
    title: string,
    price: int,
    duration: string,
    imageUrl: string)

  /** The `status` enum of an order. */
  datatype OrderStatus = Success | Failure

  /** Reads an order status the way the schema's enum validator accepts it. */
  function ParseOrderStatus(s: string): (r: Option<OrderStatus>)
    ensures r.Some? <==> s == "success" || s == "failure"
    ensures r == Some(Success) <==> s == "success"
  {
    if s == "success" then Some(Success)
    else if s == "failure" then Some(Failure)
    else None
  }

  /** A purchased course as copied into an order. */
  datatype OrderCourse = OrderCourse(courseId: string, title: string, price: int)

  datatype Order = Order(
    orderId: nat,
    userId: string,
    courses: seq<OrderCourse>,
    totalAmount: int,
    status: OrderStatus,
    paymentDate: Timestamp)

  /** The `status` enum of a progress record. */
  datatype ProgressStatus = Enrolled | Active | Completed

  datatype Progress = Progress(
    userId: string,
    courseId: string,
    title: string,
    price: int,
    duration: string,
    status: ProgressStatus,
    enrolledAt: Timestamp)
}
