# Cart, wishlist and payment-success handlers of the learning-platform backend

This project models, in Dafny, the request handlers in `server.js` that hold
the backend's logic:

- the per-user shopping cart: `/cart/add`, `/cart`, `/cart/update-quantity`
  and `/cart/remove`;
- the per-user wishlist: `/wishlist/add`, `/wishlist` and `/wishlist/remove`;
- the payment-success callback. It advances the "order" counter, builds the
  order from the purchased courses, and writes one `enrolled` progress
  record per course.

Persistence is removed. Each cart or wishlist handler becomes a pure function
of three things: the session user (the empty string when there is no session
user), the user's document as an `Option` of an item sequence, and the request
fields. It answers with a `Result`: either an error code (400, 401 or 404)
or the item list the handler stores and returns. The code 500 is answered
only by the payment handler. The payment handler takes the
counter value (0 while the counter document does not exist) and returns the
new counter together with its result. The counter can move even when the
answer is an error.

Layout:

- `responses.dfy` (`Responses`): `Option`, `Result` and the error `Code`s.
- `records.dfy` (`Records`): the schema shapes from `Cart.js`, `Wishlist.js`,
  `Order.js` and `Progress.js`. It also holds the add-request body and
  JavaScript truthiness for string fields (`Present`).
- `items.dfy` (`Items`): what the cart and the wishlist share. Both keep
  `Entry(courseId, fields)` lists, and both list handlers are the same
  function, `List`, as are both remove handlers, `Remove`. `FindCourse` is
  the first-match `Array.prototype.find`, and `Without` is the `filter` the
  remove handlers apply.
- `cart.dfy` (`Cart`): the add and update-quantity cart handlers.
  It also reads the cart as a bag of courses (`QuantityOf`), and these
  handlers and the shared remove handler are proved against that bag.
- `wishlist.dfy` (`Wishlist`): the add handler. It and the shared remove
  handler are proved against the wishlist's set of courses (`CourseIds`).
- `payment.dfy` (`Payment`): the payment-success handler, plus a run of
  callbacks handled one after another (`Run`).

Behaviour of the handlers worth knowing before reading the contracts:

- The guard of the payment handler (server.js:536) only tests truthiness.
  An empty `courses` array and a negative `totalAmount` pass it; a
  `totalAmount` that is the number 0 gets 400.
- A `status` outside the order schema's enum (`success`, `failure`) also
  passes that guard and advances the counter. The order's save then fails
  the enum check and the handler answers 500, so that order number is used
  up and no order or progress record is written. `PaymentSuccess` models
  exactly this.
- The wishlist add handler pushes an `imageUrl`. The wishlist schema has no
  such field, so the stored item has none (`WishlistFields` has no image).

## Model

| member | source | states |
|---|---|---|
| Items.List | server.js:378-382 | Gives 401 exactly when there is no session user. Otherwise it returns the stored items, or the empty list when there is no document. Listing never fails for a missing document. The same handler shape serves `GET /wishlist` (server.js:440-444). |
| Items.FindCourse | server.js:395-396 | Finds the first entry whose `courseId` matches. The result is absent exactly when no entry matches; otherwise it is a matching index with no match before it. |
| Items.Without | server.js:416 | The filter keeps exactly the entries for other courses, and only entries of the input. No entry for the removed course is left. |
| Items.WithoutAbsent | server.js:455 | Filtering out a course that is not present returns the list unchanged. |
| Items.WithoutAppend | server.js:416 | Filtering a concatenation gives the concatenation of the filtered parts, so kept entries stay in their original order. |
| Items.WithoutSingle | server.js:416 | A single entry is kept exactly when it is for another course. With `WithoutAppend` this fixes the remove filter entry by entry: the kept entries, in their original order. |
| Items.WithoutIdempotent | server.js:455 | Removing the same course twice has the same effect as removing it once. |
| Items.WithoutCourseIds | server.js:416 | After the filter, the set of courses is the old set minus the removed course. |
| Items.WithoutDistinct | server.js:455 | Filtering never creates duplicate course identifiers. |
| Cart.Add | server.js:357-375 | Gives 401 without a session user and 400 without a `courseId`; otherwise it succeeds and a missing cart counts as empty. If the course is present, its first entry's quantity goes up by 1 and every other entry and field stays the same. If not, one entry with quantity 1 is appended after the unchanged old items. |
| Cart.AddQuantities | server.js:366-372 | Viewing the cart as a bag: adding gives exactly one more unit of the added course and leaves the quantity of every other course unchanged. |
| Cart.AddWellFormed | server.js:366-372 | Course ids stay distinct, quantities stay at least 1, and the set of courses gains exactly the added course. |
| Cart.AddToMissingCart | server.js:362-371 | With no cart document, the result is exactly one item, with quantity 1. |
| Cart.AddTwice | server.js:366-372 | Adding a new course twice makes one entry with quantity 2, not two entries. |
| Cart.Step | server.js:398-402 | Increment adds 1. Decrement subtracts 1 only from a quantity above 1. A quantity of at least 1 stays at least 1. |
| Cart.UpdateQuantity | server.js:385-405 | Gives 401 without a session user. Gives 400 for a missing `courseId` or an action other than increment/decrement. Gives 404 with no cart or no matching item. On success, only the first matching entry's quantity changes, and only by the step. |
| Cart.UpdateQuantities | server.js:398-402 | In the bag view, increment adds 1 unit of the course and decrement removes 1 only above quantity 1. No other course changes. |
| Cart.UpdateWellFormed | server.js:398-402 | A well-formed cart stays well-formed: no quantity drops below 1, and the set of courses is unchanged. |
| Cart.DecrementAtOne | server.js:400-402 | Decrementing an entry at quantity 1 leaves the cart unchanged. |
| Items.Remove | server.js:408-419 | Gives 401, then 400 for a missing `courseId`, then 404 for no document. On success the result is the order-preserving filter `Items.Without` of the stored items: no entry for the course remains, every other entry is kept in its original order, and nothing new appears. The same handler shape serves `POST /wishlist/remove` (server.js:447-458). |
| Items.RemoveAbsent | server.js:455 | Removing a course that is not in the cart or wishlist leaves the list unchanged. |
| Cart.RemoveQuantities | server.js:416 | In the bag view, the removed course's quantity becomes 0 and every other course's quantity is unchanged. |
| Cart.RemoveWellFormed | server.js:416 | A well-formed cart stays well-formed, and its set of courses loses exactly the removed course. |
| Wishlist.Add | server.js:422-437 | Gives 401 without a session user and 400 without a `courseId`. Adding a course already present returns the list unchanged; otherwise exactly one item is appended. Afterwards the course is present. |
| Wishlist.AddIdempotent | server.js:431-435 | A second add of the same course, at any time, leaves the wishlist as the first add made it. |
| Wishlist.AddWellFormed | server.js:431-435 | A wishlist stays duplicate-free, and its set of courses gains exactly the added course. |
| Wishlist.SizeIsCourseCount | server.js:431-435 | A duplicate-free wishlist has exactly as many items as distinct courses. |
| Wishlist.RemoveWellFormed | server.js:455 | A wishlist stays duplicate-free, and its set of courses loses exactly the removed course. |
| Payment.Project | server.js:551-555 | The order's courses are the input courses reduced to id, title and price, position by position and in input order. |
| Payment.Enrol | server.js:563-571 | Exactly one progress record per input course, in order. Each has the course's fields, the paying user, status `enrolled` and `enrolledAt` equal to the payment date. |
| Payment.PaymentSuccess | server.js:535-572 | Any falsy required field (including a total of 0) gives 400 and leaves the counter untouched. Otherwise the counter goes up by exactly 1. A status outside the enum then gives 500. A valid status gives an order whose `orderId` is the new counter value and which carries the request's user, total, status and date; its courses are the input courses projected by `Project`, and the progress records are those of `Enrol`, one enrolled record per input course. |
| Payment.ReceiptConsistent | server.js:548-571 | The i-th progress record matches the i-th ordered course, belongs to the order's user, is enrolled, and is dated at the order's payment date. |
| Payment.TwoCourses | server.js:548-572 | A valid callback with two courses makes one order with both courses and two enrolled progress records. |
| Payment.RunNumbersIncrease | server.js:541-549 | Over callbacks handled in sequence, the counter rises by exactly the number that passed the 400 guard. The order numbers written are strictly increasing, so they are distinct, and lie between the starting and final counter. |

## Left out

- Signup, login, logout, Google OAuth and the profile handlers are not
  modelled. They consist of credential hashing, token signing, session-store
  plumbing and calls to the identity provider.
- The blob-storage uploads (profile picture, trainer application, course
  image) are not modelled. They are foreign storage calls that only return a
  URL; `User.js` and `TrainerApplication.js` serve only these.
- The `/progress` and `/orders` listings are not modelled. They are plain
  store queries, and the descending sort by payment date is done by the
  database.
- The document store is not modelled. Reads and writes, the atomicity of the
  counter's find-and-update under concurrent requests, and lost updates
  between concurrent cart or wishlist requests are all left out. Each
  handler is one sequential step over values passed in. The counter's schema
  file, `Counter.js`, is not part of this model; the counter is modelled from
  its use in the payment handler.
- Storage failures on save are not modelled. The cart and wishlist handlers
  have no error handling, so a rejected save escapes the handler. The
  payment handler turns any error into 500; of those errors the model covers
  only the rejection of a status outside the enum.
- A progress insert that fails after the order was saved (server.js:560 and
  572) is not modelled. The handler then answers 500 and leaves an order
  without progress records.
- Timestamps (`addedAt`, `paymentDate`, `enrolledAt`) are opaque values
  passed through unchanged. The clock that fills `addedAt` is a parameter.
- JavaScript `Number` is modelled as an unbounded integer, so floating point
  and `NaN` (falsy like 0) are not represented.
- The model does not represent fields that are absent rather than empty.
  Optional string fields such as `title` are plain strings.
- Payment.PaymentSuccess: does not model the ObjectId and Date conversions
  the order schema applies on save. A `userId` that is not an ObjectId, or a
  `paymentDate` that is not a date, makes the handler's save fail and answer
  500 with the counter already advanced; the model answers `Ok` with a
  numbered order for such values.
- Payment.PaymentSuccess: does not model a truthy `courses` value that is
  not an array. The handler's `courses.map` (server.js:551) then throws
  before any save, and the handler answers 500 with the counter already
  advanced; the model types `courses` as a sequence. Non-numeric prices are
  likewise not represented.
- Payment.PaymentSuccess: does not represent a `totalAmount` that is not a
  JSON number; the model types it as an integer. A non-empty string is
  truthy and passes the guard, so the counter advances. The string `"0"` is
  then converted to the number 0 on save, and an order with total 0 is
  written. A string such as `"abc"` fails that conversion, and the handler
  answers 500 with the counter already advanced.
- Cart.Add: a non-string `courseId` (such as the JSON number 5) passes the
  truthiness guard but never equals a stored id under `===`, so the handler
  appends a second entry for it on every call; the model types `courseId`
  as a string and does not represent this.
- Cart.UpdateQuantity: a non-string `courseId` passes the guard but never
  equals a stored id under `===`, so the handler answers 404; the model types
  `courseId` as a string and does not represent this.
- Items.Remove: a non-string `courseId` passes the guard but never equals a
  stored id under `===`, so the handler leaves the cart or wishlist
  unchanged; the model types `courseId` as a string and does not represent
  this.
- Wishlist.Add: a non-string `courseId` passes the guard but never equals a
  stored id under `===`, so the handler appends a duplicate entry on every
  call; the model types `courseId` as a string, and the idempotence and
  distinctness lemmas hold only for string identifiers.
- The response `message` texts are not modelled; only the status and the
  returned item list are.
