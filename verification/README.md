# Sinyor Motor product store, modelled in Dafny

The Sinyor Motor demo is a browser page for keeping a small list of motorcycle
parts. A product is an `(id, name, price)` record. The list is kept in display
order and is written whole to browser storage after every change. The products
page has one form that either adds a record or, once the user has clicked
"Edit" on a record, updates that record. Each list item also has a "Hapus"
(delete) button. The dashboard shows three figures: the number of products,
twice that number as "sales", and the sum of all prices as revenue. The login
form only checks that neither field is blank.

This project restates that logic as pure functions over immutable values and
proves what they do:

- `wrappers.dfy` (`Wrappers`): `Option` and `Result`.
- `text.dfy` (`Text`): `String.prototype.trim`. It removes the exact set of
  ECMAScript WhiteSpace and LineTerminator code points from both ends.
- `products.dfy` (`Products`): the record, `find` by id, `filter` by id, the
  three seed records, and the price sum (both the `reduce` left fold and a
  reference sum).
- `store.dfy` (`Store`): the page state, which is the collection plus the
  pending-edit id, i.e. the hidden id field of the form. It holds the submit
  handler (refuse, add or update), the delete and edit branches of the
  list-click handler, and the reset button.
- `session.dfy` (`Session`): one visit to the products page. Opening the page
  loads storage and seeds it when empty. Every handler is one `Step`, and the
  handlers that change the collection write it back.
- `dashboard.dfy` (`Dashboard`): the three dashboard figures and how each
  handler moves the revenue.
- `login.dfy` (`Login`): the login form's blank-field check.
- `scenario.dfy` (`Scenario`): a worked visit. It seeds, adds "Helm" at 150000,
  edits it to "Helm SNI" at 175000, then deletes it. The revenue goes
  105000, 255000, 280000, 105000.

Boundary choices:

- Ids are integers. The page keeps the pending id as text and compares it to
  numeric ids with loose `==`. Here it is parsed once, at the boundary, into
  `Option<int>`.
- `Date.now()` is the `now` parameter of a submit.
- `parseInt` of the trimmed price text is the `price` parameter.
- Storage is the value `saved: Option<seq<Product>>`. `None` stands for a
  missing key or an empty string.

Behaviour of the page worth knowing:

- An update whose pending id matches no record makes `find` return
  `undefined`, and the handler throws when it assigns `p.name` on it, before
  anything changes. The model returns `Err(NotFound)` and leaves the page as it
  was (`Session.Step`). That includes the pending id, because the handler stops
  before it clears the hidden field. An edit click on an id no record carries
  likewise throws on `p.id` and changes nothing.
- Deleting does not leave edit mode. Deleting the record being edited therefore
  makes every later valid submit fail with `NotFound` and change nothing, for
  as long as only submits and deletes follow; a Reset or an Edit click on a
  listed record ends it (`Store.DeleteWhileEditingStrands`,
  `Session.RunStaysStranded`).
- Seeding happens every time the page opens on an empty collection, not only
  on the first visit (`Session.ReopenRestores`).
- Ids can repeat. An add whose clock value equals an existing id creates a
  duplicate (`Store.AddKeepsUniqueIff` proves both directions). With
  duplicates, an update and an edit click use only the first match
  (`Store.Submit`, `Store.SelectEdit`) and a delete removes every match
  (`Products.WithoutId`).
- Prices are not checked to be non-negative. Any integer is stored.

## Model

| member | source | states |
|---|---|---|
| `Text.Trim` | js/script.js:184-185 | The result is the input with only whitespace taken off its two ends. It is empty exactly when the input is all whitespace. A non-empty result starts and ends with a non-space. |
| `Text.TrimStart` | js/script.js:184 | Drops exactly the leading whitespace: what remains is a suffix that starts with a non-space. |
| `Text.TrimEnd` | js/script.js:184 | Drops exactly the trailing whitespace: what remains is a prefix that ends with a non-space. |
| `Text.TrimIdempotent` | js/script.js:184-185 | Trimming a trimmed value changes nothing. |
| `Text.TrimOfUnpadded` | js/script.js:184-185 | Text with no whitespace at either end is its own trim. |
| `Login.Accepts` | js/script.js:55-58 | Login is accepted iff the email and the password each contain a non-whitespace character. |
| `Products.FindIndex` | js/script.js:200 | `find` by id gives the position of the FIRST record with that id, or nothing exactly when no record has it. |
| `Products.FindIndexFirst` | js/script.js:200 | `find` reports position k for k's id exactly when no earlier record shares that id. |
| `Products.FindIndexUnique` | js/script.js:245 | When ids are unique, looking up the id of the record at position k finds k. |
| `Products.WithoutId` | js/script.js:237 | The filter keeps a record iff it was in the collection and its id differs. No record with that id remains, and the collection never grows. |
| `Products.WithoutIdConcat` | js/script.js:237 | The filter distributes over concatenation, so the kept records stay in their original order. |
| `Products.WithoutAbsentId` | js/script.js:237 | Deleting an id that no record carries returns the collection unchanged. |
| `Products.WithoutIdIdempotent` | js/script.js:237 | Filtering twice by the same id is filtering once. |
| `Products.WithoutPresentId` | js/script.js:237 | With unique ids, deleting the id at position k gives exactly the records before k followed by the records after k. |
| `Products.WithoutIdKeepsUnique` | js/script.js:237 | Deleting never introduces a duplicate id. |
| `Products.SeedIfEmpty` | js/script.js:136-143 | An empty collection becomes exactly three records: ids 1, 2, 3 in that order with the literal names and prices. A non-empty collection is returned unchanged. |
| `Products.SeedIfEmptyIdempotent` | js/script.js:136-143 | Seeding a seeded collection changes nothing. |
| `Products.ReduceIsTotal` | js/script.js:99-100 | The `reduce` left fold from an accumulator equals that accumulator plus the reference sum of all prices. |
| `Products.TotalConcat` | js/script.js:99-100 | The sum of prices over two concatenated collections is the sum of their sums. |
| `Store.Append` | js/script.js:214-220 | The pushed record becomes the last record, the length grows by one, and every earlier record is unchanged and in place. |
| `Store.Rewrite` | js/script.js:200-203 | Only the first record with the id gets the new name and price. Its id, the length and every other record are unchanged. |
| `Store.Submit` | js/script.js:181-225 | A blank trimmed name or price refuses with MissingField. Otherwise a pending id that matches no record refuses with NotFound. Otherwise, without a pending id the record (clock id, trimmed name, price) is appended; with one, the first matching record is updated in place. Every success leaves edit mode. |
| `Store.Delete` | js/script.js:235-240 | Keeps exactly the records whose id differs, leaves no record with that id, and leaves the pending-edit id alone. |
| `Store.SelectEdit` | js/script.js:244-249 | Fails with NotFound iff no record has the id. Otherwise the collection is unchanged, the pending id becomes the selected record's id, and the FIRST record with that id is the one loaded into the form. |
| `Store.Reset` | js/script.js:258-261 | Leaves edit mode without touching the collection. |
| `Store.DeleteAbsent` | js/script.js:237 | Deleting an absent id leaves the page state unchanged. |
| `Store.DeleteIdempotent` | js/script.js:237 | Deleting twice equals deleting once. |
| `Store.DeletePresent` | js/script.js:237 | With unique ids, a delete removes exactly the one record and keeps the rest in order. |
| `Store.ResetThenSubmitAdds` | js/script.js:258-261 | After a reset, any valid submit appends a record and does not update one. |
| `Store.SelectThenSubmitUpdates` | js/script.js:196-206 | After an edit click on an existing id, a valid submit succeeds, updates the first record with that id in place, and leaves edit mode. |
| `Store.DeleteWhileEditingStrands` | js/script.js:196-201 | Deleting the record whose id is pending makes the next valid submit fail with NotFound. |
| `Store.UpdateKeepsUnique` | js/script.js:200-203 | A valid submit in edit mode on an existing id succeeds and keeps ids unique. |
| `Store.AddKeepsUniqueIff` | js/script.js:214-220 | An add keeps ids unique iff the clock value is not already an id. |
| `Store.AppendUniqueIff` | js/script.js:220 | Pushing a record onto a collection with unique ids keeps them unique iff its id is new. |
| `Store.DeleteKeepsUnique` | js/script.js:237 | A delete keeps ids unique. |
| `Session.LoadSave` | js/script.js:10-17 | Absent storage reads as the empty collection, and a saved collection reads back as itself. |
| `Session.Open` | js/script.js:133-143 | Opening starts outside edit mode with storage equal to the collection shown. Empty or absent storage yields the saved defaults. A non-empty stored collection is shown as stored and not rewritten. |
| `Session.Step` | js/script.js:181-262 | Every handler keeps storage equal to the collection shown, and any change to the collection is written. A submit refused for a blank field or for a missing record changes nothing, the pending id included, and so does an edit click on an id no record carries. Edit and reset neither change nor write the collection. Reset leaves edit mode. A delete keeps the pending id, leaves exactly the filtered collection (every record with a different id, in order) and writes it. |
| `Session.RunKeepsSynced` | js/script.js:15-17 | After any sequence of handlers from a synced page, storage still equals the collection shown. |
| `Session.ReopenRestores` | js/script.js:133-143 | Reopening the page after any visit shows the same collection, or the defaults if the visit emptied it. |
| `Session.StepKeepsUnique` | js/script.js:214-220 | Every handler keeps ids unique, unless a valid add takes an existing id from the clock. |
| `Session.RunKeepsUnique` | js/script.js:215 | Ids stay unique over a whole visit as long as no valid add reuses an existing id as its clock value; blank or refused submits never read the clock. |
| `Session.StepAdds` | js/script.js:214-221 | A valid submit outside edit mode appends the record and saves the new collection. |
| `Session.StepUpdates` | js/script.js:200-206 | A valid submit in edit mode for the id of record k, when no earlier record shares that id, rewrites record k in place, saves, and leaves edit mode. |
| `Session.StepSelects` | js/script.js:244-249 | An edit click on any listed record's id, duplicates or not, enters edit mode for that id and writes nothing. |
| `Session.RunStaysStranded` | js/script.js:196-240 | Once the pending id matches no record, any run of submits and deletes keeps that id pending and unmatched, and every valid submit after it is refused without changing anything. |
| `Dashboard.Summary` | js/script.js:96-100 | The product count is the stored collection's length, sales is twice that, and revenue is the reference sum of the stored prices. |
| `Dashboard.SummaryOfSynced` | js/script.js:96-100 | The dashboard of a synced page shows that page's count and price sum. |
| `Dashboard.TotalUpdate` | js/script.js:200-203 | Replacing one record changes the price sum by the new price minus the old one. |
| `Dashboard.AddRevenue` | js/script.js:214-220 | An add raises the revenue by the new price. |
| `Dashboard.UpdateRevenue` | js/script.js:200-203 | An update of record k, when no earlier record shares its id, swaps that record's old price for the new one in the revenue. |
| `Dashboard.DeleteRevenue` | js/script.js:237 | With unique ids, a delete lowers the revenue by the deleted record's price. |
| `Dashboard.TotalWithoutPresent` | js/script.js:237 | With unique ids, filtering out the id at position k lowers the price sum by that record's price. |
| `Scenario.HelmetVisit` | js/script.js:133-239 | Opening on empty storage, adding "Helm" at 150000, editing it to "Helm SNI" at 175000 and deleting it gives 3, 4, 4, 3 products with revenue 105000, 255000, 280000, 105000. |
| `Scenario.HelmetVisitTyped` | js/script.js:181-239 | The worked visit with the literal form text "Helm", " 150000 ", "Helm SNI", "175000" reaches revenue 255000, 280000, then 105000. |

## Left out

- Browser storage and JSON: `localStorage`/`sessionStorage` reads and writes and
  `JSON.stringify`/`JSON.parse` are foreign I/O. Storage is the value
  `saved: Option<seq<Product>>`. A stored string that is not valid JSON (the
  code throws) is not modelled.
- Rendering: `render`, `innerHTML`, `toLocaleString`, the empty-list note,
  showing and hiding the error box, and the error texts are UI.
  `form.reset()` clearing the visible name and price fields is UI too.
- The `confirm()` dialog is UI. A `DeleteConfirmed` event stands for a delete
  the user confirmed. A cancelled dialog is no event at all.
- Page routing, `requireLogin`, `isLoggedIn`, the logout buttons, `doLogout`,
  the dashboard's navigation button and dark mode are navigation and display
  preferences.
- The effects of a successful login (setting the session flag, redirecting)
  are storage and navigation. Only the blank-field check is modelled.
- `Date.now()` is a clock, so the new record's id is the caller-supplied
  `now`.
- `parseInt` is a foreign parser, so the stored price is the caller-supplied
  `price`. NaN for non-numeric text and prefix parsing (`"12abc"` gives 12)
  are not modelled. Turning a numeric id into text and back (the hidden field,
  the `data-` attributes) is assumed lossless.
- Arithmetic: JavaScript numbers are doubles. Prices and the revenue sum use
  unbounded integers, which agree with doubles below 2^53.
- `console.log` calls are diagnostics.
- Storage written by another tab or window of the same origin is outside the
  model: storage changes only through this page's handlers, so the readings
  of `Session.RunKeepsSynced` and `Session.ReopenRestores` assume no other
  writer between two events.
- An edit click also copies the price into the form as text. The model returns
  the selected record (`Selection.loaded`) and does not model the text
  rendering.
