# The Grand Luxe hotel booking core, in Dafny

This project models the core of a small hotel booking application. The
backend has five endpoints over two tables, `rooms` and `reservations`:

- `book_room` creates a reservation.
- `check_availability` lists the rooms that are free for a date range.
- `cancel_reservation` marks a reservation cancelled.
- `get_reservations` finds reservations by email and/or phone.
- `get_rooms` lists the catalogue.

The static page has its own validators and keeps a local reservation list.

Dates are whole day numbers and timestamps are whole seconds; day `d`
starts at second `d * 86400`. Prices are integers. Each endpoint is a
function from the parsed request and the tables to a result value
(`Result` / `Option` for the error paths), with the guards in the code's
order. The tables live in the class `Store.Hotel`:

- `Book` and `Cancel` change its fields and are proved equal to the
  specification functions `Booking.BookOutcome` and
  `Cancellation.CancelOutcome`.
- The three read endpoints are methods whose fetch loops build the
  response list. They are proved against the query functions.

The page's globals (`selectedRoom`, `reservations`) live in the class
`Frontend.BookingPage`.

The central property is the safety invariant `Occupancy.WithinCapacity`:
on no day is any room covered by more non-cancelled reservations than its
`total_rooms`. It is part of `Hotel.Valid()`, so every booking and
cancellation keeps it. The proof rests on two facts:

- The booking endpoint's whole-interval overlap count bounds the
  occupancy of every single day.
- A cancellation only lowers counts.

A third fact links the query's count to the design's notion of overlap:
the SQL three-clause test equals the half-open test `a < y && b > x`
whenever both intervals are non-empty. It is not a step of the invariant
proof; it is what makes the count the one the design describes
(`Availability.BookedCountIsHalfOpen`).

Where the code and its design description differ, the model follows the
code:

- Cancellation compares the check-in date at midnight with the current
  date-time. A reservation therefore cannot be cancelled on its check-in
  day once that day has begun. The design talks only of whole dates.
- A second cancellation carrying a different email is reported as "not
  found", not "already cancelled". With the same email, or none, it is
  "already cancelled".
- The booking endpoint checks only that the guest count is not empty and
  not above `max_guests`. A negative count passes.
- The three-clause overlap test equals the half-open test only when the
  requested range is also ordered. The endpoints validate this first
  (`Occupancy.SqlOverlapNeedsOrderedRequest` gives the counterexample).
- Lookups return cancelled reservations too, because the query has no
  status filter.

## Model

| member | source | states |
|---|---|---|
| Types.DaysBetween | backend/api/book_room.php:85-87 | the number of whole days between two dates, in either order |
| Types.DayStart | backend/api/cancel_reservation.php:80-83 | definition: `new DateTime('Y-m-d')` is midnight of that day; its use is stated by Cancellation.RefusedOnCheckInDay |
| Types.EmptyText | backend/api/book_room.php:31-51 | definition of PHP `empty` on text ("" and "0"); its consequences are Booking.ZeroIsMissing and Booking.MissingFieldDecides |
| Types.MissingText | backend/api/book_room.php:34-42 | definition of `empty` on an optional text field; used by Booking.FirstMissing |
| Types.MissingNumber | backend/api/book_room.php:31-33 | definition of `empty` on an optional number (absent or 0); stated by Booking.ZeroIsMissing and Cancellation.IdRequiredFirst |
| Types.FindById | backend/api/book_room.php:101-113 | a primary-key lookup (and the page's `find`, script.js line 193): the result is an element with that key, and is none exactly when no element has the key |
| Types.FindByIdAt | backend/api/book_room.php:101-109 | with unique keys, looking up a stored element's key returns that element |
| Types.FindRoom | backend/api/book_room.php:101-113 | definition: `SELECT .. FROM rooms WHERE id = :room_id` is Types.FindById on the room id; its properties are Types.FindById and Types.FindByIdAt |
| Text.SkipLeading | backend/api/book_room.php:55-57 | the first kept position: at or after the start, and not a trim character |
| Text.SkipTrailing | backend/api/book_room.php:55-57 | the end once trailing trim characters are dropped: the last kept character is not a trim character |
| Text.Trim | backend/api/book_room.php:55-57 | PHP `trim`: no longer than the input, and neither starts nor ends with a trim character |
| Text.IsTrimChar | backend/api/book_room.php:55-57 | definition of PHP `trim`'s default set " \t\n\r\0\x0B"; Text.TrimIsInfix states what `trim` removes with it |
| Text.SkipLeadingSkipsTrimChars | backend/api/book_room.php:55-57 | every skipped leading character is a trim character |
| Text.SkipTrailingSkipsTrimChars | backend/api/book_room.php:55-57 | every skipped trailing character is a trim character |
| Text.TrimIsInfix | backend/api/book_room.php:55-57 | the trimmed string is an infix of the input, and everything cut off at either end is a trim character |
| Text.TrimIdempotent | backend/api/get_reservations.php:29-33 | trimming an already trimmed value changes nothing |
| Text.PcrePhonePattern | backend/api/book_room.php:69 | definition of `/^[\d\s\-\+\(\)]+$/` with PCRE's `\s`; its properties are Booking.PhoneRule and Text.PcrePhoneIsJsPhone |
| Text.JsPhonePattern | script.js:411-412 | definition of the same pattern with ECMAScript's `\s`; its properties are Text.PcrePhoneIsJsPhone and Frontend.UntrimmedPhoneLength |
| Text.PcrePhoneIsJsPhone | script.js:411-412 | every string the server's phone pattern accepts is accepted by the page's pattern |
| Text.CountChar | backend/api/get_rooms.php:65 | the count of a character is zero exactly when it does not occur |
| Text.Split | backend/api/get_rooms.php:65 | `explode`: at least one part, and no part contains the delimiter |
| Text.Join | backend/api/get_rooms.php:65 | the reference inverse of `explode` (PHP `implode`); the round trips are Text.JoinSplit and Text.SplitJoin |
| Text.JoinSplit | backend/api/get_rooms.php:65 | joining the parts of `explode` with the delimiter gives back the original string |
| Text.SplitCount | backend/api/get_rooms.php:65 | `explode` yields one more part than there are delimiters |
| Text.SplitJoin | backend/api/get_rooms.php:65 | splitting the join of delimiter-free parts gives back those parts |
| Text.SplitOfSepFree | backend/api/get_rooms.php:65 | a string without the delimiter splits into itself alone |
| Text.SplitPrefix | backend/api/get_rooms.php:65 | a delimiter-free prefix followed by the delimiter becomes the first part |
| Sorting.InsertBy | backend/api/get_rooms.php:45-46 | inserting one element adds exactly that element to the multiset |
| Sorting.SortBy | backend/api/get_rooms.php:45-46 | `ORDER BY` keeps the number of rows |
| Sorting.InsertBySorted | backend/api/get_rooms.php:45-46 | inserting into a sorted list keeps it sorted |
| Sorting.SortBySorted | backend/api/get_rooms.php:45-46 | the sorted rows are in ascending key order |
| Sorting.SortByPermutation | backend/api/get_rooms.php:45-46 | sorting is a permutation of the rows |
| Sorting.SortByMembers | backend/api/get_reservations.php:72 | a row is in the sorted result exactly when it is in the input |
| Occupancy.SqlOverlapIsHalfOpen | backend/api/check_availability.php:80-84 | for non-empty stored and requested intervals, the three-clause test equals half-open overlap |
| Occupancy.SqlOverlapNeedsOrderedRequest | backend/api/check_availability.php:80-84 | for the reversed request 5..3 against the stay 4..6, the two tests disagree |
| Occupancy.OverlapExamples | backend/api/check_availability.php:109-113 | the stays 10..15 and 15..20 do not overlap; 12..14 and 5..11 overlap 10..15 |
| Occupancy.SqlOverlap | backend/api/check_availability.php:80-84 | definition of the three `OR`ed clauses; its properties are Occupancy.SqlOverlapIsHalfOpen, Occupancy.SqlOverlapNeedsOrderedRequest and Occupancy.OverlapExamples |
| Occupancy.Blocks | backend/api/book_room.php:123-129 | definition of the `WHERE` of the `booked_count` query (same room, not cancelled, overlapping); counted by Occupancy.BookedCount |
| Occupancy.WithinCapacity | backend/api/book_room.php:138-142 | definition of the inventory invariant the availability check protects; kept by Occupancy.AppendKeepsWithinCapacity, Booking.BookKeepsWithinCapacity and Cancellation.CancelKeepsCapacity |
| Occupancy.BookedCount | backend/api/book_room.php:121-129 | `booked_count` never exceeds the number of reservations |
| Occupancy.DayOccupancy | backend/api/book_room.php:121-142 | the occupancy of a room on a day never exceeds the number of reservations |
| Occupancy.BookedCountAppend | backend/api/book_room.php:121-129 | a new row adds one to the count exactly when it blocks the range |
| Occupancy.DayOccupancyAppend | backend/api/book_room.php:148-153 | a new row adds one to a day's occupancy exactly when it covers that day |
| Occupancy.DayOccupancyAtMostBooked | backend/api/book_room.php:121-142 | for a day inside the requested range, the day's occupancy is at most `booked_count` |
| Occupancy.DayOccupancyMonotone | backend/api/cancel_reservation.php:88-91 | turning rows into cancelled ones never raises a day's occupancy |
| Occupancy.AppendKeepsWithinCapacity | backend/api/book_room.php:138-153 | inserting a row whose range has `booked_count < total_rooms` keeps every room within capacity on every day |
| Occupancy.CancelKeepsWithinCapacity | backend/api/cancel_reservation.php:88-91 | overwriting a row with a cancelled one keeps every room within capacity |
| Booking.FirstMissing | backend/api/book_room.php:31-51 | the reported missing field is empty and every field checked before it is not |
| Booking.IsMissing | backend/api/book_room.php:31-51 | definition of each field's `empty` test; Booking.FirstMissing and Booking.MissingFieldDecides state its order |
| Booking.Sanitize | backend/api/book_room.php:54-61 | definition of the typed, trimmed values; Booking.Validate and Booking.BookedRow state what reaches the row |
| Booking.PhoneAccepted | backend/api/book_room.php:69-71 | definition of the phone test after trimming; stated by Booking.PhoneRule |
| Booking.CheckStay | backend/api/book_room.php:63-82 | email, then phone, then date order, then past date, each refused exactly under its condition; otherwise the stay is accepted unchanged |
| Booking.Validate | backend/api/book_room.php:31-82 | a request is accepted exactly when every field is present, the email passes, the trimmed phone is accepted and `today <= check_in < check_out`; it is then the sanitised request |
| Booking.NewRow | backend/api/book_room.php:145-165 | definition of the inserted row; Booking.BookedRow states its nights, price, status and fields |
| Booking.Reserve | backend/api/book_room.php:100-142 | definition of the transaction's checks; Booking.ReserveOrder states each outcome as an exact condition |
| Booking.BookOutcome | backend/api/book_room.php:31-202 | definition of the whole endpoint; its properties are Booking.MissingFieldDecides, Booking.DateChecksPrecedeLookup, Booking.BookedRow and Booking.BookKeepsWithinCapacity |
| Booking.MissingFieldDecides | backend/api/book_room.php:31-51 | the first empty required field decides the error, whatever else is wrong |
| Booking.ZeroIsMissing | backend/api/book_room.php:31-51 | a zero room id, zero guests or a full name "0" count as missing |
| Booking.PhoneRule | backend/api/book_room.php:57-71 | after the email passes, the phone is refused exactly when the trimmed string fails the pattern or has fewer than 10 characters |
| Booking.DateChecksPrecedeLookup | backend/api/book_room.php:74-82 | a date error is reported before any room lookup, whatever the tables hold; the order error comes before the past-date error |
| Booking.ReserveOrder | backend/api/book_room.php:111-142 | unknown room, then too many guests, then no availability, each exactly under its condition |
| Booking.BookedRow | backend/api/book_room.php:85-190 | the stored row gets the next id, is confirmed and created now (the assumed column default), for an existing room with room for the guests and a free unit; its name, email and phone are the trimmed request values, its dates, guests and special requests (trimmed) are the request's, nights equal check-out minus check-in and are positive, and the price is nights times the nightly price |
| Booking.BookKeepsWithinCapacity | backend/api/book_room.php:121-153 | a successful booking keeps every room within its inventory on every day |
| Booking.SecondOverlappingBookingConflicts | backend/api/book_room.php:121-142 | for a room with one unit, once one stay is booked a second, overlapping stay is refused for lack of availability |
| Cancellation.OwnerFilter | backend/api/cancel_reservation.php:36-47 | the email filter is the trimmed email, and is absent when that is "" or "0" |
| Cancellation.FindReservation | backend/api/cancel_reservation.php:47-67 | the first row with the id (and the email, when filtering), or none when no row matches |
| Cancellation.CancelOutcome | backend/api/cancel_reservation.php:31-105 | definition of the endpoint's guards; its properties are Cancellation.IdRequiredFirst, Cancellation.OwnershipCheck, Cancellation.RefusedOnCheckInDay, Cancellation.CancelReceiptEchoes and the Cancellation.SecondCancel lemmas |
| Cancellation.MarkCancelled | backend/api/cancel_reservation.php:88-94 | the update keeps the number of rows |
| Cancellation.MarkCancelledOnlyTarget | backend/api/cancel_reservation.php:88-94 | only the target row changes: cancelled, with an updated timestamp; no row is deleted |
| Cancellation.IdRequiredFirst | backend/api/cancel_reservation.php:31-33 | an absent or zero id is refused whatever the table holds |
| Cancellation.OwnershipCheck | backend/api/cancel_reservation.php:47-72 | a non-empty email that differs gives "not found"; without an email the id alone finds the row |
| Cancellation.RefusedOnCheckInDay | backend/api/cancel_reservation.php:79-85 | once the check-in day has begun, cancellation is refused |
| Cancellation.CancelReceiptEchoes | backend/api/cancel_reservation.php:74-105 | the receipt echoes the id and the stored name and email; the row was confirmed and check-in had not begun |
| Cancellation.SecondCancelFails | backend/api/cancel_reservation.php:74-77 | after a successful cancellation, a second one fails, as already cancelled or as not found |
| Cancellation.SecondCancelAlreadyCancelled | backend/api/cancel_reservation.php:74-77 | with the same email, the second attempt is reported as already cancelled |
| Cancellation.CancelKeepsCapacity | backend/api/cancel_reservation.php:88-94 | a successful cancellation keeps every room within capacity |
| Catalog.FeatureList | backend/api/get_rooms.php:65 | empty features give `[]`; otherwise one part more than commas, no part holds a comma, and joining the parts gives back the text |
| Catalog.FeaturesKeepBlanks | backend/api/check_availability.php:144 | the parts are not trimmed: "p,q" gives exactly `[p, q]` |
| Catalog.CatalogEntry | backend/api/get_rooms.php:56-67 | definition of the `$room_data` array of one row; Catalog.CatalogResponse states what a response of them holds |
| Catalog.CatalogQuery | backend/api/get_rooms.php:34-46 | definition of `SELECT .. ORDER BY price_per_night ASC`; stated by Catalog.CatalogQueryIsOrderedPermutation |
| Catalog.CatalogQueryIsOrderedPermutation | backend/api/get_rooms.php:34-46 | every room appears exactly as often as in the table, cheapest first |
| Catalog.CatalogResponse | backend/api/get_rooms.php:53-70 | a response with one entry per query row lists every room, cheapest first |
| Availability.ValidateDates | backend/api/check_availability.php:31-48 | missing dates, then check-out not after check-in, then check-in in the past, each exactly under its condition |
| Availability.Having | backend/api/check_availability.php:86-116 | a row is kept exactly when its room has a positive remaining count, with that room's `booked_count` |
| Availability.HavingComplete | backend/api/check_availability.php:86-116 | every room with a free unit passes `HAVING`, carrying its own `booked_count` |
| Availability.WhereId | backend/api/check_availability.php:87 | `WHERE r.id = :room_id` keeps exactly the rooms with that id |
| Availability.RoomFilter | backend/api/check_availability.php:59-63 | definition: an absent room id is 0, and 0 selects every room |
| Availability.AvailabilityQuery | backend/api/check_availability.php:63-120 | definition of the two queries; its properties are Availability.ListedRoomsHaveFreeUnits, Availability.AllRoomsListing and Availability.OneRoomListing |
| Availability.ToAvailable | backend/api/check_availability.php:132-145 | definition of the `$room_data` array of one row; Availability.AvailabilityResponse states its free units |
| Availability.ListedRoomsHaveFreeUnits | backend/api/check_availability.php:88-142 | every listed room has `available_rooms = total_rooms - booked_count` and that is positive |
| Availability.AvailabilityResponse | backend/api/check_availability.php:129-147 | a response with one entry per query row lists only rooms of the table, each with `available_rooms = total_rooms - booked_count`, positive |
| Availability.AllRoomsListing | backend/api/check_availability.php:59-117 | without a room id, a room is listed exactly when it has a free unit, in ascending price order |
| Availability.WhereIdAtMostOne | backend/api/check_availability.php:87 | with unique ids at most one room passes the id filter |
| Availability.HavingAtMostInput | backend/api/check_availability.php:116 | `HAVING` never adds rows |
| Availability.OneRoomListing | backend/api/check_availability.php:63-88 | with a room id, at most one room is listed, and it has that id |
| Availability.BookedCountIsHalfOpen | backend/api/check_availability.php:75-85 | for a valid range and stored stays of at least one night, `booked_count` is the half-open overlap count |
| Availability.HalfOpenCount | backend/api/check_availability.php:76-84 | the reference count with the half-open overlap test; Availability.BookedCountIsHalfOpen equates it with the query's count |
| Lookup.ContactOf | backend/api/get_reservations.php:27-105 | no query runs exactly when both trimmed fields are empty; both, email only or phone only select the matching filter |
| Lookup.Blank | backend/api/get_reservations.php:29-38 | definition of `empty(trim(..))` on an optional parameter; Lookup.ContactOf states the branch it selects |
| Lookup.Matches | backend/api/get_reservations.php:69-71 | definition of the `WHERE` clauses of the three queries (lines 71, 99 and 126), with no status condition; used by Lookup.LookupQuerySound and Lookup.LookupQueryComplete |
| Lookup.LookupQuery | backend/api/get_reservations.php:52-72 | definition of the join ordered by `created_at DESC`; its properties are Lookup.LookupQuerySound, Lookup.LookupQueryComplete and Lookup.LookupQueryNewestFirst |
| Lookup.View | backend/api/get_reservations.php:139-156 | definition of the `$reservation_data` array of one row; Store.FetchReservations pushes one per row |
| Lookup.JoinMatches | backend/api/get_reservations.php:69-71 | every joined row matches the filter and is paired with its own room |
| Lookup.JoinMatchesComplete | backend/api/get_reservations.php:69-71 | every matching reservation whose room exists is in the join |
| Lookup.LookupQuerySound | backend/api/get_reservations.php:50-131 | every returned row is a matching reservation joined with its own room |
| Lookup.LookupQueryComplete | backend/api/get_reservations.php:69-71 | every matching reservation whose room exists is returned, cancelled ones included |
| Lookup.LookupQueryNewestFirst | backend/api/get_reservations.php:72-127 | the rows are in descending `created_at` order |
| Store.FetchAvailable | backend/api/check_availability.php:130-148 | one response entry per fetched row, in row order, each that row's room data with its free units |
| Store.FetchReservations | backend/api/get_reservations.php:137-159 | one response entry per fetched row, in row order, each that reservation with its room's name, type and image |
| Store.FetchRooms | backend/api/get_rooms.php:53-70 | one response entry per fetched row, in row order, each that room with its feature list |
| Store.Hotel.Book | backend/api/book_room.php:31-202 | the result is the endpoint's outcome; success appends exactly that row and advances the id, failure writes nothing; validity including capacity is kept |
| Store.Hotel.Cancel | backend/api/cancel_reservation.php:31-105 | the result is the endpoint's outcome; success marks the row cancelled, failure writes nothing; validity is kept |
| Store.Hotel.CheckAvailability | backend/api/check_availability.php:31-159 | date errors exactly as validated; otherwise one entry per fetched row with its free units, positive, `count` equal to the length, dates echoed |
| Store.Hotel.GetReservations | backend/api/get_reservations.php:27-174 | refused exactly when both fields are blank; otherwise one matching entry per joined row, newest first, and `count` equal to the length |
| Store.Hotel.GetRooms | backend/api/get_rooms.php:34-76 | one entry per room, every room included, cheapest first, and `count` equal to the number of rooms |
| Store.ListedRoomCanBeBooked | backend/api/book_room.php:121-142 | a room the availability check (backend/api/check_availability.php, line 116) lists for a range is neither unknown nor full for a booking of that range |
| Store.BookingIsFoundByPhone | backend/api/get_reservations.php:105-127 | after a successful booking, a lookup by its phone returns the new row with its room |
| Store.BookingIsFoundByEmail | backend/api/get_reservations.php:78-100 | after a successful booking, a lookup by its email returns the new row with its room, given that the email filter accepts neither "" nor "0" |
| Frontend.FindDemoRoom | script.js:193 | definition: `roomsData.find` on the id is Types.FindById; its properties are Types.FindById, Types.FindByIdAt and Frontend.DemoRoomIds |
| Frontend.RoomsData | script.js:7-68 | the six demo rooms with their ids, names, prices, features and guest limits, as the literal list gives them; Frontend.DemoRoomIds states how they are found |
| Frontend.DemoRoomIds | script.js:7-68 | the ids 1 to 6 find their own rooms; any other id finds none |
| Frontend.EmailPartAt | script.js:404 | a part of the pattern holds no `@` and no white space |
| Frontend.EmailPartOf | script.js:404 | a non-empty run without `@` and white space is a part of the pattern |
| Frontend.EmailRegexMatch | script.js:404-405 | definition of `/^[^\s@]+@[^\s@]+\.[^\s@]+$/` as a split into three parts; Frontend.EmailRegexIsShape states what it accepts |
| Frontend.EmailShape | script.js:404-405 | the reference description of an accepted address, proved equal to the pattern by Frontend.EmailRegexIsShape |
| Frontend.EmailRegexGivesShape | script.js:404-405 | an accepted address has no white space, exactly one `@` not at the start, and a `.` strictly inside the domain |
| Frontend.EmailShapeGivesRegex | script.js:404-405 | every address of that shape is accepted |
| Frontend.EmailRegexIsShape | script.js:404-405 | the pattern accepts exactly the addresses of that shape |
| Frontend.ValidateDates | script.js:382-399 | past check-in first, then check-out not after check-in; accepted exactly when `today <= check_in < check_out` |
| Frontend.DateOrderDiffers | script.js:388-396 | a past check-in with a reversed range is a past-date error in the page and an order error at the server |
| Frontend.SameDatesAccepted | script.js:382-399 | the page and the availability endpoint accept the same date pairs |
| Frontend.BackendPhoneAcceptedByPage | script.js:411-415 | every phone the server accepts after trimming, the page accepts as typed, unless it contains a NUL |
| Frontend.TrailingNulPhoneDiffers | script.js:411-415 | "1234567890" followed by a NUL passes at the server, which trims the NUL, and fails in the page, whose `\s` does not match it |
| Frontend.FormPhoneOk | script.js:411-412 | definition of the page's phone test on the untrimmed string; stated by Frontend.BackendPhoneAcceptedByPage and Frontend.UntrimmedPhoneLength |
| Frontend.UntrimmedPhoneLength | script.js:411-415 | two spaces before eight digits pass in the page and fail at the server, which trims first |
| Frontend.ValidateBookingForm | script.js:402-431 | email, then phone on the raw string, then dates, then the guest limit, each refused exactly under its condition; a date error is `validateDates`' own |
| Frontend.CalculateNights | script.js:468-474 | the whole days between the dates, in either order |
| Frontend.SpliceStart | script.js:441 | where `splice` starts: the index itself when in range, counted from the end when negative, 0 below `-length`, the length above it |
| Frontend.Splice | script.js:441 | at most one element goes, and the others keep their order |
| Frontend.SpliceRemovesOne | script.js:438-442 | a valid index removes exactly that element: one fewer, order kept, nothing else lost |
| Frontend.SpliceOutOfRange | script.js:441 | an index past the end removes nothing |
| Frontend.Entry | script.js:315-336 | the saved entry carries the room's id, name and price, the form's name, email, phone, dates, guests and requests unchanged, nights equal to check-out minus check-in, and price nights times the room price |
| Frontend.BookingPage.constructor | script.js:70-72 | the page starts with no selected room and the reservation list that `loadReservations` (lines 455-461) read earlier |
| Frontend.BookingPage.OpenBookingModal | script.js:192-194 | the selected room is the one with the id, none when unknown; the list is unchanged |
| Frontend.BookingPage.CloseBookingModal | script.js:216-222 | no room is selected afterwards; the list is unchanged |
| Frontend.BookingPage.HandleBookingSubmit | script.js:309-345 | with a selected room and a valid form, exactly one entry is appended and the modal closes; otherwise nothing changes |
| Frontend.BookingPage.CancelReservation | script.js:438-442 | after confirmation, the list is spliced at the index; a valid index removes exactly that entry, and nothing changes without confirmation |

## Left out

- HTTP, JSON, headers, status codes and response messages are left out. Each endpoint is a function or method from the parsed request to a result; the message strings depend only on the modelled outcome.
- The database connection (backend/config/database.php) is left out: the tables are fields of `Store.Hotel`. Connection failures and failed `execute` calls are left out too; the model has no storage errors.
- Transactions and concurrency are left out. `Store.Hotel.Book` is one atomic step, so concurrent check-then-insert races are not modelled.
- Booking.NewRow: the INSERT names neither `created_at` nor `updated_at`. The model assumes the schema, which is not part of this model, defaults both columns to the current time; `Lookup.LookupQueryNewestFirst` orders by that value.
- Lookup.Matches: SQL string comparison is modelled as exact, case-sensitive equality. Under a case-insensitive collation, which MySQL uses by default, `WHERE r.email = :email` and `r.phone = :phone` also match values that differ in letter case or trailing spaces. The schema is not part of this model, so neither the lookup nor the ownership check promises anything for such values.
- Cancellation.FindReservation: the same holds for `AND email = :email` in the ownership check. `Cancellation.OwnershipCheck` says "not found" for an email that differs only in letter case, where MySQL with a case-insensitive collation would find the row.
- `FILTER_VALIDATE_EMAIL` is a foreign library call. It is the parameter `emailOk` of `Booking.Validate`.
- Date parsing (`strtotime`, `date`, JavaScript `Date`), time zones, and invalid dates (NaN comparisons in the page) are left out. Dates are already-parsed day numbers, and "today" and "now" are parameters.
- Floating-point casts of prices are left out; prices and totals are integers.
- `(int)` casts of non-numeric text are left out. Numeric fields arrive as already-converted integers.
- `parseInt` returning NaN for the guest count in the page is left out; the form's guest count is an integer.
- Frontend.BookingPage.HandleBookingSubmit: the random "Pending"/"Confirmed" status, the confirmation code and the booking timestamp come from randomness or the clock and are not part of `LocalReservation`.
- DOM rendering, modals, alerts, scrolling, the contact form, `handleAvailabilityCheck` (it only shows a message) and `localStorage` writes are UI or I/O. The list loaded from storage is the constructor's parameter.
- Sorting.SortBy: SQL leaves the order of rows with equal keys unspecified; the model keeps table order (a stable sort).
- Store.Hotel.constructor: the rooms are seed data created outside the application; the constructor only assumes unique ids and non-negative inventories.
