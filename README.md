# Calendar service core (Lab2 and Lab3)

A Dafny model of the request-independent core of the two versions of a small
calendar web service. Both versions keep users, sessions and events in a
Google Cloud Datastore, and let a signed-in user list, add and delete dated
events:

- `Lab2/main.py` signs users in with a user name and a hashed password. It
  keeps a random ten-letter session token that expires nine hours after it is
  made.
- `Lab3/main.py` signs users in through Google. The session token is the
  access token Google hands back, and sessions are never checked for expiry.

The model has these parts:

- **Datastore** (`datastore.dfy`): an in-memory store. It is a `class` whose
  `entities` sequence is the fixed order queries fetch in, and whose `nextId`
  counter supplies the id a `put` of an incomplete key receives. Keys carry
  their kind and their parent key. This keeps Lab3's quirk: it writes and
  deletes under `Lab2-event`/`Lab2-user` but lists from `Lab3-event`/`Lab3-user`.
- **Tables** (`tables.dfy`): the session table (`_search_session`,
  `_del_session`, `_create_session`), the user table (`_search_user`,
  `_verify_user`, `_add_user`) and the event writes (`_add_event`,
  `_del_event`). Each lab has its own copy of these helpers; those copies
  differ only in kind names, so the kinds are parameters here. Two helpers
  differ in behaviour and live in `lab2.dfy` and `lab3.dfy` instead:
  - Lab2's `_search_session` deletes an expired session; Lab3's never checks
    expiry.
  - Lab2's `_create_session` draws a random token and expires it nine hours
    on. Lab3's stores the token it is given, expiring at the clock.
  For Lab3's lookup, `Tables.SessionOwner` is used directly.
- **Listing** (`listing.dfy`): `get_all`, which drops past events from the
  store while it lists the live ones, and `events2json`. That sorts an
  `array` in place by date, then renders each event's date as `mm/dd/yyyy`
  and its ETA text using integer `//` and `%`.
- **Recurrence** (`recurrence.dfy`): the date-string resolver of `add_event`.
  - It splits on `/`, converts each piece with `int`, and accepts only two or
    three pieces.
  - Three pieces are taken literally as a date.
  - For two pieces, Lab2 picks 2020 or 2021.
  - For two pieces, Lab3 scans the eight years from the clock's year, trying
    a year only when the day passes the `calendar.monthrange` membership test.
- **Calendar** (`calendar.dfy`): proleptic Gregorian dates as Python's
  `datetime` and `calendar` compute them, the weekday of the 1st and the
  month length that `calendar.monthrange` returns, `strftime("%m/%d/%Y")`,
  and the clock. The clock is an injected integer count of Unix seconds, and
  `Midnight(d)` is the timestamp of a date.
- **Text** (`text.dfy`): `str`, `int`, `split`, `join` and string repetition
  on `seq<char>`.
- **Lab2** and **Lab3** (`lab2.dfy`, `lab3.dfy`): the view functions as
  methods over the store. Each returns a `Result` whose error cases are the
  view's `abort`s and raised exceptions. Lab2 also has the random token
  generator; Lab3 has the id_token padding and the part of the Google
  callback that runs after the token exchange.

Injected inputs:

- The clock is the parameter `now`.
- The random source is a sequence of draws, positions in `string.ascii_letters`.
- bcrypt is an opaque function `hash`.
- The claims decoded from Google's id_token are the parameters `sub` and `email`.

Every handler requires and keeps the store invariant `ds.Valid() &&
WellFormed(ds.entities)`. This says that ids are unique and below the counter,
and that every session is stored under a parent key, whose id is its owner.
Every entity the application writes keeps it.

The model's store starts empty (`Datastore.Store`'s constructor). The
handlers do not assume that: they accept any store that meets the invariant,
like the persisted database a real client connects to.

## Model

| member | source | states |
|---|---|---|
| Text.Split | Lab2/main.py:302 | `split('/')` yields at least one piece and no piece contains the separator |
| Text.JoinSplit | Lab2/main.py:302 | joining the pieces of a split with the separator gives the string back |
| Text.SplitJoin | Lab2/main.py:302 | splitting a join of separator-free pieces gives exactly those pieces |
| Text.Join | Lab2/main.py:302 | `c.join(parts)` for a one-character separator: the pieces in order with one `c` between neighbours; the inverse of the split in the two round-trip lemmas |
| Text.NatToString | Lab2/main.py:94-100 | `str` of a natural number is a non-empty digit string with no leading zero |
| Text.IntToString | Lab2/main.py:94-100 | `str` of an integer is non-empty and starts with `-` exactly when the integer is negative |
| Text.ParseInt | Lab2/main.py:305 | `int` of a string of decimal digits is the value of those digits; surrounding ASCII whitespace and one sign are allowed, and anything else is `None` (the ValueError) |
| Text.ParseIntOfIntToString | Lab2/main.py:305 | `int(str(n)) == n` for every integer, negative ones included |
| Text.ParseIntOfZeroPad | Lab2/main.py:305 | `int` reads a zero-padded field such as `06` as its value |
| Text.Repeat | Lab3/main.py:262 | `c * k` is k copies of c |
| Calendar.DaysInMonth | Lab3/main.py:324 | the month length, between 28 and 31, with 29 for February of a leap year |
| Calendar.IsDate | Lab3/main.py:326 | the triples `datetime(year, month, day)` accepts: a year in 1..9999, a month in 1..12 and a day from 1 to the month's length; any other triple raises ValueError, or OverflowError when a field does not fit a C int |
| Calendar.Ordinal | Lab2/main.py:88 | `toordinal()`: days before the year, plus days before the month, plus the day, with 0001-01-01 as day 1 |
| Calendar.Midnight | Lab2/main.py:88 | `timestamp()` of a date is a whole number of days from the Unix epoch, in seconds |
| Calendar.Weekday | Lab3/main.py:324 | the weekday of the 1st of a month, Monday being 0, within 0..6 |
| Calendar.MonthRange | Lab3/main.py:324 | `calendar.monthrange(year, month)` is a weekday (0..6) paired with the month length (28..31) |
| Calendar.WeekdayIsOrdinal | Lab3/main.py:324 | the weekday of the 1st equals Python's `(toordinal() + 6) % 7`, years outside 1..9999 mapped as the calendar module maps them |
| Calendar.Jan1WeekdayIsOrdinal | Lab3/main.py:324 | counting weekdays forward a year length at a time matches the ordinal formula |
| Calendar.YearOf | Lab3/main.py:322-323 | `datetime.now().year` is the year in 1..9999 whose days contain the clock reading |
| Calendar.YearOfUnique | Lab3/main.py:322-323 | only one year contains a given clock reading |
| Calendar.YearOfMidnight | Lab3/main.py:322-323 | the midnight of a date falls in that date's year |
| Calendar.OtherYearIsFuture | Lab3/main.py:326-327 | a date in a later year than the clock is after it; one in an earlier year is before it |
| Calendar.OrdinalStrict | Lab2/main.py:315 | a strictly earlier date has a strictly smaller ordinal |
| Calendar.DateLeIsTimeOrder | Lab2/main.py:85 | datetime order and timestamp order agree, both ways |
| Calendar.FormatFields | Lab2/main.py:90 | the `%m/%d/%Y` text splits on `/` into three fields that `int` reads back as month, day and year |
| Calendar.Format | Lab2/main.py:90 | `strftime("%m/%d/%Y")`: month and day zero-padded to two digits and the year to four, joined by `/` (glibc's `%Y` does not pad years below 1000; see Left out) |
| Datastore.Store.constructor | Lab2/main.py:12 | the model's initial store is empty and meets the store invariant |
| Datastore.Store.Put | Lab2/main.py:41 | `put` appends exactly one entity under a fresh id, larger than every stored id, and returns that id |
| Datastore.Store.Delete | Lab2/main.py:52 | `delete(key)` removes exactly the entities with that key and keeps the others in order |
| Datastore.DeleteAbsent | Lab2/main.py:52 | deleting a key nobody has changes nothing |
| Datastore.DeleteOne | Lab2/main.py:70 | with unique ids, deleting an entity's key removes that entity and nothing else |
| Datastore.NoKeysDeleted | Lab2/main.py:130 | deleting no keys changes nothing |
| Datastore.DeleteNextKey | Lab2/main.py:134-135 | deleting one more collected key is filtering by the longer prefix of the key list |
| Tables.Sessions | Lab2/main.py:126-129 | the session query fetches exactly the sessions of the kind with the token, in store order |
| Tables.Falsy | Lab2/main.py:278 | Python's `not v` on the id a lookup answers: true for `None`/`False` and for id 0 |
| Tables.WithoutSessions | Lab2/main.py:121-135 | what remains holds exactly the stored entities that are not such sessions |
| Tables.SessionOwner | Lab3/main.py:103-115 | the lookup answers nothing exactly when no session has the token, and otherwise the owner of the first one fetched |
| Tables.DelSession | Lab2/main.py:121-135 | the collect-then-delete loops leave exactly the store without the token's sessions, in order, with the counter unchanged |
| Tables.SessionKeys | Lab2/main.py:130-135 | with unique ids, deleting the collected keys is removing the token's sessions |
| Tables.NoOwnerAfterDelete | Lab2/main.py:121-135 | after `_del_session` the lookup of that token finds nothing |
| Tables.PutSession | Lab2/main.py:144-149 | one session entity is appended under the owner's user key with the given token and expiry |
| Tables.SessionOwnerAfterPut | Lab2/main.py:138-150 | a new session is what the lookup finds when no earlier session has its token; otherwise the earlier one still answers |
| Tables.SearchUser | Lab2/main.py:170-181 | true exactly when some stored user of the kind has the name |
| Tables.VerifyUser | Lab2/main.py:153-167 | nothing exactly when no user matches both name and password; otherwise the id of the first match fetched |
| Tables.AddUser | Lab2/main.py:184-199 | a taken name gives `None` and leaves the store and counter unchanged; otherwise exactly one user `{uname, passwd}` is appended and its new id returned |
| Tables.FoundAfterAdd | Lab2/main.py:184-199 | a user just added is found by name, and verified by name and password with its own id |
| Tables.NoAccountWithoutName | Lab2/main.py:160-167 | no account matches a name nobody has |
| Tables.WrongPasswordRefused | Lab2/main.py:160-167 | a user just added, under a name nobody else has, is not verified by a password other than its stored one |
| Tables.AddEventEntity | Lab2/main.py:29-42 | one event `{name, date}` is appended under the owner's user key and its new id returned |
| Tables.DelEventEntity | Lab2/main.py:45-52 | exactly the entities with the key built from owner and event id are removed |
| Tables.AddThenDelete | Lab2/main.py:29-52 | deleting by the id an insertion returned restores the store as it was |
| Tables.OtherOwnerKeepsEvent | Lab2/main.py:51-52 | a delete built from another owner's id leaves the event in place |
| Listing.Evicted | Lab2/main.py:62-71 | the store after the listing holds exactly the entities that are not fetched past events |
| Listing.Expired | Lab2/main.py:69 | an event is past when its date's midnight timestamp is before the clock |
| Listing.LiveListed | Lab2/main.py:67-73 | the events not yet past, each with its id, in the order given; never longer than its input |
| Listing.Visible | Lab2/main.py:62-73 | the list `get_all` answers: `LiveListed` of the ancestor query's events |
| Listing.GetAll | Lab2/main.py:55-74 | the loop deletes exactly the owner's past events, changes nothing else, and answers the owner's live events in fetch order with their ids |
| Listing.VisitEvent | Lab2/main.py:67-73 | one pass of the loop body: a past event is deleted and skipped, a live one appended with its id |
| Listing.EvictedIsVisited | Lab2/main.py:65-71 | deleting each fetched past event in turn leaves exactly `Evicted` |
| Listing.LiveListedMembers | Lab2/main.py:67-73 | a listed item is exactly an event that is not past, tagged with its id |
| Listing.VisibleExactly | Lab3/main.py:61-73 | the answer holds exactly the owner's fetched events dated at or after the clock, each with its id |
| Listing.NewEventListed | Lab2/main.py:62-73 | an added event dated at or after the clock is listed last by its owner's next listing |
| Listing.ForeignEventNotListed | Lab2/main.py:62-63 | an event stored under another kind or another owner does not change the listing |
| Listing.RowsOf | Lab2/main.py:86-100 | one rendered row per event |
| Listing.RowOf | Lab2/main.py:87-100 | one event's row: its name, its `%m/%d/%Y` date, its ETA text at the clock, and its id |
| Listing.Eta | Lab2/main.py:93-100 | under a day, `h:m:s left.` from `diff // 3600`, `diff // 60 % 60` and `diff % 60` without padding; otherwise `diff // 86400` followed by ` days later.` |
| Listing.DateSortedIsTimeOrder | Lab2/main.py:85 | sorted by date means sorted by timestamp, both ways |
| Listing.SortByDate | Lab2/main.py:85 | the in-place sort leaves the array sorted by date and a permutation of its old contents |
| Listing.InsertLast | Lab2/main.py:85 | one insertion step extends the sorted prefix by one element and permutes the array |
| Listing.EventsToJson | Lab2/main.py:77-101 | the array ends sorted by date and permuted, and the rows are those of the sorted events in that order |
| Listing.Render | Lab2/main.py:86-100 | the loop renders each event in order: name, `%m/%d/%Y` date, ETA text and id |
| Listing.EtaText | Lab2/main.py:88-100 | building the ETA by successive `% 60` and `// 60` gives `h:m:s left.` under a day and whole days otherwise |
| Listing.EtaBySteps | Lab2/main.py:95-97 | two floor divisions by 60 are one floor division by 3600 |
| Listing.ClockText | Lab2/main.py:94-98 | the `h:m:s left.` text splits back into the three rendered numbers |
| Listing.EtaRoundTrip | Lab2/main.py:93-98 | under a day, the ETA's three numbers read back as hours, minutes below 60 and seconds below 60 that add up to the seconds to go |
| Listing.EtaDays | Lab2/main.py:99-100 | from a day on, the ETA is the number of whole days to go, at least one |
| Recurrence.IntFields | Lab2/main.py:303-307 | the conversion succeeds exactly when every piece is an integer, and then yields each piece's value in order |
| Recurrence.ConvertFields | Lab2/main.py:303-307 | the conversion loop computes `IntFields`, stopping at the first piece `int` rejects |
| Recurrence.Literal | Lab2/main.py:312 | `datetime(year, month, day)`: that date, or the ValueError (OverflowError when a field does not fit a C int) when it is not a real date |
| Recurrence.Lab2MonthDay | Lab2/main.py:314-315 | 2020-m-d if that is after the clock, otherwise 2021-m-d; an impossible date raises |
| Recurrence.Lab2Resolve | Lab2/main.py:309-315 | Lab2's resolution of the converted fields: bad format unless two or three, three taken literally, two by `Lab2MonthDay` |
| Recurrence.Lab2EventDate | Lab2/main.py:302-315 | Lab2's date string: split on `/`, every piece through `int`, then `Lab2Resolve` |
| Recurrence.DateFormatRejected | Lab3/main.py:309-317 | both labs answer "Date format is wrong!" exactly when some piece is not an integer or there are not two or three pieces |
| Recurrence.Lab2FormatError | Lab2/main.py:309-310 | with integer pieces, only the piece count makes Lab2's date badly formatted |
| Recurrence.Lab3FormatError | Lab3/main.py:316-317 | with integer pieces, only the piece count makes Lab3's date badly formatted |
| Recurrence.Lab3ThreeFields | Lab3/main.py:318-319 | three fields give exactly that year, month and day when it is a real date, and the ValueError (or OverflowError when a field does not fit a C int) otherwise, as in Lab2 |
| Recurrence.Lab2TwoFields | Lab2/main.py:313-315 | two fields give 2020-m-d when that is after the clock, otherwise 2021-m-d whether or not that is after the clock; an impossible date raises |
| Recurrence.Lab2FallbackInPast | Lab2/main.py:315 | once 2021-m-d has passed, Lab2 still answers 2021-m-d, which is before the clock |
| Recurrence.ScanYears | Lab3/main.py:323-329 | the year loop with its `continue` and `break` computes the scan over `[year, year + 8)` |
| Recurrence.InMonthRange | Lab3/main.py:324 | the negation of the skip test `day not in calendar.monthrange(year, month)`: the day equals the weekday of the 1st or the month's length |
| Recurrence.PassedOver | Lab3/main.py:324-327 | a year the scan moves past without answering and without raising: it fails the membership test, or it gives a real date that is not after the clock |
| Recurrence.Lab3Scan | Lab3/main.py:323-329 | the year scan: a year failing the membership test is skipped, an impossible date raises, the first date after the clock is found |
| Recurrence.Lab3Resolve | Lab3/main.py:316-332 | Lab3's resolution of the converted fields: bad format, the literal date, the illegal month, or the scan's date, "Date does not exist!" or ValueError |
| Recurrence.Lab3EventDate | Lab3/main.py:309-332 | Lab3's date string: split on `/`, every piece through `int`, then `Lab3Resolve` |
| Recurrence.ResolveLab3 | Lab3/main.py:316-332 | Lab3's resolution of the converted fields: the bad-format error, the literal date, the illegal-month error, or the scan's outcome |
| Recurrence.ScanFound | Lab3/main.py:323-329 | a found date has the given month and day, lies in the window, is after the clock and passes the membership test; every earlier year was passed over |
| Recurrence.ScanNotFound | Lab3/main.py:323-331 | the scan finds nothing exactly when every year of the window is passed over |
| Recurrence.ScanRaised | Lab3/main.py:324-326 | the scan raises only at a year that passes the membership test with an impossible date, after passing over every earlier year |
| Recurrence.Lab3TwoFields | Lab3/main.py:320-332 | a month outside 1..12 raises; a found date is after the clock, in `[now.year, now.year + 8)`, and every earlier year was passed over; "Date does not exist!" means every year of the window was passed over |
| Recurrence.MidMonthDayNeverFound | Lab3/main.py:324 | a day from 7 to 27 is never found, whatever the month and clock |
| Recurrence.MidMonthScan | Lab3/main.py:323-325 | such a day fails the membership test in every year, so the scan finds nothing |
| Recurrence.BirthdayFields | Lab3/main.py:309-314 | `06/15` converts to the fields 6 and 15 |
| Recurrence.ParseBirthdayFields | Lab3/main.py:312 | `int` reads `06` as 6 and `15` as 15 |
| Recurrence.BirthdayScenario | Lab3/main.py:320-331 | `06/15` entered on 2024-01-01 is answered "Date does not exist!", while the corrected resolver gives 2024-06-15 |
| Recurrence.UpcomingFound | Lab3/main.py:323-329 | the corrected scan's result has the given month and day, lies in the window and is after the clock, and no earlier year of the window has that date ahead |
| Recurrence.UpcomingNone | Lab3/main.py:323-331 | the corrected scan finds nothing exactly when no year of the window has that date ahead |
| Recurrence.NextOccurrence | Lab3/main.py:320-332 | the corrected resolver: the first year of the window in which month/day is a real date after the clock |
| Recurrence.NextOccurrenceIsEarliest | Lab3/main.py:320-332 | the corrected resolver answers the earliest real month/day after the clock in the window, and nothing only when there is none |
| Recurrence.NextOccurrenceExists | Lab3/main.py:320-332 | under the corrected resolver, a day every month has is always found, this year or the next |
| Lab2.Letter | Lab2/main.py:24 | `string.ascii_letters[k]` is an ASCII letter |
| Lab2.LetterIndex | Lab2/main.py:24 | every ASCII letter has a position in `string.ascii_letters` |
| Lab2.RandomString | Lab2/main.py:18-26 | the token has exactly the requested length and each character is the letter drawn for it |
| Lab2.EveryTokenPossible | Lab2/main.py:18-26 | every string of ASCII letters is a token some draws produce |
| Lab2.CreateSession | Lab2/main.py:138-150 | a ten-letter token is stored in a session under the user, expiring nine hours after the clock, and answered |
| Lab2.FirstSessionExpired | Lab2/main.py:113-115 | the first session fetched with the token expired before the clock |
| Lab2.AfterLookup | Lab2/main.py:114-116 | the store a lookup leaves: without the token's sessions when the first one had expired, unchanged otherwise |
| Lab2.SessionLifetimeHolds | Lab2/main.py:144-147 | a session for a token not yet in use is found for its owner, and counts as expired exactly when more than nine hours have passed |
| Lab2.SearchSession | Lab2/main.py:104-118 | the owner of the first session with the token, or nothing when there is none; when that first session has expired, all the token's sessions are deleted first |
| Lab2.ActiveOwner | Lab2/main.py:104-109 | the corrected lookup answers an owner only while the first session with the token has not expired, and nothing otherwise |
| Lab2.ExpiredSessionAccepted | Lab2/main.py:115-117 | a session that expired at time 0 still identifies its owner at time 10, where the corrected lookup refuses it |
| Lab2.ExpiredOnlyOnce | Lab2/main.py:115-116 | the lookup after one that met an expired session finds nothing |
| Lab2.Root | Lab2/main.py:202-216 | no token redirects to the login page with the store untouched; otherwise the store is what the session lookup leaves, and the index page is served exactly when the lookup answers an owner, an expired first session included |
| Lab2.Login | Lab2/main.py:228-242 | an empty name or password is refused before any lookup; a wrong name or password changes nothing; otherwise a new session's token is answered; the id counter moves on by one exactly when a session is stored |
| Lab2.SignUp | Lab2/main.py:252-265 | an empty name or password is refused before any insert; a taken name changes nothing; otherwise the user and a session are appended, the id counter moves on by two, and the token answered |
| Lab2.SignedUpUserLogsIn | Lab2/main.py:258-261 | after a sign-up the same name and password verify as the new user |
| Lab2.SecondSignUpRefused | Lab2/main.py:191-192 | after a sign-up the name counts as taken |
| Lab2.SendEvents | Lab2/main.py:269-282 | no owner means "Session expired."; otherwise the owner's past events are evicted and the rows are those of a date-sorted permutation of the live events |
| Lab2.AddEvent | Lab2/main.py:285-324 | each error in the order the view checks it, nothing stored on any of them; otherwise exactly one event with the resolved date is appended under the owner and its id answered, and the id counter moves on by one only then; a first session that had expired always ends in an error |
| Lab2.DelEvent | Lab2/main.py:327-341 | no owner means "Session expired."; a non-integer id raises; an id outside 1..2^63-1 is refused as a key (Lab2/main.py:51-52); otherwise exactly the owner's event with that id is removed |
| Lab2.Logout | Lab2/main.py:344-352 | every session with the token is removed and nothing else |
| Lab3.PadCount | Lab3/main.py:262 | `-len(body) % 4` is between 0 and 3 and makes the length a multiple of 4 |
| Lab3.Pad | Lab3/main.py:262 | the padded body has length a multiple of 4, starts with the body and adds at most three `=` |
| Lab3.PaddedBody | Lab3/main.py:261-262 | a token that is not three dot-separated pieces is refused; otherwise the middle piece, padded |
| Lab3.PadIdempotent | Lab3/main.py:262 | padding a padded body adds nothing |
| Lab3.PaddedBodyOfJoin | Lab3/main.py:261-262 | the three pieces of a token put back together yield the padded middle piece |
| Lab3.CreateSession | Lab3/main.py:135-147 | the given token is stored in a session under the user, with expiry equal to the clock, and answered |
| Lab3.CompleteLogin | Lab3/main.py:259-271 | a malformed id_token changes nothing; a known user gets a session; a new subject is added and gets a session; a subject whose name is taken under another e-mail is an error; the id counter moves on by one per entity stored |
| Lab3.FirstLoginFound | Lab3/main.py:266-269 | after a first sign-in, the lookup of the access token answers the new user |
| Lab3.SendEvents | Lab3/main.py:275-288 | no owner means "Session expired."; otherwise the Lab3-kind past events are evicted and the rows are those of a date-sorted permutation of the Lab3-kind live events |
| Lab3.AddEvent | Lab3/main.py:291-341 | each error in the order the view checks it, nothing stored on any of them; otherwise exactly one event, resolved by the year scan, is appended under the Lab2 kinds and its id answered, and the id counter moves on by one only then |
| Lab3.DelEvent | Lab3/main.py:344-358 | no owner means "Session expired."; a non-integer id raises; an id outside 1..2^63-1 is refused as a key; otherwise exactly the Lab2-kind event key built from the owner and the id is removed |
| Lab3.Logout | Lab3/main.py:361-369 | every session with the token is removed and nothing else |
| Lab3.AddedEventNeverListed | Lab3/main.py:35 | an event Lab3 adds never shows up in Lab3's listing |
| Lab3.ListedEventNeverDeleted | Lab3/main.py:50 | Lab3's delete never removes an event its listing shows |

## Left out

- Flask routing, cookies, `render_template`, redirects and HTTP status codes. The outcome of each view is a `Result` whose error names the abort or the exception.
- The `root`, `login_page` GET and `google_login` views of Lab3, the `login_page` GET view of Lab2 and Lab3's `get_client_credential`. They only render pages, redirect, read a stored secret or, in Lab3's `root`, look a session up without changing the store. Lab2's `root` does change the store and is `Lab2.Root`.
- The OIDC token exchange (`requests.post`) and the base64 and JSON decoding of the id_token. The model keeps the split and the padding arithmetic; the decoded `sub` and `email` claims are parameters of `Lab3.CompleteLogin`.
- Concurrent requests. Each view runs as one atomic step on the store, one request at a time. The source uses no transactions, so overlapping requests can interleave. For example, two sign-ups with one name can both pass `_search_user` before either `put` in `_add_user` (Lab2/main.py:191-199), and both store a user. `_del_session`'s collect-then-delete and `get_all`'s fetch-then-delete loop can interleave in the same way. `Tables.AddUser`, `Tables.FoundAfterAdd` and `Lab2.SecondSignUpRefused` hold only for requests that do not overlap.
- Lab3's process-global `oidc_state`, drawn from `os.urandom` and sha256. It is shared state across requests, its randomness is not modelled, and the callback never compares it with the `state` argument.
- bcrypt hashing and the salt. The hash is an opaque function parameter. The salt `bcrypt.gensalt(10)` (Lab2/main.py:15) is drawn once per process, so a password hashed before a restart, or by another instance, never verifies again; `Lab2.SignedUpUserLogsIn` passes one `hash` to both calls and so holds within one process only.
- `random.choice`. The draws are a parameter, constrained only to be positions in the alphabet.
- `datetime.now()`'s float timestamps, microseconds, local time and the pytz UTC localisation. The clock is integer seconds in UTC, and an event date is a midnight. `int(timestamp - current)` is exact because both are integers. Each view takes one clock reading for the whole request, where the source reads the clock afresh in each `_search_session`, in `get_all` and per event in `events2json`; a session that expires between the two lookups of `add_event`, or an event that passes between listing and formatting, is therefore not modelled.
- The JSON encoding (`json.dumps`, `json.loads`) and the response texts. A rendered row is a record of name, date text, ETA text and id.
- Calendar.Format: pads the year to four digits. CPython on Linux hands `%Y` to glibc, which writes a year below 1000 without zero padding (`01/01/999`). This differs only for a clock before year 1000.
- Listing.Render: `events2json` overwrites each dict's `date` and `ETA` in place. The model builds a new sequence of rows from the sorted array instead.
- Lab2.SendEvents: states that the rows come from some date-sorted permutation of the live events, not the one Python's stable sort picks. Equal dates may therefore appear in any order.
- Lab3.SendEvents: the same weakening as Lab2.SendEvents.
- Listing.SortByDate: sorted and a permutation; stability is not stated.
- Listing.EventsToJson: the array ends sorted and permuted, but the order among events with equal dates is not stated; Python's `list.sort` keeps their fetch order.
- A missing cookie (a `None` token) and a missing JSON field (a KeyError). Tokens, names and dates are strings. An event-kind entity without a date is skipped by the model's query, where `get_all` would raise KeyError on `temp['date']`; no view of the application stores one.
- Text.ParseInt: does not accept what `int` also accepts: underscores between digits, non-ASCII digits and non-ASCII whitespace such as U+00A0 or U+3000. `ParseInt` reads optional surrounding ASCII whitespace, an optional sign and ASCII digits, so a date such as `"\u00a006/15"` is a bad format here but a date in the source.
- Lab3.CompleteLogin: when `_add_user` refuses a subject already stored under another e-mail, the source passes `None` on to `_create_session`, where building a key under a partial parent raises. The model reports this as the error `NoUserId` and stores nothing.
- The Datastore's own id allocation and fetch order. Ids come from one counter shared by all kinds, and fetch order is insertion order.
- Lab2/migration.py and the JavaScript under `static/`: a one-off copy script and browser code.

## Findings

| source | as written | input that shows it | evidently intended | confidence | as-written member | corrected member |
|---|---|---|---|---|---|---|
| Lab3/main.py:324 | A year is tried only when the day is a member of the pair of the 1st's weekday and the month length, so only days 0..6 and 28..31 can ever pass | `06/15` entered on 2024-01-01 is answered "Date does not exist!" | try each year of the window in which the month has that day, and answer the first such date after the clock | high, not executed | Recurrence.Lab3Resolve (Recurrence.MidMonthDayNeverFound, Recurrence.BirthdayScenario) | Recurrence.NextOccurrence (Recurrence.NextOccurrenceIsEarliest, Recurrence.NextOccurrenceExists) |
| Lab2/main.py:314-315 | A two-field date falls back to 2021 without checking that 2021-m-d is still ahead | `03/01` entered on 2022-01-01 stores 2021-03-01, a date that the next listing deletes as past | the next occurrence of the month and day after the clock | medium, not executed | Recurrence.Lab2Resolve (Recurrence.Lab2FallbackInPast) | Recurrence.NextOccurrence (Recurrence.NextOccurrenceIsEarliest) |
| Lab2/main.py:115-117 | The lookup deletes an expired session but still answers its owner, so an expired session authorises the request that meets it | a session with expiry 0 looked up at time 10 answers owner 7 | answer an owner only while the session is active, as the function's doc-comment says | high, not executed | Lab2.SearchSession (Lab2.ExpiredSessionAccepted) | Lab2.ActiveOwner |

The handler methods keep the behaviour as written, so that they follow the
source step by step. The corrected definitions stand beside them with their
properties proved. `Lab2.AddEvent` shows how far the third finding reaches:
the second lookup in `add_event` finds nothing after an expired session has
been deleted, so an expired session can still list or delete events, but it
cannot add one. `Lab2.Root` serves the index page to such a session too.
