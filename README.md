# byunhwa order intake, modelled in Dafny

byunhwa is a small Next.js application that takes sign-ups for a workshop. A visitor submits a name, a phone number and a schedule slot, and must agree to the terms. An administrator logs in with a shared password. They then see the orders with per-status and per-schedule counts, filter them, change their status and edit the form settings. The settings are the offered schedules, the details text, the bank account and the price.

This project models the logic under those screens and proves properties of it:

- **Schedule labels** (`ScheduleUtils`). The label scanner is the JavaScript regular expression `(\d{1,2})월\s*(\d{1,2})일.*?(\d{1,2}):(\d{2})`, written out with JavaScript's search semantics. The module also covers the label formatter, date parsing, the same-day test and the "HH:mm" extractor.
- **Calendar arithmetic** (`JsDate`). The calendar part of `new Date(year, monthIndex, day)`, including the carrying of out-of-range months and days.
- **Form settings** (`ConfigRoute`). Normalisation of stored schedules, and the GET and PUT handlers of `/api/config` with their field-by-field fallbacks to the defaults (`FormDefaults`).
- **Orders** (`Orders`, `OrdersRoute`, `AdminOrdersRoute`). The order record, the status and schedule filters, and newest-first ordering. Order submission. The admin order listing, whose count maps are built by a loop (`Counting` holds the specification of those maps).
- **The admin gate** (`AdminAuth`, `LoginRoute`). An abstract HMAC token, the cookie check, and the response cookie jar as a class whose methods update it. The login decision.
- **The admin screen** (`AdminPage`). Its summary loop, the local status update, and the schedule-row editor (add, remove, edit one part). Reloading the settings, and the save-then-reload round trip.

Shared pieces:

- `Wrappers` has `Option`.
- `JsString` covers JavaScript truthiness, `trim`, `Number` on digit strings and `toString`/`padStart`.
- `Seqs` covers `filter` and `map` on sequences.

The outside world comes in as parameters:

- The store is a table or row parameter plus a "store fails" flag.
- `Date` is a day-of-week oracle plus the current year.
- `JSON.parse` is an oracle.
- HMAC-SHA256 is a function parameter.
- The clock's ISO timestamp is a string parameter.

## Model

| member | source | states |
|---|---|---|
| JsString.OrDefault | src/app/api/config/route.ts:49-53 | `value \|\| fallback`: the value when truthy, the fallback otherwise |
| JsString.Trim | src/app/api/orders/route.ts:13-15 | `String.prototype.trim`: the result has no leading or trailing white space and is the slice of the input that starts at its first non-space character |
| JsString.TrimIdempotent | src/app/api/config/route.ts:8 | trimming twice is trimming once |
| JsString.NatToStringValue | src/lib/scheduleUtils.ts:17 | `n.toString()` reads back as `n` |
| JsString.CanonicalRoundTrip | src/app/api/config/route.ts:75 | digits without a leading zero are exactly what `toString` writes for the number they denote |
| JsString.Pad2 | src/lib/scheduleUtils.ts:17 | `padStart(2, '0')`: digits only, at least two, exactly two below 100, reading back as `n` (no added zeros from 10 on: `Pad2Canonical`) |
| JsString.Pad2Canonical | src/lib/scheduleUtils.ts:17 | the padded text starts with `0` exactly when `n < 10`, and from 10 on it is as long as `n.toString()`: `padStart` never pads a number that already has two digits |
| Seqs.Filter | src/app/admin/page.tsx:184-188 | `Array.prototype.filter`: every kept element satisfies the predicate and comes from the input |
| Seqs.FilterMember | src/app/api/config/route.ts:8 | an element is kept if and only if it is in the input and satisfies the predicate |
| Seqs.FilterSubsequence | src/app/admin/page.tsx:184-188 | the filtered list is an in-order subsequence of the input |
| Seqs.FilterCount | src/app/admin/page.tsx:184-188 | each element is kept as often as it occurs when it passes, and never otherwise |
| JsDate.CarryDays | src/lib/scheduleUtils.ts:42 | an out-of-range day is carried into neighbouring months; the result is a valid calendar day, and an in-range day is unchanged (the carried day itself: `CarryDaysNumber`) |
| JsDate.MakeDate | src/lib/scheduleUtils.ts:42 | `new Date(year, monthIndex, day)` is a valid day; years 0-99 mean 1900+year; in-range months and days are kept (out-of-range ones: `MakeDateNumber`) |
| JsDate.YearLength | src/lib/scheduleUtils.ts:42 | consecutive years start 365 days apart, or 366 after a Gregorian leap year |
| JsDate.MonthsOfYear | src/lib/scheduleUtils.ts:42 | the twelve month lengths add up to the year's length |
| JsDate.NextMonthNumber | src/lib/scheduleUtils.ts:42 | the first of the next month (of January of the next year after December) is this month's length after the first of this month |
| JsDate.DaysBeforeMonthGrows | src/lib/scheduleUtils.ts:42 | later months start later in the year |
| JsDate.YearStartGrows | src/lib/scheduleUtils.ts:42 | a year ends no later than any later year starts |
| JsDate.DayWithinMonth | src/lib/scheduleUtils.ts:42 | a valid day's position in its year lies between the start of its month and the start of the next month |
| JsDate.DayWithinYear | src/lib/scheduleUtils.ts:42 | a valid day's number lies between the start of its year and the start of the next year |
| JsDate.SameYear | src/lib/scheduleUtils.ts:42 | two valid days with the same day number are in the same year |
| JsDate.SameMonth | src/lib/scheduleUtils.ts:42 | two valid days of one year at the same position in that year are in the same month |
| JsDate.DayNumberInjective | src/lib/scheduleUtils.ts:42 | two valid days with the same day number are the same day, so a day number pins the calendar day |
| JsDate.CarryDaysNumber | src/lib/scheduleUtils.ts:42 | carrying day `d` of month `m` lands exactly `d - 1` days after the first of month `m`, for any `d`, however far out of range |
| JsDate.FirstOfMonth | src/lib/scheduleUtils.ts:42 | the first of month `monthIndex` counted from January of `year` is a valid day |
| JsDate.MakeDateNumber | src/lib/scheduleUtils.ts:42 | the month index carries whole years (`monthIndex / 12`, rounded down) and the day lands `day - 1` days after the first of the month so reached |
| JsDate.NextMonthCarry | src/lib/scheduleUtils.ts:42 | a day past the end of a month, by less than the next month's length, is that many days into the next month |
| JsDate.FebruaryOverflowExample | src/lib/scheduleUtils.ts:42 | `new Date(2025, 1, 31)` is 3 March 2025 |
| JsDate.MonthBeforeJanuary | src/lib/scheduleUtils.ts:39-42 | month index -1 lands in December of the previous year |
| ScheduleUtils.DigitsThen | src/lib/scheduleUtils.ts:9 | `(\d{1,2})` followed by a non-digit mark: a digit first, the mark right after one or two characters, a value below 100 (what is read: `DigitsThenReads`) |
| ScheduleUtils.DigitsThenReads | src/lib/scheduleUtils.ts:9 | a found `(\d{1,2})` is all digits up to the mark, and its value is the number those digits spell |
| ScheduleUtils.TimeAt | src/lib/scheduleUtils.ts:9 | `(\d{1,2}):(\d{2})` anchored at `p`: starts with a digit, hour and minute below 100 (what is read: `TimeAtReads`) |
| ScheduleUtils.TimeAtReads | src/lib/scheduleUtils.ts:9 | a found time is one or two hour digits, `:`, and two minute digits, and hour and minute are the numbers those digits spell |
| ScheduleUtils.LazyTime | src/lib/scheduleUtils.ts:9 | `.*?(\d{1,2}):(\d{2})`: an hour and a minute below 100 (which time: `LazyTimeNearest`) |
| ScheduleUtils.LazyTimeNearest | src/lib/scheduleUtils.ts:9 | the lazy `.*?` stops at the nearest time start: a found time starts at a position with no line terminator before it and no earlier time start; when none is found, no position reachable without crossing a line terminator starts a time |
| ScheduleUtils.DateAt | src/lib/scheduleUtils.ts:9 | `(\d{1,2})월\s*(\d{1,2})일` anchored: numbers below 100; a match implies `월` occurs |
| ScheduleUtils.MatchAt | src/lib/scheduleUtils.ts:9 | the whole pattern anchored: all four captures below 100, and the date half matches there |
| ScheduleUtils.FirstMatchStart | src/lib/scheduleUtils.ts:9 | the leftmost start at or after `i` where the whole pattern matches: it matches, no earlier start does, and none is found only when no start matches |
| ScheduleUtils.ScheduleMatch | src/lib/scheduleUtils.ts:9-10 | `value.match(...)` is null exactly when no start position matches; otherwise its captures are those of the match at the leftmost matching start, all below 100 |
| ScheduleUtils.NoMonthMarkNoMatch | src/lib/scheduleUtils.ts:9-10 | text without `월` never matches |
| ScheduleUtils.DayPart | src/lib/scheduleUtils.ts:21-22 | the weekday suffix holds no digit and no line terminator, so it cannot disturb a rescan |
| ScheduleUtils.DateField | src/lib/scheduleUtils.ts:26-28 | a month or day is written as digits that read back as the number, padded to two when asked |
| ScheduleUtils.FormatSchedule | src/lib/scheduleUtils.ts:6-29 | "" exactly for a falsy value; unmatched text comes back unchanged; a matched one is rebuilt into a label that rescans to the same four numbers |
| ScheduleUtils.FormatIdempotent | src/lib/scheduleUtils.ts:9-28 | formatting a formatted label gives it back (same day-of-week oracle) |
| ScheduleUtils.PaddedFields | src/lib/scheduleUtils.ts:17-26 | with padding: `Pad2(month)`, `월`, `Pad2(day)`, `일` at fixed positions, and `Pad2(hour)`:`Pad2(minute)` at the end |
| ScheduleUtils.PaddedLabel | src/lib/scheduleUtils.ts:26 | every padded label has that shape |
| ScheduleUtils.UnpaddedFields | src/lib/scheduleUtils.ts:27-28 | without padding: the label starts with the month's plain `toString`, `월`, a space, the day's plain `toString` and `일`; hour and minute stay two digits at the end |
| ScheduleUtils.UnpaddedLabel | src/lib/scheduleUtils.ts:28 | every unpadded label has that shape, day included |
| ScheduleUtils.UnpaddedDate | src/lib/scheduleUtils.ts:28 | the unpadded date text is exactly the plain month, "월 ", the plain day and "일" |
| ScheduleUtils.LabelRescan | src/lib/scheduleUtils.ts:9-28 | scanning a label finds the four numbers it was built from, for any digit-free single-line day part |
| ScheduleUtils.LabelDate | src/lib/scheduleUtils.ts:35 | the date pattern finds a label's month and day |
| ScheduleUtils.FirstDateFrom | src/lib/scheduleUtils.ts:35 | the leftmost position at or after `i` where `(\d{1,2})월\s*(\d{1,2})일` matches, or none |
| ScheduleUtils.ScheduleDateMatch | src/lib/scheduleUtils.ts:35-36 | none exactly when no position matches; otherwise the captures of the leftmost match |
| ScheduleUtils.DateAtStart | src/lib/scheduleUtils.ts:35 | a date at position 0 is the leftmost one |
| ScheduleUtils.ParseScheduleDate | src/lib/scheduleUtils.ts:34-43 | null exactly when there is no date match; otherwise a valid day that is (current year, month - 1, day) whenever those are in range (out-of-range captures: `ParseScheduleDateCarries`) |
| ScheduleUtils.ParsedIsMakeDate | src/lib/scheduleUtils.ts:38-42 | a matched text parses to `new Date(currentYear, month - 1, day)` of its captures |
| ScheduleUtils.ParseScheduleDateCarries | src/lib/scheduleUtils.ts:34-43 | a matched text parses to the day `day - 1` days after the first of month `month - 1` of the current year, that month index carrying whole years |
| ScheduleUtils.CarriedDayNumber | src/lib/scheduleUtils.ts:42 | a computed `new Date(year, monthIndex, day)` lies `day - 1` days after the first of its carried month |
| ScheduleUtils.IsScheduleOnDate | src/lib/scheduleUtils.ts:48-57 | false without a date match; true exactly when the parsed day equals the target |
| ScheduleUtils.MatchHasDate | src/lib/scheduleUtils.ts:34-36 | every text the label pattern matches also has a date match |
| ScheduleUtils.FirstHourMinuteFrom | src/lib/scheduleUtils.ts:64 | the leftmost `(\d{2}):(\d{2})` at or after `i`, or none |
| ScheduleUtils.GetScheduleTimeString | src/lib/scheduleUtils.ts:63-66 | the five characters of the leftmost "dd:dd", or the input unchanged when there is none |
| ScheduleUtils.TimeStringExample | src/lib/scheduleUtils.ts:59-62 | "12월 25일 (수) 14:00" gives "14:00" |
| ScheduleUtils.FormatExample | src/lib/scheduleUtils.ts:19-26 | "12월 25일 14:00" on a Wednesday becomes "12월 25일 (수) 14:00" |
| ScheduleUtils.DefaultsUnchanged | src/lib/formDefaults.ts:2-6 | the ISO default schedules are shown as they are |
| ScheduleUtils.OnDateExample | src/lib/scheduleUtils.ts:48-57 | "12월 25일 (수) 14:00" is on 25 December of the current year |
| ScheduleUtils.MonthZeroExample | src/lib/scheduleUtils.ts:39-42 | "0월 5일" parses to 5 December of the previous year |
| ScheduleUtils.DayOverflowExample | src/lib/scheduleUtils.ts:35-42 | "2월 31일" parses to 3 March in 2025 |
| Counting.Tally | src/app/api/admin/orders/route.ts:32-39 | counting into a seed keeps the seed's keys and adds every counted key |
| Counting.TallyCounts | src/app/api/admin/orders/route.ts:34-35 | a key is present exactly when seeded or counted, and its count is the seed's plus its number of occurrences |
| Counting.TallySum | src/app/api/admin/orders/route.ts:32-53 | the counts add up to the seed's sum plus the number of keys counted |
| Counting.SumZeros | src/app/admin/page.tsx:192 | a map of zeros sums to zero |
| Counting.TallyMapStep | src/app/api/admin/orders/route.ts:35 | counting one more element bumps that element's key by one |
| Orders.FilterOrders | src/app/admin/page.tsx:183-189 | every kept order passes both filters |
| Orders.FilterOrdersExact | src/app/admin/page.tsx:183-189 | the result is an in-order subsequence holding each matching order as often as it occurs, and no other |
| Orders.NoFilterKeepsAll | src/app/admin/page.tsx:185-186 | empty filters keep every order |
| Orders.InsertByCreated | src/app/api/admin/orders/route.ts:13 | inserting into a newest-first list keeps it newest first and adds exactly that order |
| Orders.SortNewestFirst | src/app/api/admin/orders/route.ts:13 | `order('created_at', { ascending: false })`: a newest-first permutation of the rows |
| OrdersRoute.SubmitOrder | src/app/api/orders/route.ts:5-42 | 400 exactly when a field is falsy or `agreed` is not `true`; 500 exactly when valid and the insert fails; otherwise a trimmed, agreed, `pending` order and a notification of its id, name, phone and schedule |
| OrdersRoute.CreatedIsTrimmed | src/app/api/orders/route.ts:12-15 | stored name, phone and schedule are trimmed |
| OrdersRoute.BlankNameStoredEmpty | src/app/api/orders/route.ts:8-13 | a whitespace-only name passes the check and is stored as "" with status 201 |
| OrdersRoute.AgreementRequired | src/app/api/orders/route.ts:8-10 | without `agreed: true` the answer is 400 |
| AdminAuth.AdminPassword | src/lib/adminAuth.ts:7 | the configured password, or "" when unset |
| AdminAuth.AdminToken | src/lib/adminAuth.ts:9-14 | "" exactly when the password is unset or empty; otherwise the 64-character HMAC of the password keyed by itself |
| AdminAuth.BytesEqual | src/lib/adminAuth.ts:26 | for ASCII text of equal length, byte equality is string equality |
| AdminAuth.IsAdminAuthed | src/lib/adminAuth.ts:16-27 | false for an empty token, a falsy cookie or a length mismatch; true exactly when the token is non-empty and the cookie equals it |
| AdminAuth.RequireAdmin | src/lib/adminAuth.ts:29-34 | a 401 exactly when not authorised, nothing otherwise |
| AdminAuth.Response.constructor | src/lib/adminAuth.ts:36-48 | a new reply has the given status and no cookies |
| AdminAuth.SetAdminCookie | src/lib/adminAuth.ts:36-48 | the jar gains the token cookie (12 hours, `httpOnly`, `lax`, `/`, secure in production); the status is unchanged |
| AdminAuth.ClearAdminCookie | src/lib/adminAuth.ts:50-61 | the jar gains an empty cookie with `maxAge` 0; the status is unchanged |
| AdminAuth.SentCookie | src/lib/adminAuth.ts:46-59 | a browser sends back a stored cookie only while its `maxAge` is positive |
| AdminAuth.SetThenAuthed | src/lib/adminAuth.ts:16-48 | while the password is unchanged, the cookie `setAdminCookie` writes is sent back and accepted |
| AdminAuth.ClearThenRefused | src/lib/adminAuth.ts:50-61 | after clearing, nothing is sent, and the empty value would be refused anyway |
| LoginRoute.Decide | src/app/api/admin/login/route.ts:4-14 | server error exactly when the secret is unset or empty; success exactly when the password equals the secret; a falsy password never succeeds |
| LoginRoute.StatusOf | src/app/api/admin/login/route.ts:9-16 | 200 exactly for a successful login |
| LoginRoute.Login | src/app/api/admin/login/route.ts:4-19 | a fresh reply with the decision's status, with the admin cookie only on success and no cookie otherwise |
| LoginRoute.LoginAuthorizes | src/app/api/admin/login/route.ts:16-18 | the cookie a successful login sets passes the admin gate |
| AdminOrdersRoute.Execute | src/app/api/admin/orders/route.ts:13-23 | the query returns exactly the rows passing its `eq` filters, newest first |
| Orders.KeyOr | src/app/api/admin/orders/route.ts:34-43 | `order.status \|\| 'unknown'`, `order.schedule \|\| 'unspecified'` and the page's `order.schedule \|\| '미지정'`: never empty; the value itself when it is not empty, the fallback when it is |
| AdminOrdersRoute.QueryAgreesWithPageFilter | src/app/api/admin/orders/route.ts:15-21 | the store filter keeps an order exactly when the page's filter does, with a missing or empty parameter meaning "any" |
| AdminOrdersRoute.CountBy | src/app/api/admin/orders/route.ts:32-48 | the loop's map equals the count specification of the keys |
| AdminOrdersRoute.ListOrders | src/app/api/admin/orders/route.ts:5-58 | 401 exactly when not authorised; 500 exactly when authorised and the query fails; otherwise the query's rows, their total, and their status and schedule counts |
| AdminOrdersRoute.ListedOrders | src/app/api/admin/orders/route.ts:13-21 | the listed orders are newest first and are exactly the matching rows, each as often as stored |
| AdminOrdersRoute.CountsAddUp | src/app/api/admin/orders/route.ts:30-53 | a key is counted exactly when some order has it; its count is its number of orders; the counts sum to the total |
| AdminPage.FormatLabel | src/app/admin/page.tsx:110-126 | the page's own formatter is the library formatter with padding |
| AdminPage.CountOne | src/app/admin/page.tsx:195-199 | one `forEach` step bumps both maps at the order's keys |
| AdminPage.Summarize | src/app/admin/page.tsx:191-206 | total is the number of orders; the status map is the count seeded with the three statuses at 0; the schedule map counts `schedule \|\| '미지정'` |
| AdminPage.SummaryCounts | src/app/admin/page.tsx:192-202 | `pending`, `confirmed` and `cancelled` are always present; each count is the number of orders with that key; both maps sum to the total |
| AdminPage.UpdateStatus | src/app/admin/page.tsx:174 | same length; the order with that id takes the new status and every other field is kept; every other order is unchanged |
| AdminPage.UpdateStatusIdempotent | src/app/admin/page.tsx:174 | applying the same update twice equals applying it once |
| AdminPage.Dedupe | src/app/admin/page.tsx:241 | `Array.from(new Set(...))`: the same values, each once |
| AdminPage.DedupeExtends | src/app/admin/page.tsx:241 | deduplicating a longer list keeps the shorter list's result as its prefix and adds only later values |
| AdminPage.DedupeDistinct | src/app/admin/page.tsx:241 | distinct values are their own deduplication |
| AdminPage.FirstMissing | src/app/admin/page.tsx:242 | `find(opt => !existing.has(opt))`: the first candidate not yet present, or none when all are |
| AdminPage.AddScheduleRow | src/app/admin/page.tsx:238-245 | exactly one row is appended and the existing rows are kept |
| AdminPage.DefaultsDistinct | src/lib/formDefaults.ts:2-6 | the three default schedules differ |
| AdminPage.AddScheduleRowPicks | src/app/admin/page.tsx:240-243 | the appended row is the first default not yet present, or the first default when all are present |
| AdminPage.RemoveScheduleRow | src/app/admin/page.tsx:247-252 | for an index in range, exactly that row goes and the rest keep their order; otherwise nothing changes |
| AdminPage.RemoveKeepsARow | src/app/admin/page.tsx:492-493 | with the button shown only for more than one row, at least one row remains |
| AdminPage.AddThenRemove | src/app/admin/page.tsx:238-252 | removing the row just added restores the rows |
| AdminPage.StartParts | src/app/admin/page.tsx:215-221 | the entry's captures, or 1월 1일 00:00 when it does not match |
| AdminPage.WithPart | src/app/admin/page.tsx:223-226 | exactly the chosen part takes the new value |
| AdminPage.HandleSchedulePartChange | src/app/admin/page.tsx:208-236 | only row `index` changes; it becomes the padded label of the edited parts, and for values below 100 it rescans to exactly those parts |
| AdminPage.EditFromScratch | src/app/admin/page.tsx:218-233 | an entry that does not match is rebuilt from 1월 1일 00:00 and rescans to the edited numbers |
| AdminPage.LoadConfig | src/app/admin/page.tsx:57-76 | a failed fetch keeps the form; otherwise the schedules are the reply's non-empty array or the defaults, and each text field falls back to its default when falsy |
| AdminPage.LoadShowsServerConfig | src/app/admin/page.tsx:62-72 | loading what GET sent shows it unchanged |
| AdminPage.SaveThenReload | src/app/admin/page.tsx:254-275 | an admin who saves a form with trimmed, non-empty fields and a canonical price sees the same form after the reload |
| ConfigRoute.TrimNonEmpty | src/app/api/config/route.ts:8 | `map(trim).filter(Boolean)`: every entry is non-empty and trimmed |
| ConfigRoute.TrimNonEmptyKeeps | src/app/api/config/route.ts:8 | the result is an in-order subsequence of the trimmed items, holding each non-empty one as often as it occurs and no empty one |
| ConfigRoute.TrimNonEmptyClean | src/app/api/config/route.ts:8 | a list of trimmed, non-empty entries is kept as it is |
| ConfigRoute.NextSeparator | src/app/api/config/route.ts:21 | the next newline or comma, or the end of the text |
| ConfigRoute.SkipSeparators | src/app/api/config/route.ts:21 | the end of a run of newlines and commas |
| ConfigRoute.SplitRuns | src/app/api/config/route.ts:21 | `split(/[\n,]+/)`: the text is the pieces with one non-empty run of separators between each two; no piece holds a separator, and no piece between two runs is empty |
| ConfigRoute.SplitRunsUnique | src/app/api/config/route.ts:21 | any cut of the text into that shape is the split: the pattern's greedy runs fix every boundary |
| ConfigRoute.SplitFromDecomposes | src/app/api/config/route.ts:21 | the split of the rest of the text from any position has that shape and puts the rest back together |
| ConfigRoute.SplitFromUnique | src/app/api/config/route.ts:21 | from any position, a cut into that shape is the split |
| ConfigRoute.SeparatorRunExample | src/app/api/config/route.ts:20-23 | the non-JSON text "A,\nB" gives the two entries "A" and "B": a run of separators is one cut |
| ConfigRoute.SplitFromLoses | src/app/api/config/route.ts:21 | the pieces laid end to end are the text with its separators removed |
| ConfigRoute.NormalizeSchedules | src/app/api/config/route.ts:6-27 | every entry is non-empty and trimmed; an array is trimmed and filtered; a string holding a JSON array gives that array trimmed and filtered; any other string gives its `SplitRuns` pieces trimmed and filtered, none holding a separator; anything else gives [] |
| ConfigRoute.TrimKeepsSeparatorFree | src/app/api/config/route.ts:20-23 | trimming separator-free pieces leaves them separator-free |
| ConfigRoute.NormalizeIdempotent | src/app/api/config/route.ts:6-27 | normalising a normalised list changes nothing |
| ConfigRoute.SingleEntry | src/app/api/config/route.ts:20-23 | a non-JSON text without separators is one trimmed entry |
| ConfigRoute.Column | src/app/api/config/route.ts:42-54 | `record?.column` is missing when there is no row |
| ConfigRoute.StoredSchedules | src/app/api/config/route.ts:43 | no row gives no schedules |
| ConfigRoute.GetConfig | src/app/api/config/route.ts:29-56 | the schedules are never empty: stored if any, else the defaults; each text field is the stored value when truthy and the default otherwise; `updatedAt` is the truthy stored value or null |
| ConfigRoute.GetFieldsNonEmpty | src/app/api/config/route.ts:44-53 | every text field and schedule GET shows is non-empty |
| ConfigRoute.PriceText | src/app/api/config/route.ts:75 | digits without a leading zero; the same number for digit input; "0" for null; the default for absent or non-finite input |
| ConfigRoute.CanonicalPriceKept | src/app/api/config/route.ts:75 | a price written without a leading zero is stored unchanged |
| ConfigRoute.TrimOr | src/app/api/config/route.ts:71-74 | `value ? String(value).trim() : fallback` |
| ConfigRoute.PutSchedules | src/app/api/config/route.ts:64-70 | never empty: the array's trimmed non-blank entries, or the defaults when there are none or it is not an array |
| ConfigRoute.PutConfig | src/app/api/config/route.ts:58-93 | 401 exactly when not authorised; 500 exactly when authorised and the upsert fails; otherwise row 1 with normalised schedules, trimmed or default fields, the price text and the clock's time |
| ConfigRoute.PutThenGet | src/app/api/config/route.ts:29-93 | after PUT, GET shows the saved schedules and price, each text field per `ShownAfterPut`, and the save time |
| ConfigRoute.StoredColumns | src/app/api/config/route.ts:42-54 | each column of a saved row reads back as that field |
| ConfigRoute.TextRoundTrip | src/app/api/config/route.ts:49-74 | a text field stored by PUT and shown by GET is `ShownAfterPut` of the input |
| ConfigRoute.BlankDetailsShowDefault | src/app/api/config/route.ts:71 | a whitespace-only details text is stored as "" and read back as the default |

## Left out

- Notifications (`src/lib/notifications.ts`) are network calls. The model keeps only the notice the order route hands over, and only on success.
- The Supabase store and its queries are not part of this model. Rows, the `orders` table and the newest config row are parameters, and a flag says whether a call reports an error. The upsert's returned row is the payload itself.
- `Date`:
  - the weekday comes from an oracle on (month, day, hour, minute);
  - `getFullYear()` is an integer parameter;
  - `toISOString()` is a string parameter.
- `JSON.parse` in `normalizeSchedules` is an oracle that maps a text to its string array, or to nothing when it is not a JSON array.
- `String(item)` of non-string array elements and of non-string body values: every value is modelled as already being a string (or absent/null).
- ConfigRoute.PriceText: `Number(price)` is modelled for absent, null, at most fifteen ASCII digits, and non-finite input only. Other strings (white space, signs, exponents, fractions, hexadecimal) are not modelled.
- AdminAuth.IsAdminAuthed requires an ASCII cookie. The length guard compares UTF-16 lengths while `timingSafeEqual` compares UTF-8 bytes, so a non-ASCII cookie of the token's length makes it throw. That case is outside the model.
- HMAC-SHA256 is an abstract function returning 64 hex digits. The constant-time property of `timingSafeEqual` cannot be stated.
- `created_at` is an integer. Among orders created at the same instant, the store's order is not modelled: any newest-first permutation is allowed.
- An order's status and schedule are strings, with "" standing for a null column. Both are falsy, and the order route, the admin listing's count keys and the filters treat them alike.
- AdminPage.Summarize: the page keys the status count by `order.status` itself, with no fallback, and a property key is the string form of the value. So a null status is counted under "null" and an empty one under "". The model writes both as "" and counts them under "". The page's summary also shares the `Counting.Tally` exclusion of inherited `Object.prototype` keys.
- Counting.Tally: the count maps are maps from strings to naturals. The source counts into plain JavaScript objects with `acc[key] = (acc[key] || 0) + 1`. A key that names an inherited `Object.prototype` member ("constructor", "toString", "hasOwnProperty" and the like) starts from that function, so its stored count becomes a string. The key "__proto__" is not stored at all. A schedule is free text, so such keys can occur. The model treats every key as an ordinary own property.
- AdminOrdersRoute.CountBy: builds its maps as `Counting.Tally` does, with the same exclusion of inherited `Object.prototype` keys.
- AdminOrdersRoute.CountsAddUp: "the counts sum to the total" holds of the source only when no status or schedule key names an `Object.prototype` member.
- AdminPage.SummaryCounts: the same restriction as `CountsAddUp`, for the page's summary.
- A request body that is not a JSON object is not modelled. `await req.json()` sits outside any `try` in the order route (src/app/api/orders/route.ts:6), the config PUT (src/app/api/config/route.ts:62) and the login route (src/app/api/admin/login/route.ts:5). Such a body throws, and the framework answers 500. The handlers here take the decoded fields as parameters.
- AdminPage.HandleSchedulePartChange requires `index` to be a row index. The page only calls it for rendered rows; writing past the end of a JavaScript array is not modelled.
- AdminPage.HandleSchedulePartChange takes `Number(value)` as a natural number, which is what the page's numeric options produce.
- AdminPage.UpdateStatus takes the status the PATCH reply carries as a parameter. The PATCH route `src/app/api/admin/orders/[id]/route.ts` is not part of this model.
- The logout route only calls `clearAdminCookie`, which is modelled.
- The React rendering, the log-in and tab state, the bootstrap fetch sequence, console logging, and the form components are not modelled.
