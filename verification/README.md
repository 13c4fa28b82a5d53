# CRM mobile client: the logic inside the plumbing

This project models the sequential logic of a React Native CRM client and proves
properties of it in Dafny. The client lists sales visits, reads the Android call log,
ranks contacts by talk time and signs users in through Firebase with optional SMS
multi-factor authentication. The app is mostly rendering and calls to Firebase, axios
and native modules. The modelled logic is what sits between those calls:

- **The visit query** (`getVisits`). It computes the first and last day of the month of
  the selected date. It formats both as zero-padded `YYYY-MM-DD`. It builds the ordered
  filter-condition list from the date and company filters. It builds the fixed
  page-1/limit-20 request with its bearer header, and maps the response to the thunk's
  outcome. The date arithmetic follows JavaScript's `Date` constructor, which reads a
  year 0..99 as 1900..1999 and carries out-of-range months and days into neighbouring
  months.
- **The native call-log module** (Kotlin). `getCallLogs` maps cursor rows to records.
  `getTopContactsByDuration` groups rows per `name|number` key in an insertion-ordered
  map. It sums durations, counts calls, sorts stably by descending duration and keeps
  the first `limit` entries.
- **Three Redux slices**: authentication, call logs and location. Each is a pure
  `(state, action) -> state` function. The proofs say what each action changes and
  that nothing else changes. The auth slice also models the classification of a failed
  email sign-in.
- **Screen helpers**:
  - the two duration labels
  - the top-contacts total, share, chart legend, palette and per-call average
  - the call-type colour and the title/number choice
  - the visit icon, capitalised type, status badge, list key and load-more guard
  - the home screen's progress-bar colour
  - the login screen's handlers, effects and view selection

Firebase users and multi-factor resolvers, and geolocation fixes, are plain records
that hold the fields the code reads. Cursors and server responses are inputs. Nothing
here performs I/O.

Each modelled operation has a partner that an all-inputs lemma relates it to:

- A parser for each formatter:
  - `Calendar.ParseLocalDate` for the date text.
  - `VisitQuery.ReadConditions` for the condition list.
  - `DurationText.ParseDuration` for both duration labels.
- An independent reference definition for each aggregate. `CallLogsModule.TableOf` and
  `CallLogsModule.WithDuration` describe the grouping and the sort.
- An "effect of the last relevant event" function for each reducer. Examples are
  `AuthSlice.LoadingAfter` and `LocationSlice.LocationAfter`.

Two behaviours are easy to misread, and the model follows the code as written:

- **Visit pagination.** The visits screen reads a page counter, a has-more flag and a
  loading flag, and imports a `setPage` action. None of them exists: the visits slice
  holds only `visits` and exports only `clearVisits`. It has no `page`, `hasMore`,
  `loading`, `helperDate` or `companyName`, and no reducer consumes the fetch. Calling
  the missing `setPage` would throw. The shipped `getVisits` always requests page 1
  with limit 20, and returns the body without a status check.
  - `VisitsList.ShippedSliceNeverLoadsMore` shows the scroll guard never fires against
    that slice, and that it never requests a page while `setPage` is missing.
  - The condition builder is modelled over explicit filter values.
- **`toggleLoginMethod` dispatch order.** `clearError` is an async thunk. Its fulfilled
  action therefore reaches the auth reducer after the synchronous `clearMFAState`.
  `LoginScreen.ToggleActions` uses that arrival order.

## Model

| member | source | states |
|---|---|---|
| Calendar.FullYear | src/redux/slices/actions/getVisits.ts:11-12 | The constructor reads a year argument 0..99 as 1900..1999 and every other year as itself; the year it uses is never 0..99 |
| Calendar.MakeLocalDate | src/redux/slices/actions/getVisits.ts:11-12 | `new Date(y, monthIndex, day)` read back through its getters always yields a real calendar date, whatever the month index and day |
| Calendar.MakeValidDate | src/redux/slices/actions/getVisits.ts:11 | The constructor leaves a date alone once its year is read as 19xx when 0..99; a valid date with any other year comes back unchanged |
| Calendar.DayZeroIsLastDay | src/redux/slices/actions/getVisits.ts:12 | Day 0 of the following month is the last Gregorian day of the month, December included, in the year the constructor reads (19xx for 0..99) |
| Calendar.TwoDigitsIsPadStart | src/redux/slices/actions/getVisits.ts:17-18 | `String(n).padStart(2, "0")` for n < 100 is the tens digit followed by the units digit |
| Calendar.FormatParseRoundTrip | src/redux/slices/actions/getVisits.ts:15-20 | The `YYYY-MM-DD` text of a valid date parses back to exactly that date, negative years included |
| Calendar.FormatMonotoneInMonth | src/redux/slices/actions/getVisits.ts:15-20 | Within one month, the formatted text orders days the way JavaScript's string comparison does |
| Calendar.TwoDigitOrder | src/redux/slices/actions/getVisits.ts:17-18 | Zero padding makes string order agree with numeric order for numbers below 100 |
| VisitQuery.RequestedMonth | src/redux/slices/actions/getVisits.ts:11-12 | The month both constructor calls land in: the input's month, in the input's year or, for years 0..99, 1900 years later |
| VisitQuery.FirstDayOfMonth | src/redux/slices/actions/getVisits.ts:11 | `firstDay` is day 1 of the requested month; for years outside 0..99 that is the input's own year and month |
| VisitQuery.LastDayOfMonth | src/redux/slices/actions/getVisits.ts:12 | `lastDay` is the requested month with its Gregorian day count, with no year rollover; for years outside 0..99 that is the input's own month |
| VisitQuery.GetMonthRange | src/redux/slices/actions/getVisits.ts:9-26 | Both ends are the formatted first and last day of the requested month |
| VisitQuery.MonthRangeBracketsMonth | src/redux/slices/actions/getVisits.ts:9-26 | Every day of the requested month formats between `firstDay` and `lastDay` in string order |
| VisitQuery.MonthRangeParsesBack | src/redux/slices/actions/getVisits.ts:9-26 | Both ends parse back to the requested month, day 1 and last day, and `firstDay` <= `lastDay` |
| VisitQuery.MonthConditions | src/redux/slices/actions/getVisits.ts:54-76 | Two `data_limita` date conditions with a null join key: "dupa" `firstDay`, then "inainte de" `lastDay` |
| VisitQuery.BuildConditions | src/redux/slices/actions/getVisits.ts:52-90 | The list has 0 to 3 entries. It is empty exactly when both filters are absent. It starts with the month pair when a date is set and ends with the company condition when a name is set, "" included. Every entry has `error` false and empty helper text |
| VisitQuery.ReadMonthConditions | src/redux/slices/actions/getVisits.ts:54-76 | The month pair read back names the requested month, which is the date's own year and month for years outside 0..99 |
| VisitQuery.ConditionsRoundTrip | src/redux/slices/actions/getVisits.ts:52-90 | The condition list loses nothing: reading it back gives the requested month (the date's own for years outside 0..99) and the exact company text |
| VisitQuery.BearerHeader | src/redux/slices/actions/getVisits.ts:37-44 | The header is "Bearer " followed by the token, or the literal "Bearer undefined" when there is no signed-in user |
| VisitQuery.BuildVisitsRequest | src/redux/slices/actions/getVisits.ts:37-96 | Page 1 and limit 20 whatever the filters, on the configured host's pagination path, with the bearer header and with the built condition list, from which both filters can be read back |
| VisitQuery.SettleVisits | src/redux/slices/actions/getVisits.ts:101-107 | A response fulfils with its body untouched. Any failure rejects with the fixed Romanian message |
| CallLogsModule.ClassifyType | android/app/src/main/java/com/crmmobile/CallLogsModule.kt:56-62 | Codes 1, 2, 3 and 5 are the four known types. Every other code, and only those, is UNKNOWN |
| CallLogsModule.CallTypeNamesDistinct | src/modules/CallLogsModule.ts:6 | The five type names are pairwise distinct |
| CallLogsModule.GetCallLogs | android/app/src/main/java/com/crmmobile/CallLogsModule.kt:39-72 | The result has min(limit, rows) records, or none for a null cursor or a limit <= 0. Record i describes row i: a null number reads "Unknown" and a null name passes through |
| CallLogsModule.FirstIndex | android/app/src/main/java/com/crmmobile/CallLogsModule.kt:105-111 | A key that occurs has a row carrying it at the returned index |
| CallLogsModule.FirstIndexIsFirst | android/app/src/main/java/com/crmmobile/CallLogsModule.kt:105-111 | No row before that index has the key, so it is where the key first enters the map |
| CallLogsModule.LastIndex | android/app/src/main/java/com/crmmobile/CallLogsModule.kt:105-123 | A key that occurs has a last row carrying it: no later row has that key |
| CallLogsModule.LastWith | android/app/src/main/java/com/crmmobile/CallLogsModule.kt:105-123 | The row whose name and number a key ends with is a row of that key |
| CallLogsModule.LastWithIsLast | android/app/src/main/java/com/crmmobile/CallLogsModule.kt:105-123 | That row is the one at `LastIndex`: no later row has the same key |
| CallLogsModule.TabulateKeys | android/app/src/main/java/com/crmmobile/CallLogsModule.kt:105-123 | The map holds one entry per distinct `displayName|number` key of the rows, each key listed once |
| CallLogsModule.TabulateTotals | android/app/src/main/java/com/crmmobile/CallLogsModule.kt:113-123 | Each entry's call count is its key's row count and its duration is the sum of those rows' durations |
| CallLogsModule.TabulateNames | android/app/src/main/java/com/crmmobile/CallLogsModule.kt:106-122 | Each entry carries the display name and number of the last row with its key |
| CallLogsModule.TabulateOrder | android/app/src/main/java/com/crmmobile/CallLogsModule.kt:84-123 | Keys stay in order of first appearance, as in Kotlin's insertion-ordered map |
| CallLogsModule.TabulateIsTableOf | android/app/src/main/java/com/crmmobile/CallLogsModule.kt:84-125 | The table after the loop matches the reference description of a grouping by key |
| CallLogsModule.Values | android/app/src/main/java/com/crmmobile/CallLogsModule.kt:128 | `values` lists the entries in key-insertion order |
| CallLogsModule.AddCallSums | android/app/src/main/java/com/crmmobile/CallLogsModule.kt:113-123 | One loop step adds exactly one call, and that row's seconds, to the table's totals, for a known or a new key |
| CallLogsModule.TabulateSums | android/app/src/main/java/com/crmmobile/CallLogsModule.kt:105-125 | Over the whole table, call counts sum to the number of rows read and durations sum to the rows' total |
| CallLogsModule.InsertByDuration | android/app/src/main/java/com/crmmobile/CallLogsModule.kt:129 | One insertion step of the sort places its element and loses or adds nothing else |
| CallLogsModule.InsertSorted | android/app/src/main/java/com/crmmobile/CallLogsModule.kt:129 | Insertion keeps a list in non-increasing duration order |
| CallLogsModule.InsertStable | android/app/src/main/java/com/crmmobile/CallLogsModule.kt:129 | Insertion keeps the relative order of entries with equal duration |
| CallLogsModule.SortByDuration | android/app/src/main/java/com/crmmobile/CallLogsModule.kt:128-129 | `sortedByDescending` yields a non-increasing, stable permutation of the entries |
| CallLogsModule.AllContacts | android/app/src/main/java/com/crmmobile/CallLogsModule.kt:105-128 | One entry per distinct key. Call counts sum to the rows read and durations to their total. Every count is at least 1 |
| CallLogsModule.ContactsSpellTheirKeys | android/app/src/main/java/com/crmmobile/CallLogsModule.kt:110-122 | Each entry's name and number spell out its grouping key, so no two entries are equal |
| CallLogsModule.Take | android/app/src/main/java/com/crmmobile/CallLogsModule.kt:130 | Kotlin's `take` returns the first min(n, size) elements. A negative count is an error with Kotlin's message |
| CallLogsModule.GetTopContactsByDuration | android/app/src/main/java/com/crmmobile/CallLogsModule.kt:82-146 | A negative limit rejects with "Failed to fetch top contacts: " and the `take` message. Otherwise the result has min(limit, contacts) entries, is sorted by descending duration, and lists only real contacts with at least one call |
| CallLogsModule.TopContactsAreLongest | android/app/src/main/java/com/crmmobile/CallLogsModule.kt:128-130 | No contact left out of the result talked longer than any contact in it |
| CallLogsModule.TopContactsTieOrder | android/app/src/main/java/com/crmmobile/CallLogsModule.kt:84-130 | Contacts with equal duration appear in the order their keys were first seen |
| CallLogsModule.SumOfPermutation | android/app/src/main/java/com/crmmobile/CallLogsModule.kt:128-129 | Reordering entries does not change any sum over them |
| CallLogsModule.TopContactsCoverAllCalls | android/app/src/main/java/com/crmmobile/CallLogsModule.kt:105-140 | With a limit covering every contact, the result accounts for every row read and every second |
| AuthSlice.InitialState | src/redux/slices/authSlice.ts:18-26 | Signed out, idle, no error, no multi-factor step under way |
| AuthSlice.Reduce | src/redux/slices/authSlice.ts:249-388 | For each action: which fields it sets, and that every other field is unchanged. This covers pending and rejected for the seven loading thunks, the exclusive sign-in branches, which leave `verificationId` alone, each fulfilled case, `clearMFAState`, `signOut` back to the initial state, and `setUser` |
| AuthSlice.LoadingTracksLastEvent | src/redux/slices/authSlice.ts:264-388 | After any action sequence, the spinner shows exactly when the last action that affects loading was a pending one |
| AuthSlice.ReducePreservesMFAConsistency | src/redux/slices/authSlice.ts:249-388 | Each action with a well-formed payload keeps "MFA required iff a resolver is held, with a phone label" |
| AuthSlice.MFAConsistencyInvariant | src/redux/slices/authSlice.ts:18-388 | From the initial state, every sequence of well-formed actions keeps the multi-factor fields consistent |
| AuthSlice.SignOutForgetsHistory | src/redux/slices/authSlice.ts:256-259 | Whatever happened before, signing out yields the initial state |
| AuthSlice.PhoneHints | src/redux/slices/authSlice.ts:46-48 | The filter keeps exactly the hints whose factor is "phone" |
| AuthSlice.FirstPhoneHint | src/redux/slices/authSlice.ts:46-53 | The filter's head is the first phone hint of the resolver's list |
| AuthSlice.ClassifySignIn | src/redux/slices/authSlice.ts:40-66 | The MFA payload is produced exactly for an MFA-required error with a phone hint. It uses the first phone hint's number or "your registered phone". Without a phone hint the rejection reads "MFA required but no phone factor available". Any other error rejects with its message or "Sign in failed" |
| AuthSlice.SignInPayloadsWellFormed | src/redux/slices/authSlice.ts:34-60 | Both fulfilment payloads of `signInWithEmail` satisfy the shape the consistency invariant needs |
| AuthSlice.SettleSignInError | src/redux/slices/authSlice.ts:40-66 | A caught error settles as the MFA fulfilment carrying the classified payload exactly when classification succeeds. Otherwise the sign-in thunk rejects with the classification's message |
| AuthSlice.FailedSignInShowsMessage | src/redux/slices/authSlice.ts:40-288 | An ordinary sign-in failure leaves the user signed out and idle, with no MFA step, showing the error's message or the fallback |
| CallLogsSlice.InitialState | src/redux/slices/callLogsSlice.ts:11-16 | Both lists empty, idle, no error |
| CallLogsSlice.Reduce | src/redux/slices/callLogsSlice.ts:45-82 | Pending starts loading and clears the error. Each fulfilment replaces only its own list. Rejection stops loading and sets the error. Clearing empties both lists and the error but not the flag |
| CallLogsSlice.LoadingTracksLastEvent | src/redux/slices/callLogsSlice.ts:54-81 | After any action sequence, loading is on exactly when the last action other than a clear was a pending of either thunk; a clear leaves the flag unchanged, even during a fetch |
| CallLogsSlice.SettlingEitherClearsLoading | src/redux/slices/callLogsSlice.ts:54-81 | The shared flag is cleared by settling either thunk, even while the other is still pending |
| CallLogsSlice.TopContactsFrame | src/redux/slices/callLogsSlice.ts:45-82 | Only a top-contacts fulfilment or a clear changes the top contacts |
| CallLogsSlice.CallLogsFrame | src/redux/slices/callLogsSlice.ts:45-82 | Only a call-log fulfilment or a clear changes the call logs |
| CallLogsSlice.SettleTopContacts | src/redux/slices/callLogsSlice.ts:30-40 | `fetchTopContacts` settles as its own fulfilment or rejection, and rejects exactly for a negative limit |
| CallLogsSlice.NegativeLimitShowsTakeError | src/redux/slices/callLogsSlice.ts:30-81 | A negative-limit fetch keeps both lists, stops loading and shows the native `take` message |
| LocationSlice.InitialState | src/redux/slices/locationSlice.ts:18-22 | No location, idle, no error |
| LocationSlice.Reduce | src/redux/slices/locationSlice.ts:55-75 | Pending keeps the last fix. Fulfilment replaces the fix but keeps the error. Rejection keeps the fix. Clearing nulls fix and error but not the flag |
| LocationSlice.LocationTracksLastFix | src/redux/slices/locationSlice.ts:55-75 | After any sequence, the shown fix is the last one received unless a clear followed. The error is the last failure's unless a request or clear followed |
| LocationSlice.FailureKeepsLastFix | src/redux/slices/locationSlice.ts:63-74 | A failed request after a fix shows the old fix next to the new error |
| TopContactsScreen.FormatDuration | src/screens/TopContactsScreen.tsx:66-76 | 0 is "0s". Labels from an hour up end in minutes, shorter ones in seconds |
| TopContactsScreen.HoursLabel | src/screens/TopContactsScreen.tsx:72-75 | From an hour up the label is exactly "<hours>h <minutes>m", with the seconds dropped |
| TopContactsScreen.MinutesLabel | src/screens/TopContactsScreen.tsx:72-75 | From a minute up to an hour the label is exactly "<minutes>m <seconds>s" |
| TopContactsScreen.SecondsLabel | src/screens/TopContactsScreen.tsx:72-75 | Below a minute the label is exactly "<seconds>s", so 0 is "0s" |
| TopContactsScreen.DurationParts | src/screens/TopContactsScreen.tsx:68-70 | Hours, minutes and seconds recompose the duration exactly, with minutes and seconds below 60 |
| TopContactsScreen.FormatDurationReadsBack | src/screens/TopContactsScreen.tsx:66-76 | Reading a label back gives the duration below an hour, and the duration less its seconds from an hour up |
| TopContactsScreen.TotalDuration | src/screens/TopContactsScreen.tsx:78-80 | The `reduce` starts from 0, so an empty list totals 0 |
| TopContactsScreen.TotalDurationAppend | src/screens/TopContactsScreen.tsx:78-80 | Each further contact adds its duration to the total, so the total is the sum of the listed durations |
| TopContactsScreen.EachDurationWithinTotal | src/screens/TopContactsScreen.tsx:78-86 | Without negative durations, no contact's duration exceeds the total, so no share exceeds the whole |
| TopContactsScreen.ZeroTotalMeansSilence | src/screens/TopContactsScreen.tsx:78-86 | Without negative durations, the total is 0 exactly when every contact's duration is |
| TopContactsScreen.Percentage | src/screens/TopContactsScreen.tsx:82-86 | The share is "0%" exactly when the total is 0 |
| TopContactsScreen.ChartName | src/screens/TopContactsScreen.tsx:97 | Names over 15 characters become their first 15 plus "...", 18 in all. Shorter names are unchanged |
| TopContactsScreen.ChartNameUnchanged | src/screens/TopContactsScreen.tsx:97 | A name survives unchanged exactly when it is short, or already has "..." right after character 15 |
| TopContactsScreen.PaletteColor | src/screens/TopContactsScreen.tsx:91-99 | Every slice colour comes from the 10-colour palette |
| TopContactsScreen.PaletteColorsRepeatEveryTen | src/screens/TopContactsScreen.tsx:91-99 | Two slices share a colour exactly when their positions agree modulo 10 |
| TopContactsScreen.ChartData | src/screens/TopContactsScreen.tsx:90-102 | One slice per contact, in list order, with the contact's truncated name, its duration and the palette colour of its position |
| TopContactsScreen.TenSlicesHaveDistinctColours | src/screens/TopContactsScreen.tsx:63-102 | The ten contacts the screen fetches get ten distinct colours |
| TopContactsScreen.FloorDiv | src/screens/TopContactsScreen.tsx:215 | `Math.floor(a / b)` is defined exactly for b != 0, and is the largest q with q <= a/b, for either sign of b |
| TopContactsScreen.AveragePerCall | src/screens/TopContactsScreen.tsx:215 | The average exists exactly when the call count is non-zero, and for a positive count it is the duration per call rounded down |
| TopContactsScreen.EveryListedContactHasAverage | src/screens/TopContactsScreen.tsx:215 | Every contact the native module returns has a defined average, because its call count is at least 1 |
| CallLogsScreen.FormatDuration | src/screens/CallLogsScreen.tsx:64-69 | 0 is "0s" and every label ends in seconds |
| CallLogsScreen.FormatDurationReadsBack | src/screens/CallLogsScreen.tsx:64-69 | Reading a label back gives exactly the duration, however many minutes |
| CallLogsScreen.AnHourIsSixtyMinutes | src/screens/CallLogsScreen.tsx:66-68 | Minutes are not folded into hours: 3600 seconds reads "60m 0s" |
| CallLogsScreen.LabelsAgreeBelowAnHour | src/screens/CallLogsScreen.tsx:64-69 | The two screens print the same label exactly for durations below an hour |
| CallLogsScreen.CallTypeColor | src/screens/CallLogsScreen.tsx:71-84 | Grey exactly for a type outside the four known names |
| CallLogsScreen.CallTypeColoursDistinct | src/screens/CallLogsScreen.tsx:71-84 | Every type the native module reports has its own colour |
| CallLogsScreen.GreyMeansUnknownCode | src/screens/CallLogsScreen.tsx:71-84 | A record is grey exactly when its native type code is unrecognised |
| CallLogsScreen.Title | src/screens/CallLogsScreen.tsx:90 | The title is a non-empty name, else the phone number |
| CallLogsScreen.NumberAlwaysShown | src/screens/CallLogsScreen.tsx:90-98 | The number is always on screen, as the title or on its own line |
| VisitsList.VisitIconAsWritten | src/screens/VisitsList.tsx:26-36 | The shipped lookup yields an inherited prototype member exactly when the lowered type names one. Otherwise it yields an icon from the map |
| VisitsList.MixedCaseMembers | src/screens/VisitsList.tsx:35 | Every inherited member name except `constructor` and `__proto__` has an upper-case letter |
| VisitsList.ReachableInheritedMembers | src/screens/VisitsList.tsx:35 | After lower-casing, the only inherited members a type can hit are `constructor` and `__proto__` |
| VisitsList.ConstructorTypeGetsNoIcon | src/screens/VisitsList.tsx:26-36 | The type "Constructor" yields `Object`'s constructor function instead of an icon, where the intended lookup gives the help icon |
| VisitsList.VisitIcon | src/screens/VisitsList.tsx:26-36 | The intended lookup always yields one of the map's icons. It gives the help icon exactly for types outside the map or "neprecizat" |
| VisitsList.AsWrittenAgreesElsewhere | src/screens/VisitsList.tsx:26-36 | Outside the inherited names, the shipped lookup and the intended one agree |
| VisitsList.VisitIconCaseInsensitive | src/screens/VisitsList.tsx:35 | The icon of a type equals the icon of its lower-cased form |
| VisitsList.Capitalise | src/screens/VisitsList.tsx:83 | Only the first character is upper-cased, the rest is kept, and "" stays "" |
| VisitsList.CapitalisedLabelKeepsIcon | src/screens/VisitsList.tsx:26-83 | The capitalised label and the raw type lower-case alike and select the same icon |
| VisitsList.StatusOf | src/screens/VisitsList.tsx:55-99 | Green, checkmark and "Efectuată" exactly for a completed visit |
| VisitsList.StatusPartsAgree | src/screens/VisitsList.tsx:55-99 | Colour, icon and caption each tell the two statuses apart |
| VisitsList.ListKeys | src/screens/VisitsList.tsx:119 | Each visit's list key is its id |
| VisitsList.KeysUniqueIffIdsUnique | src/screens/VisitsList.tsx:119 | The list's keys are unique exactly when no two visits share an id |
| VisitsList.OnEndReached | src/screens/VisitsList.tsx:137-142 | The guard passes exactly when loading is false and more pages exist. It then requests page + 1 (NaN for an undefined page) if the slice exports `setPage`; with the shipped slice, which does not, the call throws and nothing is dispatched |
| VisitsList.ShippedSliceNeverLoadsMore | src/screens/VisitsList.tsx:113-142 | When the slice lacks the loading or has-more field, scrolling to the end does nothing; without `setPage` it never requests a page |
| HomeScreen.ProgressColor | src/screens/HomeScreen.tsx:17-22 | Red below 50 or above 100. Orange for [50, 80). Yellow for [80, 100). Green exactly at 100 |
| HomeScreen.ColourFollowsBand | src/screens/HomeScreen.tsx:19-22 | Values in the same band get the same colour. Two values share a colour exactly when their bands match, or both are under half or over target |
| LoginScreen.HandleEmailLogin | src/screens/LoginScreen.tsx:58-64 | Sign-in is dispatched exactly when email and password are both non-empty. Otherwise an alert shows |
| LoginScreen.HandleVerifyMFACode | src/screens/LoginScreen.tsx:66-79 | Any code that is not 6 characters long alerts, whatever its characters. A 6-character code dispatches exactly when a verification id and a resolver are held |
| LoginScreen.HandlePhoneLogin | src/screens/LoginScreen.tsx:81-88 | Phone sign-in is dispatched exactly for a non-empty number |
| LoginScreen.HandleVerifyPhoneCode | src/screens/LoginScreen.tsx:90-102 | Any code that is not 6 characters long alerts. A 6-character code dispatches exactly when a verification id is held |
| LoginScreen.HandleResendCode | src/screens/LoginScreen.tsx:104-110 | Resend uses the MFA resolver first. Failing that, it resends phone sign-in only in phone mode with a number. Otherwise it does nothing |
| LoginScreen.HandleBackFromMFA | src/screens/LoginScreen.tsx:112-117 | Clears the MFA state, code, password and phone-verification flag, and keeps email, number and method |
| LoginScreen.ToggleLoginMethod | src/screens/LoginScreen.tsx:119-128 | Flips the method, leaves phone verification, empties all four fields, and clears the error and MFA state |
| LoginScreen.ToggleTwiceRestoresMethod | src/screens/LoginScreen.tsx:119-128 | Toggling twice restores the original method with a cleared form |
| LoginScreen.AutoSendMFA | src/screens/LoginScreen.tsx:45-49 | The code is sent automatically exactly when MFA is required, a resolver is held and no verification id exists yet |
| LoginScreen.PhoneVerifyingEffect | src/screens/LoginScreen.tsx:52-56 | Phone verification starts once a code was sent in phone mode outside an MFA sign-in. No other field changes |
| LoginScreen.SelectView | src/screens/LoginScreen.tsx:131-257 | The MFA view shows exactly when MFA is required and an id is held. The phone view shows when verifying a phone with an id and no MFA. Otherwise the main view shows |
| LoginScreen.ToggleShowsMainView | src/screens/LoginScreen.tsx:119-128 | After a toggle's actions reach the auth slice, the main view shows with no error and no MFA step, and the user and loading flag are kept |
| LoginScreen.MFASignInShowsMFAView | src/screens/LoginScreen.tsx:45-131 | An MFA sign-in triggers the automatic send. Once the code is sent, the MFA view shows and the effect stops firing |

## Left out

- Firebase, axios, the Android content resolver, the React Native bridge and geolocation are not modelled. Their results are inputs: cursors as row sequences, responses as `Result` values, and users, resolvers and location fixes as records of the fields the code reads.
- `getIdToken` failing and the content-resolver query throwing are not modelled. The only native exception modelled is `take` with a negative count.
- The bodies of the other auth thunks are not modelled, only the actions they settle with. Their own fallback messages are left out with them.
- The exact `JSON.stringify` text and URL encoding of the condition list are not modelled. The list is a datatype.
- Floating point is not modelled: `toFixed(1)` percentages, coordinates, and `Date` values in milliseconds (`date.toDouble()`).
- Locale and time-zone formatting is not modelled: `toLocaleString`, `formatDate`, the overdue check.
- Concurrent, overlapping thunks are not modelled. Reducers are applied to finite action sequences.
- Strings are sequences of characters, not UTF-16 code units. Case mapping covers ASCII letters only.
- `PhoneVerificationScreen`, the statistics and config slices, store wiring and pure rendering components are not modelled.
- Visit append/merge pagination is not modelled because it does not exist in the code.
- `src/interfaces/Vizita.ts` is used only for the field names of `VisitsList.VisitSummary`.
- CallLogsModule.TabulateTotals: Kotlin `Int` sums and counts are unbounded here. 32-bit wrap-around on more than about 2^31 seconds of calls is not modelled.
- CallLogsModule.AddCallSums: as above, the running sums do not wrap at 2^31.
- TopContactsScreen.FormatDurationReadsBack: the read-back covers non-negative durations only. Negative durations print with a '-' that the reader does not accept.
- CallLogsScreen.FormatDurationReadsBack: the read-back covers non-negative durations only, for the same reason.
- Calendar.MakeLocalDate: years are unbounded integers. The `Date` range limit of about ±275,000 years, beyond which the result is Invalid Date, is not modelled.
- VisitQuery.BuildVisitsRequest: the date filter is assumed to be a valid `Date`. An Invalid Date, which would format as "NaN-NaN-NaN", is not modelled.

## Findings

| source | as written | input that shows it | evidently intended | confidence | as-written member | corrected member |
|---|---|---|---|---|---|---|
| src/screens/VisitsList.tsx:26-36 | `iconMap[tipVizita.toLowerCase()] \|\| 'help-circle'` indexes a plain object literal, so names inherited from `Object.prototype` are found too. They are truthy, so they are returned instead of the fallback icon | a visit with `tip_vizita` "Constructor" (or "__proto__") gets `Object`'s constructor function (or the prototype object) as its icon name | only the map's own five keys give an icon; every other type gets "help-circle" | not executed | VisitsList.ConstructorTypeGetsNoIcon | VisitsList.VisitIcon |
