# Ride-hailing admin dashboard: the client-side logic, in Dafny

The admin dashboard is a Next.js application. Its screens fetch lists from the
ride-hailing API, and then decide on their own what to show and what to send back.
This project models those decisions as pure Dafny functions, methods and lemmas:

- **System configuration**: the edit buffer built after a fetch; `handleChange`; the
  change set `handleSave` sends; the category and icon of a config; the label of a
  config name.
- **Fund requests**: the two-hour display window; the approve and reject handlers up to
  the request they send; the per-card notes and buttons; the status tallies.
- **Users**: the search filter; the active/blocked tallies; which card action reaches
  the API.
- **Stuck rides**: the status colours; the age text and its severity colour; when the
  cleanup button is enabled.
- **Active rides**: the status colours; the status text (`formatStatus`); the three
  tallies.
- **Driver funds**: the fund level and its colour and badge; the summary cards; the
  row cells.
- **Drivers map**: the presence dot and text.
- **Driver verification**: the status badge and text; the status-update request; which
  card is busy.
- **Language context**: the three languages; the text direction; the stored
  preference; the lookup `t` with its fall-back to the key.

Which rides are stuck, what cleanup does to them, and how a fund approval changes a
driver's balance are decided by the server. The dashboard only displays the results
and posts the admin's decisions, so none of that is modelled.

Layout: one module per component, plus three shared modules.

- `Basics`: `Option`, map lookup, and the in-flight mark (`InFlight`, `CardEnabled`)
  that disables a card's buttons while its request runs.
- `Text`: the JavaScript string operations the components use. These are ASCII case
  mapping, `includes`, `split`/`join`, `trim` with the JavaScript whitespace set,
  and decimal numerals.
- `Seqs`: `filter`, the counts of exclusive filters, and the sum behind `reduce`.

Timestamps are integers (milliseconds since the epoch). Amounts of money are reals.
Everything the browser does (HTTP, `localStorage`, `alert`, `confirm`, timers) is a
parameter or an outcome value.

## Model

| member | source | states |
|---|---|---|
| `ConfigManagement.InitialValues` | components/ConfigManagement.tsx:23-27 | every fetched config's name is in the buffer, and every name in it belongs to a fetched config |
| `ConfigManagement.InitialValuesLastWins` | components/ConfigManagement.tsx:24-26 | a name holds the value of the last config carrying it: later duplicates overwrite earlier ones |
| `ConfigManagement.FetchedEditsMatchStored` | components/ConfigManagement.tsx:23-27 | right after a fetch every input shows its config's stored value if and only if configs sharing a name share a value |
| `ConfigManagement.HandleChange` | components/ConfigManagement.tsx:78-83 | the edited name now holds the typed value, every other name is unchanged, and the keys grow by that name only |
| `ConfigManagement.ChangeSetEmptyIff` | components/ConfigManagement.tsx:49-59 | the change set is empty exactly when no config's input differs from its stored value (a missing input counts as different) |
| `ConfigManagement.ChangeSetMembers` | components/ConfigManagement.tsx:49-57 | every changed config has its update in the change set, and every update names a changed config and carries its edited value |
| `ConfigManagement.ChangeSetSnoc` | components/ConfigManagement.tsx:50-56 | adding a config at the end adds its update exactly when it was changed, keeping config order |
| `ConfigManagement.PrepareUpdates` | components/ConfigManagement.tsx:49-57 | the `forEach` loop produces exactly the change set, and never more updates than configs |
| `ConfigManagement.HandleSave` | components/ConfigManagement.tsx:49-65 | the "no changes" outcome happens exactly when every input equals its stored value; otherwise the bulk update carries the non-empty change set |
| `ConfigManagement.SaveAfterFetchSendsNothing` | components/ConfigManagement.tsx:49-63 | saving straight after a fetch sends nothing when configs sharing a name share a value |
| `ConfigManagement.DuplicateNamesAfterFetch` | components/ConfigManagement.tsx:23-27 | two `base_fare` configs with values 2 and 3: a save with no edit still sends `base_fare = 3` |
| `ConfigManagement.EditAfterFetch` | components/ConfigManagement.tsx:78-83 | after a fetch, one edit to a new value yields updates for that name only, all with the new value, including the edit itself |
| `ConfigManagement.EditThenRevert` | components/ConfigManagement.tsx:78-83 | typing a value and then the stored value back leaves nothing to save |
| `ConfigManagement.GetConfigCategory` | components/ConfigManagement.tsx:91-97 | each category in terms of the name: the exact names for general and driver, then `per_km_rate` before `minimum_fare`, else other |
| `ConfigManagement.CategoriesPartition` | components/ConfigManagement.tsx:114-120 | each config is in its own category's group and in no other, and the five group sizes add up to the number of configs |
| `ConfigManagement.GetConfigIcon` | components/ConfigManagement.tsx:85-89 | dollar sign exactly when the name mentions fare, rate or commission; map pin exactly when it mentions radius and none of those |
| `ConfigManagement.IconOfCategory` | components/ConfigManagement.tsx:85-97 | every config on the general, rates and minimum panels shows the dollar sign; the driver-matching one shows the map pin |
| `ConfigManagement.FormatLabelPointwise` | components/ConfigManagement.tsx:99-104 | the label has the name's length; underscores become spaces and the first letter of each underscore-separated piece is upper-cased |
| `ConfigManagement.FormatLabelHasNoUnderscore` | components/ConfigManagement.tsx:99-104 | a label never contains an underscore |
| `FundRequests.RecentRequests` | components/FundRequestManagement.tsx:75-82 | the displayed requests are a subsequence of the fetched ones, and each request is displayed as many times as it was fetched when it was created at most two hours before now, and not at all otherwise |
| `FundRequests.RecentRequestsIdempotent` | components/FundRequestManagement.tsx:79-82 | applying the window again at the same time changes nothing |
| `FundRequests.RecentRequestsShrinkOverTime` | components/FundRequestManagement.tsx:76-82 | a later clock reading displays a subsequence of what an earlier one displayed |
| `FundRequests.ActionableIff` | components/FundRequestManagement.tsx:348-367 | a fetched request has approve/reject buttons exactly when it is pending and inside the window |
| `FundRequests.HandleApprove` | components/FundRequestManagement.tsx:99-114 | approval is always sent for the given id, with the typed note or the empty string |
| `FundRequests.HandleReject` | components/FundRequestManagement.tsx:137-158 | rejection is sent exactly when a note exists with a non-whitespace character, and it carries the note as typed; otherwise an alert with the fixed message |
| `FundRequests.EditNote` | components/FundRequestManagement.tsx:337 | typing sets the card's note and leaves every other card's note as it was |
| `FundRequests.ApproveSendsTypedNote` | components/FundRequestManagement.tsx:112-114 | after typing a note, approval sends that note unchanged |
| `FundRequests.RejectAfterTyping` | components/FundRequestManagement.tsx:138-143 | after typing a note, rejection is sent exactly when the note is not all whitespace, and then carries it |
| `FundRequests.NotesAfter` | components/FundRequestManagement.tsx:124-128 | a request the server accepted loses its note and no other; a refused or failed request keeps every note |
| `FundRequests.BlankRejectChangesNothing` | components/FundRequestManagement.tsx:138-143 | a blank or missing note refuses the rejection and leaves the notes unchanged |
| `FundRequests.InFlightDuring` | components/FundRequestManagement.tsx:137-147 | a rejection refused for a blank note leaves every card as it was; a sent decision disables its own card and no other |
| `FundRequests.DecisionButtonLabel` | components/FundRequestManagement.tsx:356-364 | only the approve button switches to "processing" while in flight; the reject label never changes |
| `FundRequests.StatusCountsAddUp` | components/FundRequestManagement.tsx:183-185 | the pending, approved and rejected counts add up to the number of displayed requests |
| `UserManagement.FilterUsers` | components/UserManagement.tsx:37-44 | the shown users are a subsequence of the list; a user is shown as many times as listed when the query occurs case-insensitively in a name or e-mail, or as typed in the phone, and not at all otherwise |
| `UserManagement.EmptyQueryShowsAll` | components/UserManagement.tsx:37-43 | the empty query shows every user in order |
| `UserManagement.LongerQueryMatchesLess` | components/UserManagement.tsx:38-42 | a user matching a query matches every query that occurs in it |
| `UserManagement.LongerQueryNarrows` | components/UserManagement.tsx:37-44 | refining the query shows a subsequence of the previous result |
| `UserManagement.NameMatchIgnoresQueryCase` | components/UserManagement.tsx:39-41 | lower-casing the query does not change the name and e-mail match |
| `UserManagement.PhoneMatchIsCaseSensitive` | components/UserManagement.tsx:42 | the phone match is case-sensitive: a phone "ab" matches "ab" but not "AB" |
| `UserManagement.ActivePlusBlockedIsTotal` | components/UserManagement.tsx:229-230 | the active and blocked counts add up to the number of users |
| `UserManagement.ToggleAction` | components/UserManagement.tsx:182-200 | a blocked user's card offers unblock, any other card offers block |
| `UserManagement.SendsRequest` | components/UserManagement.tsx:47-74 | unblocking always reaches the API; blocking and deleting reach it exactly when confirmed |
| `UserManagement.ToggleSkipsConfirmIff` | components/UserManagement.tsx:47-74 | the card toggle (lines 182-200) reaches the API with or without confirmation exactly when the user is blocked |
| `RideCleanup.GetStatusColor` | components/RideCleanup.tsx:89-102 | each of the four colours is chosen exactly for its upper-cased status, and the gray default for every other status |
| `RideCleanup.StatusColorIgnoresCase` | components/RideCleanup.tsx:89-90 | a status and its lower-case spelling get the same colour |
| `RideCleanup.FormatAge` | components/RideCleanup.tsx:104-111 | under an hour the text is the minutes followed by `m`, with no hour part; the text contains `h` exactly from an hour on; it always ends in `m` |
| `RideCleanup.FormatAgeRoundTrip` | components/RideCleanup.tsx:104-111 | reading the age text back gives the age: nothing is lost (for the whole-minute ages described under "Left out") |
| `RideCleanup.FormatAgeInjective` | components/RideCleanup.tsx:104-111 | distinct ages never share a text |
| `RideCleanup.FormatAgeHoursAndMinutes` | components/RideCleanup.tsx:108-110 | from an hour on, the text is hours and minutes with the minutes under 60 and `60 * h + r` the age |
| `RideCleanup.AgeSeverity` | components/RideCleanup.tsx:294-298 | red exactly over 120 minutes, orange exactly over 30 up to 120, yellow otherwise |
| `RideCleanup.SeverityMonotone` | components/RideCleanup.tsx:294-298 | an older ride is never shown in a milder colour |
| `RideCleanup.CleanupEnabled` | components/RideCleanup.tsx:135 | the cleanup button is enabled exactly when nothing is running and there is a stuck ride |
| `RideCleanup.ShownPanel` | components/RideCleanup.tsx:236-252 | the spinner exactly while loading, the empty panel exactly for no stuck rides, the table otherwise |
| `RideCleanup.CleanupOnlyWithTable` | components/RideCleanup.tsx:135 | the cleanup button is enabled exactly when the ride table is shown and no cleanup runs; beside the empty panel it is disabled |
| `ActiveRides.GetStatusColor` | components/ActiveRides.tsx:40-57 | each colour is chosen exactly for its upper-cased status; COMPLETED and every unknown status share gray |
| `ActiveRides.StatusColorIgnoresCase` | components/ActiveRides.tsx:40-41 | a status and its lower-case spelling get the same colour |
| `ActiveRides.FormatStatusPointwise` | components/ActiveRides.tsx:59-61 | the text keeps the status's length; underscores become spaces, and a word character is upper-cased exactly when it starts a word |
| `ActiveRides.FormatStatusHasNoUnderscore` | components/ActiveRides.tsx:59-61 | the status text never contains an underscore |
| `ActiveRides.FormatStatusIdempotent` | components/ActiveRides.tsx:59-61 | formatting a formatted status changes nothing |
| `ActiveRides.FormatStatusExamples` | components/ActiveRides.tsx:59-61 | `in_progress` reads "In Progress" but `IN_PROGRESS` reads "IN PROGRESS": nothing is lower-cased |
| `ActiveRides.TalliesAreDisjoint` | components/ActiveRides.tsx:92-104 | the three cards never count a ride twice; they add up to the number of rides when every ride has one of the four statuses |
| `LanguageContext.Code` | contexts/LanguageContext.tsx:5 | every language code has two letters: `en`, `ar` and `fr` for English, Arabic and French |
| `LanguageContext.FromCode` | contexts/LanguageContext.tsx:523 | a stored string names a language exactly when it is `en`, `ar` or `fr` |
| `LanguageContext.CodeRoundTrip` | contexts/LanguageContext.tsx:522-536 | a written code reads back as the language it was written for |
| `LanguageContext.FromCodeRoundTrip` | contexts/LanguageContext.tsx:523 | a code that reads back as a language is that language's code |
| `LanguageContext.LoadSaved` | contexts/LanguageContext.tsx:518-526 | a stored valid code selects its language; anything else (nothing, empty, unknown) leaves English |
| `LanguageContext.Dir` | contexts/LanguageContext.tsx:543 | right to left exactly for Arabic |
| `LanguageContext.DocumentFor` | contexts/LanguageContext.tsx:529-532 | the page is `rtl` exactly for Arabic, and its `lang` reads back as the language |
| `LanguageContext.SetLanguage` | contexts/LanguageContext.tsx:534-537 | the chosen language takes effect and its code is what is stored, so a reload restores it and choosing it again changes nothing |
| `LanguageContext.Translate` | contexts/LanguageContext.tsx:539-541 | the text for a key present with a non-empty translation in the current language, and the key itself otherwise |
| `LanguageContext.TranslateNonEmpty` | contexts/LanguageContext.tsx:539-541 | a non-empty key never translates to the empty text |
| `DriverFunds.FundLevelOf` | components/DriverFundManagement.tsx:49-53 | danger exactly at zero or below, warning exactly between 0 and 50, healthy from 50 on |
| `DriverFunds.FundLevelMonotone` | components/DriverFundManagement.tsx:49-59 | more money never shows a worse level |
| `DriverFunds.GetFundStatusColor` | components/DriverFundManagement.tsx:49-53 | each text colour in terms of the fund's range |
| `DriverFunds.GetFundStatusBadge` | components/DriverFundManagement.tsx:55-59 | each badge exactly for its fund level, so it agrees with the text colour |
| `DriverFunds.ColorAndBadgeAgree` | components/DriverFundManagement.tsx:49-59 | the colour and the badge carry the same tone, that of the fund's level |
| `DriverFunds.DepletedIffDanger` | components/DriverFundManagement.tsx:220-225 | the "Depleted" badge appears exactly when the amount is coloured as danger |
| `DriverFunds.LowFundsAreDangerRows` | components/DriverFundManagement.tsx:163 | the low-funds card counts exactly the rows at the danger level |
| `DriverFunds.LevelCountsAddUp` | components/DriverFundManagement.tsx:49-53 | every driver is at exactly one level: the three level counts add up to the number of drivers |
| `DriverFunds.TotalOf` | components/DriverFundManagement.tsx:129 | the `reduce` loop yields the sum over all drivers, equal to the left fold from 0 |
| `DriverFunds.NoDepletedMeansPositiveTotal` | components/DriverFundManagement.tsx:129-163 | with at least one driver and a low-funds count of 0, the total-funds card is positive |
| `DriverFunds.AccountStatusBadge` | components/DriverFundManagement.tsx:215 | green exactly for `ACTIVE` as spelled, amber for everything else |
| `DriverFunds.AccountBadgeAgreesWithVerification` | components/DriverFundManagement.tsx:215 | the account badge is green exactly when the verification screen shows the status green |
| `DriverFunds.OnlineDot` | components/DriverFundManagement.tsx:201 | green exactly for an online driver, gray otherwise |
| `DriverFunds.OnlineDotAgreesWithMap` | components/DriverFundManagement.tsx:201 | the dot is green exactly for drivers the live map does not show as offline |
| `DriverFunds.ShortId` | components/DriverFundManagement.tsx:208 | the shown id is a prefix of the id of at most eight characters, followed by an ellipsis |
| `DriverFunds.ShortIdSharedPrefix` | components/DriverFundManagement.tsx:208 | ids agreeing on their first eight characters are shown alike |
| `DriverFunds.PhoneCell` | components/DriverFundManagement.tsx:213 | the phone as given when non-empty, the "not available" text exactly when it is empty |
| `DriverFunds.PhoneCellNeverBlank` | components/DriverFundManagement.tsx:213 | the phone cell never renders empty, in any language and with any translation table |
| `DriversMap.PresenceOf` | components/DriversMap.tsx:37-47 | offline exactly when not online, whatever the availability flag; otherwise available or busy by that flag |
| `DriversMap.GetStatusColor` | components/DriversMap.tsx:37-41 | gray exactly when offline, green exactly when online and available, yellow exactly when online and busy |
| `DriversMap.GetStatusText` | components/DriversMap.tsx:43-47 | the offline and online keys in the same cases as the colours, and the literal "Busy" exactly when busy |
| `DriversMap.ColorAndTextAgree` | components/DriversMap.tsx:37-47 | the dot and the text always describe the same presence |
| `DriversMap.PresenceColorInjective` | components/DriversMap.tsx:37-41 | the dot colour alone tells the three presences apart |
| `DriversMap.BusyIsNotTranslated` | components/DriversMap.tsx:46 | a busy driver reads "Busy" in every language |
| `DriverVerification.GetStatusBadgeClass` | components/DriverVerification.tsx:72-83 | each badge exactly for its status as spelled, the gray default for every other status |
| `DriverVerification.GetStatusText` | components/DriverVerification.tsx:85-96 | the translation key exactly for each known status, the raw status exactly for every other status |
| `DriverVerification.UnknownStatusIsShownRaw` | components/DriverVerification.tsx:72-96 | the badge is gray exactly when the text is the raw status |
| `DriverVerification.StatusLabelInjective` | components/DriverVerification.tsx:85-96 | distinct statuses never share a label (translation key or raw status) |
| `DriverVerification.StatusTextsCanCoincide` | components/DriverVerification.tsx:85-96 | the rendered texts can coincide: with "Active" as the English text of the active key, ACTIVE and an unknown status "Active" read the same |
| `DriverVerification.TargetStatus` | components/DriverVerification.tsx:217-229 | each button asks for a status with its own colour, never pending or unknown |
| `DriverVerification.TargetStatusBadge` | components/DriverVerification.tsx:217-229 | after the update an approved driver is shown green and a suspended one red |
| `DriverVerification.UpdateRequest` | components/DriverVerification.tsx:49-57 | the request goes to the driver's status path and asks for `ACTIVE` exactly when approving, `SUSPENDED` otherwise |
| `DriverVerification.UpdateRequestInjective` | components/DriverVerification.tsx:53-57 | distinct drivers or buttons never produce the same request |
| `Basics.CardEnabled` | components/DriverVerification.tsx:218-230 | a card's buttons are disabled exactly while its own request is in flight (the same rule guards the fund-request buttons) |
| `DriverVerification.ButtonLabel` | components/DriverVerification.tsx:223-237 | both buttons read "processing" while disabled and their own action otherwise |
| `DriverVerification.StartUpdate` | components/DriverVerification.tsx:50 | starting an update disables that driver's card and no other |
| `DriverVerification.FinishUpdate` | components/DriverVerification.tsx:67-69 | when the request ends, succeeded or failed, every card is enabled |
| `DriverVerification.OtherCardsStayEnabled` | components/DriverVerification.tsx:49-70 | another card stays usable during an update, and the card is usable again after it |

## Left out

- HTTP requests, `localStorage`, `alert`, `confirm`, `setTimeout`/`setInterval` polling and React state: these are I/O. The model takes their inputs as parameters (the stored preference, the confirmation, whether the server accepted) and returns their effects as values.
- What the server does with the requests: stuck-ride detection, cleanup, fund crediting, blocking and deleting users, bulk config updates. It is not in this code.
- Floating-point money: amounts are reals, so `Number(...)`, `toFixed` in the currency and rating texts, and rounding in `reduce` are not modelled.
- Date parsing and formatting (`new Date(...)`, `toLocaleString`, `toLocaleDateString`): these depend on the platform.
- FundRequests.RecentRequests: the window is `now - 7_200_000` ms. The code calls `setHours(getHours() - 2)` on a local `Date`, which can differ from that by the clock shift on a daylight-saving change.
- UserManagement.FilterUsers: `toLowerCase` is modelled for ASCII letters only. JavaScript also lower-cases other scripts, so this holds for ASCII text.
- ConfigManagement.FormatLabelPointwise: `toUpperCase` is modelled for ASCII letters only. Non-ASCII letters (and letters that upper-case to two characters) are kept as they are.
- ActiveRides.GetStatusColor: the status is upper-cased for ASCII letters only. Every status spelled in the code is ASCII.
- RideCleanup.GetStatusColor: the status is upper-cased for ASCII letters only.
- ActiveRides.FormatStatusPointwise: word starts follow the regular-expression `\w`, which matches ASCII letters, digits and `_` only. Every character it upper-cases is therefore an ASCII letter, so the ASCII case mapping is exact here and nothing is left out.
- RideCleanup.FormatAge: the age is taken as a whole number of minutes below 2^53 in magnitude. `ageMinutes` is a JavaScript number: a fractional age, the loss of exactness in `Math.floor(minutes / 60)` and `%` past 2^53, and the exponent notation `${minutes}` prints from 10^21 on (`"1e+21m"`) are not modelled. `IntToString`, `FormatAgeRoundTrip` and `FormatAgeInjective` hold for those whole-minute ages only.
- DriverFunds.ShortId: ids are taken as ASCII. JavaScript's `slice(0, 8)` counts UTF-16 code units, while the model counts characters; the two agree on ASCII ids.
- The success and error messages of the handlers (the count in "Successfully updated N configuration(s)", the cleanup summary) and the loading spinners: these are display text only.
- The fund request card header colours and status icons: they are the same three-way switch on the status as the tallies and carry no further logic.
- The "other" configuration group: it is computed but the page never renders it. The model computes it, and `CategoriesPartition` shows it is where every other config goes.
- The translation tables themselves (the per-language key/text lists): the model takes them as a parameter of `Translate`.
- `useLanguage` outside its provider (it throws): this is a wiring error, not data handling.
- The map view, the language selector, the page shells, the API client and the shared type declarations: they hold no logic beyond rendering and transport.
