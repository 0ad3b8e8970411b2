# Vessel registry core, modelled in Dafny

This project models the record-keeping core of a browser-resident registry used by a maritime
administration. The registry tracks merchant vessels with their inspections, marine surveyors,
and the port state control standing of classification societies. The modelled parts are:

- **The password gate** (`Login`). A typed password is checked against the stored password, or
  against the two built-in defaults while nothing (or an empty string) is stored. The first
  successful login stores the password it used.
- **The registry dashboard** (`Dashboard`). A class holds the three collections (vessels,
  surveyors, classification societies), the selections, the vessel lookup and the forms. Its
  methods are the dashboard's handlers: loading the collections on mount, vessel lookup, vessel
  registration with duplicate-IMO refusal, adding inspections, adding surveyors, confirmed
  deletions, adding and refreshing classification societies, and the password change.
- **The dashboard's derived views** (`DashboardViews`). These are the overview totals, the
  vessels-per-flag histogram, the letter subject line, the per-regime status lookup of the class
  performance report, and the list-status badge colour.
- **The exemption/extension register** (`Exemptions`). A class holds the records, the id being
  edited and one form. Adding prepends a record with id max + 1. Editing, deleting and resetting
  the form are modelled too.
- **The analysis-service boundary** (`Gateway`). It models how a reply text is cut down to a
  JSON candidate: from the first `{` to the last `}`, or else with the code fences stripped and
  the text trimmed. It also models how a parse failure, an empty reply and a transport failure
  become "no data", "no data" and "error".

Supporting modules: `Wrappers` (`Option`, and `Parsed` for a parser that may throw), `Strings`
(JavaScript's `includes`, `indexOf`, `lastIndexOf`, `trim`, `toLowerCase` and `||` defaulting),
`Collections` (`filter`, `map` and `find` by key, plus key uniqueness), `Records` (the record
types) and `Storage` (local storage as a string-keyed map).

Outside effects are inputs. `JSON.parse` is a function parameter that yields a value or a
`SyntaxError`. A lookup's or analysis's outcome is an `Outcome`: `Delivered(data)`, `NullResult`
or `Threw`. The confirmation dialog is a `confirmed` flag. `Date.now()` and `new Date()` are `id`
and `now` parameters. A handler that calls `alert` returns the alert's text to the caller as
`Some(text)`, and `None` when it raises none.

Points of the code's behaviour worth knowing:

- A stored collection the parser rejects is not caught. Loading stops at that collection and
  leaves the later ones unloaded (`Dashboard.DashboardState.Mount`).
- The JSON candidate runs from the first `{` to the last `}`, whatever lies between; braces are
  not balanced.
- A refresh whose analysis returns null changes nothing and raises no notice. Only a thrown
  error raises one (`Dashboard.DashboardState.RefreshClass`).
- Seeded societies carry the reason "Pending Analysis", while added ones carry "Analysis Pending".
- A missing inspector name or location becomes "Unknown".

## Model

| member | source | states |
|---|---|---|
| Strings.Includes | components/Dashboard.tsx:1283-1285 | `includes` is true exactly when the substring occurs at some position |
| Strings.IndexOf | services/geminiService.ts:16 | -1 exactly when the character is absent; otherwise its first position |
| Strings.LastIndexOf | services/geminiService.ts:17 | -1 exactly when the character is absent; otherwise its last position |
| Strings.TrimStart | services/geminiService.ts:26 | the result is a suffix; what was dropped is all JS white space; the result does not start with white space |
| Strings.TrimEnd | services/geminiService.ts:26 | the result is a prefix; what was dropped is all JS white space; the result does not end with white space |
| Strings.Trim | services/geminiService.ts:26 | `trim` cuts a piece out of the string, drops only white space, and leaves no white space at either end |
| Strings.LowerChar | components/Dashboard.tsx:782 | an upper-case ASCII letter becomes the lower-case letter at the same place in the alphabet; every other character is kept |
| Strings.ToLower | components/Dashboard.tsx:782 | `toLowerCase` keeps the length, lowers each character in place, and leaves no upper-case ASCII letter |
| Strings.StringOr | components/Dashboard.tsx:166-170 | string defaulting: a missing or empty value gives the fallback, anything else is kept |
| Collections.RemoveWhere | components/Dashboard.tsx:205 | `filter` by key keeps exactly the elements whose key differs, and no more than there were |
| Collections.RemoveWhereAppend | components/Dashboard.tsx:205 | filtering distributes over concatenation, so the kept elements keep their order |
| Collections.RemoveWhereAbsent | components/Dashboard.tsx:205 | filtering out a key nobody has changes nothing |
| Collections.RemoveWhereUnique | components/Dashboard.tsx:205 | with distinct keys, deleting by a key removes exactly that element and keeps the rest in order |
| Collections.RemoveWhereKeepsDistinct | components/Dashboard.tsx:205 | filtering keeps every key that was distinct distinct |
| Collections.UpdateWhere | components/Dashboard.tsx:173-178 | `map` by key keeps the length and changes exactly the elements with the key |
| Collections.UpdateWhereKeepsKeys | components/Dashboard.tsx:173-178 | a map that keeps a key of each element keeps that key in place and distinct |
| Collections.FirstIndex | components/Dashboard.tsx:1283 | the first index satisfying the predicate, or -1 exactly when there is none |
| Collections.FindFirst | components/Dashboard.tsx:1283 | `find` gives none exactly when nothing matches; otherwise the first matching element |
| Collections.FirstIndexAppend | components/Dashboard.tsx:1283 | in a concatenation, the first match is the first part's, else the second part's shifted |
| Collections.FindFirstAppend | components/Dashboard.tsx:1283 | `find` consults the second part only when the first has no match |
| Collections.FindByKey | components/Dashboard.tsx:181 | find by key gives none exactly when no element has the key; otherwise an element with the key |
| Collections.FindByKeyUnique | components/Dashboard.tsx:301 | with distinct keys, find by an element's key gives that element |
| Collections.FindByKeyAfterUpdate | components/Dashboard.tsx:181 | after a key-preserving map by key, find gives the mapped version of what it found before |
| Collections.AppendKeepsDistinct | components/Dashboard.tsx:151 | appending an element with a new key keeps keys distinct |
| Collections.HasKeyPrepend | components/components/ShipExemptions.tsx:93 | the keys after prepending an element are its key and the keys before |
| Collections.PrependKeepsDistinct | components/components/ShipExemptions.tsx:93 | prepending an element with a new key keeps keys distinct |
| Collections.Count | components/Dashboard.tsx:287 | `filter(p).length` is at most the length, 0 exactly when nothing matches, and 1 or 0 on one element as it matches or not |
| Collections.CountAppend | components/Dashboard.tsx:287 | the count of a concatenation is the sum of the counts |
| Collections.CountIsMatchingIndices | components/Dashboard.tsx:287 | the count is the number of positions whose element matches |
| Storage.Store.constructor | components/Login.tsx:16 | the store starts with the given entries |
| Storage.Store.GetItem | components/Login.tsx:16 | `getItem` gives the stored string, or null exactly when the key is absent |
| Storage.Store.SetItem | components/Login.tsx:22 | `setItem` stores the value under the key and changes no other entry |
| Gateway.SplitAtFenceLines | services/geminiService.ts:26 | the left-to-right scan cuts the reply into pieces free of "```json\n" and "\n```", joined back by exactly those fence lines; the first replacement's result is the pieces concatenated, so everything but the fence lines survives, in order |
| Gateway.RemoveFenceLinesStep | services/geminiService.ts:26 | a first character that starts neither fence line is kept and the scan goes on after it |
| Gateway.RemoveFenceLines | services/geminiService.ts:26 | the first replacement never lengthens the text; what it keeps is stated on `SplitAtFenceLines` |
| Gateway.RemoveTicks | services/geminiService.ts:26 | the second replacement keeps every character other than a backtick, in order; never longer |
| Gateway.StripFences | services/geminiService.ts:26 | the fallback text is the text after both replacements with only white space cut from its two ends; it contains no fence marker and neither starts nor ends with white space |
| Gateway.JsonCandidate | services/geminiService.ts:16-27 | with a `{`…`}` span, the candidate starts with `{` at the first `{`, ends with `}`, and no `}` follows it; otherwise it is exactly the fence-stripped, trimmed text |
| Gateway.ParseJson | services/geminiService.ts:13-33 | a parse failure yields null and nothing escapes; a success yields the parsed value |
| Gateway.ResponseData | services/geminiService.ts:89-92 | an empty or missing reply text is null without parsing; otherwise the reply goes through `parseJSON` |
| Gateway.CallOutcome | services/geminiService.ts:129-144 | a lookup throws exactly when the transport fails, is null exactly when the reply yields no data, and otherwise delivers the parsed data |
| Gateway.EmptyReplyNotParsed | services/geminiService.ts:139 | an empty reply is null whatever the parser would have said |
| Gateway.SpanIsFirstOpenToLastClose | services/geminiService.ts:16-22 | with the first `{` at i and the last `}` at j > i, the parser gets exactly `text[i..j]` inclusive |
| Gateway.FallbackExactlyWithoutBracePair | services/geminiService.ts:19 | the fallback is taken exactly when no `{` is followed anywhere later by a `}` |
| Gateway.RemoveTicksLeading | services/geminiService.ts:26 | removing every "```" leaves a run of leading backticks of its length modulo 3 |
| Gateway.NoFenceAfterRemoveTicks | services/geminiService.ts:26 | after `/```/g` no "```" remains, not even one formed by the removals |
| Gateway.RemoveTicksPlain | services/geminiService.ts:26 | text without backticks passes `/```/g` unchanged |
| Gateway.RemoveFenceLinesPlainPrefix | services/geminiService.ts:26 | a backtick-free prefix not ending in a line break passes the first replacement unchanged |
| Gateway.FencedBlockUnwrapped | services/geminiService.ts:25-27 | a reply that is just a ```json fenced block around a clean body is reduced to that body |
| Gateway.StripFencesKeepsCleanText | services/geminiService.ts:26 | clean text without backticks or surrounding white space passes the fallback unchanged |
| Login.ValidPasswords | components/Login.tsx:16-17 | the stored password alone when one is stored, else the two defaults; never the empty password |
| Login.Accepts | components/Login.tsx:16-19 | with nothing (or "") stored, exactly "admin123" and "jamaica2025" are accepted; with a stored password, exactly that one |
| Login.FirstLoginLocksIn | components/Login.tsx:17-23 | once a first login has stored the default it used, only that password opens the gate; the other default no longer does |
| Login.LoginForm.constructor | components/Login.tsx:9-10 | the form starts with an empty password and no error |
| Login.LoginForm.SetPassword | components/Login.tsx:48 | the typed value becomes the password |
| Login.LoginForm.HandleLogin | components/Login.tsx:12-28 | logged in exactly when accepted; a first login stores the password used; a later login writes nothing; a rejection writes nothing and sets "Invalid access password." |
| Exemptions.ApplyEdit | components/components/ShipExemptions.tsx:74-79 | a change event sets the named field and leaves every other field as it was |
| Exemptions.IsComplete | components/components/ShipExemptions.tsx:84 | complete exactly when vessel name, IMO number and description are all non-empty; the blank form never is |
| Exemptions.FromForm | components/components/ShipExemptions.tsx:92 | the new record has the given id, carries remarks, and shows the form it came from when edited |
| Exemptions.WithForm | components/components/ShipExemptions.tsx:97 | `{ ...r, ...form }` keeps the record's id and shows the submitted form when edited |
| Exemptions.FormOf | components/components/ShipExemptions.tsx:106-115 | the form copies every field of the record, with missing remarks as "" |
| Exemptions.Submitted | components/components/ShipExemptions.tsx:89-98 | adding grows the register by one and adds exactly the next id to its ids; updating keeps the length and the set of ids |
| Exemptions.Removed | components/components/ShipExemptions.tsx:120 | no record with the id is left, no more records than before, and every other id is kept |
| Exemptions.MaxId | components/components/ShipExemptions.tsx:91 | the largest id: no record has a larger one and some record has it |
| Exemptions.NextId | components/components/ShipExemptions.tsx:91 | 1 for an empty register, else max + 1, which exceeds every existing id |
| Exemptions.AddKeepsIdsDistinct | components/components/ShipExemptions.tsx:89-93 | the new id is used by no record, so adding keeps ids pairwise distinct |
| Exemptions.AddPrepends | components/components/ShipExemptions.tsx:92-93 | adding grows the list by one, puts the new record with the next id and the form's fields first, and keeps the old records after it in order |
| Exemptions.UpdateTouchesOnlyEdited | components/components/ShipExemptions.tsx:96-98 | updating keeps the length and every id; only the edited record takes the form's fields; ids stay distinct |
| Exemptions.DeleteRemovesExactly | components/components/ShipExemptions.tsx:120 | deleting removes exactly the record with the id, keeps the rest in order, and keeps ids distinct |
| Exemptions.EditThenSubmitUnchanged | components/components/ShipExemptions.tsx:96-116 | editing a record with remarks and submitting the untouched form leaves the register unchanged |
| Exemptions.EditShowsSubmittedForm | components/components/ShipExemptions.tsx:97 | after an update, editing the record shows exactly the form that was submitted, and its id is kept |
| Exemptions.ExemptionRegister.constructor | components/components/ShipExemptions.tsx:46-58 | the register starts with the two seeded records, not editing, and a blank form; ids are distinct |
| Exemptions.ExemptionRegister.ResetForm | components/components/ShipExemptions.tsx:60-72 | blank form (type Exemption, status Pending) and edit mode off |
| Exemptions.ExemptionRegister.HandleChange | components/components/ShipExemptions.tsx:74-79 | the form becomes the edited form |
| Exemptions.ExemptionRegister.HandleSubmit | components/components/ShipExemptions.tsx:81-102 | an incomplete form raises the alert "Vessel name, IMO number and description are required." and changes nothing; otherwise the record is added or updated, the form is reset, and ids stay distinct |
| Exemptions.ExemptionRegister.HandleEdit | components/components/ShipExemptions.tsx:104-116 | edit mode on the record's id, with its fields in the form and missing remarks as "" |
| Exemptions.ExemptionRegister.HandleDelete | components/components/ShipExemptions.tsx:118-124 | declined, nothing changes; confirmed, the records with the id go and edit mode of that record ends; ids stay distinct |
| Dashboard.Restore | components/Dashboard.tsx:57-64 | a missing or empty entry is nothing stored; otherwise the parser's value, or a parse failure |
| Dashboard.SeededClasses | components/Dashboard.tsx:66-81 | five societies with distinct ids, no PSC data, trend Steady and reason "Pending Analysis" |
| Dashboard.NewShip | components/Dashboard.tsx:123-144 | the new vessel's id is its IMO number; it has the looked-up flag and tonnage, no inspections, today's registration date, and "Sanctioned" exactly when the lookup flagged it, else "Clean" |
| Dashboard.NewInspection | components/Dashboard.tsx:163-171 | a missing inspector or location becomes "Unknown", so neither is empty; a missing count is 0, a missing flag false, missing comments "" |
| Dashboard.AddInspectionTo | components/Dashboard.tsx:173-178 | the vessels keep their count, ids and IMO numbers; the vessel with the id has the inspection appended, every other keeps its inspections |
| Dashboard.AddInspectionTouchesOnlyTarget | components/Dashboard.tsx:173-178 | only the vessel with the id gets the inspection appended after its earlier ones; the count and every other vessel are unchanged; ids and IMO numbers stay distinct |
| Dashboard.SelectionFollowsInspection | components/Dashboard.tsx:181 | the re-read selection is the updated vessel, or null if it is no longer in the collection |
| Dashboard.NewSurveyor | components/Dashboard.tsx:188-197 | a blank name or location gives nothing; otherwise a surveyor with email, phone and company defaulting to "" |
| Dashboard.NewClass | components/Dashboard.tsx:226-233 | the added society has the given id, name and date, no PSC data, trend Steady and reason "Analysis Pending" |
| Dashboard.Refreshed | components/Dashboard.tsx:253 | a refresh keeps the count and every id; the matching society takes the result's name and PSC data |
| Dashboard.RefreshKeepsIdentity | components/Dashboard.tsx:253 | a refresh replaces the matching society by the result with its own id kept; the length, the ids and the other societies are unchanged |
| Dashboard.DeleteShipRemovesExactly | components/Dashboard.tsx:205 | with distinct ids, deleting a vessel removes exactly it and keeps the rest in order |
| Dashboard.EffectivePassword | components/Dashboard.tsx:264 | the stored password, or "admin123" when none or "" is stored |
| Dashboard.CheckPasswordChange | components/Dashboard.tsx:266-277 | the change succeeds exactly when the current password matches, the new one has at least 6 characters, and it equals the confirmation; the first failing check decides |
| Dashboard.MessageFor | components/Dashboard.tsx:267-280 | every outcome shows a non-empty message; it is a success exactly for a change, an error otherwise |
| Dashboard.ChangedPasswordOpensGate | components/Dashboard.tsx:279 | after a successful change, the login gate accepts the new password and nothing else |
| Dashboard.LoginPasswordIsCurrent | components/Dashboard.tsx:264 | whoever logged in, with the stored password or with either default on a first login, has that password as the current one |
| Dashboard.DashboardState.constructor | components/Dashboard.tsx:17-53 | the initial state: empty collections, the overview tab, no selection, blank forms |
| Dashboard.DashboardState.Mount | components/Dashboard.tsx:56-83 | each collection is loaded in turn; societies are seeded when nothing is stored; a rejected entry throws and stops the loading there |
| Dashboard.DashboardState.HandleSearch | components/Dashboard.tsx:98-118 | with a blank name or IMO nothing happens; otherwise the result, the no-data message or the connection message replaces the previous one, and searching ends |
| Dashboard.DashboardState.RegisterShip | components/Dashboard.tsx:120-157 | no result, nothing happens; a known IMO is refused with an alert and nothing changes; otherwise exactly one vessel is appended, selected and shown, the lookup is cleared; IMO numbers stay distinct |
| Dashboard.DashboardState.AddInspection | components/Dashboard.tsx:159-184 | no selection, nothing changes; otherwise the inspection goes to the selected vessel, the selection is re-read from the collection, and the form is closed and reset |
| Dashboard.DashboardState.AddSurveyor | components/Dashboard.tsx:186-201 | a blank name or location changes nothing; otherwise one surveyor is appended and the form is reset |
| Dashboard.DashboardState.DeleteShip | components/Dashboard.tsx:203-210 | declined, nothing changes; confirmed, the vessels with the id go and a selection of it is cleared; IMO numbers stay distinct |
| Dashboard.DashboardState.DeleteSurveyor | components/Dashboard.tsx:212-219 | declined, nothing changes; confirmed, the surveyors with the id go and a letter addressed to one is closed |
| Dashboard.DashboardState.DeleteClass | components/Dashboard.tsx:242-246 | declined, nothing changes; confirmed, the societies with the id go; ids stay distinct |
| Dashboard.DashboardState.RefreshClass | components/Dashboard.tsx:248-260 | a result replaces the society's fields but not its id; a null result changes nothing; a failure changes nothing and alerts with the society's name; analysing is off afterwards |
| Dashboard.DashboardState.AddClass | components/Dashboard.tsx:222-240 | a blank name changes nothing; otherwise the society is appended with "Analysis Pending", the name field is cleared, and the society is refreshed at once |
| Dashboard.DashboardState.ChangePassword | components/Dashboard.tsx:262-282 | the first failing check sets its message and changes nothing else; when all pass, the new password is stored, success is shown and the form cleared |
| Dashboard.DashboardState.Navigate | components/Dashboard.tsx:323 | a sidebar button switches tab and clears the selected vessel |
| Dashboard.DashboardState.SelectShip | components/Dashboard.tsx:612 | the clicked vessel becomes the selection |
| Dashboard.DashboardState.EditLookup | components/Dashboard.tsx:466-477 | the lookup fields take the typed values |
| Dashboard.DashboardState.ToggleInspectionForm | components/Dashboard.tsx:1023 | the inspection form opens or closes |
| Dashboard.DashboardState.EditInspection | components/Dashboard.tsx:1036-1055 | the inspection form takes the edited values |
| Dashboard.DashboardState.EditSurveyor | components/Dashboard.tsx:646-662 | the surveyor form takes the edited values |
| Dashboard.DashboardState.EditClassName | components/Dashboard.tsx:738 | the new society's name takes the typed value |
| Dashboard.DashboardState.OpenLetter | components/Dashboard.tsx:696 | the letter is addressed to the surveyor, with no vessel chosen |
| Dashboard.DashboardState.CloseLetter | components/Dashboard.tsx:1130 | the letter view closes |
| Dashboard.DashboardState.ChooseLetterShip | components/Dashboard.tsx:1143 | the letter's vessel takes the chosen id |
| Dashboard.DashboardState.EditPasswordForm | components/Dashboard.tsx:847-869 | the password form takes the edited values |
| DashboardViews.TotalGrossTonnage | components/Dashboard.tsx:285 | the total of no vessels is 0 and of one vessel its tonnage; with the additivity of `TotalGrossTonnageAppend` this fixes the sum |
| DashboardViews.TotalBoundsEachVessel | components/Dashboard.tsx:285 | with no negative tonnage the total is not negative and no vessel's tonnage exceeds it |
| DashboardViews.TotalGrossTonnageAppend | components/Dashboard.tsx:285 | the total tonnage of two lists together is the sum of their totals |
| DashboardViews.RegisterAddsTonnage | components/Dashboard.tsx:285 | registering a vessel raises the total by the looked-up tonnage |
| DashboardViews.TotalAround | components/Dashboard.tsx:285 | the total is the part before a vessel, plus its tonnage, plus the part after it |
| DashboardViews.DeleteLowersTonnage | components/Dashboard.tsx:285 | deleting a vessel by its id lowers the total by exactly its tonnage |
| DashboardViews.SanctionedCount | components/Dashboard.tsx:287 | the sanctioned count is at most the number of vessels, 0 exactly when none is sanctioned, and 1 or 0 for a single vessel as it is sanctioned or not |
| DashboardViews.SanctionedCountAppend | components/Dashboard.tsx:287 | the sanctioned count of two lists together is the sum of their counts |
| DashboardViews.SanctionedCountIsNumberSanctioned | components/Dashboard.tsx:287 | the sanctioned count is the number of positions holding a vessel whose status is "Sanctioned" |
| DashboardViews.RegisterCountsSanction | components/Dashboard.tsx:287 | registering adds one to the sanctioned count exactly when the lookup flagged the vessel |
| DashboardViews.FlagLabel | components/Dashboard.tsx:290 | a vessel's flag, or "Unknown" when it is missing or empty; never empty |
| DashboardViews.FlagHistogram | components/Dashboard.tsx:289-293 | every vessel's label has an entry, and every entry is between 1 and the number of vessels |
| DashboardViews.RegisterCountsFlag | components/Dashboard.tsx:289-290 | registering a vessel adds one to the count under its looked-up flag, or under "Unknown" when that is empty, and to no other |
| DashboardViews.FlagHistogramCounts | components/Dashboard.tsx:289-293 | the histogram has an entry for exactly the labels some vessel shows, each equal to the number of vessels showing it |
| DashboardViews.LetterSubject | components/Dashboard.tsx:298-305 | the subject always starts with the prefix and the base line, and is exactly that when no vessel is chosen or the chosen one is gone |
| DashboardViews.LetterSubjectNamesShip | components/Dashboard.tsx:300-302 | choosing a vessel adds " - MV name (IMO: imo)" for that vessel |
| DashboardViews.RegimeStatus | components/Dashboard.tsx:1283-1285 | the status of the first entry whose MoU names the regime, or "N/A" when that status is empty or no entry names it |
| DashboardViews.RegimeStatusUsesFirstEntry | components/Dashboard.tsx:1283 | once an entry names the regime, entries after it never change the answer |
| DashboardViews.ListStatusBadge | components/Dashboard.tsx:782-784 | green exactly for "white" or "qualship"; else orange for "grey"; else red for "black" or "targeted"; else gray, all in lower case |
| DashboardViews.NonTargetedShownRed | components/Dashboard.tsx:782-784 | the status "Non-Targeted" is painted red |
| DashboardViews.ListStatusBadgeCorrected | components/Dashboard.tsx:782-784 | a status containing "non-targeted" is green and never red; any other status keeps the colour as written |

## Left out

- Rendering: the JSX, the print layout, the chart, and locale formatting of dates and numbers.
  The `showClassReport` flag only opens a panel, so it is not modelled.
- The prompts, the model name, the API-key lookup and the AI client library. A lookup's result
  enters the model as an `Outcome`. `Gateway.CallOutcome` states how an outcome arises from a
  transport result and the parser.
- `JSON.parse` and `JSON.stringify` themselves. The parser is a parameter, and the model assumes
  it returns records of the expected shape. The source casts without checking. A reply that
  parses to a falsy JSON value (`null`, `false`, `0`, `""`) would count as "no data" in the
  source; here it must come back as a `SyntaxError` from the parser parameter.
- Writing the collections back to storage after each change (components/Dashboard.tsx:86-96).
  Serialization is not modelled, so the stored strings are not tied to the collections.
- `isClassAnalyzing` as a guard against overlapping refreshes. The handlers run one at a time
  here. Interleaved awaits are concurrency and are not modelled.
- The uniqueness of ids made from the clock. The model never claims it.
  `Dashboard.DashboardState.AddClass` keeps society ids distinct only when the new id is fresh.
- App.tsx, which routes between the gate and the dashboard and writes the login flag. Its
  behaviour is not part of this model.
- `chartData`'s key order, and JavaScript objects' inherited keys in `flagData`.
- Strings.ToLower: only ASCII letters are lowered. JavaScript lowers all of Unicode.
- String lengths count characters. JavaScript counts UTF-16 code units, which differs only
  outside the Basic Multilingual Plane (the 6-character password minimum).
- `NaN` or a missing `grossTonnage`, which `|| 0` would count as 0. Tonnages are integers here.
  An unparsable inspection deficiency count is a missing value, which becomes 0.
- The vessel fields a lookup fills in but no handler consults are carried over without properties.
- RemoveFenceLines: its own contract states only the length bound. Which text survives is stated
  by `Gateway.SplitAtFenceLines`, whose contract ties the two together. Keeping that statement off
  `RemoveFenceLines` keeps the proofs that unfold it small.
- Gateway.SplitAtFenceLines: the contract says the pieces are free of fence lines but not that
  the scan takes the leftmost match where a fence line would straddle a piece's end and the next
  fence line; the function itself scans as `replace` does.
- Login.LoginForm.HandleLogin: the `onLogin` callback is reported as the returned flag, not run.

## Findings

| source | as written | input that shows it | evidently intended | confidence | as-written member | corrected member |
|---|---|---|---|---|---|---|
| components/Dashboard.tsx:784 | a status whose lower case contains "targeted" is painted red, after only "white", "qualship" and "grey" were tested | "Non-Targeted", the USCG status the analysis prompt gives as its example (services/geminiService.ts:121) | a non-targeted society is in good standing and should not share the red of "Targeted" and "Black" | medium; not executed | DashboardViews.NonTargetedShownRed | DashboardViews.ListStatusBadgeCorrected |
