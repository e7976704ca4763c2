# Escrow frontend: the page logic, modelled in Dafny

The escrow application lets a creator post a paid mission, fund it into an
escrow contract, and have a freelancer accept, deliver and get paid, with
rejection, dispute, arbitration and refund paths. This project models the
pure logic of the web frontend's four core components. It leaves out the
rendering.

- **Mission detail page** (`MissionDetails.tsx`):
  - who the connected wallet is with respect to a mission (owner, creator,
    freelancer or visitor, compared without regard to letter case);
  - which of the eleven contract actions the page offers that role in each
    status (the `can*` guards);
  - what a click sends: the wallet and mission checks of `submit`, the
    trimmed texts, the extra time in whole seconds, and the new deadline in
    whole seconds;
  - the display helpers `shortAddr`, `isZeroAddr`, `cls` and the status label.
- **Mission list page** (`MissionsList.tsx`):
  - the batch of `missions(i)` reads turned into cards, with the index as id,
    the title fallback and the 50-character description cut;
  - the case-insensitive search over title, description and creator;
  - the three stable descending sorts.
- **Mission creation form** (`MissionForm.tsx`):
  - the seven checks of `validate`, in their order;
  - the `addMission` arguments `onSubmit` sends;
  - the default `datetime-local` text built by `pad`/`nowPlusHours`.
- **Header** (`Header.tsx`): which navigation link is highlighted for a path,
  including the anchored `^/missions/\d+$` pattern.

The JavaScript string operations the pages share are defined once in `Text`:
`toLowerCase`, `trim`, `includes` and `String(n)`. The form's
`padStart(2, "0")` is `MissionForm.Pad`.

Module layout:

- `Wrappers`: `Option`, `Result`.
- `Text`: the string operations above.
- `Clock`: millisecond timestamps floored to seconds.
- `MissionRecord`: the 14-field mission tuple and the status codes.
- `MissionDetails`, `MissionsList`, `MissionForm`, `Header`: one module per
  component.

Everything the browser, the wallet or the chain supplies is a parameter:

- the connected address;
- `isConnected`;
- the owner read and the mission reads;
- the results of `Number(...)`, `parseEther(...)` and `Date.parse(...)`;
- `Date.now()`.

## Model

| member | source | states |
|---|---|---|
| Text.ToLower | frontend/components/missions/MissionDetails.tsx:52 | `toLowerCase` restricted to ASCII: each character on its own, capitals to small letters, so the length is kept (full JavaScript folding is not; see Left out) |
| Text.ToLowerIdempotent | frontend/components/missions/MissionsList.tsx:129 | lower-casing twice is lower-casing once |
| Text.LowerCharKeepsSpace | frontend/components/missions/MissionsList.tsx:129 | a character is whitespace exactly when its lower-cased form is |
| Text.SpaceRunFrom | frontend/components/missions/MissionForm.tsx:47 | the leading run of whitespace from an index: everything in it is whitespace and the character after it is not |
| Text.SpaceRunTo | frontend/components/missions/MissionForm.tsx:47 | the trailing run of whitespace before an index: everything in it is whitespace and the character before it is not |
| Text.TrimStart | frontend/components/missions/MissionForm.tsx:47 | the result is a suffix of the input, everything dropped is whitespace, and the result does not start with whitespace |
| Text.TrimEnd | frontend/components/missions/MissionForm.tsx:47 | the result is a prefix of the input, everything dropped is whitespace, and the result does not end with whitespace |
| Text.Trim | frontend/components/missions/MissionForm.tsx:47-48 | `trim` never lengthens, and the result is empty or has non-whitespace at both ends |
| Text.TrimFactor | frontend/components/missions/MissionForm.tsx:47-48 | the trimmed text is a contiguous factor of the input, with only whitespace on either side of it |
| Text.Factor | frontend/components/missions/MissionForm.tsx:47-48 | a prefix of a suffix of a text is a contiguous factor of it, and what follows it in the suffix is what follows it in the text |
| Text.TrimStartNoop | frontend/components/missions/MissionForm.tsx:47 | trimming the start of a text that does not start with whitespace changes nothing |
| Text.TrimEndNoop | frontend/components/missions/MissionForm.tsx:47 | trimming the end of a text that does not end with whitespace changes nothing |
| Text.TrimIdempotent | frontend/components/missions/MissionForm.tsx:86-87 | trimming twice is trimming once |
| Text.SpaceRunFromLower | frontend/components/missions/MissionsList.tsx:129 | lower-casing does not move the end of a leading whitespace run |
| Text.SpaceRunToLower | frontend/components/missions/MissionsList.tsx:129 | lower-casing does not move the start of a trailing whitespace run |
| Text.TrimStartLower | frontend/components/missions/MissionsList.tsx:129 | trimming the start commutes with lower-casing |
| Text.TrimEndLower | frontend/components/missions/MissionsList.tsx:129 | trimming the end commutes with lower-casing |
| Text.TrimLowerCommute | frontend/components/missions/MissionsList.tsx:129 | `q.trim().toLowerCase()` equals `q.toLowerCase().trim()` |
| Text.ContainsAt | frontend/components/missions/MissionsList.tsx:134-136 | `includes(q)` holds exactly when `q` is a prefix of some suffix of the text |
| Text.Contains | frontend/components/missions/MissionsList.tsx:134-136 | `includes(q)`; characterised by `ContainsAt` as "`q` is a prefix of some suffix" |
| Text.DigitChar | frontend/components/missions/MissionForm.tsx:12 | a digit value below ten becomes a decimal digit character |
| Text.NatToString | frontend/components/missions/MissionsList.tsx:116 | `String(n)` is a non-empty run of digits; its first digit is `0` only for `n` = 0, and then it is the single digit `0` (no leading zero otherwise) |
| Text.NatToStringRoundTrip | frontend/components/missions/MissionsList.tsx:116 | reading the digits of `String(n)` back gives `n` |
| Text.LeadingZero | frontend/components/missions/MissionForm.tsx:12 | a `0` put in front of a digit string keeps its value |
| Clock.FloorSeconds | frontend/components/missions/MissionDetails.tsx:191 | `Math.floor(ms / 1000)` is the second whose thousand milliseconds contain `ms`, negative instants included |
| Clock.FloorSecondsMonotonic | frontend/components/missions/MissionForm.tsx:67-69 | rounding to seconds is monotonic, and strictly so across a whole second |
| MissionRecord.Code | frontend/components/missions/MissionDetails.tsx:11-21 | every stage has a code between 0 and 8 |
| MissionRecord.StatusOf | frontend/components/missions/MissionDetails.tsx:234 | a raw code names a stage exactly when it is at most 8 |
| MissionRecord.CodeRoundTrip | frontend/components/missions/MissionDetails.tsx:11-21 | decoding a stage's code gives the stage back, and only that code decodes to it |
| MissionDetails.ShortAddr | frontend/components/missions/MissionDetails.tsx:41-43 | an em dash for the empty address; otherwise the first six characters, an ellipsis and the last four (11 characters from 10 on), each side taken whole when the address is shorter than six or four characters, as `slice` does |
| MissionDetails.IsZeroAddr | frontend/components/missions/MissionDetails.tsx:51-53 | `isZeroAddr` holds exactly when the address equals the zero address up to ASCII letter case, and then it has 42 characters |
| MissionDetails.ZeroIsLower | frontend/components/missions/MissionDetails.tsx:9 | the zero address is already in small letters |
| MissionDetails.SameAddress | frontend/components/missions/MissionDetails.tsx:143-145 | two addresses are the same when they agree once lower-cased; used by `IsZeroAddr`, `ResolveRole` and `RoleIgnoresCase` |
| MissionDetails.Kept | frontend/components/missions/MissionDetails.tsx:56 | `filter(Boolean)`: the kept names are non-empty, no more than the arguments, and none at all exactly when no argument is truthy |
| MissionDetails.KeptOne | frontend/components/missions/MissionDetails.tsx:56 | a single argument is kept, as its name, exactly when it is truthy |
| MissionDetails.Truthy | frontend/components/missions/MissionDetails.tsx:56 | `Boolean(x)` on a class argument: a non-empty name; characterised by `KeptOne` and `ClsAppend` |
| MissionDetails.KeptAppend | frontend/components/missions/MissionDetails.tsx:56 | filtering distributes over concatenation; with `KeptOne` this fixes the kept names as exactly the truthy arguments in order |
| MissionDetails.JoinSpace | frontend/components/missions/MissionDetails.tsx:56 | `join(" ")`; characterised by `JoinNonEmpty` and, through `cls`, by `ClsAppend` |
| MissionDetails.JoinNonEmpty | frontend/components/missions/MissionDetails.tsx:56 | joining non-empty names gives the empty string only when there are none |
| MissionDetails.Cls | frontend/components/missions/MissionDetails.tsx:55-57 | `cls(...x)` is empty exactly when no argument is truthy; `ClsAppend` gives its value argument by argument |
| MissionDetails.ClsAppend | frontend/components/missions/MissionDetails.tsx:55-57 | a falsy argument adds nothing to `cls`; a class name is appended after one space, or stands alone when nothing came before |
| MissionDetails.ButtonClass | frontend/components/missions/MissionDetails.tsx:518-521 | a button's class list is its base classes plus the dimmed look exactly when it is disabled |
| MissionDetails.StatusLabel | frontend/components/missions/MissionDetails.tsx:234 | the badge text is never empty; for a code above 8 it is `Status #` followed by digits that read back as the code (stage names by `StatusLabelOfStatus`) |
| MissionDetails.StatusLabelOfStatus | frontend/components/missions/MissionDetails.tsx:234 | codes 0 to 8 show the stage name, and any other code shows `Status #<code>` |
| MissionDetails.StatusLabelInjective | frontend/components/missions/MissionDetails.tsx:234 | two different codes never show the same label |
| MissionDetails.Label | frontend/components/missions/MissionDetails.tsx:11-21 | the `STATUS` array, one name per stage in code order; characterised by `LabelShape`, `LabelInjective` and `StatusLabelOfStatus` |
| MissionDetails.LabelShape | frontend/components/missions/MissionDetails.tsx:11-21 | no stage name starts with `S`, so it can never be mistaken for a `Status #` label |
| MissionDetails.LabelInjective | frontend/components/missions/MissionDetails.tsx:11-21 | the nine stage names are pairwise different |
| MissionDetails.HasAddress | frontend/components/missions/MissionDetails.tsx:142 | the `address` test of `!address`: present and non-empty; without it `ResolveRole` gives the visitor role |
| MissionDetails.OwnerOrZero | frontend/components/missions/MissionDetails.tsx:139 | `ownerData ?? ZERO`: the zero address while the owner is unread; `ResolveRole` compares the wallet against it for the owner case |
| MissionDetails.ResolveRole | frontend/components/missions/MissionDetails.tsx:139-147 | visitor without an address or a mission; otherwise owner, creator, freelancer or visitor, each exactly when the address (case-insensitively) matches that party and none checked before it |
| MissionDetails.RoleIgnoresCase | frontend/components/missions/MissionDetails.tsx:143-145 | lower-casing every address involved leaves the role unchanged |
| MissionDetails.Enabled | frontend/components/missions/MissionDetails.tsx:195-226 | no action is offered without a mission or in a terminal stage; creator-only actions only to the creator, freelancer-only ones only to the freelancer, disputes to either; arbitration only to the owner on a disputed arbiter mission; refunds only with escrowed funds outside the approved, disputed, refunded and cancelled stages |
| MissionDetails.AcceptGuard | frontend/components/missions/MissionDetails.tsx:201-202 | accepting is offered to every role but the creator (owner and visitors included), on a funded mission with a zero freelancer, and only then |
| MissionDetails.ApproveGuardIsRejectGuard | frontend/components/missions/MissionDetails.tsx:207-211 | approve and reject are offered under the same condition: the creator, on a delivered mission |
| MissionDetails.AutoApproveGuard | frontend/components/missions/MissionDetails.tsx:213-214 | auto-approval is offered to the freelancer on a delivered mission with escrowed funds and a validation deadline, without looking at the clock |
| MissionDetails.CreatorAndFreelancerActionsExclusive | frontend/components/missions/MissionDetails.tsx:195-214 | no caller is offered a creator-only and a freelancer-only action at once |
| MissionDetails.OwnerShadowsParticipantActions | frontend/components/missions/MissionDetails.tsx:143 | the contract owner is never offered a creator-only or freelancer-only action, even on a mission it created or accepted |
| MissionDetails.EnabledMeansAddressMatches | frontend/components/missions/MissionDetails.tsx:141-147 | an offered role-bound action implies the wallet's address matches the creator, the freelancer or the owner accordingly |
| MissionDetails.UnitSeconds | frontend/components/missions/MissionDetails.tsx:183 | 86400 seconds in a day, 3600 in an hour; used by `ExtraTimeSeconds` and `ExtraTimeWhole` |
| MissionDetails.ExtraTimeSeconds | frontend/components/missions/MissionDetails.tsx:180-185 | succeeds exactly for a finite positive value, otherwise `Extra time invalide`; the result is the floor of value times 3600 or 86400 |
| MissionDetails.ExtraTimeWhole | frontend/components/missions/MissionDetails.tsx:183-184 | a whole number of hours or days converts exactly |
| MissionDetails.SubSecondRoundsToZero | frontend/components/missions/MissionDetails.tsx:182-184 | every positive value worth less than one second, in either unit, passes the check and sends 0 seconds |
| MissionDetails.DeadlineTsFromLocal | frontend/components/missions/MissionDetails.tsx:187-192 | an empty field and an unparsable date are the two errors, in that order; a non-empty field with a parsed instant always succeeds, with the second that contains the instant |
| MissionDetails.Click | frontend/components/missions/MissionDetails.tsx:168-177 | the wallet check comes first, then the mission check. A sent call is the clicked action on the page's mission id. Funding sends exactly the payment amount. Dispute and reject send trimmed texts. After the two checks, a reject fails exactly when the extra time fails, and a deadline update exactly when the deadline conversion fails, with the same message; otherwise they send the converted values. Arbitration sends the chosen side. No other action can fail after the two checks. |
| MissionDetails.ButtonEnabled | frontend/components/missions/MissionDetails.tsx:518 | the guard, plus a trimmed text of at least 3 characters for dispute and reject; what an enabled button sends is stated by `EnabledDisputeSendsReason` and `EnabledRejectSendsMessage` |
| MissionDetails.EnabledDisputeSendsReason | frontend/components/missions/MissionDetails.tsx:518-529 | a click on the enabled dispute button always sends a reason of at least 3 characters with no surrounding whitespace |
| MissionDetails.EnabledRejectSendsMessage | frontend/components/missions/MissionDetails.tsx:568-579 | a click on the enabled reject button succeeds exactly when the extra time is positive, and then sends a trimmed message of at least 3 characters |
| MissionsList.Readable | frontend/components/missions/MissionsList.tsx:68 | a batch entry yields a row exactly when its read succeeded with a result; characterised by `RowsFrom` |
| MissionsList.ShortDesc | frontend/components/missions/MissionsList.tsx:111-112 | at most 51 characters; a description of up to 50 is kept whole, a longer one is cut to its first 50 plus an ellipsis |
| MissionsList.RowTitle | frontend/components/missions/MissionsList.tsx:116 | a card's title is never empty: the title itself, or `Mission #` followed by the id |
| MissionsList.ToRow | frontend/components/missions/MissionsList.tsx:110-124 | a row carries the batch index as id, the title with its `Mission #` fallback, the cut description, and the mission's parties, amounts and status; it counts as funded exactly when something is escrowed |
| MissionsList.RowsFrom | frontend/components/missions/MissionsList.tsx:64-126 | every row is the card of a readable entry at its own index, ids strictly increase, and every readable entry has a row |
| MissionsList.PrependKeepsIds | frontend/components/missions/MissionsList.tsx:67-68 | a readable entry at the front, together with the rows after it, leaves no readable entry without a row |
| MissionsList.PrependRow | frontend/components/missions/MissionsList.tsx:64-126 | putting the row of a readable entry in front of the rows after it keeps the three properties of `RowsFrom` |
| MissionsList.Rows | frontend/components/missions/MissionsList.tsx:64-126 | the `rows` array, nothing before the batch is read; characterised by `RowsFrom` |
| MissionsList.Normalize | frontend/components/missions/MissionsList.tsx:129 | `query.trim().toLowerCase()`, which equals lower-casing first; under the ASCII lower-casing it is no longer than the query |
| MissionsList.Matches | frontend/components/missions/MissionsList.tsx:131-137 | a row matches when its lower-cased title, short description or creator includes the query; used by `KeepMatching` and `Filter` |
| MissionsList.KeepMatching | frontend/components/missions/MissionsList.tsx:131-138 | a row is kept exactly when it matches, order is kept, and increasing ids stay increasing; how often each row is kept is stated by `KeepMatchingCount` |
| MissionsList.KeepMatchingOne | frontend/components/missions/MissionsList.tsx:131-138 | a single row is kept exactly when it matches |
| MissionsList.KeepMatchingAppend | frontend/components/missions/MissionsList.tsx:131-138 | the search distributes over concatenation; with `KeepMatchingOne` it is the order-preserving filter that keeps every matching occurrence |
| MissionsList.KeepMatchingCount | frontend/components/missions/MissionsList.tsx:131-138 | each matching row is kept as many times as it occurs, any other row never |
| MissionsList.Filter | frontend/components/missions/MissionsList.tsx:129-139 | a blank trimmed query keeps every row; otherwise exactly the matching rows, in their order, each as often as it occurs (`FilterCount`) |
| MissionsList.FilterCount | frontend/components/missions/MissionsList.tsx:130-138 | for a non-blank query, each matching row is listed as many times as it occurs, any other row never |
| MissionsList.SubsequenceRefl | frontend/components/missions/MissionsList.tsx:139 | the unfiltered list is a subsequence of itself |
| MissionsList.FilterIgnoresCase | frontend/components/missions/MissionsList.tsx:129 | two queries equal up to ASCII letter case select the same rows |
| MissionsList.BlankQueryKeepsAll | frontend/components/missions/MissionsList.tsx:130 | a query of whitespace only keeps every row |
| MissionsList.Key | frontend/components/missions/MissionsList.tsx:142-147 | the quantity each comparator orders by, largest first: id, payment amount or status code; characterised by `SortRows`, `SortStable` and `NewestIsIdDescending` |
| MissionsList.Insert | frontend/components/missions/MissionsList.tsx:142-147 | inserting into a descending list keeps it descending and adds exactly one element |
| MissionsList.ConsSorted | frontend/components/missions/MissionsList.tsx:142-147 | a row keyed at least as high as the head can go in front of a descending list |
| MissionsList.ConsStable | frontend/components/missions/MissionsList.tsx:142-147 | a row that precedes every element can go in front of a stably ordered list |
| MissionsList.SortRows | frontend/components/missions/MissionsList.tsx:142-147 | the sorted copy is in descending key order and is a permutation of its input |
| MissionsList.InsertStable | frontend/components/missions/MissionsList.tsx:142-147 | inserting a row whose id is below every other keeps equal keys in increasing id order |
| MissionsList.InsertInFront | frontend/components/missions/MissionsList.tsx:142-147 | the stability step when the row goes in front |
| MissionsList.InsertBehind | frontend/components/missions/MissionsList.tsx:142-147 | the stability step when the row goes behind the first element |
| MissionsList.HeadPrecedesRest | frontend/components/missions/MissionsList.tsx:142-147 | the head of a stably ordered list precedes every row produced by inserting a lower-keyed row into its tail |
| MissionsList.SortStable | frontend/components/missions/MissionsList.tsx:142-147 | the sort is stable: rows of equal key keep their increasing id order |
| MissionsList.NewestIsIdDescending | frontend/components/missions/MissionsList.tsx:145-146 | `newest` lists ids strictly from highest to lowest |
| MissionsList.Missions | frontend/components/missions/MissionsList.tsx:64-150 | the `missions` memo: rows, search, then sort; characterised by `MissionsSpec` and `BlankQueryListsEveryReadable` |
| MissionsList.MissionsSpec | frontend/components/missions/MissionsList.tsx:64-150 | the list is a permutation of the filtered rows in stable descending order; each row is the card of a readable entry and matches a non-blank query |
| MissionsList.SubsequenceMembers | frontend/components/missions/MissionsList.tsx:131 | filtering only removes rows |
| MissionsList.BlankQueryListsEveryReadable | frontend/components/missions/MissionsList.tsx:64-150 | with a blank search box, every readable entry's card is listed, under any sort key |
| MissionForm.WalletReady | frontend/components/missions/MissionForm.tsx:50 | a connected wallet with a non-empty address; its failure is reported first, as `Validate` states |
| MissionForm.Validate | frontend/components/missions/MissionForm.tsx:46-72 | a missing wallet is reported first; a success means trimmed title ≥ 3, trimmed description ≥ 10, a positive parsed amount, and a deadline floored to seconds that lies after the current second |
| MissionForm.ValidateReportsFirstFailure | frontend/components/missions/MissionForm.tsx:50-69 | `validate` reports the first failing check in the order wallet, title, description, amount parse, amount sign, date parse, future deadline, and succeeds exactly when all pass |
| MissionForm.FirstFailureAt | frontend/components/missions/MissionForm.tsx:50-69 | one step of the check table: the first failure from a position is that check's message if it fails, otherwise the first failure after it |
| MissionForm.ValidateIgnoresSurroundingSpace | frontend/components/missions/MissionForm.tsx:47-48 | whitespace around the title and description never changes the outcome |
| MissionForm.ValidateEarlier | frontend/components/missions/MissionForm.tsx:65-69 | a form valid now was valid, with the same result, at any earlier moment |
| MissionForm.Submit | frontend/components/missions/MissionForm.tsx:74-97 | a call is sent exactly when validation succeeds, with the trimmed texts, the validated amount and deadline and the two flags unchanged; otherwise the validation message |
| MissionForm.SubmitSendsValidArgs | frontend/components/missions/MissionForm.tsx:79-92 | what is sent has trimmed texts of at least 3 and 10 characters, a positive amount and a deadline after the current second |
| MissionForm.ResubmitTrimmed | frontend/components/missions/MissionForm.tsx:86-87 | filling the form again with the trimmed texts yields the very same outcome |
| MissionForm.Pad | frontend/components/missions/MissionForm.tsx:12 | `padStart(2, "0")` gives at least two digits reading as `n`; exactly two below 100, and `String(n)` itself from 10 on |
| MissionForm.NatToStringShort | frontend/components/missions/MissionForm.tsx:12-13 | `String(n)` has one digit below 10, two below 100, three below 1000 and four below 10000 |
| MissionForm.DateTimeLocal | frontend/components/missions/MissionForm.tsx:9-16 | the `YYYY-MM-DDTHH:mm` text; characterised by `DateTimeLocalShape` |
| MissionForm.DateTimeLocalShape | frontend/components/missions/MissionForm.tsx:9-16 | for a four-digit year and in-range fields the text is `YYYY-MM-DDTHH:mm`: 16 characters, separators at 4, 7, 10 and 13, each field padded to its width |
| MissionForm.Layout | frontend/components/missions/MissionForm.tsx:13-15 | in `y-mo-dTh:mi` with a four-character year and two-character fields, each part and separator sits at its fixed offset |
| Header.IsMissionDetailPath | frontend/components/shared/Header.tsx:14 | the anchored `^/missions/\d+$` test; characterised by `DetailPathShape` |
| Header.DetailPathShape | frontend/components/shared/Header.tsx:14 | `^/missions/\d+$` matches exactly `/missions/` followed by one or more ASCII digits |
| Header.HomeActive | frontend/components/shared/Header.tsx:11-12 | the home link is active exactly on `/` |
| Header.MissionsActive | frontend/components/shared/Header.tsx:13-14 | the missions link is active exactly on `/missions` and on `/missions/<digits>` |
| Header.NewPageIsNotMissions | frontend/components/shared/Header.tsx:14-15 | `/missions/new` does not activate the missions link but activates its own |
| Header.OtherActive | frontend/components/shared/Header.tsx:15 | any other link is active exactly when the path equals its href |
| Header.IsActive | frontend/components/shared/Header.tsx:10-15 | every link is active on its own path, and an active link's path is its own href or, for the missions link, a detail path |
| Header.DetailPageActivatesMissions | frontend/components/shared/Header.tsx:14 | the detail page of any mission id activates the missions link and neither of the others |
| Header.AtMostOneActive | frontend/components/shared/Header.tsx:42-44 | on any path at most one of the three header links is active |

## Left out

- The escrow contract, which enforces the real rules. It is not part of this
  model; the page's guards are modelled as the UX filter they are.
- The wallet and chain I/O: `useAccount`, `useReadContract(s)`,
  `writeContract` and receipt waiting. Their results are parameters. The
  effects that refetch the mission or redirect after a confirmed
  transaction are not modelled.
- The busy flag (`isPending || isConfirming`), which only disables every
  button while a transaction is pending. `ButtonEnabled` omits it.
- Rendering, JSX and the per-button base classes. `cls` is modelled
  generally; the class strings are not.
- `fmtDate`, `formatEther` and `toLocaleString`: they depend on the locale
  and the time zone.
- `parseEther`, `Number(...)` and `Date.parse(...)`. Their results are
  inputs (`None` when they throw or give NaN or an infinity). Building the
  `Date` fields in `nowPlusHours` is also an input: `DateTimeLocal` takes the
  year, month, day, hours and minutes.
- JavaScript floating point. The extra time is exact real arithmetic
  followed by a floor. A finite value so large that the product overflows
  to `Infinity` makes `BigInt` throw a `RangeError` in the page; the model
  returns a (huge) number of seconds instead. Amounts, ids and timestamps are unbounded integers.
  `Number(b.paymentAmount - a.paymentAmount)` in the amount sort keeps the
  sign of the difference, so the order is unaffected.
- The route parameter's conversion `Number(id)` / `BigInt(id)` and the read's
  `enabled` flag. The detail page receives the mission id as a natural
  number.
- String length and slicing count UTF-16 code units in JavaScript but
  characters here. They differ only for text outside the Basic Multilingual
  Plane (the 50-character cut and the 3- and 10-character minimums).
- Text.ToLower: maps only ASCII capitals, one character at a time, keeping
  the length. JavaScript's `toLowerCase` also folds any non-ASCII letter,
  accented Latin included (`É`, `À`, `Ç`); some folds change the length
  (`İ` becomes two code units) and some depend on context (a word-final `Σ`
  becomes `ς`). Addresses are ASCII hex, but such letters in search queries
  and titles are not case-folded here. The length and commutation facts
  proved about lower-casing (`Normalize`, `TrimLowerCommute`) are proved for
  this ASCII folding.
- `MissionCard.tsx`, `Layout.tsx`, the app pages and providers: presentation
  and wiring only.
