# MERCURY landing page: currency parsing, yield calculator and page widgets

A Dafny model of the behaviour in the landing page's two scripts,
`src/main.js` and `src/cookies.js`:

- **Target-currency parsing** (`parseCurrencies`). Free text is split on
  commas. Each piece is trimmed and upper-cased, empty pieces are dropped,
  and each code is kept once, where it first appears. This is modelled as
  pure functions in `currencies.dfy`, over the string built-ins in
  `strings.dfy`.
- **The yield calculator modal** (`yield_calculator.dfy`). Opening,
  closing, Escape, reset, and the submit handler:
  - the submit handler returns early on an empty target list;
  - otherwise it shows the "calculating" state, filters out the base
    currency and requests rates for the remaining targets, if any;
  - on success it lists the base row and then one row per target with a
    truthy rate; on failure it shows "Could not load rates.".

  The class `YieldModal` holds the page state that the handlers change.
  The specification functions `Start`, `RequestOf`, `Completed` and `Submitted`
  state what one submission does.
- **The mobile menu** (`navigation.dfy`). One boolean drives three
  `hidden` classes and `aria-expanded`, and the click handler reads that
  boolean back from the attribute.
- **The scroll-to-top button** (`scroll_top.dfy`).
- **The cookie-consent banner** (`consent.dfy`), over a storage map.

Modelling choices:

- The rate request is not performed. Its outcome is an input: `Success`
  carries the reply's `rates` object (empty when the reply has none), and
  `Failure` stands for any thrown error.
- A result row is `(code, factor)`: factor 1 for the base currency, and the
  fetched rate for each target. The rows' interest and total are that
  factor times the base amounts.
- A rate is truthy when it is present and not zero. The codes are
  upper-case, so they never name an inherited property of a plain object.
- The base currency is the raw field value. It is neither trimmed nor
  upper-cased, so a base of `usd` does not filter out `USD`
  (`RawBaseNotNormalised`).
- The status shown while rates are requested is modelled character for
  character as `src/main.js:159` has it: "Calculating" followed by U+00E2
  U+20AC U+00A6. This is an ellipsis that was stored with the wrong
  encoding.
- `trim` removes the ASCII white space characters: space, tab, line feed,
  vertical tab, form feed and carriage return.
- Viewport width and `scrollY` are integer parameters of the handlers.
- The browser's local storage is a `map<string, string>` field.
- The initial DOM state comes from the page's markup, which is not part of
  this model, so it is a constructor parameter.

## Model

| member | source | states |
|---|---|---|
| Strings.Split | src/main.js:133 | `split(",")` yields one more piece than there are commas, and no piece contains a comma |
| Strings.JoinSplit | src/main.js:133 | joining the pieces of a split with the separator gives back the original text |
| Strings.SplitJoin | src/main.js:139 | splitting a join of comma-free pieces gives back exactly those pieces |
| Strings.Join | src/main.js:139 | `toList.join(",")`: the empty list joins to the empty text, one part to itself, and otherwise the parts are separated by the separator |
| Strings.JoinOccurrences | src/main.js:139 | joining separator-free parts puts exactly one separator between each two, so the `to` list has one comma fewer than it has codes |
| Strings.Trim | src/main.js:133 | `trim()` leaves no white space at either end, never grows, and is empty exactly when the piece is all white space |
| Strings.TrimIsCutOut | src/main.js:133 | `trim()` is an infix of its input with only white space cut from each side |
| Strings.TrimUntouched | src/main.js:133 | text without white space at its ends is its own trim |
| Strings.TrimLeadingWhite | src/main.js:133 | a leading white-space character does not change the trim |
| Strings.UpperChar | src/main.js:133 | `toUpperCase` on one ASCII character: a..z move down by 32, everything else is kept, and letters stay letters |
| Strings.Upper | src/main.js:133 | `toUpperCase()` maps every character by `UpperChar`: it keeps the length, leaves no lower-case letter, turns each a..z into its capital and keeps every other character where it was |
| Currencies.Normalize | src/main.js:133 | a piece after `trim().toUpperCase()` has no lower-case letters, no white space at its ends and no comma, and it is empty exactly when the piece was all white space |
| Currencies.Pieces | src/main.js:133 | the normalised pieces, one per split piece, in order |
| Currencies.NonEmpty | src/main.js:133 | `filter(Boolean)` keeps exactly the non-empty strings |
| Currencies.NonEmptyConcat | src/main.js:133 | `filter(Boolean)` works element by element: the filter of a concatenation is the concatenation of the filters, which with `NonEmptyUntouched` fixes order and repetitions |
| Currencies.NonEmptyOrder | src/main.js:133 | dropping the empty strings keeps the order in which the remaining codes first occur |
| Currencies.Dedup | src/main.js:133 | `[...new Set(xs)]` has exactly the elements of `xs`, none of them twice |
| Currencies.DedupSnoc | src/main.js:133 | adding one more element to a `Set` appends it unless it is already there |
| Currencies.DedupOrder | src/main.js:133 | `[...new Set(xs)]` lists the elements in the order of their first occurrence in `xs` |
| Currencies.ParseCurrencies | src/main.js:132-133 | the parsed codes are distinct, non-empty, comma-free, trimmed and free of lower-case letters |
| Currencies.ParseCurrenciesMembers | src/main.js:132-133 | a code is parsed exactly when it is non-empty and is some comma-separated piece after trim and upper-casing |
| Currencies.ParseCurrenciesOrder | src/main.js:132-133 | parsed codes come in the order of their first occurrence among the normalised pieces |
| Currencies.ParseCurrenciesUnique | src/main.js:132-133 | any duplicate-free list of the non-empty normalised pieces in first-occurrence order is the parse itself |
| Currencies.NormalizeCanonical | src/main.js:133 | a code that is already canonical is unchanged by trim and upper-casing |
| Currencies.NonEmptyUntouched | src/main.js:133 | `filter(Boolean)` leaves a list without empty strings unchanged |
| Currencies.DedupUntouched | src/main.js:133 | a `Set` round trip leaves a duplicate-free list unchanged |
| Currencies.ParseJoin | src/main.js:132-133 | a comma-join of distinct canonical codes parses back to the same list |
| Currencies.ParseExample | src/main.js:132-133 | `"usd, eur,EUR,gbp"` parses to `USD`, `EUR`, `GBP` |
| Currencies.ParseDefault | src/main.js:126 | the reset text `"USD,EUR,GBP"` parses to its three codes |
| YieldCalculator.StatusText | src/main.js:159 | the status line is empty only in the blank state; the other two states are the calculating and failure texts |
| YieldCalculator.FxTargets | src/main.js:167 | the targets are at most the codes, and a code is a target exactly when it was parsed and differs from the base |
| YieldCalculator.FxTargetsRemovesBase | src/main.js:167 | filtering removes the base and keeps the other codes in order |
| YieldCalculator.FxTargetsWithoutBase | src/main.js:167 | when the base is not among the codes, the filter keeps them all |
| YieldCalculator.FxTargetsConcat | src/main.js:167 | the filter distributes over concatenation |
| YieldCalculator.FxTargetsNoDuplicates | src/main.js:167 | the targets of a duplicate-free list are duplicate-free |
| YieldCalculator.FxTargetsEmpty | src/main.js:167-170 | there are targets exactly when some parsed code differs from the base |
| YieldCalculator.HasRate | src/main.js:188-189 | `if (!r) continue`: a target's rate is truthy when it is present and not zero |
| YieldCalculator.RateRows | src/main.js:187-191 | each converted row is a target with a truthy rate and carries that rate, and every target with a truthy rate has its row |
| YieldCalculator.RateRowsConcat | src/main.js:187-191 | the rows for consecutive target lists are the rows of each, one after the other |
| YieldCalculator.RateRowsAllRated | src/main.js:187-191 | when every target has a truthy rate, there is exactly one row per target, in target order |
| YieldCalculator.BuildRows | src/main.js:175-191 | the loop yields the base row with factor 1, then the converted rows in target order; the base appears nowhere else when it is not a target |
| YieldCalculator.RatesOf | src/main.js:168-173 | the rates the rows use: the reply's `rates` object on success, and `{}` when no reply was asked for |
| YieldCalculator.Start | src/main.js:154-167 | a submission of the form does nothing for an empty parse, and otherwise waits for the rates of the parsed codes other than the raw base |
| YieldCalculator.RequestOf | src/main.js:139-171 | the request goes out only when there are targets, from the raw base and for the targets joined by commas |
| YieldCalculator.Completed | src/main.js:168-204 | after the request: the failure text over hidden, empty results when a request failed, otherwise the base row and the rated rows, shown, under a blank status |
| YieldCalculator.Submitted | src/main.js:148-205 | a whole submission: the panel is unchanged for an empty parse, and otherwise is the completion of the started submission |
| YieldCalculator.SubmitEmptyIgnored | src/main.js:156-157 | an empty target list changes neither the status nor the results, and requests nothing |
| YieldCalculator.SubmitRequestMade | src/main.js:167-171 | a rate request is made exactly when some parsed code differs from the base |
| YieldCalculator.SubmitRequestLists | src/main.js:139-171 | the request is from the base, and its `to` value splits, and also re-parses, into exactly the targets in order |
| YieldCalculator.TargetsRejoin | src/main.js:139-167 | targets taken from a parse survive the comma join: split and re-parse both give them back |
| YieldCalculator.SubmitSucceeds | src/main.js:185-201 | without a failed request, the results are shown and the status is cleared; the base row comes first with factor 1 and only there, and the other rows are exactly the targets with a truthy rate, carrying that rate |
| YieldCalculator.SubmitFails | src/main.js:159-204 | a failed request leaves "Could not load rates." over hidden, empty results |
| YieldCalculator.OnlyBaseTarget | src/main.js:167-185 | when the base is the only target, nothing is requested and only the base row is listed, whatever the outcome |
| YieldCalculator.SubmittedAfterStart | src/main.js:148-205 | a whole submission is its start followed by that start's completion |
| YieldCalculator.DefaultStart | src/main.js:156-167 | submitting the default targets works on USD, EUR and GBP minus the base |
| YieldCalculator.RawBaseNotNormalised | src/main.js:154-167 | a lower-case base `usd` is not filtered out of `USD,EUR,GBP`, so all three codes are requested |
| YieldCalculator.DefaultTargetsOfUsd | src/main.js:167 | with base USD the default targets reduce to EUR and GBP |
| YieldCalculator.SubmitExample | src/main.js:148-201 | base USD with the default targets and rates EUR 0.9 and GBP 0.8 requests `EUR,GBP` and lists USD 1, EUR 0.9, GBP 0.8 |
| YieldCalculator.ExampleCompleted | src/main.js:185-201 | with both rates truthy, both targets get a row after the base's |
| YieldCalculator.Interest | src/main.js:163 | simple interest `amount * (apy / 100) * (days / 365)` over the reals, never negative for non-negative inputs |
| YieldCalculator.RowAmounts | src/main.js:163-190 | scaling the base interest and total by a row's factor gives the interest on the converted amount, and the total is the converted amount plus that interest |
| YieldCalculator.AmountsExample | src/main.js:163-190 | 1000 at 5% for 365 days shows 50 / 1050, and at factors 0.9 and 0.8 it shows 45 / 945 and 40 / 840 |
| YieldCalculator.YieldModal.constructor | src/main.js:88-103 | the form holds the markup's defaults, and the modal and results start as the markup has them |
| YieldCalculator.YieldModal.Open | src/main.js:105-116 | opening shows the modal, locks page scrolling and blanks the status, and touches nothing else in the results |
| YieldCalculator.YieldModal.Close | src/main.js:111-118 | closing only hides the modal and unlocks page scrolling |
| YieldCalculator.YieldModal.KeyDown | src/main.js:120-122 | Escape closes the modal, and other keys change nothing |
| YieldCalculator.YieldModal.Reset | src/main.js:124-130 | reset restores the form defaults with the targets `USD,EUR,GBP`, blanks the status, and hides and empties the results |
| YieldCalculator.YieldModal.BeginSubmit | src/main.js:148-173 | the handler up to the request: an empty target list leaves the results alone; otherwise it shows the calculating state; the request is the one `RequestOf` describes |
| YieldCalculator.YieldModal.ShowCalculating | src/main.js:159-161 | the status says it is calculating, and the results are hidden and emptied |
| YieldCalculator.YieldModal.FinishSubmit | src/main.js:168-204 | after the request: a failure only sets the failure status, and anything else lists the rows, shows them and clears the status |
| YieldCalculator.YieldModal.Submit | src/main.js:148-205 | one whole submission changes the results exactly as `Submitted` says and requests what `RequestOf` says |
| Navigation.BoolText | src/main.js:15 | `String(b)` is "true" exactly for `true`, and "false" otherwise |
| Navigation.Menu.Shows | src/main.js:11-15 | the flags as `setMenuOpen(b)` leaves them: menu hidden is `!b`, open icon hidden is `b`, close icon hidden is `!b`, and `aria-expanded` is `String(b)` |
| Navigation.Menu.Consistent | src/main.js:11-19 | the flags agree with the state the click handler reads back from `aria-expanded` |
| Navigation.Menu.IsOpen | src/main.js:19 | the state read back from `aria-expanded` is whichever one `setMenuOpen` last wrote |
| Navigation.Menu.constructor | src/main.js:6-9 | the four flags start as the markup has them |
| Navigation.Menu.SetOpen | src/main.js:11-16 | menu hidden is `!b`, open icon hidden is `b`, close icon hidden is `!b`, and `aria-expanded` reads back as `b` |
| Navigation.Menu.Click | src/main.js:18-21 | a click flips the state read from `aria-expanded` and leaves all four flags consistent with it |
| Navigation.Menu.Resize | src/main.js:23-25 | a viewport at least 768 wide closes the menu, and a narrower one changes nothing |
| Navigation.Menu.KeyDown | src/main.js:27-29 | Escape closes the menu, and other keys change nothing |
| Navigation.ClickTwice | src/main.js:18-21 | two clicks on a consistent menu restore every flag |
| ScrollTop.ToTopButton.Valid | src/main.js:77-78 | the button's `hidden` and `flex` classes are complementary |
| ScrollTop.ToTopButton.constructor | src/main.js:81 | the load-time toggle shows the button exactly when `scrollY > 400`, with `hidden` and `flex` complementary |
| ScrollTop.ToTopButton.Toggle | src/main.js:75-82 | after each scroll the button shows (`flex`, not `hidden`) exactly when `scrollY > 400`, and the two flags are complementary |
| Consent.NeedsConsent | src/cookies.js:5 | `!localStorage.getItem("cookiesAccepted")`: the key is missing or holds the empty text |
| Consent.Accepted | src/cookies.js:10 | `setItem` stores "true" under `cookiesAccepted`, adds only that key, and keeps every other key's value |
| Consent.AcceptedNeedsNoConsent | src/cookies.js:5-10 | after an accept the load check finds consent |
| Consent.AcceptIdempotent | src/cookies.js:9-12 | accepting twice stores what accepting once stores |
| Consent.ConsentBanner.constructor | src/cookies.js:1-3 | the page starts from the stored map and the markup's banner |
| Consent.ConsentBanner.Load | src/cookies.js:5-7 | the banner is revealed when the stored value is missing or empty and is otherwise left as it was; storage is not written |
| Consent.ConsentBanner.Accept | src/cookies.js:9-12 | accept stores "true" under `cookiesAccepted`, leaves every other key alone, and hides the banner |
| Consent.AcceptThenLoad | src/cookies.js:5-11 | after an accept, a later load leaves the banner hidden |
| Consent.AcceptTwice | src/cookies.js:9-12 | clicking accept twice leaves the storage and banner as one click does |

## Left out

- ScrollReveal set-up (`src/main.js:31-71`) configures a third-party animation library whose code is not part of this model.
- `Number(...)` coercion of the form fields and the float arithmetic of interest and totals (`src/main.js:151-153, 163-164, 190`): rows carry factors instead. `YieldCalculator.Interest` and `RowAmounts` restate the formula over the reals as an idealisation, which also leaves out NaN.
- `fmt` (`src/main.js:135-136`) is locale number formatting by `Intl.NumberFormat`.
- `fetchRates` (`src/main.js:138-146`): the network call, `encodeURIComponent`, the URL and JSON parsing are not modelled. Only the `from` code and the comma-joined `to` list are kept (`RateRequest`), and the reply is an input.
- The HTML of each row and of the list header (`src/main.js:176-183, 193-198`): the row list stands in for the markup.
- Overlapping submissions: the `await` at `src/main.js:171` lets a second submission interleave with the first. The model runs one submission at a time.
- The to-top click handler (`src/main.js:84-86`) only calls `window.scrollTo`, which is browser behaviour.
- DOM lookups, `addEventListener`, `matchMedia` and `preventDefault` are left out. Optional-chained elements that are missing, and which therefore never get a handler, are left out as well.
- Persistence of local storage across page loads is outside the model. A later page load is modelled as `Load` run on the same object.
- `trim` and `toUpperCase` are modelled for ASCII text only. Non-ASCII white space and non-ASCII case mappings are left out.
- Typing into the form is not modelled: no method stands for user input, and a caller sets the `form` field to what the fields contain before a submission. Of the modelled handlers only reset changes it.
- A reply's rates are modelled as numbers (`map<string, real>`). A reply whose rate values are not numbers is left out: a text `"0"`, for instance, is truthy in JavaScript and would give a row.
- Consent.ConsentBanner.Load always succeeds. When storage is blocked, `localStorage.getItem` at `src/cookies.js:5` throws, the script stops before line 9, and the accept button never gets its handler; that path is not modelled.
- Consent.ConsentBanner.Accept always succeeds. When `localStorage.setItem` at `src/cookies.js:10` throws (storage full or blocked), line 11 never hides the banner; that path is not modelled.
