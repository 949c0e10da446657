# Spin-the-wheel landing page: a Dafny model of its client rules

The page registers a vehicle owner (plate, e-mail, phone), spins a prize wheel
whose outcome the server picks, lists the owner's prizes with a live countdown,
and lets the owner redeem a prize through a WhatsApp message or earn extra
spins by sharing on Facebook. All of it sits in one browser script,
`public/assets/js/script.js`. Most of that script is DOM wiring. This project
models the rules inside it:

- `wrappers.dfy`, module `Wrappers`: `Option` and `Result`.
- `text.dfy`, module `Text`: the string operations the page uses. These are
  `trim` (the full ECMAScript whitespace set), `toLowerCase` and
  `toUpperCase` (ASCII letters only), and `includes`. It also proves how
  they interact: trimming is idempotent, trimming commutes with case
  changes, and trimming never changes whether a word occurs.
- `registration.dfy`, module `Registration`: the checks `submitUserData`
  makes before it sends anything.
- `countdown.dfy`, module `Countdown`: one tick of a prize's countdown, on
  whole milliseconds.
- `prizes.dfy`, module `Prizes`: the win / non-win rule, the
  de-duplication loop of `updatePrizesList`, and what each row of the list
  offers.
- `redeem.dfy`, module `Redeem`: the text of the redeem message, with a
  parser that reads it back.
- `session.dfy`, module `Session`: class `SpinSession`. It holds the
  `userState` record, the `wheel` and `isSpinning` flags and the spin
  button's `disabled` state. There is one method per event: wheel
  configuration, spin click, spin reply, end of animation, registration and
  share reply. The server's answers are parameters of those methods.
  `Valid()` says that the button always follows `updateSpinButton`'s rule,
  even where the page sets `disabled` directly (lines 190 and 247). It also
  says the stored plate and phone are empty or validated. Every event keeps
  `Valid()`.

## Behaviour of the code that the model keeps

- A spin reply is written into `userState` (spins, prizes, selected prize)
  before its stop angle is checked. So a reply with an out-of-range angle
  aborts the spin but keeps the new spin count, prize list and selected
  prize. Only errors that come earlier leave `userState` untouched.
- Registration writes plate, e-mail and phone before it reads `data.user`.
  A 2xx reply without a `user` object throws after those three writes. It
  therefore leaves the new identity next to the old spins and prizes.
- The e-mail is trimmed but never checked, not even for being empty.
- The non-winning phrases are the Spanish "sigue intentando" and
  "giro adicional". They are matched in any letter case, anywhere in the text.
- The prize list is replaced by the server's list on every reply, never
  appended to locally. `data.prizes || []` turns a missing list into an
  empty one.
- If the expiry equals the current time, the countdown still shows
  `0d 0h 0m 0s`. The row's action is already "Canjeado" (expired). The
  countdown shows "Expirado" only once the expiry is strictly in the past.

## Model

| member | source | states |
|---|---|---|
| `Text.Lower` | public/assets/js/script.js:53-54 | `toLowerCase` keeps the length and maps each character on its own (`LowerChar`), which leaves whitespace as whitespace and leaves no ASCII capital |
| `Text.Upper` | public/assets/js/script.js:302 | `toUpperCase` keeps the length and maps each character on its own (`UpperChar`), which leaves whitespace as whitespace and leaves no ASCII small letter |
| `Text.Contains` | public/assets/js/script.js:53-54 | `includes`: a match needs a pattern no longer than the text; the empty pattern always matches; a pattern as long as the text matches exactly when it equals the text |
| `Text.CaseInverse` | public/assets/js/script.js:302 | each ASCII capital goes to its small letter and back, and each small letter to its capital and back |
| `Text.Trim` | public/assets/js/script.js:302-304 | the result has no whitespace at either end; it is empty exactly when the input is all whitespace; an input already without such whitespace is returned unchanged |
| `Text.LowerTrimCommute` | public/assets/js/script.js:457 | lower-casing before or after trimming gives the same text |
| `Text.UpperTrimCommute` | public/assets/js/script.js:302 | upper-casing before or after trimming gives the same text |
| `Text.ContainsIgnoresTrim` | public/assets/js/script.js:42-55 | a word that neither starts nor ends with whitespace occurs in the lower-cased trimmed text exactly when it occurs in the lower-cased text |
| `Registration.MatchesPlatePattern` | public/assets/js/script.js:307 | the regular expression /^[A-Z0-9]{6}$/: exactly six characters, each A-Z or 0-9 |
| `Registration.MatchesPhonePattern` | public/assets/js/script.js:308 | the regular expression /^[0-9]{9}$/: exactly nine digits |
| `Registration.NormalizePlate` | public/assets/js/script.js:302 | the typed plate, trimmed and then upper-cased |
| `Registration.NormalizePlateShape` | public/assets/js/script.js:302 | a normalised plate has no ASCII small letter and no whitespace at either end |
| `Registration.NormalizePlateIdempotent` | public/assets/js/script.js:302 | normalising twice is normalising once, and upper-casing before trimming gives the same plate |
| `Registration.PlatePatternIsNormal` | public/assets/js/script.js:302-310 | a plate matching /^[A-Z0-9]{6}$/ is its own normal form |
| `Registration.PhonePatternIsTrimmed` | public/assets/js/script.js:304-314 | a phone matching /^[0-9]{9}$/ is left alone by trimming |
| `Registration.ValidateRegistration` | public/assets/js/script.js:302-317 | a request exists exactly when the trimmed, upper-cased plate is six of A-Z/0-9 and the trimmed phone is nine digits; a bad plate is reported first; the request carries the normalised plate, trimmed e-mail and trimmed phone |
| `Registration.EmailNeverChecked` | public/assets/js/script.js:303-317 | changing the e-mail never changes whether the form is accepted |
| `Registration.AcceptedRequestRevalidates` | public/assets/js/script.js:302-317 | the fields that are sent are a fixpoint: submitting them again yields the same request |
| `Registration.PlateIgnoresCase` | public/assets/js/script.js:302 | typing the plate in lower case gives the same outcome and request |
| `Registration.AcceptsLowerCasePlate` | public/assets/js/script.js:302-317 | " ab12c3 " with a nine-digit phone is accepted and sent as "AB12C3" |
| `Registration.RejectsShortPhone` | public/assets/js/script.js:314-317 | a five-digit phone is refused with the phone error, so nothing is sent |
| `Countdown.Tick` | public/assets/js/script.js:527-548 | "Expirado" exactly when expiry minus now is negative; otherwise hours < 24, minutes < 60, seconds < 60, the parts add up to the distance minus a rest below 1000 ms, and the expiring flag is set exactly under one day |
| `Countdown.DistanceSplit` | public/assets/js/script.js:538-541 | the four floor-division / modulo expressions give a decomposition of the distance with a sub-second rest |
| `Countdown.TickIsUnique` | public/assets/js/script.js:538-548 | any days/hours/minutes/seconds and rest within those bounds that add up to the distance are exactly what a tick shows |
| `Prizes.IsNonWinning` | public/assets/js/script.js:52-55 | the lower-cased text contains "sigue intentando" or "giro adicional" |
| `Prizes.LaunchesConfetti` | public/assets/js/script.js:52-62 | confetti is launched exactly for winning prize texts |
| `Prizes.PopupActionFor` | public/assets/js/script.js:360-413 | the popup offers sharing for bonus spins exactly for non-winning texts and "Canjear" exactly for winning ones |
| `Prizes.ClassificationIgnoresCaseAndPadding` | public/assets/js/script.js:52-55 | whether a text is non-winning does not depend on surrounding whitespace or on letter case |
| `Prizes.SpinOutcomeRules` | public/assets/js/script.js:42-62 | the popup and confetti are decided on the trimmed selected prize, and agree with each other and with the classification of the untrimmed text |
| `Prizes.KeepTryingIsNonWinning` | public/assets/js/script.js:360-363 | "Sigue Intentando" and "SIGUE intentando" are non-winning |
| `Prizes.RadioIsWinning` | public/assets/js/script.js:52-55 | "Radio 100% Gratis" is winning |
| `Prizes.PrizeAction` | public/assets/js/script.js:491-512 | "Canjear" exactly for an unclaimed, unexpired, winning prize; "Canjeado" exactly for a claimed or expired one; nothing otherwise |
| `Prizes.Key` | public/assets/js/script.js:457 | the de-duplication key: the prize text, trimmed and then lower-cased |
| `Prizes.KeyShape` | public/assets/js/script.js:457 | a key has no ASCII capital and no whitespace at either end |
| `Prizes.KeyIgnoresCaseAndPadding` | public/assets/js/script.js:457-458 | texts that differ only in ASCII case or surrounding whitespace get the same key, so only one of them is listed |
| `Prizes.UniqueByTextKeys` | public/assets/js/script.js:454-464 | the de-duplicated list has exactly the input's set of normalised texts |
| `Prizes.UniqueByTextDistinct` | public/assets/js/script.js:454-464 | no two kept prizes share a normalised text |
| `Prizes.UniqueByTextPicksFirsts` | public/assets/js/script.js:454-464 | the kept prizes are the input at increasing positions, each the first occurrence of its normalised text |
| `Prizes.UniqueByTextIsStableDedup` | public/assets/js/script.js:454-464 | all three properties together: every text kept exactly once, at its first occurrence, in list order |
| `Prizes.DedupExample` | public/assets/js/script.js:454-464 | `[Radio, "radio ", Cap]` becomes `[Radio, Cap]` |
| `Prizes.DedupPrizes` | public/assets/js/script.js:454-464 | the loop with its `prizeTexts` set returns the reference de-duplication; the result is a stable subsequence of first occurrences with distinct texts covering every input text |
| `Prizes.RowFor` | public/assets/js/script.js:467-517 | a row shows its prize, the countdown `Tick(expiry, now)` and the action `PrizeAction(prize, now)` |
| `Prizes.RowRules` | public/assets/js/script.js:481-512 | when the list is rendered, a row offers a redeem button exactly for an unclaimed, unexpired, winning prize, and a first tick of "Expirado" comes only with "Canjeado" |
| `Prizes.UpdatePrizesList` | public/assets/js/script.js:440-521 | one row per de-duplicated prize, in order, with distinct texts; no rows for an empty list |
| `Prizes.RenderRows` | public/assets/js/script.js:467-518 | one row per de-duplicated prize, in order, each the row of that prize |
| `Redeem.ShownPlate` | public/assets/js/script.js:421 | the registered plate, or "XXXXXX" when the plate is empty |
| `Redeem.RedeemMessage` | public/assets/js/script.js:420-424 | the message is the fixed owner phrase, the shown plate, the fixed " Y DESEO CANJEAR EL PREMIO " phrase and the prize text, in that order and nothing else |
| `Redeem.RedeemMessageRoundTrip` | public/assets/js/script.js:421-423 | for an empty or validated plate, the plate shown and the prize text can be read back from the message |
| `Redeem.RedeemMessageInjective` | public/assets/js/script.js:421-423 | for empty or validated plates, two messages are equal only for the same shown plate and prize text |
| `Session.SpinButtonDisabled` | public/assets/js/script.js:276-282 | a running spin always disables the button; an enabled button's label shows the spin count; a disabled button outside a spin says no spins are left |
| `Session.SpinButtonLabel` | public/assets/js/script.js:279-282 | the label shows the spin count exactly when spins are left |
| `Session.StopAngleInRange` | public/assets/js/script.js:226 | an angle passes the check exactly when 0 <= angle < 360 |
| `Session.SpinSession.constructor` | public/assets/js/script.js:21-31 | the initial `userState` (no spins, no prizes, empty strings), no wheel, not spinning, button disabled |
| `Session.SpinSession.Valid` | public/assets/js/script.js:276-278 | the invariant every event keeps, including the direct writes of `disabled` at lines 190 and 247: a running spin has the button disabled, and an enabled button means a spin is left and none is running |
| `Session.SpinSession.UpdateSpinButton` | public/assets/js/script.js:276-287 | the button is disabled exactly when spins <= 0 or a spin is running, which restores `Valid()` whenever the stored identity is valid |
| `Session.SpinSession.LoadWheel` | public/assets/js/script.js:82-136 | the wheel becomes ready exactly on a reply with a non-empty segment array; user state is unchanged |
| `Session.SpinSession.StartSpin` | public/assets/js/script.js:175-190 | no wheel, no spins left, and a spin already running return in that order and change nothing; otherwise `isSpinning` is set, the button disabled, and the request carries the plate |
| `Session.WellFormed` | public/assets/js/script.js:204 | a reply is complete when it has a prize with a non-empty text and a numeric stop angle |
| `Session.SpinSession.OnSpinResponse` | public/assets/js/script.js:193-248 | a failed or incomplete (not `WellFormed`) reply leaves user state unchanged; a complete one overwrites spins, prizes and selected prize before the angle check; the animation starts only for 0 <= angle < 360; every error clears `isSpinning` and disables the button exactly when no spins are left |
| `Session.SpinSession.ApplySpinReply` | public/assets/js/script.js:213-220 | a complete reply overwrites the spin count, the prize list (empty when missing) and the selected prize, the button follows the rule, and `Valid()` is kept |
| `Session.SpinSession.EndSpin` | public/assets/js/script.js:66-67 | the spin ends, the button is disabled exactly when no spin is left, and `Valid()` is kept |
| `Session.SpinSession.OnAnimationComplete` | public/assets/js/script.js:36-70 | the popup shows the trimmed selected prize, offers sharing exactly for non-winning outcomes, fires confetti exactly for winning ones; `isSpinning` always ends false |
| `Session.SpinSession.Register` | public/assets/js/script.js:292-345 | an invalid form is rejected with no request and no change; a failed request changes nothing; a reply without `user` changes only plate, e-mail and phone; a full reply replaces the whole `userState` and clears the selected prize |
| `Session.SpinSession.WriteIdentity` | public/assets/js/script.js:329-331 | for a request that passed both pattern checks, plate, e-mail and phone become those of the request, and `Valid()` is kept |
| `Session.SpinSession.ApplyUser` | public/assets/js/script.js:332-338 | the reply's user replaces spins and prizes, the selected prize is cleared, the button follows the rule, and `Valid()` is kept |
| `Session.SpinSession.ShareOnFacebook` | public/assets/js/script.js:141-170 | the request carries the current plate; a grant overwrites only the spin count, a refusal changes nothing |
| `Session.SpinSession.RedeemText` | public/assets/js/script.js:420-424 | the message for the session's plate, from which plate and prize text can be read back |
| `Session.RegisterAndSpin` | public/assets/js/script.js:175-248 | registering " ab12c3 " with 3 spins, spinning, and finishing the animation shows the trimmed server prize text, with confetti exactly for a winning prize, and leaves the spin count the server sent |

## Left out

- DOM work: reading the form, `innerHTML`, element creation, the modals,
  the terms dialog, `alert` and `console` texts. The model returns outcomes
  (`SpinStart`, `SpinResult`, `RegisterOutcome`, `Popup`, list rows)
  instead of drawing them. A popup whose elements are missing is treated
  as shown.
- `fetch` and JSON parsing. Each reply is a parameter, and network
  failures, non-2xx statuses and unparsable bodies are one failure case
  each. The model does not capture fields of the wrong JSON type
  (`spinsAvailable` or `user.prizes` missing, a stop angle that is NaN),
  because replies are typed values. In JavaScript a NaN angle passes the
  range check.
- The Winwheel widget: drawing, `startAnimation`, the segment the widget
  reports, and the `rotationAngle % 360` reset. These are a third-party
  library working on a floating-point angle. The stop angle is a `real`.
- Sounds, the `confetti` call and the snowflakes. Their randomness is
  visual only. The model records whether confetti is launched.
- `Prizes.RowFor`, `Prizes.RowRules`: only the tick at render time is
  modelled. The page chooses a row's action once, when it renders the list,
  while the countdown keeps ticking every second (lines 532-535 and 552). A
  "Canjear" button rendered before the expiry stays, and still sends the
  redeem message, next to a countdown that has turned to "Expirado", until
  the list is rendered again (lines 49, 221 and 339).
- Timers (`setInterval` / `clearInterval`). `Countdown.Tick` is one tick.
  Dates are whole milliseconds, with no parsing and no
  `toLocaleDateString`. The `${days}d ${hours}h ...` text is not rendered.
  `Display` carries the numbers.
- The spin button's label text. `SpinLabel` says whether the count is shown
  and which count.
- `encodeURIComponent`, `window.open` and the Facebook and WhatsApp URLs.
  Only the message text is modelled.
- The "radio-gratis" CSS class for one prize text, which is cosmetic.
- `Text.Lower`, `Text.Upper`: case mapping covers ASCII letters only.
  JavaScript also maps other letters, with three consequences.
  - Plates: JavaScript maps some letters into A-Z (U+0131 to "I", U+017F
    to "S") and expands others ("ß" to "SS", the ligature "ﬁ" to "FI"), so it
    accepts a few plates the model refuses, such as "ab12ß" sent as "AB12SS".
  - De-duplication: `Prizes.Key` keeps non-ASCII capitals. JavaScript
    lower-cases "Ñ", "É" or "Á", so the page lists one of "CAMPAÑA" and
    "campaña" while `Prizes.UniqueByText` keeps both.
  - Classification is unaffected. The only non-ASCII character JavaScript
    lower-cases to an ASCII letter is the Kelvin sign, which gives "k", and
    neither non-winning phrase contains a "k". "İ" lower-cases to "i" plus a
    combining dot, which breaks any match, as the model's unmapped "İ" does.
- Interleaving: each event is one atomic method call. A reply that arrives
  after a newer action is one more call in the sequence, as in the page,
  which does not guard against stale replies.
- The HTML's initial `disabled` attribute is not part of the script. The
  constructor starts with the button disabled, as the rule gives for zero
  spins.
