# UIFactory: wait screen and error popup

A model of the `UIFactory` service of the plentymarkets CMS library
(`src/factories/UIFactory.js`). The service keeps two pieces of state:

- a **reference-counted wait screen**: the counter `waitScreenCount`, the list
  of callers `waitScreenCaller`, and the `#PlentyWaitScreen` overlay, which
  exists or not and carries the `in` class or not;
- an **error popup** `#CheckoutErrorPane`, which exists or not, is visible or
  not, and shows a sequence of error blocks, each tagged with an error code.

It offers `showWaitScreen`, `hideWaitScreen`, `printErrors` and `throwError`.
The popup's close button hides the popup.

Layout:

- `wrappers.dfy`: module `Wrappers`, the `Option` type. A caller identifier is
  an `Option<string>`. It is falsy (JavaScript truthiness) when it is `None`
  (`undefined`/`null`) or `Some("")`.
- `wait_screen.dfy`: module `WaitScreen`, the wait-screen state as a value.
  `Show` and `Hide` are the two operations. The module proves that removing
  a caller drops every occurrence and keeps the order of the rest. It also
  proves the counter/overlay invariant and the balanced acquire/release
  sequences.
- `error_popup.dfy`: module `ErrorPopup`, the popup as a value. `Render` is
  what `printErrors` does to the popup, and `Dismiss` is the close button.
  The module proves the replace-or-append behaviour and deduplication by
  code.
- `ui_factory.dfy`: module `Factories`. It holds the class `UIFactory`, whose
  mutable fields are the state. Its methods are proved against the functions
  above, with the backward removal loop of `hideWaitScreen` and the
  accumulation loop of `printErrors` written out. A few client scenarios on a
  fresh service are included.

Two behaviours of the code are worth stating outright:

- `hideWaitScreen` removes **every** element equal to the caller. The
  backward loop at `src/factories/UIFactory.js:140-144` splices on each match
  and has no `break`. So after acquiring "A", "B", "A" and releasing "A", the
  list is `["B"]`.
- `hideWaitScreen` first decrements the counter (line 134). Then lines 149-150
  reset a count of 0 or below to 0 before returning. So an unmatched release
  returns 0, and the counter is never negative when a call returns.

## Model

| member | source | states |
|---|---|---|
| `WaitScreen.Truthy` | src/factories/UIFactory.js:104 | JavaScript truthiness of the caller (the test `!caller`, also at line 136): `None` and "" are falsy; used by `Pushed` and `Removed` |
| `WaitScreen.Without` | src/factories/UIFactory.js:140-144 | the caller list with every element equal to the caller taken out; `WithoutConcat` (order kept), `WithoutRemovesAll` (no copy left, the others' counts kept) and `WithoutAbsent` describe it, and `UIFactory.HideWaitScreen`'s loop is proved to compute it |
| `WaitScreen.Pushed` | src/factories/UIFactory.js:104-108 | the caller list after an acquire: a truthy caller appended at the end, otherwise unchanged; `PushThenRemove` relates it to `Removed` |
| `WaitScreen.Removed` | src/factories/UIFactory.js:136-145 | the caller list after a release: `Without` the caller when it is truthy, otherwise unchanged; described by `PushThenRemove`, `RemoveEveryOccurrence` and the `Without` lemmas |
| `WaitScreen.Show` | src/factories/UIFactory.js:101-123 | the counter goes up by exactly one (the value returned); the overlay then exists and is shown, whether it was created or re-marked; a truthy caller is appended, a falsy one leaves the list alone; the invariant is preserved |
| `WaitScreen.Hide` | src/factories/UIFactory.js:131-154 | the new counter is 0 when forced and max(old - 1, 0) otherwise, so it is never negative; the overlay is hidden exactly when the new count is 0 or the close is forced, and otherwise keeps its visibility; overlay existence never changes; the caller list becomes `Removed`; the invariant is preserved |
| `WaitScreen.WithoutConcat` | src/factories/UIFactory.js:140-144 | removing a caller from a concatenation removes it from each part, so the other elements keep their relative order |
| `WaitScreen.WithoutRemovesAll` | src/factories/UIFactory.js:140-144 | after removal no element equals the caller, and every other element occurs exactly as often as before |
| `WaitScreen.WithoutAbsent` | src/factories/UIFactory.js:140-144 | removing a caller that is not in the list leaves the list unchanged |
| `WaitScreen.PushThenRemove` | src/factories/UIFactory.js:104-145 | an acquire and then a release with the same caller leave the list as a release alone would: every entry of that caller is gone |
| `WaitScreen.RemoveEveryOccurrence` | src/factories/UIFactory.js:140-144 | acquiring "A", "B", "A" and releasing "A" leaves `["B"]` |
| `WaitScreen.RunKeepsInvariant` | src/factories/UIFactory.js:121-152 | after any sequence of acquires and releases, balanced or not and forced or not, the counter is non-negative, the overlay is shown exactly while the counter is positive, and only an existing overlay is shown |
| `WaitScreen.RunBalanced` | src/factories/UIFactory.js:121-152 | for unforced releases, while no prefix has more releases than acquires, the counter equals the outstanding acquires and the overlay is shown exactly when that number is positive |
| `WaitScreen.ShowsThenHides` | src/factories/UIFactory.js:121-152 | from count 0, after n acquires and k <= n releases the count is n - k and the overlay is shown exactly when k < n; after the n-th release it is hidden |
| `ErrorPopup.Codes` | src/factories/UIFactory.js:74 | the codes the popup shows a block for, i.e. the codes the `[data-plenty-error-code=...]` lookup finds; used by `Accepts` |
| `ErrorPopup.Accepts` | src/factories/UIFactory.js:74 | an entry gets a block when the popup is hidden or no block shows its code (`Codes`); described by `FreshFilters`, `FreshWhenHidden` and `FreshNoneAccepted`; the `UIFactory.PrintErrors` loop tests it inline |
| `ErrorPopup.Fresh` | src/factories/UIFactory.js:72-81 | the blocks one pass over the batch collects; `FreshConcat` (batch order), `FreshFilters` (exactly the accepted entries, with their counts), `FreshWhenHidden` and `FreshNoneAccepted` describe it, and `UIFactory.PrintErrors`'s loop is proved to compute it |
| `ErrorPopup.Created` | src/factories/UIFactory.js:62-70 | a missing popup is created hidden and empty, an existing one is kept as it is; used by `Render`, whose lemmas cover both cases |
| `ErrorPopup.Dismiss` | src/factories/UIFactory.js:67-69 | the close button hides the popup; `RenderAfterDismiss` shows it keeps the popup and its blocks and that the next report replaces them |
| `ErrorPopup.Render` | src/factories/UIFactory.js:62-90 | after `printErrors` the popup exists and is visible, and the popup invariant holds |
| `ErrorPopup.FreshConcat` | src/factories/UIFactory.js:72-81 | the blocks collected from a batch keep batch order: collecting from a concatenation collects from each part in turn |
| `ErrorPopup.FreshWhenHidden` | src/factories/UIFactory.js:72-81 | when the popup is not visible, every entry of the batch is collected, in order, duplicates included |
| `ErrorPopup.FreshFilters` | src/factories/UIFactory.js:72-81 | exactly the entries the visibility/code test accepts are collected, each as often as the batch holds it |
| `ErrorPopup.FreshNoneAccepted` | src/factories/UIFactory.js:74 | if the test rejects every entry, nothing is collected |
| `ErrorPopup.RenderHidden` | src/factories/UIFactory.js:86-89 | on a hidden or missing popup the blocks are replaced by the batch, in input order, without deduplication |
| `ErrorPopup.RenderVisibleAppends` | src/factories/UIFactory.js:83-85 | on a visible popup the blocks become the old blocks followed by `Fresh` of the batch, so the new blocks are appended after the old ones, in batch order (`FreshConcat`) |
| `ErrorPopup.RenderVisible` | src/factories/UIFactory.js:72-85 | on a visible popup the old blocks stay in front; the appended blocks are exactly the batch entries whose code was absent before the call, each as often as the batch holds it, so two new entries that share a code are both appended; their order, batch order, is given by `RenderVisibleAppends` with `FreshConcat` |
| `ErrorPopup.RenderShowsBatch` | src/factories/UIFactory.js:72-90 | after rendering, the popup shows a block for every code of the batch |
| `ErrorPopup.RenderAgain` | src/factories/UIFactory.js:72-90 | reporting the same batch again while the popup is open changes nothing |
| `ErrorPopup.SameCodeWhileVisible` | src/factories/UIFactory.js:74 | a second report of an already shown code adds no block, whatever its message |
| `ErrorPopup.RenderAfterDismiss` | src/factories/UIFactory.js:67-69 | dismissing keeps the popup and its blocks and preserves the invariant; the next report replaces the blocks with its batch |
| `Factories.Report` | src/factories/UIFactory.js:57-93 | `printErrors` on the whole state: `Render` of the popup, then the forced release `Hide(_, "printErrors", true)`; described by `ReportEffect` and `ReportSameCodeTwice`, and `UIFactory.PrintErrors` and `UIFactory.ThrowError` are proved against it |
| `Factories.ReportEffect` | src/factories/UIFactory.js:57-93 | every `printErrors`, even with an empty batch, leaves the popup existing and visible and the wait screen hidden with count 0; it removes every "printErrors" entry from the caller list; it replaces the blocks of a hidden popup with the batch; it keeps the old blocks of a visible popup in front; it preserves both invariants |
| `Factories.ReportSameCodeTwice` | src/factories/UIFactory.js:45-93 | reporting one code twice while the popup is open renders one block; after a dismiss, reporting it again renders it again |
| `Factories.UIFactory.constructor` | src/factories/UIFactory.js:29-30 | the service starts with count 0, no callers, and neither overlay nor popup |
| `Factories.UIFactory.ShowWaitScreen` | src/factories/UIFactory.js:101-123 | the new wait state is `Show` of the old one, the popup is untouched, and the returned value is the new count |
| `Factories.UIFactory.HideWaitScreen` | src/factories/UIFactory.js:131-154 | the backward splice loop and the clamp give the new wait state `Hide` of the old one, the popup is untouched, and the returned value is the new count |
| `Factories.UIFactory.PrintErrors` | src/factories/UIFactory.js:57-93 | the accumulation loop and the append/replace step, followed by the forced release, give the new state `Report` of the old one |
| `Factories.UIFactory.ThrowError` | src/factories/UIFactory.js:45-47 | the effect equals `printErrors` of the one-entry batch |
| `Factories.UIFactory.Dismiss` | src/factories/UIFactory.js:67-69 | the new popup state is `ErrorPopup.Dismiss` of the old one (hidden, still existing, same blocks), so `RenderAfterDismiss` applies to it; the wait screen is untouched |
| `Factories.TwoLoadsScenario` | src/factories/UIFactory.js:101-154 | load1 and load2 acquired, then released in turn: counts 1, 2, 1, 0; overlay shown, shown, shown, hidden |
| `Factories.CallerListScenario` | src/factories/UIFactory.js:101-154 | acquiring "A", "B", "A" and releasing "A" returns 2 and leaves the caller list `["B"]` |
| `Factories.NotFoundScenario` | src/factories/UIFactory.js:45-154 | during two loads, `throwError(404, "Not found")` shows one block and forces the wait screen closed (count 0); repeating it adds nothing; after a dismiss, a report with code 404 is shown again |

## Left out

- Markup and jQuery calls: no HTML strings, selectors, `append`, `html`, `show`/`hide` or
  `addClass`/`removeClass`. The popup and the overlay are abstract flags. Blocks are
  `(code, message)` entries. The missing HTML escaping of messages is rendering detail.
- `popup.is(':visible')` depends on CSS and layout. It is the `visible` field here.
- The `console.warn` diagnostics for a falsy caller are logging only. They are a no-op here.
- The registration with `pm.factory` and the surrounding closure are framework plumbing.
  The closure's variables are the fields of the `UIFactory` class.
- Click-event binding: only the close button's effect is modelled, as `Dismiss`.
  `Dismiss` requires that the popup exists, because the button is created with the popup.
- `hideWaitScreen`'s `forceClose` argument is optional in the source and tested as
  `!!forceClose` (line 149). Here it is a required `bool`: an omitted or falsy argument is
  `false`, a truthy one is `true`.
- The `waitScreenCount || 0` normalisation at line 102 only guards against a non-numeric
  counter, which an `int` field cannot be.
- Error codes are integers. The source compares codes through the text of the
  `data-plenty-error-code` attribute. Codes whose text forms coincide but whose values
  differ are not modelled.
- Changes that code outside this service makes to the document (removing the overlay or
  the popup, toggling classes) are not modelled: the model is the only writer of its state.
- `UIFactory.constructor` starts with neither `#PlentyWaitScreen` nor `#CheckoutErrorPane`
  in the document. The source sets only the counter and the caller list (lines 29-30) and
  looks both elements up by id (lines 58, 110), so page markup that already holds either
  element is not modelled.
