# Algora front-end scripts, modelled in Dafny

This project models two scripts of the Algora web application.

- `assets/js/puppeteer-img.js` is the command-line screenshot tool. The model covers:
  - its argument parser (`parseArgs`);
  - its integer validator (`_validateInteger`);
  - the part of its main block that turns the parsed strings into the viewport and screenshot settings handed to the headless browser.
- `assets/js/app.ts` holds the client-side LiveView hooks. The model covers:
  - the handle and domain derivation hooks (`DeriveHandle`, `DeriveDomain`), including their `shouldDerive` flag;
  - the keyboard-driven drop-down `Menu`;
  - the `NavBar` background switch;
  - the `MobileMenu` toggle;
  - the at-most-once banner of `PWAInstallPrompt`;
  - the `Focus` helpers (`isFocusable`, `attemptFocus`, `focusFirstDescendant`, `focusLastDescendant`);
  - the `js:focus-closest` window listener.

Modules:

- `Wrappers`: `Option` and `Result`.
- `JsStrings`: the JavaScript string built-ins the scripts use. These are `split` with a one-character separator, `startsWith`, and `parseInt` on a signed decimal string.
- `ScreenshotCli`: `puppeteer-img.js`. The options record holds JavaScript values that are `null`, `undefined` or a string. The loop in `parseArgs` is a method proved against the fold `ApplyArgs`.
- `DeriveFields`: the handle slug (`toLowerCase` followed by the two `replace` calls) and the email domain. It also has a `Deriver` class for the hooks' `shouldDerive` flag, the target input and the events dispatched on the target.
- `MenuHook`: the `Menu` hook as a class. The menu items are a sequence of class lists, and the active item is an index.
- `NavBarHook`, `MobileMenuHook`, `PwaInstallPrompt`: each hook is a class whose fields are its flags and the class lists it edits.
  - In `NavBarHook` and `MobileMenuHook`, the handler is tied to a pure transition function (`Scrolled`, `Toggled`), and lemmas state what that function keeps true.
  - In `PwaInstallPrompt`, each listener's contract states the new flags and class lists directly.
- `MenuHook` works the same way: the handlers are tied to the pure transitions `ResetState`, `ActivateState` and `KeyDown`.
- `Focus`: DOM subtrees are `Element` values. The descendant searches are recursive methods with loops, specified by predicates over child-index paths. The `js:focus-closest` listener is modelled as written and also as evidently intended; see Findings.

Where the model needs inputs the scripts get from outside, those inputs are parameters:

- the command line (`args`);
- `window.scrollY`;
- the PWA scroll-threshold test;
- whether the user agent is a mobile one;
- each element's visibility.

## Model

| member | source | states |
|---|---|---|
| `JsStrings.Split` | assets/js/puppeteer-img.js:21 | `split` always yields at least one piece, and no piece contains the separator |
| `JsStrings.JoinSplit` | assets/js/puppeteer-img.js:21 | joining the pieces of a split with the separator gives back the original string |
| `JsStrings.SplitNoSeparator` | assets/js/app.ts:424 | a string without the separator splits to itself alone |
| `JsStrings.SplitAtFirst` | assets/js/app.ts:424 | `p + sep + t` with `sep` not in `p` splits into `p` followed by the pieces of `t` |
| `JsStrings.SplitJoin` | assets/js/puppeteer-img.js:21 | splitting the join of separator-free pieces gives back exactly those pieces |
| `JsStrings.LeadingDigits` | assets/js/puppeteer-img.js:67 | the digits `parseInt` reads form the longest all-digit prefix |
| `JsStrings.DecimalValue` | assets/js/puppeteer-img.js:67 | a number's decimal spelling denotes that number |
| `JsStrings.LeadingDigitsOf` | assets/js/puppeteer-img.js:67 | the digit run ends at the first non-digit |
| `JsStrings.ParseIntPrefix` | assets/js/puppeteer-img.js:67 | `parseInt` reads the digits, with or without a minus sign, and ignores what follows them |
| `JsStrings.ParseIntDecimal` | assets/js/puppeteer-img.js:67 | `parseInt` inverts the decimal spelling of every natural number and of its negation |
| `JsStrings.ParseIntNaN` | assets/js/puppeteer-img.js:67 | a string that starts with neither a digit nor a sign parses to NaN |
| `ScreenshotCli.FieldOf` | assets/js/puppeteer-img.js:23-58 | every recognised flag starts with `-` and contains no `=` |
| `ScreenshotCli.SplitArg` | assets/js/puppeteer-img.js:21 | the flag part and the value part of `arg.split("=")` contain no `=` |
| `ScreenshotCli.FirstNonFlag` | assets/js/puppeteer-img.js:62 | the URL is the first argument not starting with `-`; it is absent exactly when every argument starts with `-` |
| `ScreenshotCli.ParseArgs` | assets/js/puppeteer-img.js:3-64 | the loop leaves the defaults folded with every argument in order; the url is the first non-flag argument |
| `ScreenshotCli.ApplyArgsAppend` | assets/js/puppeteer-img.js:17-59 | parsing two runs of arguments one after the other is parsing their concatenation |
| `ScreenshotCli.UnrecognisedArgsChangeNothing` | assets/js/puppeteer-img.js:23-58 | arguments whose flag matches no case of the switch leave the options untouched |
| `ScreenshotCli.NoFlagsGiveDefaults` | assets/js/puppeteer-img.js:5-15 | with no recognised flag the options are exactly the defaults (png, no path, 800, 600, scale 1, no clip) |
| `ScreenshotCli.UnsetFieldKeepsValue` | assets/js/puppeteer-img.js:17-59 | a field that no argument names keeps its value |
| `ScreenshotCli.LastOccurrenceWins` | assets/js/puppeteer-img.js:17-59 | when a flag is repeated, its last occurrence decides the value |
| `ScreenshotCli.SplitArgAfterFlag` | assets/js/puppeteer-img.js:21 | a flag followed by nothing gives `undefined`; a flag followed by `=` gives the text up to the next `=` |
| `ScreenshotCli.FlagValue` | assets/js/puppeteer-img.js:21-58 | `flag=value` sets the flag's field to `value`, whatever follows a second `=` |
| `ScreenshotCli.FlagWithoutValue` | assets/js/puppeteer-img.js:19-58 | a flag without `=` sets its field to `undefined` |
| `ScreenshotCli.SpellingsAgree` | assets/js/puppeteer-img.js:23-51 | the short and long spellings of a flag have the same effect |
| `ScreenshotCli.ShortSpellings` | assets/js/puppeteer-img.js:24-50 | `-t -p -w -h -s -x -y` name type, path, width, height, scale factor, x, y |
| `ScreenshotCli.LongSpellings` | assets/js/puppeteer-img.js:25-56 | the long spellings, including the clip flags that have no short one, name their fields |
| `ScreenshotCli.PositionalSetsNothing` | assets/js/puppeteer-img.js:17-62 | an argument not starting with `-`, such as the URL, sets no option |
| `ScreenshotCli.ParseSlot` | assets/js/puppeteer-img.js:67 | null, undefined and the empty string parse to NaN |
| `ScreenshotCli.ValidateInteger` | assets/js/puppeteer-img.js:66-73 | NaN exactly for a falsy value; null exactly for a truthy value that parses to NaN or 0; otherwise the non-zero parsed integer |
| `ScreenshotCli.ValidateDecimal` | assets/js/puppeteer-img.js:66-73 | every non-zero decimal integer, positive or negative, validates to itself |
| `ScreenshotCli.ZeroIsRejected` | assets/js/puppeteer-img.js:66-73 | "0" and "abc" are rejected as null; "" passes through as NaN |
| `ScreenshotCli.OrElse` | assets/js/puppeteer-img.js:85-88 | `v \|\| fallback` is either the fallback or the validated integer itself, a non-zero integer always wins, and with a non-zero fallback the result is never 0 |
| `ScreenshotCli.ScreenshotType` | assets/js/puppeteer-img.js:89-91 | the image type is always jpeg or png, and it is jpeg exactly when jpeg was asked for |
| `ScreenshotCli.OutputPath` | assets/js/puppeteer-img.js:92 | the path is never empty; the given path if truthy, else `./image.<type>` |
| `ScreenshotCli.ValidateAll` | assets/js/puppeteer-img.js:104-106 | the loop validates each clip parameter, in order |
| `ScreenshotCli.ResolveSettings` | assets/js/puppeteer-img.js:80-107 | the result is `Resolve` of the options: "URL required" exactly when the url is missing or empty; the viewport, type, path and clip rectangle are otherwise fully determined; a clip exists exactly when no clip parameter is null |
| `ScreenshotCli.Prepare` | assets/js/puppeteer-img.js:75-107 | the settings are `Resolve` of the parsed arguments, so viewport, type, path and clip all follow from `args`; the run stops with "URL required" exactly when there is no usable first non-flag argument |
| `ScreenshotCli.ViewportNeverZero` | assets/js/puppeteer-img.js:85-88 | no viewport number is ever 0 |
| `DeriveFields.DropSeparators` | assets/js/app.ts:391 | after a separator run is skipped, the next character is a letter or digit |
| `DeriveFields.TrimStart` | assets/js/app.ts:392 | the result does not start with a dash |
| `DeriveFields.TrimEnd` | assets/js/app.ts:392 | the result does not end with a dash |
| `DeriveFields.TrimStartRun` | assets/js/app.ts:392 | `^-+` removes exactly a leading run of dashes: on a run of dashes followed by text not starting with a dash, the result is that text |
| `DeriveFields.TrimEndRun` | assets/js/app.ts:392 | `-+$` removes exactly a trailing run of dashes: on text not ending with a dash followed by a run of dashes, the result is that text |
| `DeriveFields.AlnumsAppend` | assets/js/app.ts:389-392 | the letters and digits of a concatenation are those of each part |
| `DeriveFields.DropSeparatorsKeepsAlnums` | assets/js/app.ts:391 | skipping separators loses no letter or digit |
| `DeriveFields.CollapseKeepsAlnums` | assets/js/app.ts:391 | collapsing separator runs keeps every letter and digit, in order |
| `DeriveFields.TrimStartKeepsAlnums` | assets/js/app.ts:392 | trimming leading dashes keeps every letter and digit |
| `DeriveFields.TrimEndKeepsAlnums` | assets/js/app.ts:392 | trimming trailing dashes keeps every letter and digit |
| `DeriveFields.SlugKeepsAlnums` | assets/js/app.ts:389-392 | the handle keeps exactly the lower-cased name's letters and digits, in order |
| `DeriveFields.DropSeparatorsRun` | assets/js/app.ts:391 | skipping a separator run stops exactly where the next word starts |
| `DeriveFields.CollapseRun` | assets/js/app.ts:391 | a word followed by a maximal run of other characters keeps the word, and the whole run becomes exactly one dash |
| `DeriveFields.CollapseShape` | assets/js/app.ts:391 | the collapsed text uses only `a-z0-9-` and never has two dashes in a row |
| `DeriveFields.TrimStartShape` | assets/js/app.ts:392 | trimming leading dashes keeps the slug alphabet and single dashes |
| `DeriveFields.TrimEndShape` | assets/js/app.ts:392 | trimming trailing dashes from dash-free-at-start text gives a well-formed handle |
| `DeriveFields.SlugIsWellFormed` | assets/js/app.ts:389-392 | every derived handle uses `a-z0-9-` only, with no leading, trailing or doubled dash |
| `DeriveFields.LowerFixesSlugAlphabet` | assets/js/app.ts:390 | lower-casing leaves slug-alphabet text unchanged |
| `DeriveFields.CollapseFixesSlugAlphabet` | assets/js/app.ts:391 | collapsing leaves text without doubled dashes unchanged |
| `DeriveFields.SlugFixesSlugs` | assets/js/app.ts:389-392 | a well-formed handle derives to itself |
| `DeriveFields.SlugIdempotent` | assets/js/app.ts:389-392 | deriving a handle from a handle changes nothing |
| `DeriveFields.SlugEmptyIffNoAlnum` | assets/js/app.ts:389-392 | the handle is empty exactly when the name has no ASCII letter or digit |
| `DeriveFields.Domain` | assets/js/app.ts:424 | the derived domain never contains `@` |
| `DeriveFields.DomainWithoutAt` | assets/js/app.ts:424 | an email without `@` gives the empty domain |
| `DeriveFields.DomainAfterFirstAt` | assets/js/app.ts:424 | the domain is the text between the first `@` and the next `@` or the end |
| `DeriveFields.Deriver.constructor` | assets/js/app.ts:376-378 | derivation starts switched on, with nothing dispatched |
| `DeriveFields.Deriver.OnTargetInput` | assets/js/app.ts:381-383 | a manual edit of the target switches derivation off |
| `DeriveFields.Deriver.OnSourceInput` | assets/js/app.ts:386-399 | while switched on and a target exists, the target gets the derived value and one blur (handle) or change (domain) event; otherwise nothing changes |
| `MenuHook.Pick` | assets/js/app.ts:105-107 | an in-range index wins; otherwise an in-range fallback; otherwise no item |
| `MenuHook.ArrowDownWraps` | assets/js/app.ts:129-133 | ArrowDown moves to the next item, cyclically; from no item it picks the first |
| `MenuHook.ArrowUpWraps` | assets/js/app.ts:134-141 | ArrowUp moves to the previous item, cyclically; from no item it picks the last |
| `MenuHook.ArrowsUndoEachOther` | assets/js/app.ts:129-141 | ArrowDown and ArrowUp undo each other |
| `MenuHook.EmptyMenuHasNoTarget` | assets/js/app.ts:105-107 | on an empty menu neither arrow finds an item |
| `MenuHook.Deactivated` | assets/js/app.ts:111-113 | no item keeps the active class, and every other class stays |
| `MenuHook.ActivateAfterDeactivate` | assets/js/app.ts:131-133 | deactivating all items and then activating one leaves exactly that one active |
| `MenuHook.KeyDownEscape` | assets/js/app.ts:120-123 | Escape always completes: keyboard mode off, nothing active, no item carrying the class, listener removed |
| `MenuHook.KeyDownEnter` | assets/js/app.ts:124-125 | Enter with nothing active activates item 0, adding the class to it alone; on an empty menu it fails with the items unchanged |
| `MenuHook.KeyDownArrows` | assets/js/app.ts:129-141 | ArrowDown and ArrowUp move to the cyclic neighbour and leave exactly that item active; they fail only on an empty menu |
| `MenuHook.KeyDownOtherKeys` | assets/js/app.ts:126-128 | any other key, including Enter with an item active and Tab, leaves the state unchanged |
| `MenuHook.KeyDownKeepsOtherClasses` | assets/js/app.ts:119-145 | no key touches any class but the active one, and the active item stays one of the items |
| `MenuHook.Menu.constructor` | assets/js/app.ts:76-80 | mounting ends in the reset state: nothing active, not enabled, no window listener |
| `MenuHook.Menu.Reset` | assets/js/app.ts:66-72 | the new state is `ResetState` of the old one: keyboard mode off, every item deactivated, nothing active, window listener removed |
| `MenuHook.Menu.Deactivate` | assets/js/app.ts:111-113 | the active class is removed from every item and nothing else changes |
| `MenuHook.Menu.Activate` | assets/js/app.ts:105-110 | the new state is `ActivateState` of the old one: the picked item, if any, gains the active class; with no item in range the call fails, the active item becomes `undefined` and the class lists stay |
| `MenuHook.Menu.OnKeyDown` | assets/js/app.ts:119-145 | the new state and the outcome are exactly `KeyDown` of the old state; the `KeyDown*` lemmas give its effect per key |
| `MenuHook.Menu.OnButtonKeyDown` | assets/js/app.ts:82-89 | Enter or Space on the button enables keyboard mode |
| `MenuHook.Menu.OnButtonClick` | assets/js/app.ts:90-100 | a click registers the window listener; in keyboard mode it activates item 0, adding the class there, or fails on an empty menu with the items unchanged; otherwise nothing else changes |
| `MenuHook.Menu.OnWindowKeyDown` | assets/js/app.ts:81 | with the listener registered a key has exactly the effect `KeyDown` gives; without it, nothing changes |
| `NavBarHook.Scrolled` | assets/js/app.ts:235-245 | after a scroll the bar is opaque exactly when `scrollY` is past the 16-pixel offset; a scroll that flips nothing changes nothing |
| `NavBarHook.ScrolledIdempotent` | assets/js/app.ts:235-245 | running the handler again at the same position changes nothing |
| `NavBarHook.ScrolledKeepsAgreement` | assets/js/app.ts:235-245 | the background class keeps agreeing with the flag |
| `NavBarHook.FlipEstablishesAgreement` | assets/js/app.ts:236-244 | after a flip the classes agree with the flag, whatever they were before |
| `NavBarHook.OtherClassesUntouched` | assets/js/app.ts:238-243 | only the two background classes are ever touched |
| `NavBarHook.NavBar.constructor` | assets/js/app.ts:231-233 | the bar starts transparent |
| `NavBarHook.NavBar.OnScroll` | assets/js/app.ts:235-247 | the new state is the scroll transition of the old one |
| `MobileMenuHook.Toggled` | assets/js/app.ts:264-292 | toggling flips `menuOpen` |
| `MobileMenuHook.ToggledMatches` | assets/js/app.ts:267-291 | after any toggle every element holds exactly the class of its pair that the flag calls for |
| `MobileMenuHook.ToggleTwiceRestores` | assets/js/app.ts:264-292 | toggling twice restores a state whose classes matched its flag |
| `MobileMenuHook.MobileMenu.constructor` | assets/js/app.ts:251-262 | the menu starts closed |
| `MobileMenuHook.MobileMenu.ToggleMenu` | assets/js/app.ts:264-292 | the new state is the toggle of the old one, and its classes match the flag |
| `PwaInstallPrompt.InstallPrompt.constructor` | assets/js/app.ts:148-175 | no prompt shown and no install event held |
| `PwaInstallPrompt.InstallPrompt.ShowPrompt` | assets/js/app.ts:177-189 | the banner is revealed at most once; on mobile the instructions are shown and the button hidden, and the other way round on desktop |
| `PwaInstallPrompt.InstallPrompt.OnScroll` | assets/js/app.ts:191-202 | the prompt is shown exactly when the page is past the threshold and an install event is held; the banner is revealed, with the mobile/desktop swap, only if it was never shown; otherwise the class lists stay as they are, even after the banner was closed |
| `PwaInstallPrompt.InstallPrompt.OnBeforeInstallPrompt` | assets/js/app.ts:204-207 | the install event is held for later |
| `PwaInstallPrompt.InstallPrompt.OnInstallClick` | assets/js/app.ts:209-216 | the held event is used up and the banner hidden |
| `PwaInstallPrompt.InstallPrompt.OnCloseClick` | assets/js/app.ts:218-221 | the banner is hidden |
| `PwaInstallPrompt.InstallPrompt.OnAppInstalled` | assets/js/app.ts:223-227 | the banner is hidden and the held event dropped |
| `Focus.FocusableCases` | assets/js/app.ts:450-473 | a positive or explicit zero tab index makes an element focusable; otherwise a disabled element is not; links need an href and no `rel="ignore"`; hidden and file inputs are not focusable; buttons, selects and text areas are; nothing else is |
| `Focus.FirstFocusableIsFocusable` | assets/js/app.ts:489-497 | the first focusable descendant is a real descendant and focusable |
| `Focus.FirstFocusableUnique` | assets/js/app.ts:489-497 | the first focusable descendant is unique |
| `Focus.FirstFocusableBelow` | assets/js/app.ts:489-497 | a first focusable descendant rules out "nothing focusable below" |
| `Focus.LastFocusableIsFocusable` | assets/js/app.ts:499-507 | the last focusable descendant is a real descendant and focusable |
| `Focus.LastFocusableUnique` | assets/js/app.ts:499-507 | the last focusable descendant is unique |
| `Focus.LastFocusableBelow` | assets/js/app.ts:499-507 | a last focusable descendant rules out "nothing focusable below" |
| `Focus.FocusFirstDescendant` | assets/js/app.ts:489-497 | when it succeeds, focus lands on the first focusable descendant in document order; when it fails, no descendant is focusable |
| `Focus.FocusLastDescendant` | assets/js/app.ts:499-507 | when it succeeds, focus lands on the last focusable descendant, each child taken before its own descendants; when it fails, no descendant is focusable |
| `Focus.ClosestSibling` | assets/js/app.ts:557-572 | the result satisfies `Closest`: the nearest visible focusable sibling after the target, else the nearest before it, else none exactly when no other sibling qualifies |
| `Focus.ClosestUnique` | assets/js/app.ts:559-572 | the loop order picks one sibling: at most one result satisfies `Closest` |
| `Focus.FocusClosest` | assets/js/app.ts:557-574 | as written: the `Closest` sibling if there is one, otherwise always main, never the parent |
| `Focus.ParentNeverTried` | assets/js/app.ts:573 | with `undefined` in place of a focusable parent, focus goes to main instead of the parent |
| `Focus.FocusClosestOrParent` | assets/js/app.ts:557-574 | as intended: the `Closest` sibling if there is one, otherwise the parent exactly when it is focusable, otherwise main |

## Left out

- The LiveSocket setup is not modelled. This covers the CSRF token, the topbar progress bar, `phx:js-exec`, `js:exec`, `js:focus`, `phx:remove-el` and the socket connection, which are framework wiring with no logic of their own.
- The hooks `Flash`, `AnimatedTooltip`, `CopyToClipboard` and `ClearInput` are not modelled. They are timers, tooltip positioning, the clipboard API and a single assignment, none with logic of its own to prove.
- The `isVisible` helper reads the browser's layout, so visibility is a field of each element instead.
- `Focus.AttemptFocus` is the focus abstraction itself, so its contract only restates it. Focus lands exactly on a present, focusable element; `ParentNeverTried` and the search contracts state what it is used for.
- `Focus.focusMain` is not modelled in detail: the `Main` outcome stands for it. Its body only moves focus to `main h1` or `main`.
- `assets/tailwind.config.js` is declarative configuration and is not part of this model.
- Timers and `requestAnimationFrame` are not modelled: the `Menu` click activates the first item at once, as if the animation frame came immediately.
- `Menu.getAttr` throwing on a missing `data-active-class` is not modelled. The model assumes the attribute is present, because without it `mounted` aborts before any listener exists.
- The `Menu` item list is fixed for the model's lifetime, while the source re-queries `[role=menuitem]` on each call.
- Some DOM side effects of the `Menu` are not modelled: `document.body.click()` and `el.focus()` on Escape, `activeItem.click()` on Enter with an item active, `activeItem.focus()`, and `preventDefault` on the arrow keys and Tab.
- Focus itself is not modelled. `attemptFocus` is taken to succeed exactly when the element is focusable, because `el.focus()` and `document.activeElement` belong to the browser.
- `PwaInstallPrompt.InstallPrompt.OnScroll` takes the position test (`scrollPos > Math.min(500, scrollHeight / 2)`) as a boolean instead of computing it from floating-point page geometry.
- Parts of `PWAInstallPrompt` are not modelled:
  - the user-agent test, which becomes the `isMobile` parameter;
  - the `localStorage` writes;
  - the early return of `mounted` when the elements are missing or the prompt was already shown;
  - `deferredPrompt.prompt()`.
- `DeriveFields.Deriver.OnSourceInput` models lower-casing for ASCII letters only. JavaScript's `toLowerCase` also folds other Unicode letters, and some of them land in `[a-z]`: U+212A (the Kelvin sign) becomes `k`, and U+0130 becomes `i` followed by U+0307. For names containing these the derived handle differs, not only its case.
- The model assumes every element a hook queries exists. In the source a missing one throws:
  - MobileMenu: the two button listeners at assets/js/app.ts:260-261 throw. So does `toggleMenu` at line 268, after `menuOpen` has already flipped at line 265.
  - Menu: the items container at line 116 throws, reached through `reset` in `mounted`.
- `ScreenshotCli.ValidateInteger` uses a `parseInt` restricted to an optional sign followed by decimal digits. It does not model leading whitespace, `0x` prefixes, or precision loss above 2^53. It also does not model the message written to standard error.
- The browser session in `puppeteer-img.js` is not modelled. This covers the launch, `setViewport`, `goto`, the wait for the optional response, the screenshot file and `close`. These are calls into the browser-automation library, so `ResolveSettings` stops at the settings the session would receive.
- `NavBarHook.NavBar.OnScroll` takes `window.scrollY` as a real number parameter.

## Findings

| source | as written | input that shows it | evidently intended | confidence | as-written member | corrected member |
|---|---|---|---|---|---|---|
| assets/js/app.ts:573 | `Focus.attemptFocus((el as any).parent)`. DOM elements have no `parent` property, so the call always receives `undefined` and focus always falls through to `focusMain()` | a target with no visible focusable sibling whose parent element is a focusable `BUTTON`: the listener focuses main, not the parent | try `el.parentElement` before falling back to main | not executed; a DOM element has `parentElement` and `parentNode` but no `parent` | `Focus.FocusClosest`, `Focus.ParentNeverTried` | `Focus.FocusClosestOrParent` |
