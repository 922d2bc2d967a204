# Faninteract ad engine and display rules, in Dafny

Faninteract drives public event displays: fan walls (approved guest posts), prize
wheels and polls, run from a host dashboard. This project models the parts of it that
make decisions:

- **The ad-injection engine.** When a display interrupts its content with an ad, which
  ad it shows, and when the ad goes away. There are three independent implementations:
  - the `useAdInjector` hook, with rotation, slideshow and takeover modes;
  - the fan wall's `useAdOverlayer` hook, driven by a submission counter and a pause flag;
  - the older `AdOverlay` component, which interleaves master and host ads and rotates by
    each ad's own duration.

  The ads manager dialog feeds all three: it reorders the pool, locks corporate ads and
  builds the uploaded rows.
- **The option dialogs of fan walls, prize wheels and polls.** This covers:
  - layout canonicalisation;
  - the gradient builder and the alpha brightness;
  - the poll duration labels;
  - the option editor;
  - the save payloads.
- **The server actions that create and update fan walls and polls:** `cleanFields`, the
  broadcast envelope, and the status toggle.
- **The two waiting screens and their countdown clock.** The clock parses its label, ticks
  down one second at a time and shows `m:ss`. The wheel's clock sets the wheel live when
  it reaches zero. Each screen also accepts broadcasts through a 100 ms debounce.
- **The prize wheel's tiles:**
  - approved entries;
  - a random selection of at most 16, made once;
  - tile `i` taking entry `i mod n`;
  - name labels and initials;
  - A/B colours.
- **The list reducers of the dashboard:** moderation approve/reject/delete with the realtime
  feed and the status columns, the polls panel, and the trivia grid.
- **The guest-route check of the theme wrapper.**

Each module is one source file or one shared concept:
- `js_core` and `js_text` hold the JavaScript semantics that the rest relies on: truthiness, `||` and `??`, `parseInt`, `NaN`, trimming, lower case, `includes`, `split`, decimal numerals.
- `stable_sort` is the stable sort behind `Array.prototype.sort`.
- `lists` and `rows` hold `filter`, `map` and the id-keyed list updates.

Every operation is a pure function on immutable values. Timers, fetch results and
broadcasts are events or parameters. Choices the code makes that a reader might not
expect are listed under "## Design notes".

## Model

| member | source | states |
|---|---|---|
| AdInjector.CompareAgreesWithRank | hooks/useAdInjector.ts:83-90 | The merge comparator orders two ads exactly as the rank (corporate first, then `order_index ?? 9999`) does, ties included |
| AdInjector.Lock | hooks/useAdInjector.ts:75-79 | Every corporate ad is kept, in order, with `locked` set |
| AdInjector.MergePool | hooks/useAdInjector.ts:83-90 | The pool is a permutation of the locked corporate ads plus the local ads, every ad with a `master_id` comes before every ad without one, and within a tier `order_index` (null as 9999) never decreases |
| AdInjector.MergeKeepsFetchOrder | hooks/useAdInjector.ts:83-90 | Ads that tie on tier and order key keep the order in which they were fetched (the sort is stable, with no id tie-break) |
| AdInjector.MergeLocalOnly | hooks/useAdInjector.ts:65-83 | Without corporate ads, local ads that arrive ordered by `order_index` are the pool exactly |
| AdInjector.Init | hooks/useAdInjector.ts:22-33 | The hook starts disabled, with interval 8, rotation mode, an empty pool, nothing shown and no timer |
| AdInjector.CurrentAd | hooks/useAdInjector.ts:203 | `currentAd` is null exactly when the index is past the pool, else the ad at the index |
| AdInjector.SettingsLoaded | hooks/useAdInjector.ts:49-54 | A missing host row changes nothing. A row sets enabled to `!!injector_enabled`; the interval to the stored number when it is truthy and to 8 otherwise; the mode to rotation when `injector_mode` is falsy and to the stored mode otherwise; the master id to `master_id` when truthy and to null otherwise. No other field changes |
| AdInjector.ModeOf | hooks/useAdInjector.ts:52 | `injector_mode \|\| 'rotation'`: a falsy mode is rotation, `slideshow` and `takeover` are recognised exactly when stored, and any other text is kept as it is |
| AdInjector.PoolLoaded | hooks/useAdInjector.ts:57-92 | The pool becomes the merge of the fetched local ads with the corporate ads (fetched only when the host has a master id); a failed fetch counts as no ads; nothing else changes |
| AdInjector.ShowNextAd | hooks/useAdInjector.ts:128-137 | Disabled or empty: no change. Otherwise the index moves to `(index + 1) mod length` before the ad is shown |
| AdInjector.Tick | hooks/useAdInjector.ts:171-183 | A tick outside rotation mode, while disabled, with no ads or while an ad shows changes nothing; otherwise it counts, and on reaching the interval resets the counter, shows the next ad and schedules one 8000 ms hide |
| AdInjector.IntervalFired | hooks/useAdInjector.ts:148-163 | The takeover timer shows the next ad; the slideshow timer shows the next ad and schedules an 8000 ms hide; no timer, no change |
| AdInjector.HideTimerFired | hooks/useAdInjector.ts:162-181 | The oldest pending hide hides the ad and is consumed |
| AdInjector.TakeoverNeverShowsAsWritten | hooks/useAdInjector.ts:142-198 | As written, in takeover mode with ads and the injector on, the two effects end with the ad hidden and no timer |
| AdInjector.Effects | hooks/useAdInjector.ts:142-166 | Corrected effects: armed takeover shows the ad with the advancing timer, armed slideshow starts its timer hidden, anything else hides and clears; only `showAd` and the timer change |
| AdInjector.EffectsAgreeOutsideTakeover | hooks/useAdInjector.ts:142-166 | The correction changes nothing outside an armed takeover |
| AdInjector.TickStep | hooks/useAdInjector.ts:151-183 | A tick never changes an effect dependency, so as an event it is exactly `tick`, as written and corrected |
| AdInjector.TicksWhileShowingDropped | hooks/useAdInjector.ts:174 | A tick while an ad shows changes nothing, the counter included, as written and corrected |
| AdInjector.RotationCounting | hooks/useAdInjector.ts:176-178 | Below the interval, `n` accepted ticks only add `n` to the counter |
| AdInjector.RotationTriggersOnKthTick | hooks/useAdInjector.ts:176-182 | From a reset counter, the `k`-th tick resets the counter, advances the index and shows the ad with one hide pending |
| AdInjector.TicksSplit | hooks/useAdInjector.ts:171-183 | Ticks compose: `a + b` ticks are `a` ticks then `b` ticks |
| AdInjector.StepKeepsFixedHides | hooks/useAdInjector.ts:162-181 | Every scheduled hide waits the fixed 8000 ms, whatever the events |
| AdInjector.TakeoverKeepsShowing | hooks/useAdInjector.ts:142-151 | In armed takeover the ad stays shown through ticks and timer firings, and the interval only advances the index |
| AdInjector.TakeoverArmsOnLoad | hooks/useAdInjector.ts:142-151 | Corrected: a settings load that enables takeover over a non-empty pool shows the ad at once and starts the timer |
| AdInjector.TakeoverHiddenOnLoadAsWritten | hooks/useAdInjector.ts:142-166 | As written, the same settings load ends with the ad hidden and no timer, because the slideshow effect runs second and clears what the takeover effect set |
| AdInjector.DisableHides | hooks/useAdInjector.ts:142-166 | A settings load that disables the injector hides the ad and stops the timer in every mode, as written and corrected |
| AdInjector.SettingsReloadIsNoOp | hooks/useAdInjector.ts:49-166 | Loading the same host row a second time changes nothing, as written and corrected: the setters store the values already held, so no effect re-runs |
| AdInjector.FirstShownIsIndexOne | hooks/useAdInjector.ts:128-137 | The first ad shown after the initial load is at index `1 mod length`, not 0 |
| AdOverlayer.SettingsOfKeepsZeros | app/wall/hooks/useAdOverlayer.ts:62-67 | The `??` defaults replace only missing values: a stored 0 stays 0, and the settings equal the defaults exactly when every column is missing or already the default |
| AdOverlayer.Query | app/wall/hooks/useAdOverlayer.ts:76-84 | The rows selected are exactly the active ads of the host plus those of its master (or, without a master, those with no master), as a sub-multiset of the table |
| AdOverlayer.SortByGlobal | app/wall/hooks/useAdOverlayer.ts:88-92 | The pool is a permutation of the rows, ordered by `global_order_index ?? 9999` |
| AdOverlayer.Init | app/wall/hooks/useAdOverlayer.ts:18-33 | The hook starts with every 8 submissions, 8 s, injector off, no ads, count 0 and not paused |
| AdOverlayer.LoadAds | app/wall/hooks/useAdOverlayer.ts:75-95 | A failed query keeps the pool; otherwise the pool is the sorted selection |
| AdOverlayer.HostLoaded | app/wall/hooks/useAdOverlayer.ts:49-70 | Without a host id or with a load error nothing changes. Otherwise settings and master id are reloaded; the pool is kept when the ads table cannot be read and is otherwise the sorted selection for the host and its master; the display state is untouched |
| AdOverlayer.Trigger | app/wall/hooks/useAdOverlayer.ts:126-140 | A trigger pauses, shows, moves the index to `(index + 1) % ads.length`, schedules the end after `ad_duration_seconds * 1000` ms, and changes nothing else |
| AdOverlayer.Tick | app/wall/hooks/useAdOverlayer.ts:100-121 | Disabled, no ads or paused: no change. Below the threshold the count goes up by one; at the threshold the count resets and the ad is triggered |
| AdOverlayer.DisplayEnded | app/wall/hooks/useAdOverlayer.ts:136-139 | The display timer hides the ad and resumes counting; index, pool, count and settings are kept. With no end pending nothing changes |
| AdOverlayer.CurrentAd | app/wall/hooks/useAdOverlayer.ts:171 | `ads[currentIndex] ?? null` |
| AdOverlayer.InitInv | app/wall/hooks/useAdOverlayer.ts:18-33 | The start state satisfies the invariant that the ad shows exactly while paused with its end pending |
| AdOverlayer.StepInv | app/wall/hooks/useAdOverlayer.ts:113-139 | Every event keeps that invariant, so at most one ad display is active at a time |
| AdOverlayer.TicksWhilePausedIgnored | app/wall/hooks/useAdOverlayer.ts:113 | A tick while paused changes nothing, the count included |
| AdOverlayer.Counting | app/wall/hooks/useAdOverlayer.ts:115-117 | Below the threshold, `n` ticks only add `n` to the count |
| AdOverlayer.TicksSplit | app/wall/hooks/useAdOverlayer.ts:100-121 | Ticks compose |
| AdOverlayer.TriggersOnKthTick | app/wall/hooks/useAdOverlayer.ts:115-120 | From count 0, the `ad_every_x_submissions`-th tick triggers the ad |
| AdOverlayer.CyclesVisit | app/wall/hooks/useAdOverlayer.ts:100-139 | From count 0 with no ad showing, each cycle of `ad_every_x_submissions` submissions and one display end moves on by one ad: after `k` cycles the overlay counts again at ad `(i + k) % ads.length`, with every other field as at the start |
| AdOverlayer.SmallThresholdTriggersEveryTick | app/wall/hooks/useAdOverlayer.ts:113-120 | A threshold of 0 or 1 (kept by `??`) makes every counted tick trigger |
| AdOverlayer.LoadedPoolIsSelection | app/wall/hooks/useAdOverlayer.ts:75-95 | After a table change the pool holds exactly the selected rows, sorted |
| AdOverlayer.ForeignCorporateExcluded | app/wall/hooks/useAdOverlayer.ts:76-78 | A corporate ad of another master is never selected |
| AdOverlay.Interleave | app/wall/components/AdOverlay.tsx:45-51 | The interleaving is as long as both lists together |
| AdOverlay.InterleavePermutes | app/wall/components/AdOverlay.tsx:45-51 | Interleaving loses and adds nothing |
| AdOverlay.InterleavePairs | app/wall/components/AdOverlay.tsx:48-50 | While both lists last, position `2i` is `masters[i]` and `2i + 1` is `hosts[i]` |
| AdOverlay.InterleaveTail | app/wall/components/AdOverlay.tsx:48-50 | After the shorter list ends, the rest of the longer one follows in order |
| AdOverlay.InterleaveStep | app/wall/components/AdOverlay.tsx:48-50 | One round contributes `masters[i]`, then `hosts[i]`, where present |
| AdOverlay.LoopRound | app/wall/components/AdOverlay.tsx:48-50 | One loop round keeps "output so far, then the rest interleaved" equal to the interleaving |
| AdOverlay.InterleaveLoop | app/wall/components/AdOverlay.tsx:45-51 | The `for` loop computes the interleaving |
| AdOverlay.Arrange | app/wall/components/AdOverlay.tsx:42-53 | The pool is as long as the master-flagged plus the host-flagged rows, and holds exactly the rows with one of the flags |
| AdOverlay.Init | app/wall/components/AdOverlay.tsx:21-23 | The component starts enabled, with no ads, index 0 and no timer |
| AdOverlay.DelayMs | app/wall/components/AdOverlay.tsx:74-79 | The delay is the ad's `duration_seconds` in ms, or 8000 when it is 0, missing or `NaN` |
| AdOverlay.Rotate | app/wall/components/AdOverlay.tsx:70-80 | Disabled or empty: no change; otherwise the timer is replaced by one for the current ad's duration |
| AdOverlay.AdsFetched | app/wall/components/AdOverlay.tsx:39-53 | No data keeps the pool; data sets the pool to its interleaving |
| AdOverlay.InjectorFetched | app/wall/components/AdOverlay.tsx:57-67 | Only a returned row changes the enabled flag, to `!!injector_enabled` |
| AdOverlay.Fire | app/wall/components/AdOverlay.tsx:70-80 | A firing counts one rotation and moves the index to `(index + 1) % len` as written, where `len` is the pool length the timer captured, or to `(index + 1) % ads.length` corrected (0 on an empty pool). Pool and enabled flag are kept; it crashes exactly when the new index is past a non-empty pool while enabled; otherwise the next timer uses the new ad's delay |
| AdOverlay.FiresVisit | app/wall/components/AdOverlay.tsx:70-80 | `k` firings from a position on the pool move `k` ads on: modulo the captured length as written, modulo the pool's length corrected |
| AdOverlay.Wait | app/wall/components/AdOverlay.tsx:77-92 | Time passing never undoes rotations and never changes the pool |
| AdOverlay.Poll | app/wall/components/AdOverlay.tsx:89-92 | A poll never undoes rotations |
| AdOverlay.Render | app/wall/components/AdOverlay.tsx:110-112 | Nothing renders when disabled or empty; an index past the pool is a crash; otherwise `ads[currentIndex]` renders, and an ad renders only in that case |
| AdOverlay.ShrinkingPoolCrashesAsWritten | app/wall/components/AdOverlay.tsx:53-112 | As written, showing the third of three ads, a poll that returns two ads crashes the component |
| AdOverlay.CommitKeeps | app/wall/components/AdOverlay.tsx:98-100 | Corrected: re-running the rotate effect keeps the index on the pool |
| AdOverlay.WaitKeeps | app/wall/components/AdOverlay.tsx:77-79 | Corrected: timer firings keep the index on the pool |
| AdOverlay.FetchesKeep | app/wall/components/AdOverlay.tsx:39-67 | Corrected: the ads fetch and the injector fetch each keep the index on the pool |
| AdOverlay.CorrectedNeverCrashes | app/wall/components/AdOverlay.tsx:85-112 | Corrected: whatever the polls return, the index stays on the pool and rendering never crashes |
| AdOverlay.LongAdStuckAsWritten | app/wall/components/AdOverlay.tsx:76-100 | As written, with an ad longer than 8 s and steady polls, every poll re-arms the timer and the overlay never moves on |
| AdOverlay.SteadyPollCountsDown | app/wall/components/AdOverlay.tsx:89-100 | Corrected: a steady poll only lets time pass on a pending timer |
| AdOverlay.CorrectedRotates | app/wall/components/AdOverlay.tsx:76-92 | Corrected: with steady polls a pending timer fires within the polls that cover its remaining time |
| AdsManager.RemoveAt | components/AdsManagerModal.tsx:30 | `splice(from, 1)` removes exactly the element at the index, shifting the rest down |
| AdsManager.InsertAt | components/AdsManagerModal.tsx:31 | `splice(to, 0, item)` puts the item at the index, shifting the rest up |
| AdsManager.ArrayMove | components/AdsManagerModal.tsx:27-33 | The moved item lands at `to`; removing it gives back the input without `from` (everything else keeps its relative order); the result is a permutation |
| AdsManager.ArrayMoveShifts | components/AdsManagerModal.tsx:27-33 | Rows between the two positions shift by one toward `from`; the others stay put |
| AdsManager.ArrayMoveBack | components/AdsManagerModal.tsx:27-33 | Moving back undoes a move |
| AdsManager.ArrayMoveSame | components/AdsManagerModal.tsx:27-33 | Dropping a row on itself changes nothing |
| AdsManager.DragStart | components/AdsManagerModal.tsx:171-175 | Outside reorder mode, or on a corporate row seen by a host, no drag starts |
| AdsManager.Drop | components/AdsManagerModal.tsx:182-206 | No reorder mode or no drag source: no change. A host moving a host ad up over a corporate row snaps back. Otherwise the list is `arrayMove(from, to)`. The drag source is always cleared |
| AdsManager.HostDragsOwnAdsOnly | components/AdsManagerModal.tsx:171-175 | A host can only start dragging a non-corporate ad |
| AdsManager.HostDropKeepsCorporateFirst | components/AdsManagerModal.tsx:191-204 | A host's drop of a host ad keeps every corporate ad above every other ad |
| AdsManager.OrderUpdates | components/AdsManagerModal.tsx:110-115 | Each request writes a writable row's own position; requests go in increasing position |
| AdsManager.OrderUpdatesComplete | components/AdsManagerModal.tsx:110-115 | Every writable row gets a request |
| AdsManager.MasterRenumbersAll | components/AdsManagerModal.tsx:110-113 | A corporate user's save numbers every row by its position |
| AdsManager.SaveOrderScope | components/AdsManagerModal.tsx:110-115 | A corporate user renumbers all rows; a host's requests never touch a corporate ad |
| AdsManager.DeleteAd | components/AdsManagerModal.tsx:125-132 | A delete happens exactly when the user may write the row; the stored file is removed exactly when it has a path |
| AdsManager.Extension | components/AdsManagerModal.tsx:144 | `split('.').pop()`: the extension has no dot and ends the name, and unless it is the whole name a dot comes just before it |
| AdsManager.ExtensionNoDot | components/AdsManagerModal.tsx:144 | A name without a dot is its own extension |
| AdsManager.ExtensionAfterDot | components/AdsManagerModal.tsx:144 | For a dot-free `ext`, the extension of `stem.ext` is `ext`, whatever dots the stem holds |
| AdsManager.Upload | components/AdsManagerModal.tsx:140-163 | No file or a failed upload inserts nothing. The row sets exactly one of `master_id`/`host_profile_id` (the owner tier is fixed at upload), is a video exactly when the MIME type starts with `video`, and gets `order_index` = the current ad count |
| AdsManager.IntervalOf | components/AdsManagerModal.tsx:73 | The loaded interval is the stored number when that is truthy, and 8 when the column is missing or falsy |
| AdsManager.IntervalAgreesWithInjector | components/AdsManagerModal.tsx:73 | `Number(x ?? 8) \|\| 8` gives the same interval as the injector's `Number(x) \|\| 8` |
| AdsManager.LoadSettings | components/AdsManagerModal.tsx:63-76 | No row: settings unchanged; a row sets the flags with `!!` and the interval as above |
| Gradient.HexVal | components/OptionsModalFanWall.tsx:20 | A hex digit's value is below 16 |
| Gradient.HexDigit | components/OptionsModalFanWall.tsx:22 | The printed digit is a word character that reads back as its value |
| Gradient.Hex2 | components/OptionsModalFanWall.tsx:22 | `toString(16).padStart(2, '0')` of a byte is two word characters |
| Gradient.HexRoundTrip | components/OptionsModalFanWall.tsx:20-22 | Printing a byte and parsing it back with `parseInt(_, 16)` gives the byte |
| Gradient.Scale | components/OptionsModalFanWall.tsx:17-22 | The alpha times the brightness percentage, rounded half up: 0 when the product is at most 0, 255 when it is at least 25500, and otherwise the integer within half a unit of `base * brightness / 100` |
| Gradient.ScaleFull | components/OptionsModalFanWall.tsx:17-22 | Brightness 100 keeps every alpha |
| Gradient.ScaleMonotone | components/OptionsModalFanWall.tsx:17-22 | A higher brightness never gives a lower alpha |
| Gradient.AlphaOut | components/OptionsModalFanWall.tsx:20-22 | A readable alpha is replaced by its scaled byte in hex; an unreadable one prints `NaN` |
| Gradient.ApplyBrightness | components/OptionsModalFanWall.tsx:14-15 | Anything that is not a `linear-gradient` comes back unchanged |
| Gradient.RewriteNoHash | components/OptionsModalFanWall.tsx:19 | The regex scan leaves text without `#` untouched |
| Gradient.RewriteOneToken | components/OptionsModalFanWall.tsx:19 | On a token followed by a non-word character, the scan rewrites the token alone |
| Gradient.RewriteMatch | components/OptionsModalFanWall.tsx:19 | A `#rrggbbaa` token has its alpha replaced and the scan goes on after it |
| Gradient.RewriteNoMatch | components/OptionsModalFanWall.tsx:19 | A `#` token that does not match is kept as it is |
| Gradient.RewriteAll | components/OptionsModalFanWall.tsx:19 | Rewriting a token list rewrites each token |
| Gradient.RewriteSpaced | components/OptionsModalFanWall.tsx:19 | On a space-separated token list, the scan works token by token |
| Gradient.TrimStartRun | components/OptionsModalFanWall.tsx:38 | Trimming a whitespace run leaves the rest |
| Gradient.CollapseWord | components/OptionsModalFanWall.tsx:38 | `replace(/\s+/g, ' ')` leaves a word without spaces untouched |
| Gradient.CollapseRaw | components/OptionsModalFanWall.tsx:30-38 | Collapsing the template literal leaves exactly one space between tokens |
| Gradient.TokensClean | components/OptionsModalFanWall.tsx:30-37 | The template's tokens hold no whitespace and no stray `#` |
| Gradient.RewriteTokens | components/OptionsModalFanWall.tsx:19-36 | Rewriting the template's tokens touches only the two alpha stops |
| Gradient.RewriteColour | components/OptionsModalFanWall.tsx:19-36 | A picker colour alone does not match; with an alpha appended, only the alpha changes |
| Gradient.ApplySpaced | components/OptionsModalFanWall.tsx:14-38 | Brightening the collapsed template rescales exactly the two middle alphas |
| Gradient.BuildWith | components/OptionsModalFanWall.tsx:26-41 | The template filled with any word-character alphas, collapsed and brightened |
| Gradient.BuildGradientShape | components/OptionsModalFanWall.tsx:26-41 | `buildGradient` is the four-stop gradient at 0%, `pos`%, `min(pos + 15, 100)`% and 100%, with `cc` (204) and `99` (153) scaled by the brightness |
| Gradient.BuildGradientFull | components/OptionsModalFanWall.tsx:26-41 | At brightness 100 the gradient keeps `cc` and `99` |
| Gradient.ApplyTwice | components/OptionsModalFanWall.tsx:103-111 | Brightening a built gradient again scales both alphas a second time |
| Gradient.FirstAlphaAt | components/OptionsModalFanWall.tsx:33-34 | The first middle alpha sits at offset 45 of the collapsed gradient |
| Gradient.TokensDiffer | components/OptionsModalFanWall.tsx:33-34 | Different first-stop alphas give different gradients |
| Backdrop.ApplyEdit | components/OptionsModalPrizeWheel.tsx:325-400 | Each colour, position or brightness control changes its own field, switches to a gradient, and leaves the previewed value equal to the gradient the controls build |
| Backdrop.PollApplyEdit | components/OptionsModalPoll.tsx:548-554 | The poll's brightness slider on a non-gradient background only records the brightness; every other control acts as in the other dialogs |
| Backdrop.PollBrightnessKeepsImage | components/OptionsModalPoll.tsx:548-554 | On an image background the poll's brightness slider keeps the kind and the value; on a gradient it rebuilds the preview; either way the corrected save stores the preview |
| Backdrop.SavedAsWritten | components/OptionsModalPrizeWheel.tsx:166-169 | As written, a non-gradient background is saved as it is, and a gradient has the brightness applied to the previewed value |
| Backdrop.FanWallSavedAsWritten | components/OptionsModalFanWall.tsx:101-112 | As written, a non-gradient background is saved as it is, and a gradient is rebuilt and brightened again |
| Backdrop.Saved | components/OptionsModalPoll.tsx:258-261 | Corrected: a previewed gradient is saved as the preview shows it; any other background as it is |
| Backdrop.FanWallSaved | components/OptionsModalFanWall.tsx:101-112 | Corrected: a gradient is saved built once; any other background as it is |
| Backdrop.SavedMatchesPreview | components/OptionsModalPrizeWheel.tsx:166-169 | After any gradient control, both corrected saves store exactly what the preview shows |
| Backdrop.SavedAsWrittenScalesTwice | components/OptionsModalPoll.tsx:258-261 | As written, an edited gradient is saved with both alpha stops scaled twice |
| Backdrop.SavedAsWrittenDiffers | components/OptionsModalFanWall.tsx:101-112 | As written, whenever a second scaling changes the first alpha, the saved value differs from the preview |
| Backdrop.HalfBrightnessSavedDarker | components/OptionsModalPrizeWheel.tsx:166-169 | As written, at brightness 50 the saved gradient differs from the previewed one |
| FanWallOptions.CanonicalLayout | components/OptionsModalFanWall.tsx:43-49 | Empty gives `singleHighlight`; `grid2x2` exactly when the lower-cased name contains `2x2`; `grid4x2` exactly when it contains `4x2` and not `2x2` |
| FanWallOptions.MissingChar | components/OptionsModalFanWall.tsx:46-47 | A text lacking one of the pattern's characters does not contain the pattern |
| FanWallOptions.MissingPair | components/OptionsModalFanWall.tsx:46-47 | A text never holding the pattern's first two characters in a row does not contain it |
| FanWallOptions.CanonicalOfName | components/OptionsModalFanWall.tsx:43-49 | Each canonical name reads back as its own layout |
| FanWallOptions.CanonicalIdempotent | components/OptionsModalFanWall.tsx:43-49 | Canonicalising twice is canonicalising once |
| FanWallOptions.LowerOfUpper | components/OptionsModalFanWall.tsx:45 | Lower-casing an upper-cased text is lower-casing it |
| FanWallOptions.CanonicalIgnoresCase | components/OptionsModalFanWall.tsx:45 | The layout name is read without regard to case |
| FanWallOptions.InitialLocal | components/OptionsModalFanWall.tsx:63-88 | The position uses `\|\| 60` (a stored 0 becomes 60) while the brightness uses `?? 100` (a stored 0 stays 0). Colours, type, countdown (`\|\| 'none'`, never empty), auto delete and canonical layout take their defaults, and the preview is the built gradient when nothing is stored |
| FanWallOptions.Payload | components/OptionsModalFanWall.tsx:114-129 | Titles are trimmed or null; a `none` countdown is null and any other is kept; `countdown_active` is false; the layout is canonical; position and brightness are the sliders' |
| FanWallOptions.SaveAsWritten | components/OptionsModalFanWall.tsx:95-129 | As written, the saved background is the gradient rebuilt and brightened twice |
| FanWallOptions.Save | components/OptionsModalFanWall.tsx:95-129 | Corrected: a gradient is saved built once, any other background unchanged |
| FanWallOptions.SaveUnchanged | components/OptionsModalFanWall.tsx:63-129 | Opening and saving without changes writes the canonical layout, and an unset countdown as null |
| WheelOptions.Load | components/OptionsModalPrizeWheel.tsx:57-80 | Colours `#0d47a1`/`#1976d2`; position `?? 60` (0 stays 0); brightness `?? 100`; tile colours `\|\| '#ffffff'`; tile brightness `?? 100`; remote spin `?? false`; countdown `\|\| 'none'` |
| WheelOptions.Payload | components/OptionsModalPrizeWheel.tsx:171-196 | Titles are trimmed or null. The passphrase is kept only for a private wheel and never empty. A `none` countdown is null, otherwise its text. `countdown_active` is false, and the spin flag is a boolean |
| WheelOptions.SaveAsWritten | components/OptionsModalPrizeWheel.tsx:162-198 | As written, the saved background is the preview brightened once more |
| WheelOptions.Save | components/OptionsModalPrizeWheel.tsx:162-198 | Corrected: the saved background is the previewed one |
| WheelOptions.UploadImage | components/OptionsModalPrizeWheel.tsx:88-126 | No file does nothing. Only JPEG, PNG and WEBP are accepted. An accepted file becomes the image background |
| WheelOptions.UploadExtension | components/OptionsModalPrizeWheel.tsx:108-109 | An accepted file is stored under its MIME subtype as extension |
| WheelOptions.DeleteImage | components/OptionsModalPrizeWheel.tsx:138-157 | Deleting the image resets to the default gradient and changes nothing else |
| WheelOptions.DeletedImageSavedAsDefault | components/OptionsModalPrizeWheel.tsx:138-169 | After deleting the image, both saves store the default gradient unchanged |
| PollOptions.LabelToMinutes | components/OptionsModalPoll.tsx:64-68 | `none` in any case is no limit; otherwise the label's digits parsed, or 5 when there are none |
| PollOptions.MinutesToLabel | components/OptionsModalPoll.tsx:70-82 | Always a picker label; no value is `none`; an unlabelled count is `5 min` |
| PollOptions.MinuteLabel | components/OptionsModalPoll.tsx:52-61 | Each timed label is its minute count followed by ` min` |
| PollOptions.MinutesOfLabel | components/OptionsModalPoll.tsx:52-68 | Each timed label reads as its minute count |
| PollOptions.LabelOfMinutes | components/OptionsModalPoll.tsx:70-82 | Each labelled minute count prints as its label |
| PollOptions.NoneIsNone | components/OptionsModalPoll.tsx:65 | `none` reads as no limit |
| PollOptions.LabelRoundTrip | components/OptionsModalPoll.tsx:52-82 | Every picker label survives the trip to minutes and back |
| PollOptions.MinutesRoundTrip | components/OptionsModalPoll.tsx:52-82 | Every labelled minute count, and no limit, survives the trip to a label and back |
| PollOptions.SetAt | components/OptionsModalPoll.tsx:160-164 | Exactly index `i` changes |
| PollOptions.RemoveIndex | components/OptionsModalPoll.tsx:178-179 | An index on the list is removed; any other leaves the list |
| PollOptions.Apply | components/OptionsModalPoll.tsx:159-180 | Add is a no-op at 8 options and otherwise appends `''` with preset colour `len mod 8`. Remove is a no-op at 2 or fewer and otherwise removes the index from both lists |
| PollOptions.ApplyKeepsShape | components/OptionsModalPoll.tsx:159-180 | Every edit keeps one colour per option, never grows past 8, never shrinks below 2 |
| PollOptions.LoadEditor | components/OptionsModalPoll.tsx:132-133 | One option per stored row with its colour, or `PRESET_COLORS[0]`; none after a failed query |
| PollOptions.Initial | components/OptionsModalPoll.tsx:98-113 | The dialog starts empty, on the default gradient, countdown `none` and duration `5 min` |
| PollOptions.LoadPoll | components/OptionsModalPoll.tsx:123-154 | Texts come from the poll and the options. Without a poll row the background and timing stay. With one, they take the row's values with `\|\|`/`??` defaults, and the duration becomes a label |
| PollOptions.Filled | components/OptionsModalPoll.tsx:253 | Trimmed options with the blanks dropped; never longer than the options |
| PollOptions.ColourFor | components/OptionsModalPoll.tsx:307 | `colors[i] \|\| PRESET_COLORS[i % 8]` |
| PollOptions.RowsAsWritten | components/OptionsModalPoll.tsx:304-309 | As written, the `k`-th filled option gets the `k`-th colour, whatever its position in the editor |
| PollOptions.Tagged | components/OptionsModalPoll.tsx:253-307 | Each option paired with its own colour, index by index |
| PollOptions.Rows | components/OptionsModalPoll.tsx:304-309 | Corrected rows hold no blank text |
| PollOptions.RowsKeepColours | components/OptionsModalPoll.tsx:304-309 | Every filled option is saved with its own colour |
| PollOptions.RowTexts | components/OptionsModalPoll.tsx:253-306 | Both versions save exactly the filled options, in order |
| PollOptions.RowsAgreeWithoutBlanks | components/OptionsModalPoll.tsx:304-309 | Without blank options, both versions save the same rows |
| PollOptions.BlankOptionShiftsColours | components/OptionsModalPoll.tsx:253-309 | As written, a blank option in the middle gives the next option the blank one's colour; corrected, it keeps its own |
| PollOptions.SaveWith | components/OptionsModalPoll.tsx:251-309 | Save is refused exactly when the question is blank, or when fewer than two filled options remain. A save writes the untrimmed question, `countdown_active` false and status `inactive`. It broadcasts `countdown_active` as `countdown != 'none'` |
| PollOptions.SaveAsWritten | components/OptionsModalPoll.tsx:251-309 | As written, the saved background is brightened again and the rows take shifted colours |
| PollOptions.Save | components/OptionsModalPoll.tsx:251-309 | Corrected: the saved background is the preview and each row keeps its colour |
| PollOptions.SaveAccepts | components/OptionsModalPoll.tsx:252-254 | A save goes through exactly when the question is not blank and at least two options are filled, and then writes at least two rows |
| FanWallActions.Get | lib/actions/fan_walls.ts:20 | An absent key reads as `undefined` |
| FanWallActions.Spread | lib/actions/fan_walls.ts:18-21 | `{...under, ...over}` has the keys of both, `over` winning |
| FanWallActions.Broadcast | lib/actions/fan_walls.ts:16-33 | The payload goes out with `id` = `String(id).trim()` and every other field unchanged |
| FanWallActions.BroadcastStable | lib/actions/fan_walls.ts:18-21 | Re-sending a broadcast payload sends it unchanged |
| FanWallActions.NewWallFor | lib/actions/fan_walls.ts:40-53 | `title \|\| 'Untitled Fan Zone Wall'`; inactive; `singleHighlight`; no countdown, not active; default gradient |
| FanWallActions.WallObject | lib/actions/fan_walls.ts:40-65 | The new wall object carries its title and no `id` |
| FanWallActions.CreateFanWall | lib/actions/fan_walls.ts:38-72 | An insert error or no row fails; otherwise the row is returned and `wall_created` carries the new id and the wall |
| FanWallActions.CleanFields | lib/actions/fan_walls.ts:115-123 | Exactly the entries that are not `undefined`, `null` or `''` are kept, and no key is added. A `none` countdown becomes null, and every other kept value passes through unchanged |
| FanWallActions.CleanTwice | lib/actions/fan_walls.ts:115-123 | Cleaning the cleaned fields again drops exactly the null left by a `none` countdown |
| FanWallActions.StartedPayload | lib/actions/fan_walls.ts:139-143 | `{ id, countdown, countdown_active: true }` |
| FanWallActions.UpdateSettings | lib/actions/fan_walls.ts:100-151 | A query error fails and sends nothing. On success the cleaned fields are written. `wall_updated` carries them with the wall id, trimmed. A second message, if any, is `countdown_started` with `countdown_active` true |
| FanWallActions.CleanedTruthy | lib/actions/fan_walls.ts:117-120 | After cleaning, `countdown_active` is as truthy as before, and the countdown is truthy exactly when it was truthy and not `none` |
| FanWallActions.CountdownStartedIff | lib/actions/fan_walls.ts:138-144 | `countdown_started` is sent exactly when the update carries a truthy `countdown_active` and a truthy countdown other than `none` |
| FanWallActions.CountdownStartedCarries | lib/actions/fan_walls.ts:138-144 | `countdown_started` carries the update's countdown |
| FanWallActions.StatusPayload | lib/actions/fan_walls.ts:203 | `{ id, status }` |
| FanWallActions.ToggleStatus | lib/actions/fan_walls.ts:190-214 | The status is `live` exactly for `makeLive`; an error sends nothing; otherwise `wall_status_changed` goes first |
| FanWallActions.CountdownFinishedIff | lib/actions/fan_walls.ts:205-210 | `countdown_finished` is sent exactly when a wall goes live without an error |
| FanWallActions.DeleteFanWall | lib/actions/fan_walls.ts:156-167 | `wall_deleted` with the id is sent exactly when the delete reports no error |
| PollActions.NewPollFor | lib/actions/polls.ts:13-22 | `question \|\| 'Untitled Poll'`; inactive; horizontal; default gradient |
| PollActions.OptionRows | lib/actions/polls.ts:52-59 | One row per trimmed, non-blank option, in order, with the poll id and 0 votes |
| PollActions.CreatePoll | lib/actions/polls.ts:9-75 | A failed insert returns null and does nothing else. Otherwise the QR URL is the fixed origin + `/polls/` + id. Options are inserted exactly when at least two remain after cleaning. The updated row is returned if present, else the created one |
| PollActions.FilledTrimmed | lib/actions/polls.ts:52-54 | Every cleaned option is trimmed and not blank |
| PollActions.InsertedTexts | lib/actions/polls.ts:52-59 | The inserted texts are the cleaned options, in order |
| Countdown.Seconds | app/wall/components/wall/layouts/InactiveWall.tsx:13-18 | A label naming neither minutes nor seconds is 0 seconds; `NaN` comes only from an unreadable number |
| Countdown.LabelSeconds | app/wall/components/wall/layouts/InactiveWall.tsx:14-18 | `n` followed by a unit reads as `n * 60` for minutes, `n` for seconds, and 0 otherwise |
| Countdown.Initial | app/wall/components/wall/layouts/InactiveWall.tsx:9-10 | The clock starts at 0 with the given active flag |
| Countdown.Reset | app/wall/components/wall/layouts/InactiveWall.tsx:12-22 | An empty label leaves the clock; any other restarts it from the label's seconds with the new flag |
| Countdown.Tick | app/wall/components/wall/layouts/InactiveWall.tsx:24-28 | Without a running interval nothing changes. A running clock drops by exactly one, or to 0 from `NaN`. It never goes negative and never rises |
| Countdown.TicksCountDown | app/wall/components/wall/layouts/InactiveWall.tsx:24-28 | From `t` seconds, `k` ticks leave `max(t - k, 0)`, still active |
| Countdown.TicksInactive | app/wall/components/wall/layouts/InactiveWall.tsx:25 | An inactive clock never moves |
| Countdown.JsRem | app/wall/components/wall/layouts/InactiveWall.tsx:32 | JavaScript `%`: the usual remainder for non-negative numbers, always smaller than the divisor in size |
| Countdown.Shown | app/wall/components/wall/layouts/InactiveWall.tsx:30-43 | Nothing is shown exactly for an empty or `none` label; otherwise the face of the time left |
| Countdown.TwoDigits | app/wall/components/wall/layouts/InactiveWall.tsx:43 | A seconds value below 60 pads to two digits that read back as itself |
| Countdown.FaceReadsBack | app/wall/components/wall/layouts/InactiveWall.tsx:31-43 | For a non-negative time the face is `m:ss`: two digits below 60 after the colon, and `m * 60 + ss` is the time |
| FanInactiveWall.Apply | app/wall/components/wall/layouts/InactiveWall.tsx:100 | `{...prev, ...data}` takes each field the patch sets |
| FanInactiveWall.Merge | app/wall/components/wall/layouts/InactiveWall.tsx:98-101 | Applying a merged patch is applying the two in turn |
| FanInactiveWall.Load | app/wall/components/wall/layouts/InactiveWall.tsx:76-92 | Countdown and title default to `''`, the flag to `!!`. An image background prints its URL (or `null`). Any other background takes its value or the default gradient. The brightness is the row's |
| FanInactiveWall.QueueAsWritten | app/wall/components/wall/layouts/InactiveWall.tsx:98-101 | As written, a new patch replaces the one still waiting |
| FanInactiveWall.Queue | app/wall/components/wall/layouts/InactiveWall.tsx:98-101 | Corrected: the waiting patch and the new one apply in turn |
| FanInactiveWall.Handle | app/wall/components/wall/layouts/InactiveWall.tsx:103-123 | Broadcasts for another wall id change nothing; no broadcast changes the state before the timer fires |
| FanInactiveWall.ReceiveAsWritten | app/wall/components/wall/layouts/InactiveWall.tsx:103-123 | The listener as written ignores other walls and only schedules |
| FanInactiveWall.Receive | app/wall/components/wall/layouts/InactiveWall.tsx:103-123 | `countdown_finished` schedules the flag off. A status change schedules the flag only when the payload has one, and otherwise changes nothing |
| FanInactiveWall.Fire | app/wall/components/wall/layouts/InactiveWall.tsx:100 | The timer applies the waiting patch and clears it |
| FanInactiveWall.Heading | app/wall/components/wall/layouts/InactiveWall.tsx:177 | The title, or `Fan Zone Wall` when empty; never empty |
| FanInactiveWall.UpdateShowsBoth | app/wall/components/wall/layouts/InactiveWall.tsx:105-117 | Corrected: a `wall_updated` with a title and a countdown shows both once the timer fires |
| FanInactiveWall.UpdateLosesTitleAsWritten | app/wall/components/wall/layouts/InactiveWall.tsx:98-116 | As written, the countdown's schedule cancels the title's: the countdown arrives, the old title stays |
| FanInactiveWall.FinishedStopsClock | app/wall/components/wall/layouts/InactiveWall.tsx:103-123 | `countdown_finished` turns the flag off once the timer fires, and the clock restarted by it never moves again |
| WheelInactiveWall.Settle | app/prizewheel/components/wall/InactiveWall.tsx:37-57 | An active clock at 0 turns off and writes `countdown_active=false, countdown='none', status='live'`; any other clock is left and writes nothing |
| WheelInactiveWall.Step | app/prizewheel/components/wall/InactiveWall.tsx:13-57 | Every event ends settled; a second on a stopped clock does nothing |
| WheelInactiveWall.CountdownGoesLiveOnce | app/prizewheel/components/wall/InactiveWall.tsx:27-57 | Counting down from `t > 0` writes exactly one go-live update, at second `t`, and the clock is off from then on |
| WheelInactiveWall.StoppedStays | app/prizewheel/components/wall/InactiveWall.tsx:28-38 | A stopped clock writes nothing and does not move |
| WheelInactiveWall.Heading | app/prizewheel/components/wall/InactiveWall.tsx:95-98 | `title`, else `host_title`, else `Prize Wheel`; never empty |
| WheelInactiveWall.Load | app/prizewheel/components/wall/InactiveWall.tsx:111-129 | Countdown defaults to `''`, the flag to `!!`. An image background prints its URL (or `null`). Any other background takes its value or the default gradient. The brightness is the row's |
| WheelInactiveWall.Receive | app/prizewheel/components/wall/InactiveWall.tsx:145-173 | Other wheel ids change nothing. `prizewheel_countdown_finished` schedules the flag off. A status schedules the flag only when the payload has one. An update schedules a truthy countdown |
| WheelInactiveWall.Fire | app/prizewheel/components/wall/InactiveWall.tsx:139-142 | The timer applies the waiting patch and clears it |
| WheelInactiveWall.FinishedStopsClock | app/prizewheel/components/wall/InactiveWall.tsx:137-173 | `prizewheel_countdown_finished` turns the flag off once the timer fires, and the clock fed the new props stops and writes nothing more |
| WheelTiles.Truthy | app/prizewheel/components/wall/ActiveWallbackup.tsx:54-55 | `x \|\| null` keeps exactly the non-empty values |
| WheelTiles.Clean | app/prizewheel/components/wall/ActiveWallbackup.tsx:53-56 | A photo only when it is not blank (kept untrimmed). Names come from the entry, else from the guest profile, else null. A kept name is never empty |
| WheelTiles.Normalize | app/prizewheel/components/wall/ActiveWallbackup.tsx:47-58 | Not a list gives `[]`; every kept entry is an approved entry, cleaned |
| WheelTiles.NormalizeConcat | app/prizewheel/components/wall/ActiveWallbackup.tsx:50-57 | Normalizing works entry by entry, in order |
| WheelTiles.NormalizeOne | app/prizewheel/components/wall/ActiveWallbackup.tsx:50-57 | A single entry is kept, cleaned, exactly when it is approved |
| WheelTiles.Shuffle | app/prizewheel/components/wall/ActiveWallbackup.tsx:63-70 | The shuffle returns a permutation of its input |
| WheelTiles.NameLabel | app/prizewheel/components/wall/ActiveWallbackup.tsx:100-105 | Empty exactly without a first name. Otherwise it is the first name, a space, the last name's upper-cased initial when there is one, and a dot |
| WheelTiles.FaceOf | app/prizewheel/components/wall/ActiveWallbackup.tsx:90-105 | A photo shows as the cover background with no text; otherwise a dark holder reading `IMG` |
| WheelTiles.TileFaces | app/prizewheel/components/wall/ActiveWallbackup.tsx:83-84 | Tile `i` shows `selected[i mod n]` |
| WheelTiles.Assign | app/prizewheel/components/wall/ActiveWallbackup.tsx:72-106 | No entries is a no-op. The selection is made once, with `min(16, n)` entries drawn from the list, and reused after. Every tile is filled from it |
| WheelTiles.SelectedApproved | app/prizewheel/components/wall/ActiveWallbackup.tsx:47-79 | A selection holds only approved entries of the list, cleaned |
| WheelTiles.PaletteFor | app/prizewheel/components/wall/ActiveWallbackup.tsx:39-42 | Tile colours `\|\| '#ffffff'`, brightness `?? 100` |
| WheelTiles.CardFor | app/prizewheel/components/wall/ActiveWallbackup.tsx:302-304 | Even tiles take colour and brightness A, odd tiles B |
| WheelModal.Heads | components/PrizeWheelModal.tsx:218-220 | One character at most per word |
| WheelModal.InitialsOf | components/PrizeWheelModal.tsx:216-221 | Never empty. A missing name, or words without first characters, give `--`. Otherwise the upper-cased word heads |
| WheelModal.InitialsOfWords | components/PrizeWheelModal.tsx:216-221 | For space-joined non-empty words, the initials are each word's first character upper-cased, one per word |
| WheelModal.HeadsOfWords | components/PrizeWheelModal.tsx:219-220 | The heads of non-empty words are their first characters, in order |
| WheelModal.ContentFor | components/PrizeWheelModal.tsx:183-221 | A photo wins over initials; no entry shows `--` |
| WheelModal.Tiles | components/PrizeWheelModal.tsx:179-195 | Exactly 16 tiles. Tile `i` has the A/B card of its parity and shows entry `i` or `--`. A non-list counts as empty and entries past 16 are unused |
| Moderation.SetStatus | components/ModerationModal.tsx:65-67 | Exactly the posts with the id take the new status; the others are unchanged |
| Moderation.Approve | components/ModerationModal.tsx:62-67 | The pending and rejected columns lose the post; the approved column gains it |
| Moderation.Reject | components/ModerationModal.tsx:79-84 | The pending and approved columns lose the post; the rejected column gains it |
| Moderation.Delete | components/ModerationModal.tsx:96-99 | Exactly the posts with another id stay |
| Moderation.DeleteKeepsOrder | components/ModerationModal.tsx:96-99 | The posts that stay keep their order: deleting from two lists joined is deleting from each, and one post stays exactly when its id differs |
| Moderation.SetStatusLeavesOtherLists | components/ModerationModal.tsx:146-148 | Every other column is its old self without the post |
| Moderation.SetStatusJoinsList | components/ModerationModal.tsx:146-148 | The post joins the column of its new status |
| Moderation.Sorted | components/ModerationModal.tsx:146-148 | Each column holds exactly the posts of its status |
| Moderation.ColumnsPartition | components/ModerationModal.tsx:146-148 | The columns are disjoint and together hold every listed post |
| Moderation.Load | components/ModerationModal.tsx:48-59 | A failed load keeps the posts |
| Moderation.ApplyAsWritten | components/ModerationModal.tsx:126-139 | INSERT and UPDATE as the shared reducer; DELETE filters by the empty new row |
| Moderation.RealtimeDeleteIgnoredAsWritten | components/ModerationModal.tsx:127-138 | As written, a realtime DELETE leaves the list unchanged, even when the post is on it |
| Moderation.Apply | components/ModerationModal.tsx:126-139 | Corrected: DELETE is exactly the removal of the old row's id, INSERT prepends, UPDATE is exactly the in-place replacement of the row with the same id |
| PollsPanel.Load | app/admin/dashboard/components/PollsPanel.tsx:20-30 | No data gives an empty list |
| PollsPanel.Receive | app/admin/dashboard/components/PollsPanel.tsx:53-62 | INSERT prepends. UPDATE replaces the matching polls and leaves the others. DELETE removes exactly the polls with the old row's id |
| PollsPanel.Delete | app/admin/dashboard/components/PollsPanel.tsx:86-87 | The local delete removes exactly the polls with the id |
| PollsPanel.DeleteKeepsOrder | app/admin/dashboard/components/PollsPanel.tsx:86-87 | The polls that stay keep their order: deleting from two lists joined is deleting from each, and one poll stays exactly when its id differs |
| PollsPanel.DeleteThenEcho | app/admin/dashboard/components/PollsPanel.tsx:60-87 | The realtime echo of a local delete changes nothing |
| TriviaGrid.Clean | app/admin/dashboard/components/TriviaGrid.tsx:29-36 | Not a list gives `[]`; exactly the non-null cards with a truthy id are kept |
| TriviaGrid.CleanConcat | app/admin/dashboard/components/TriviaGrid.tsx:31 | Cleaning works card by card, in order |
| TriviaGrid.CleanOne | app/admin/dashboard/components/TriviaGrid.tsx:31 | One card is kept exactly when it is non-null with an id |
| TriviaGrid.Delete | app/admin/dashboard/components/TriviaGrid.tsx:66-67 | Exactly the cards with another id stay |
| TriviaGrid.DeleteKeepsOrder | app/admin/dashboard/components/TriviaGrid.tsx:66-67 | The cards that stay keep their order: deleting from two lists joined is deleting from each, and one card stays exactly when it is not one with that id |
| Theme.GuestTheme | components/ClientThemeWrapper.tsx:15-25 | A null pathname is not a guest route; a path is one exactly when it contains `/guest`, `/post` or `/submit` |
| Theme.GuestSegmentAnywhere | components/ClientThemeWrapper.tsx:17-19 | Any path with one of the three segments anywhere is a guest route |
| Theme.NoSlashNotGuest | components/ClientThemeWrapper.tsx:15-21 | A path without `/` is not a guest route |
| AdOverlay.Polls | app/wall/components/AdOverlay.tsx:85-100 | A run of polls never undoes rotations |
| Gradient.ContainsGradient | components/OptionsModalFanWall.tsx:15-30 | A built gradient passes the `includes('linear-gradient')` guard |
| Gradient.TemplateAlphaOut | components/OptionsModalFanWall.tsx:20-36 | The template's alphas `cc` and `99` are read and replaced by 204 and 153 scaled |
| StableSort.Sort | hooks/useAdInjector.ts:83-90 | The sort returns a permutation of its input, ordered by rank |
| StableSort.SortStable | hooks/useAdInjector.ts:83-90 | Elements of equal rank keep their input order |
| StableSort.SortOfSorted | hooks/useAdInjector.ts:83-90 | An already ordered list is returned unchanged |
| JsText.ParseIntOfNumeral | app/wall/components/wall/layouts/InactiveWall.tsx:15 | `parseInt` of a printed natural number gives the number back |
| JsText.TrimOrNull | components/OptionsModalFanWall.tsx:115-116 | `x?.trim() \|\| null` is null exactly for a missing or all-space text, else the trimmed text |
| JsText.NoneToNull | components/OptionsModalFanWall.tsx:120 | `x === "none" ? null : x` |
| JsText.PadStart2 | app/wall/components/wall/layouts/InactiveWall.tsx:43 | `padStart(2, '0')` keeps texts of two or more characters and left-pads shorter ones to exactly two, the text at the end |
| JsText.LastPiece | components/AdsManagerModal.tsx:144 | The last piece of `split(c)` ends the text, with `c` just before it unless it is the whole text; a single piece is the whole text |
| Rows.RemoveId | app/admin/dashboard/components/PollsPanel.tsx:60-61 | `filter(p => p.id !== id)` keeps exactly the rows with another id |
| Rows.ReplaceId | app/admin/dashboard/components/PollsPanel.tsx:56-59 | `map(p => p.id === n.id ? n : p)` replaces exactly the rows with the new row's id, in place |
| Rows.ReplaceKeepsIds | components/ModerationModal.tsx:132-135 | An UPDATE keeps the list's ids in order |
| Rows.ApplyEffect | app/admin/dashboard/components/PollsPanel.tsx:53-62 | After a DELETE no row has the old id; an INSERT puts the new row first; an UPDATE keeps the ids |
| Rows.RemoveConcat | app/admin/dashboard/components/PollsPanel.tsx:60-61 | Removing an id works part by part |
| Rows.RemoveAbsent | app/admin/dashboard/components/PollsPanel.tsx:60-61 | Removing an id that is not listed changes nothing |
| PollOptions.FilledSkipsBlank | components/OptionsModalPoll.tsx:253 | A blank middle option is dropped from the filled list |
| PollOptions.AsWrittenShifts | components/OptionsModalPoll.tsx:304-309 | As written, the option after a blank one is saved with the blank one's colour |
| PollOptions.RowsSkipBlank | components/OptionsModalPoll.tsx:304-309 | Corrected, the options around a blank one keep their own colours |
| SlideAds.AdAt | hooks/useAdInjector.ts:203 | The ad at an index, or none past the end |
| JsCore.IntOr | components/OptionsModalFanWall.tsx:63 | `x \|\| d` on a number: 0 and missing give the default |

## Design notes

- **Interleaving `AdOverlay`:** `app/wall/components/AdOverlay.tsx` is the interleaving
  component. The file `app/wall/components/wall/AdOverlay.tsx`, a transition table, is
  not part of this model.
- **Sorting:** JavaScript's sort is stable and both comparators are total preorders, so
  the sort is modelled as a stable insertion sort keyed by a rank.
- **Effects and events:** React effects re-run when one of their dependencies changes,
  and an event is committed by re-running the effects whose dependencies differ. Timers
  are explicit events: `IntervalFired`, `HideTimerFired`, `Fire`, `DisplayEnded`,
  `Second`.
- **Values, not mutation:** arrays are values, so "does not mutate its input" (`arrayMove`,
  `shuffleArray`) holds by construction.
- **Randomness:** `Math.random()` is the `draw` parameter of `WheelTiles.Shuffle`; only
  the permutation is claimed.
- **Failed pool fetch:** in `useAdInjector` a failed fetch clears the pool (`|| []`);
  the old pool is not kept.
- **Rotation counter:** the rotation counter is not reset on a mode change; it keeps its
  count across `rotation`, `slideshow` and `takeover`.
- **Unreadable alphas:** `applyBrightnessToGradient` matches `\w`, not hex digits. An
  alpha `parseInt` cannot read prints `NaN`, and the model keeps that output instead of
  excluding such inputs. The `alpha ? … : 255` branch cannot be taken, because the regex
  always captures two characters.
- **Poll save:** the question is saved untrimmed. The `poll_update` broadcast announces
  `countdown_active: countdown != 'none'` while the row stores `false`.
- **Fan wall broadcasts:** the fan waiting screen has no handler for `countdown_started`.
  The `wall_status_changed` payload sent by `toggleFanWallStatus` has no
  `countdown_active`, so that handler never schedules anything for it.
- **Wheel debounce:** the wheel's waiting screen uses the same replacing debounce.
  Each of its events schedules one patch, so a patch is lost only when two events arrive
  within 100 ms. That timing is not modelled.
- **Brightness defaults:** both waiting screens start the brightness with `|| 100`. The
  load effect then always overrides it, because a row always has the column.
- **Negative countdowns:** a countdown label such as `-5 Minutes` shows through
  JavaScript's truncating `%`, as `Countdown.JsRem` models it.

## Left out

- Database, storage and realtime I/O. Query results, change notifications and broadcasts
  are inputs (`None` for no data); sending and the toasts are not modelled.
- Clock values (`Date.now`, `new Date().toISOString()`) are parameters; timer durations
  only order events.
- Three-dimensional rendering, spin easing and float timing in the wheel components, and
  image compression and object-URL previews, because they are floating point or browser
  work.
- `getFanWallsByHost`, `clearFanWallPosts`, `getPollsByHost`, `deletePoll` and `clearPoll`,
  because they are single queries with no logic beyond returning the result.
- `PollsPanel` `delayedRefresh` and the `TriviaGrid` realtime refresh, because they only
  re-query.
- `WheelTiles.Assign`: the tiles are the given `tiles` count; which DOM wrappers exist is
  not modelled.
- `PollActions.CreatePoll`: a `null` options value throwing inside `createPoll` is taken as
  no options.
- `WheelTiles.Shuffle`: states only that the result is a permutation, not which one a
  given `draw` produces.
- `AdOverlay.Wait`, `AdOverlay.Poll` and `AdOverlay.Polls`: their contracts state only
  that rotations never go back (and, for `Wait`, that the pool is kept); the index and
  timer behaviour is stated by `FiresVisit`, `WaitKeeps`, `CorrectedNeverCrashes`,
  `SteadyPollCountsDown` and `CorrectedRotates`.
- `Gradient.Scale`: rounds the exact fraction. JavaScript divides the brightness by 100 in
  floating point first, so some halves round down there (alpha 50 at brightness 29 gives
  14 in JavaScript and 15 here).
- `JsText.Lower`, `JsText.Upper`, `JsText.ToLower` and `JsText.ToUpper`: map the ASCII
  letters only. `toLowerCase`/`toUpperCase` also map other Unicode letters, so layout
  names, initials and poll text outside ASCII are not covered.
- `WheelTiles.NameLabel` and `WheelModal.InitialsOf`: a string here is a sequence of
  Unicode scalar values, so the first character of a name is a whole character. `charAt(0)`
  and `c[0]` take one UTF-16 code unit, so a name starting with an astral character such
  as `𝒜my` gives a lone surrogate in JavaScript. The initial is upper-cased for ASCII
  letters only, as above.
- `Countdown.Seconds` and `JsText.ParseIntJs`: read leading decimal digits only. Without a
  radix, `parseInt` also reads a `0x`/`0X` prefix as hexadecimal (`0x10 Minutes` is 960
  seconds in JavaScript, 0 here), and a numeral too long for a double is `Infinity` there
  and an exact integer here. The countdown pickers never produce such labels.
- Numbers (`JsCore.Num`) are whole numbers or `NaN`; fractions and infinities are not
  modelled. A fractional `duration_seconds` such as 2.5 (2500 ms in JavaScript) cannot be
  stated, so `AdOverlay.DelayMs` and the interval readers cover whole numbers only.

## Findings

| source | as written | input that shows it | evidently intended | confidence | as-written member | corrected member |
|---|---|---|---|---|---|---|
| hooks/useAdInjector.ts:142-166 | the slideshow effect runs after the takeover effect and calls `hideAndClear` whenever the mode is not slideshow | mode `takeover`, injector on, one or more ads | takeover keeps the ad up with its advancing interval | not executed; high | AdInjector.TakeoverHiddenOnLoadAsWritten | AdInjector.TakeoverArmsOnLoad |
| app/wall/components/AdOverlay.tsx:53-112 | a fetch replaces the pool without touching `currentIndex`, then `ads[currentIndex]` is dereferenced | showing ad 3 of 3, a poll returns 2 ads | the index moves back onto the pool | not executed; high | AdOverlay.ShrinkingPoolCrashesAsWritten | AdOverlay.CorrectedNeverCrashes |
| app/wall/components/AdOverlay.tsx:76-100 | every 8 s poll replaces `ads` by a new array, re-running `rotate()`, which restarts the timer | an ad with `duration_seconds` 10 and unchanged polls | the timer runs out and the overlay moves on | not executed; medium | AdOverlay.LongAdStuckAsWritten | AdOverlay.CorrectedRotates |
| app/wall/components/wall/layouts/InactiveWall.tsx:98-116 | `scheduleUpdate` clears the pending timer, so the countdown's update cancels the title's | `wall_updated` with a new title and a countdown | both fields applied | not executed; high | FanInactiveWall.UpdateLosesTitleAsWritten | FanInactiveWall.UpdateShowsBoth |
| components/OptionsModalFanWall.tsx:101-112 | the saved gradient has the brightness applied twice; the wheel and poll dialogs brighten the already-brightened preview | a gradient at brightness 50 | the saved gradient equals the preview | not executed; high | Backdrop.HalfBrightnessSavedDarker | Backdrop.SavedMatchesPreview |
| components/OptionsModalPoll.tsx:253-309 | colours are indexed by position among the filled options, not by the option's own index | options `A`, blank, `C` with colours c0, c1, c2 | `C` saved with c2 | not executed; high | PollOptions.BlankOptionShiftsColours | PollOptions.RowsKeepColours |
| components/ModerationModal.tsx:127-138 | a realtime DELETE filters by `payload.new.id`, which is empty for a delete | a post deleted from another session | the post removed by `payload.old.id`, as PollsPanel.tsx:60-61 does | not executed; high | Moderation.RealtimeDeleteIgnoredAsWritten | Moderation.Apply |
