# fluorescent switch-session core, modelled in Dafny

fluorescent is a macOS Command-Tab replacement. This project models its
algorithmic core and proves properties of the model:

- **MRU tracker** (`recency.dfy`, module `Recency`). The class `MRU`
  holds the bundle identifiers of the applications, most recently used
  first. `push` moves an id to the front. `seedInOrder` rebuilds the list
  from a sequence of apps, keeping each id at its first occurrence, and
  then pins the frontmost app's id to index 0.
- **Candidate ordering and seeding** (`ordering.dfy`, module `Ordering`).
  - `orderedAppsForOverlay` lists the running MRU apps first, then the
    other regular apps, with no bundle id twice.
  - `zOrderedRegularApps` lists the regular owners of the on-screen
    windows, front to back, each pid once.
  - `seedMRUIfNeeded` seeds an empty list from the z-order. When the
    z-order is empty or cannot be read, it seeds from the regular
    running apps with the frontmost app first.
- **Session state machine** (`session.dfy`, module `Session`). A pure
  transition function `HandleKey` covers one event of the keyboard tap:
  - the new state (`commandDown`, `switching`, the two tap-installed
    flags, the MRU list and the overlay's selection);
  - whether the event passes or is swallowed;
  - the app activated, if any.

  `MouseDecision` is the mouse tap's pass/suppress rule. `Tapped` is a tap
  on a tile. `AppActivated` is the activation observer. `Polled` is one
  permission poll. The class `AppDelegate` holds the same state in
  fields, in an `MRU` object and in an `Overlay` object. Each of its
  methods is proved to move `Abs()` exactly as the transition functions
  do. A ghost field `activated` records every app the delegate
  activates.
- **Overlay selection** (`overlaystate.dfy`, module `OverlayState`). The
  class `Overlay` holds `items` and `index`. It has `reload`,
  `moveForward`, `moveBackward`, `jump`, `current` and the tile-tap
  closure. The value `Selection` and its functions are their
  specification.
- **Grid planner** (`layout.dfy`, module `Layout`). `computeLayout` tries
  every row count from 1 to n. The row count giving the largest clamped
  icon wins; on a tie, the smaller row count wins. The file also has the
  `r * cols + c` mapping from grid cells to items. `CGFloat` is modelled
  on exact reals, with `.Floor`.
- **Shared values** (`apps.dfy`, module `Apps`). This file defines the
  `RunningApp` record, with a pid, an optional bundle id and whether its
  activation policy is regular. It also defines the sequence operations
  the source uses:
  - dedup by first occurrence;
  - `removeAll(where:)`;
  - `firstIndex`;
  - move-to-front.

The model follows the code where the code and the intended behaviour
disagree. The digit keys 1 to 9 are evidently meant to jump to that
candidate. The code instead tests the numeric range from `kVK_ANSI_1`
(0x12) to `kVK_ANSI_9` (0x19) (main.swift:306). Carbon's key codes for the
digits are not contiguous. That range holds 1 to 6, 9 and `=` (0x18),
while 7 (0x1A) and 8 (0x1C) lie outside it. The model uses the same
numeric range as the code. For those codes the code calls
`jump(keyCode - kVK_ANSI_0)`, and `kVK_ANSI_0` is 0x1D. The argument is
therefore always negative, and `jump` ignores it. With three apps A, B, C
and the MRU list [B, C], the "3" key leaves the selection on C, and
releasing Command activates C, not A. `Session.DigitKeysNeverJump` and
`Session.ThreeAppSession` state exactly this.

## Model

| member | source | states |
|---|---|---|
| Apps.FirstIndex | main.swift:393 | `firstIndex(of:)`: the index holds `x`, and no earlier index does |
| Apps.DedupFirst | main.swift:387-391 | the seen-set loop's output has no duplicates and is no longer than its input |
| Apps.DedupFirstMembers | main.swift:387-391 | deduplication keeps exactly the elements of its input |
| Apps.DedupFirstOrder | main.swift:186-190 | deduplicated elements come from the input, in the order of their first occurrences |
| Apps.DedupFirstOfNoDups | main.swift:387-391 | deduplicating a duplicate-free list changes nothing |
| Apps.DedupFirstPrefix | main.swift:196-202 | with one seen set over two loops, the first loop's output is a prefix of the whole output |
| Apps.BundleIds | main.swift:389 | the non-nil bundle ids of the apps, in order: no more ids than apps |
| Apps.Without | main.swift:382 | `removeAll { $0 == id }` leaves no `id` and does not grow the list |
| Apps.WithoutMembers | main.swift:382 | removing `id` keeps every other element |
| Apps.WithoutIdempotent | main.swift:382 | removing the same id twice is removing it once |
| Apps.WithoutNoDups | main.swift:382 | removal keeps a list duplicate-free |
| Apps.WithoutSingle | main.swift:393-394 | on a duplicate-free list, removing all copies is `remove(at: firstIndex)` |
| Apps.MoveToFront | main.swift:177 | `remove(at:)` then `insert(_, at: 0)`: same length, the chosen element first |
| Apps.MoveToFrontPerm | main.swift:177 | move-to-front is a permutation (equal multisets) |
| Apps.MoveToFrontNoDups | main.swift:394 | move-to-front keeps a list duplicate-free |
| Apps.BundleIdsMembers | main.swift:389 | an id is among the non-nil bundle ids exactly when some app carries it |
| Apps.Regular | main.swift:195 | `filter { $0.activationPolicy == .regular }` does not grow the list |
| Apps.RegularMembers | main.swift:174 | the filter keeps exactly the regular apps |
| Apps.FirstWithId | main.swift:198 | `first(where:)` finds an app exactly when one carries the id, and that app carries it |
| Apps.FirstWithIdIsFirst | main.swift:198 | the app `first(where:)` returns is the first carrying the id: no app before it does |
| Apps.ByPid | main.swift:185 | a lookup by pid returns a running app with that pid |
| Apps.ByPidNone | main.swift:189 | the lookup fails exactly when no app has the pid |
| Apps.IndexOfPid | main.swift:176 | `firstIndex(where:)`: the index found holds an app with the frontmost pid, and no earlier index does |
| Apps.IndexOfPidNone | main.swift:176 | no index is found exactly when no app has the pid |
| Recency.PushMovesToFront | main.swift:380-384 | after `push`, the id is at index 0 exactly once; removing it leaves the old list minus the id, so the other ids keep their relative order; the members are the old ones plus the id |
| Recency.Push | main.swift:382-383 | `removeAll` then `insert(id, at: 0)`: the id at index 0 and nowhere after it |
| Recency.PushApp | main.swift:380-384 | an app with no bundle id leaves the list unchanged; otherwise its id heads the list |
| Recency.PinFront | main.swift:392-395 | the re-pin keeps the length, puts `front` at index 0 when it is in the list, and otherwise changes nothing |
| Recency.SeedList | main.swift:386-396 | the list `seedInOrder` builds has no more ids than apps (its members and their order are in `SeedListSpec`) |
| Recency.PushIdempotent | main.swift:380-384 | pushing an id twice equals pushing it once |
| Recency.PushKeepsNoDups | main.swift:380-384 | `push` keeps the list duplicate-free |
| Recency.PushAppIdempotent | main.swift:381 | an app with no bundle id leaves the list unchanged; pushing the same app twice equals pushing it once |
| Recency.PinFrontIsPush | main.swift:392-395 | on a duplicate-free list holding the id, the re-pin equals a push |
| Recency.SeedListSpec | main.swift:386-396 | the seeded list is duplicate-free and holds exactly the non-nil bundle ids of the apps; when an app carries the frontmost id, that id is at index 0 and the other ids follow in first-occurrence order; otherwise the list is the plain first-occurrence order |
| Recency.PinFrontMembers | main.swift:392-395 | pinning keeps exactly the same ids |
| Recency.SeedListFixpoint | main.swift:386-396 | the seeded list is unchanged by deduplication and by the re-pin, so seeding twice with the same input gives the same list |
| Recency.SeedStep | main.swift:388-391 | one iteration appends the app's id exactly when it is non-nil and not yet seen |
| Recency.SeedLoopStep | main.swift:387-391 | each iteration keeps `seen` equal to the list's members, and keeps the list equal to the first-occurrence ids so far |
| Recency.PinFrontCut | main.swift:393-394 | a bridge lemma that unfolds `PinFront` and `MoveToFront` for `PinToFront`: the re-pin is `remove(at: firstIndex)` then `insert(_, at: 0)`, and does nothing when `front` is not in the list |
| Recency.MRU.constructor | main.swift:376 | the list starts empty |
| Recency.MRU.IsEmpty | main.swift:377 | `isEmpty` holds exactly when the list is empty |
| Recency.MRU.Ids | main.swift:378 | `ids` is a snapshot equal to the list, most recent first |
| Recency.MRU.Push | main.swift:380-384 | the new list is the move-to-front of the app's id, or the old list for an app without an id |
| Recency.MRU.SeedInOrder | main.swift:386-396 | the new list is `SeedList(apps, front)`, whatever the old one was |
| Recency.MRU.PinToFront | main.swift:392-395 | the new list is the old one with `front` pinned |
| Ordering.RunningIds | main.swift:197-198 | the MRU ids that some regular app carries: no more than the MRU ids |
| Ordering.RunningIdsMembers | main.swift:197-198 | an MRU id is kept exactly when some regular app carries it; MRU ids that are not running are skipped |
| Ordering.RunningIdsNoDups | main.swift:197-198 | a duplicate-free MRU list yields duplicate-free running ids |
| Ordering.CandidateIds | main.swift:196-202 | the candidate ids, running MRU ids then the other regular apps' ids, hold no id twice |
| Ordering.Lookup | main.swift:198 | the apps found by `first(where:)` for the ids: at most one per id, each from the searched list |
| Ordering.Candidates | main.swift:194-204 | every candidate `orderedAppsForOverlay` returns is a regular running app |
| Ordering.CandidateIdsInAll | main.swift:194-204 | every candidate id belongs to a regular running app |
| Ordering.CandidatesAt | main.swift:194-204 | candidate k is a regular running app whose bundle id is candidate id k |
| Ordering.CandidateFor | main.swift:200-202 | a regular running app with a bundle id has a candidate with that id |
| Ordering.CandidatesMruFirst | main.swift:197-199 | the running MRU ids come first, in MRU order; for a duplicate-free MRU list none is dropped |
| Ordering.CandidatesDistinct | main.swift:196-202 | no two candidates share a bundle id |
| Ordering.CandidatesComplete | main.swift:200-202 | every bundle id of a regular running app appears among the candidates |
| Ordering.FirstWithIdAt | main.swift:200-201 | an app whose id is not seen earlier in the list is the one `first(where:)` finds |
| Ordering.MruLoopStep | main.swift:197-199 | each turn of the MRU loop keeps `result` and `seen` in step with the running MRU ids so far |
| Ordering.AppLoopStep | main.swift:200-202 | each turn of the app loop keeps `result` and `seen` in step with the ids so far |
| Ordering.OrderedAppsForOverlay | main.swift:194-204 | the returned list is `Candidates(mru, running)` |
| Ordering.Owners | main.swift:187-189 | the owners of the pids: at most one per pid, all regular |
| Ordering.ZOrder | main.swift:182-192 | `zOrderedRegularApps` yields at most one app per window |
| Ordering.OwnersIn | main.swift:187-189 | every owner is a regular running app that owns one of the pids |
| Ordering.OwnersOrder | main.swift:187-189 | owners keep the window-list order of their pids |
| Ordering.OwnersComplete | main.swift:187-189 | the app of each listed pid, when it is regular, is among the owners |
| Ordering.ZOrderSpec | main.swift:182-192 | the z-ordered apps are regular running owners of on-screen windows, ordered by first window, with no pid twice; every regular window owner is among them |
| Ordering.ZOrderLoopStep | main.swift:187-190 | each window marks its pid seen, even when the app is skipped, and appends a regular app at the pid's first window |
| Ordering.ZOrderOwnersStep | main.swift:189 | a pid seen before adds nothing; a new pid adds its app when the app is regular |
| Ordering.ZOrderedRegularApps | main.swift:182-192 | `None` when the window list cannot be read; otherwise `ZOrder` of the window pids |
| Ordering.FrontFirst | main.swift:175-178 | the fallback seed keeps its length and, when the frontmost pid is found, starts with the frontmost app |
| Ordering.SeedSource | main.swift:171-178 | the seed source is empty only when no regular app is running |
| Ordering.SeededMru | main.swift:168-180 | `seedMRUIfNeeded` leaves a non-empty list unchanged |
| Ordering.SeedSourceRegular | main.swift:171-178 | both seed sources hold only regular running apps |
| Ordering.SeededMruSpec | main.swift:168-180 | a non-empty list is left alone; a seeded list is duplicate-free and holds only ids of regular running apps, with the frontmost id first when the source carries it |
| Ordering.SeedFallbackFrontFirst | main.swift:174-179 | on the fallback path, a regular frontmost app with an id heads the seeded list |
| OverlayState.Rem | overlay.swift:138 | Swift's `%`: in [0, b) for a non-negative dividend and a positive divisor |
| OverlayState.Reloaded | overlay.swift:122-126 | `reload`: the new items, index 0, and a current app exactly when there are items |
| OverlayState.Step | overlay.swift:136-146 | one step either way keeps the items and keeps a non-negative index on a non-empty list |
| OverlayState.Forward | overlay.swift:136-140 | items unchanged; nothing on empty items; otherwise the index stays in range and wraps from last to first |
| OverlayState.Backward | overlay.swift:142-146 | items unchanged; nothing on empty items; otherwise the index stays in range and wraps from first to last |
| OverlayState.JumpTo | overlay.swift:148-152 | the index becomes n - 1 exactly when 1 <= n <= count; otherwise nothing changes |
| OverlayState.SelectedApp | overlay.swift:90-92 | `current` is nil exactly when the index is outside [0, count); otherwise it is the item at the index |
| OverlayState.TapAt | overlay.swift:127-133 | a tap sets the index unconditionally and activates an app exactly when `tapped < count`, namely the tapped item |
| OverlayState.ForwardBackwardInverse | overlay.swift:136-146 | a step forward and a step back undo each other |
| OverlayState.ForwardCycle | overlay.swift:136-140 | k steps forward land on index + k, wrapped once |
| OverlayState.ForwardFullCycle | overlay.swift:136-140 | count steps forward return to the start |
| OverlayState.SelectionStaysOnList | overlay.swift:136-152 | steps and jumps keep an on-list index on the list, so `current` is not nil |
| OverlayState.Overlay.constructor | overlay.swift:85-86 | no items, index 0 |
| OverlayState.Overlay.Current | overlay.swift:90-92 | `current` is nil exactly when the index is outside [0, count), and otherwise the item at the index |
| OverlayState.Overlay.Reload | overlay.swift:122-134 | the items are replaced and the index reset to 0 |
| OverlayState.Overlay.MoveForward | overlay.swift:136-140 | the selection becomes `Forward` of the old one |
| OverlayState.Overlay.MoveBackward | overlay.swift:142-146 | the selection becomes `Backward` of the old one |
| OverlayState.Overlay.Jump | overlay.swift:148-152 | the selection becomes `JumpTo` of the old one |
| OverlayState.Overlay.TapIndex | overlay.swift:127-133 | the new selection and the app to activate are those of `TapAt` |
| Layout.ColsSpec | overlay.swift:63-64 | cols >= 1, rows * cols >= n and rows * (cols - 1) < n; cols <= n when rows <= n |
| Layout.Cols | overlay.swift:54 | the columns for at least one item are at least one |
| Layout.CandidateFor | overlay.swift:55-59 | every candidate icon side is a whole number in [16, 96] |
| Layout.CandidateIcon | overlay.swift:54-59 | the candidate for a row count lies in [16, 96] |
| Layout.MaxIcon | overlay.swift:53-61 | the running maximum lies in [16, 96] |
| Layout.MaxIconIsMax | overlay.swift:53-61 | no candidate exceeds the maximum, and some row count attains it |
| Layout.MaxIconBelow | overlay.swift:53-61 | a bound on every candidate bounds the maximum |
| Layout.CandidateForMono | overlay.swift:55-59 | more columns or more rows never give a larger icon |
| Layout.IconMonotone | overlay.swift:53-61 | one more item in the same area never gives a larger chosen icon |
| Layout.ChooseRows | overlay.swift:49-61 | the loop ends with the maximum icon, attained at `bestRows`, and every smaller row count gives a strictly smaller icon |
| Layout.GridFor | overlay.swift:63-79 | cols by ceiling division; cell = floor(icon * 1.2); hSpacing = 4 and vSpacing = 8 because the boost is 0; pad in [12, 30]; corner in [4, 8] |
| Layout.ComputeLayout | overlay.swift:39-80 | with n = max(total, 1): 1 <= rows <= n, rows * cols >= n, rows * (cols - 1) < n; icon is the largest candidate, at the smallest row count attaining it; rows = 1 when no candidate exceeds 16; icon is whole, in [16, 96]; the other fields are those of `GridFor` |
| Layout.CellItem | overlay.swift:182-184 | a cell shows an item exactly when its flat index is below the item count |
| Layout.CellIndex | overlay.swift:182 | for a column below `cols`, the flat index lies in row r's block [r * cols, r * cols + cols) |
| Layout.ItemCell | overlay.swift:179-184 | in a grid with room for all items, item i sits in exactly one cell, (i / cols, i % cols), inside the grid |
| Layout.CellUnique | overlay.swift:182 | `r * cols + c = i` with c < cols fixes r and c |
| Session.CurrentApp | main.swift:351 | the current app, if any, is one of the overlay's items |
| Session.Seeded | main.swift:168-180 | seeding touches only the MRU list, and leaves a non-empty one alone |
| Session.WithMouseTap | main.swift:229-230 | afterwards the mouse tap is installed exactly when it was or can be created; nothing else changes |
| Session.WithKeyTap | main.swift:206-207 | the same guard for the key tap |
| Session.Moved | main.swift:340-343 | `move` touches only the overlay, keeps its items, and does nothing without an overlay |
| Session.Jumped | main.swift:345-348 | `jump` touches only the overlay, keeps its items, selects item n - 1 when 1 <= n <= count and otherwise changes nothing |
| Session.AppActivated | main.swift:43-50 | the observer touches only the MRU list: the activated app's id heads it, and an app without an id changes nothing |
| Session.Begun | main.swift:314-338 | switching on; the overlay holds the candidates; the mouse tap is installed if it was or can be created; MRU, `commandDown` and key tap unchanged |
| Session.Ended | main.swift:367-372 | switching off and the mouse tap removed; overlay, MRU, `commandDown` and key tap unchanged |
| Session.Committed | main.swift:350-360 | the app activated is the one current before `end()` |
| Session.SwitchingKey | main.swift:303-309 | every key press during a session is swallowed |
| Session.HandleKey | main.swift:272-312 | swallowed exactly for Command-Tab, or for a modifier change or key press during a session; tap-disabled and other events pass and change nothing; only modifier changes touch `commandDown`; the MRU changes only on an idle Command-Tab with an empty list; a second Command-Tab only steps; only an idle Command-Tab installs the mouse tap; an activation ends the session with an overlay item; only Command release, Return, Enter and Escape end a session |
| Session.MouseDecision | main.swift:244-252 | every mouse event passes when idle; during a session it passes exactly when there is an overlay and the hit test succeeds |
| Session.Tapped | main.swift:320-328 | a tap sets the overlay's index; an activation ends the session; otherwise switching and the mouse tap stay; MRU, `commandDown` and key tap never change |
| Session.Polled | main.swift:75-106 | afterwards the key tap is installed exactly when it already was, or both permissions are granted and the tap can be created; nothing else changes |
| Session.InitialInv | main.swift:24-33 | the launch state satisfies the invariant |
| Session.SelOkStep | overlay.swift:136-152 | steps and jumps keep a selection well formed |
| Session.BegunInv | main.swift:314-338 | seeding and arming keep the invariant: candidates are regular with distinct ids, the index is on the list, and the MRU is duplicate-free |
| Session.HandleKeyInv | main.swift:272-312 | every key event keeps the invariant |
| Session.TappedInv | main.swift:320-328 | a tap on a drawn tile keeps the invariant |
| Session.AppActivatedInv | main.swift:43-50 | the activation observer keeps the invariant |
| Session.PolledInv | main.swift:75-106 | a poll keeps the invariant |
| Session.CommitActivatesSelection | main.swift:350-360 | in a session, commit activates an app exactly when there are candidates, and it is the selected, regular one |
| Session.MouseDuringSession | main.swift:244-252 | during a session a mouse event passes exactly when it hits the overlay |
| Session.DigitKeysNeverJump | main.swift:306 | with or without Command, codes 0x12 to 0x19 during a session are swallowed and change nothing |
| Session.FlagsChangedStep | main.swift:278-287 | the case table of `HandleKey`, unfolded: releasing Command during a session commits and leaves `commandDown` as it was; otherwise `commandDown` becomes the new value and the event is swallowed exactly during a session |
| Session.CmdTabStep | main.swift:293-301 | the case table of `HandleKey`, unfolded: Command-Tab is swallowed; from idle it seeds and begins, during a session it only moves |
| Session.OtherKeyStep | main.swift:303-311 | the case table of `HandleKey`, unfolded: during a session, Return and Enter commit, 0x12 to 0x19 jump to `code - 0x1D`, Escape cancels, and the rest do nothing, all swallowed; when idle the key passes |
| Session.BegunSelection | main.swift:331-337 | `begin` forward selects the second candidate when there are two or more; backward selects the last |
| Session.ThreeAppSession | main.swift:272-312 | apps A, B, C with MRU [B, C]: Command-Tab shows [B, C, A] with C selected, "3" changes nothing, and releasing Command activates C and ends the session |
| Session.ThreeAppCandidates | main.swift:194-204 | the candidates for MRU [B, C] over A, B, C are [B, C, A] |
| Session.AppDelegate.constructor | main.swift:24-33 | the delegate starts in `Initial()`, with nothing activated |
| Session.AppDelegate.SeedMRUIfNeeded | main.swift:168-180 | the MRU becomes `SeededMru` of the old list and the system's state |
| Session.AppDelegate.InstallMouseTap | main.swift:229-230 | the install guard: nothing when installed, otherwise installed when it can be created |
| Session.AppDelegate.RemoveMouseTap | main.swift:265-270 | the mouse tap is not installed; nothing else changes |
| Session.AppDelegate.InstallKeyTap | main.swift:206-207 | the same guard for the key tap |
| Session.AppDelegate.CheckPermissions | main.swift:75-106 | the state becomes `Polled` of the old one |
| Session.AppDelegate.Begin | main.swift:314-338 | the state becomes `Begun` of the old one; nothing is activated |
| Session.AppDelegate.ShowOverlay | main.swift:318-331 | the overlay exists, newly created or the old one, and is reloaded with the apps |
| Session.AppDelegate.Move | main.swift:340-343 | the state becomes `Moved` of the old one |
| Session.AppDelegate.Jump | main.swift:345-348 | the state becomes `Jumped` of the old one |
| Session.AppDelegate.End | main.swift:367-372 | the state becomes `Ended` of the old one |
| Session.AppDelegate.Cancel | main.swift:362-365 | the state becomes `Ended` of the old one |
| Session.AppDelegate.Commit | main.swift:350-360 | the state becomes `Ended`, and the app current before `end()` is activated |
| Session.AppDelegate.HandleKeyEvent | main.swift:272-312 | the new state, the decision and the activations are those of `HandleKey` |
| Session.AppDelegate.HandleMouseEvent | main.swift:242-252 | the decision is `MouseDecision` of the state |
| Session.AppDelegate.TapTile | main.swift:320-328 | the new state and the activations are those of `Tapped` |
| Session.AppDelegate.OnAppActivated | main.swift:43-50 | the MRU list becomes the push of the activated app |

## Left out

- SwiftUI and AppKit scaffolding are not modelled: the app struct, the status item, the menu, the About panel and launch-at-login. They are user interface and foreign calls.
- Permission checks (`IOHIDCheckAccess`, Accessibility trust) and the 5-second timer become a `granted` boolean passed to `CheckPermissions`. Invalidating the timer is not modelled.
- Creating event taps, run-loop sources and `tapEnable` become "installed" booleans. A `created` parameter says whether creation succeeds. Re-enabling the tap after a tap-disabled event has no effect on the modelled state.
- `app.activate`, `raiseAllWindows` and the 0.05 s delay are recorded in the ghost sequence `activated`. Window raising and the timing are not modelled.
- The overlay window: `show`, `hide`, `enableInteraction` and the geometry of `hitTest`. The hit test is an input boolean to the mouse rule.
- Drawing in `SwitcherView` and `VisualEffectView` is not modelled, apart from the cell-to-item mapping. Nor is `Logger`.
- Layout.ComputeLayout: `CGFloat` arithmetic is exact real arithmetic, so IEEE double rounding is not represented. `ceil(Double(n) / Double(rows))` is integer ceiling division.
- Session.AppDelegate.HandleKeyEvent, Session.AppDelegate.SeedMRUIfNeeded and Ordering.ZOrderedRegularApps require unique pids among the running applications. The source's `Dictionary(uniqueKeysWithValues:)` traps on a duplicate pid. That trap is only on the z-order seeding path, after the window-list guard (main.swift:184-185). Other key events would have a defined outcome even with duplicate pids, but the operating system never reports two apps with one pid.
- Ordering.ZOrderedRegularApps: the window list is the sequence of owner pids. Window entries whose owner pid does not read as a `pid_t` are skipped by the source, and are assumed removed beforehand.
- OverlayState.TapAt, OverlayState.Overlay.TapIndex, Session.Tapped and Session.AppDelegate.TapTile require a non-negative tile index. Tiles exist only for `r * cols + c` with r, c >= 0.
- One `World` value stands for the system as read during one event. The source reads `runningApplications` and `frontmostApplication` separately (main.swift:174-175, 195, 392). The model does not capture another app launching, quitting or coming to the front between those reads.
- Session.TappedInv assumes the tapped index is below the item count. The view draws tiles only for such indices.
- `Overlay` holds the apps themselves rather than `AppItem` records. Icons and item identifiers are not modelled.
- Swift's fixed-width `Int` is an unbounded integer. No counter in the core can come near the bounds.
