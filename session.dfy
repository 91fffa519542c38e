/** The switching session (main.swift, class `AppDelegate`): the keyboard
    event handler that arms, steps and commits the switcher, the mouse
    pass/suppress rule, and the install flags of the two event taps.

    The pure part is a transition function over `State`; the class
    `AppDelegate` holds the same state in fields and objects, and each of
    its methods is proved to move `Abs()` the way the transition function
    does. */
module Session {
  import opened Apps
  import opened Recency
  import opened Ordering
  import opened OverlayState

  /** Carbon virtual key codes (`kVK_…` in `Carbon.HIToolbox`). */
  const Tab := 0x30
  const Return := 0x24
  const KeypadEnter := 0x4C
  const Escape := 0x35
  const Ansi1 := 0x12
  const Ansi9 := 0x19
  const Ansi0 := 0x1D

  /** The events the keyboard tap delivers, as `handleKeyEvent` tells them
      apart: the two "tap disabled" notifications, a modifier change with
      whether Command is now held, a key press with its key code and the
      Command and Shift modifiers, and any other event type. */
  datatype Event =
    | TapDisabledByTimeout
    | TapDisabledByUserInput
    | FlagsChanged(command: bool)
    | KeyDown(keyCode: int, command: bool, shift: bool)
    | OtherEvent

  /** What the tap callback returns: the event passed on (`passRetained`)
      or swallowed (`nil`). */
  datatype Decision = Pass | Suppress

  /** What the session reads from the system when it handles an event: the
      running applications, the owner pids of the on-screen windows front
      to back (`None` when the window list cannot be read), the frontmost
      application, and whether creating the mouse tap succeeds. */
  datatype World = World(
    running: seq<RunningApp>,
    windows: Option<seq<int>>,
    frontmost: Option<RunningApp>,
    canCreateTap: bool)

  /** The delegate's state: the two modifier/session flags, whether each
      event tap is installed, the MRU list, and the overlay's selection
      (`None` until the first `begin` creates the overlay). */
  datatype State = State(
    commandDown: bool,
    switching: bool,
    keyTap: bool,
    mouseTap: bool,
    mru: seq<string>,
    overlay: Option<Selection>)

  /** The result of one event: the new state, the decision, and the app the
      handler activates, if any. */
  datatype Outcome = Outcome(state: State, decision: Decision, activated: Option<RunningApp>)

  /** The state at launch, before the first seed. */
  function Initial(): State {
    State(false, false, false, false, [], None)
  }

  predicate IsTapDisabled(ev: Event) {
    ev.TapDisabledByTimeout? || ev.TapDisabledByUserInput?
  }

  /** Command-Tab, with or without Shift. */
  predicate IsCmdTab(ev: Event) {
    ev.KeyDown? && ev.keyCode == Tab && ev.command
  }

  /** `overlay?.current` */
  function CurrentApp(s: State): (o: Option<RunningApp>)
    ensures o.Some? ==> s.overlay.Some? && o.value in s.overlay.value.items
  {
    if s.overlay.None? then None else SelectedApp(s.overlay.value)
  }

  /** `seedMRUIfNeeded()` */
  function Seeded(s: State, w: World): (t: State)
    ensures t.(mru := s.mru) == s
    ensures s.mru != [] ==> t == s
  {
    s.(mru := SeededMru(s.mru, w.running, w.windows, w.frontmost))
  }

  /** `installMouseTap()`: nothing when the tap is installed, otherwise the
      tap is installed when it can be created. */
  function WithMouseTap(s: State, created: bool): (t: State)
    ensures t.mouseTap == (s.mouseTap || created)
    ensures t.(mouseTap := s.mouseTap) == s
  {
    if s.mouseTap then s else s.(mouseTap := created)
  }

  /** `installKeyTap()`, with the same guard. */
  function WithKeyTap(s: State, created: bool): (t: State)
    ensures t.keyTap == (s.keyTap || created)
    ensures t.(keyTap := s.keyTap) == s
  {
    if s.keyTap then s else s.(keyTap := created)
  }

  /** `begin(reverse:)`: switching on, the overlay (created on first use)
      reloaded with the ordered candidates at index 0, the mouse tap
      installed, then one step in the chosen direction. */
  function Begun(s: State, reverse: bool, w: World): (t: State)
    ensures t.switching && t.overlay.Some?
    ensures t.overlay.value.items == Candidates(s.mru, w.running)
    ensures t.mru == s.mru && t.commandDown == s.commandDown && t.keyTap == s.keyTap
    ensures t.mouseTap == (s.mouseTap || w.canCreateTap)
  {
    var sel := Step(Reloaded(Candidates(s.mru, w.running)), reverse);
    WithMouseTap(s.(switching := true), w.canCreateTap).(overlay := Some(sel))
  }

  /** `move(reverse:)`: a step of the overlay's selection, if there is an
      overlay. */
  function Moved(s: State, reverse: bool): (t: State)
    ensures t.(overlay := s.overlay) == s
    ensures s.overlay.None? ==> t == s
    ensures s.overlay.Some? ==> t.overlay.Some? && t.overlay.value.items == s.overlay.value.items
  {
    if s.overlay.None? then s else s.(overlay := Some(Step(s.overlay.value, reverse)))
  }

  /** `jump(n)` */
  function Jumped(s: State, n: int): (t: State)
    ensures t.(overlay := s.overlay) == s
    ensures s.overlay.None? ==> t == s
    ensures s.overlay.Some? ==>
      t.overlay.Some? && t.overlay.value.items == s.overlay.value.items &&
      (1 <= n <= |s.overlay.value.items| ==> t.overlay.value.index == n - 1) &&
      (!(1 <= n <= |s.overlay.value.items|) ==> t.overlay == s.overlay)
  {
    if s.overlay.None? then s else s.(overlay := Some(JumpTo(s.overlay.value, n)))
  }

  /** `end()`: switching off and the mouse tap removed; the overlay is only
      hidden, so its selection stays. */
  function Ended(s: State): (t: State)
    ensures !t.switching && !t.mouseTap
    ensures t.overlay == s.overlay && t.mru == s.mru
    ensures t.commandDown == s.commandDown && t.keyTap == s.keyTap
  {
    s.(switching := false, mouseTap := false)
  }

  /** `commit()`: the current app is read before `end()` and then
      activated. */
  function Committed(s: State): (r: (State, Option<RunningApp>))
    ensures r.0 == Ended(s) && r.1 == CurrentApp(s)
  {
    (Ended(s), CurrentApp(s))
  }

  /** The Return, Enter, digit and Escape keys while switching. Every key
      press while switching is swallowed, whatever it does. */
  function SwitchingKey(s: State, code: int): (r: Outcome)
    ensures r.decision == Suppress
  {
    if code == Return || code == KeypadEnter then
      Outcome(Committed(s).0, Suppress, Committed(s).1)
    else if Ansi1 <= code <= Ansi9 then Outcome(Jumped(s, code - Ansi0), Suppress, None)
    else if code == Escape then Outcome(Ended(s), Suppress, None)
    else Outcome(s, Suppress, None)
  }

  /** `handleKeyEvent(type:event:)`: one event of the keyboard tap. */
  function HandleKey(s: State, ev: Event, w: World): (r: Outcome)
    // The event is swallowed exactly when it is Command-Tab, or when it is
    // a modifier change or a key press during a session.
    ensures r.decision == Suppress <==>
      IsCmdTab(ev) || (s.switching && (ev.FlagsChanged? || ev.KeyDown?))
    // Only tap-disabled and unrelated events leave the state untouched
    // unconditionally.
    ensures IsTapDisabled(ev) || ev.OtherEvent? ==> r == Outcome(s, Pass, None)
    // Only modifier changes update `commandDown`.
    ensures !ev.FlagsChanged? ==> r.state.commandDown == s.commandDown
    // The MRU list changes only when an idle Command-Tab seeds an empty list.
    ensures r.state.mru != s.mru ==> IsCmdTab(ev) && !s.switching && s.mru == []
    // The overlay is reloaded and the mouse tap re-armed only from idle:
    // a second Command-Tab during a session only steps the selection.
    ensures IsCmdTab(ev) && s.switching ==> r.state == Moved(s, ev.shift)
    ensures r.state.mouseTap && !s.mouseTap ==> IsCmdTab(ev) && !s.switching
    // An activation ends the session and activates an item of the overlay.
    ensures r.activated.Some? ==>
      s.switching && !r.state.switching && !r.state.mouseTap &&
      s.overlay.Some? && r.activated.value in s.overlay.value.items
    // Only Return, Enter, a Command release and Escape end a session.
    ensures s.switching && !r.state.switching ==>
      (ev.FlagsChanged? && s.commandDown && !ev.command) ||
      (ev.KeyDown? && !IsCmdTab(ev) && (ev.keyCode in {Return, KeypadEnter, Escape}))
  {
    match ev
    case TapDisabledByTimeout => Outcome(s, Pass, None)
    case TapDisabledByUserInput => Outcome(s, Pass, None)
    case FlagsChanged(now) =>
      if s.commandDown && !now && s.switching then
        Outcome(Committed(s).0, Suppress, Committed(s).1)
      else
        Outcome(s.(commandDown := now), if s.switching then Suppress else Pass, None)
    case KeyDown(code, cmd, shift) =>
      if code == Tab && cmd then
        if !s.switching then Outcome(Begun(Seeded(s, w), shift, w), Suppress, None)
        else Outcome(Moved(s, shift), Suppress, None)
      else if s.switching then SwitchingKey(s, code)
      else Outcome(s, Pass, None)
    case OtherEvent => Outcome(s, Pass, None)
  }

  /** A modifier change: releasing Command during a session commits and is
      swallowed, leaving `commandDown` as it was; any other modifier change
      records whether Command is held and is swallowed exactly during a
      session. */
  lemma FlagsChangedStep(s: State, now: bool, w: World)
    ensures var r := HandleKey(s, FlagsChanged(now), w);
      if s.commandDown && !now && s.switching then
        r.state == Ended(s) && r.state.commandDown == s.commandDown &&
        r.decision == Suppress && r.activated == CurrentApp(s)
      else
        r.state == s.(commandDown := now) && r.activated.None? &&
        (r.decision == Suppress <==> s.switching)
  {
  }

  /** Command-Tab is always swallowed: from idle it seeds the MRU list and
      begins, Shift meaning backwards; during a session it only steps. */
  lemma CmdTabStep(s: State, shift: bool, w: World)
    ensures var r := HandleKey(s, KeyDown(Tab, true, shift), w);
      r.decision == Suppress && r.activated.None? &&
      r.state == if s.switching then Moved(s, shift) else Begun(Seeded(s, w), shift, w)
  {
  }

  /** Any other key press during a session is swallowed: Return and Enter
      commit, a code in [0x12, 0x19] jumps to `code - 0x1D`, Escape
      cancels, and every other key does nothing. From idle it passes. */
  lemma OtherKeyStep(s: State, code: int, cmd: bool, shift: bool, w: World)
    requires !(code == Tab && cmd)
    ensures var r := HandleKey(s, KeyDown(code, cmd, shift), w);
      if !s.switching then r == Outcome(s, Pass, None)
      else if code == Return || code == KeypadEnter then
        r == Outcome(Ended(s), Suppress, CurrentApp(s))
      else if Ansi1 <= code <= Ansi9 then r == Outcome(Jumped(s, code - Ansi0), Suppress, None)
      else if code == Escape then r == Outcome(Ended(s), Suppress, None)
      else r == Outcome(s, Suppress, None)
  {
  }

  /** The selection `begin` leaves: reload puts it on the first candidate
      and the one step moves it, so a forward start selects the second
      candidate (the previously used app) when there are two or more, and
      a backward start selects the last. */
  lemma BegunSelection(s: State, reverse: bool, w: World)
    ensures var c := Candidates(s.mru, w.running);
      var sel := Begun(s, reverse, w).overlay.value;
      (|c| == 0 ==> sel.index == 0) &&
      (|c| == 1 ==> sel.index == 0) &&
      (|c| >= 2 && !reverse ==> sel.index == 1) &&
      (|c| >= 1 && reverse ==> sel.index == |c| - 1)
  {
  }

  /** The mouse tap's callback: while switching, an event passes only when
      the overlay exists and its window is hit; otherwise every event
      passes. */
  function MouseDecision(s: State, hit: bool): (d: Decision)
    ensures !s.switching ==> d == Pass
    ensures s.switching ==> (d == Pass <==> s.overlay.Some? && hit)
  {
    if s.switching then (if s.overlay.Some? && hit then Pass else Suppress) else Pass
  }

  /** A tap on tile `tapped`: the overlay's `onTapIndex` closure, whose
      `onActivate` ends the session and activates the app. Without an
      overlay there is no tile to tap. */
  function Tapped(s: State, tapped: int): (r: (State, Option<RunningApp>))
    requires tapped >= 0
    ensures s.overlay.None? ==> r == (s, None)
    ensures s.overlay.Some? ==>
      r.0.overlay == Some(TapAt(s.overlay.value, tapped).0) &&
      r.1 == TapAt(s.overlay.value, tapped).1
    ensures r.1.Some? ==> !r.0.switching && !r.0.mouseTap
    ensures r.1.None? ==> r.0.switching == s.switching && r.0.mouseTap == s.mouseTap
    ensures r.0.mru == s.mru && r.0.commandDown == s.commandDown && r.0.keyTap == s.keyTap
  {
    if s.overlay.None? then (s, None)
    else
      var (sel, app) := TapAt(s.overlay.value, tapped);
      var t := s.(overlay := Some(sel));
      if app.Some? then (Ended(t), app) else (t, None)
  }

  /** The activation observer: the activated app is pushed onto the MRU. */
  function AppActivated(s: State, app: RunningApp): (t: State)
    ensures t.(mru := s.mru) == s
    ensures app.bundleId.Some? ==> |t.mru| >= 1 && t.mru[0] == app.bundleId.value
    ensures app.bundleId.None? ==> t == s
  {
    s.(mru := PushApp(s.mru, app))
  }

  /** One step of permission polling: once the key tap is installed the
      poll does nothing; otherwise, with both permissions granted, it tries
      to install the key tap. */
  function Polled(s: State, granted: bool, created: bool): (t: State)
    ensures t.keyTap <==> s.keyTap || (granted && created)
    ensures t.(keyTap := s.keyTap) == s
  {
    if s.keyTap || !granted then s else WithKeyTap(s, created)
  }

  /** The facts every reachable state keeps: the mouse tap is installed only
      during a session; a session has an overlay; the overlay's index is
      never negative and lies on the list whenever the list is not empty;
      the overlay's items are regular apps with distinct bundle
      identifiers; and the MRU list holds each id once. */
  predicate Inv(s: State) {
    (s.mouseTap ==> s.switching) &&
    (s.switching ==> s.overlay.Some?) &&
    (s.overlay.Some? ==> SelOk(s.overlay.value)) &&
    NoDups(s.mru)
  }

  predicate SelOk(sel: Selection) {
    0 <= sel.index && (|sel.items| > 0 ==> sel.index < |sel.items|) &&
    (forall k :: 0 <= k < |sel.items| ==> sel.items[k].regular && sel.items[k].bundleId.Some?) &&
    (forall i, j :: 0 <= i < j < |sel.items| ==> sel.items[i].bundleId != sel.items[j].bundleId)
  }

  lemma InitialInv()
    ensures Inv(Initial())
  {
  }

  /** Steps and jumps keep a selection well formed. */
  lemma SelOkStep(sel: Selection, reverse: bool, n: int)
    requires SelOk(sel)
    ensures SelOk(Step(sel, reverse)) && SelOk(JumpTo(sel, n))
  {
  }

  /** Arming the switcher from any state that keeps the invariant keeps it:
      the candidates satisfy the overlay's part and the seed keeps the MRU
      list free of duplicates. */
  lemma BegunInv(s: State, reverse: bool, w: World)
    requires Inv(s) && !s.switching
    ensures Inv(Begun(Seeded(s, w), reverse, w))
  {
    SeededMruSpec(s.mru, w.running, w.windows, w.frontmost);
    var t := Seeded(s, w);
    CandidatesAt(t.mru, w.running);
    CandidatesDistinct(t.mru, w.running);
    var sel := Reloaded(Candidates(t.mru, w.running));
    assert SelOk(sel);
    SelOkStep(sel, reverse, 0);
  }

  /** `handleKeyEvent` keeps the invariant, whatever the event. */
  lemma HandleKeyInv(s: State, ev: Event, w: World)
    requires Inv(s)
    ensures Inv(HandleKey(s, ev, w).state)
  {
    if IsCmdTab(ev) && !s.switching {
      BegunInv(s, ev.shift, w);
    } else if s.overlay.Some? {
      SelOkStep(s.overlay.value, ev.KeyDown? && ev.shift, if ev.KeyDown? then ev.keyCode - Ansi0 else 0);
    }
  }

  /** A tap on one of the overlay's tiles keeps the invariant. The views only
      draw tiles for indices below the item count. */
  lemma TappedInv(s: State, tapped: int)
    requires Inv(s) && tapped >= 0
    requires s.overlay.Some? ==> tapped < |s.overlay.value.items|
    ensures Inv(Tapped(s, tapped).0)
  {
  }

  lemma AppActivatedInv(s: State, app: RunningApp)
    requires Inv(s)
    ensures Inv(AppActivated(s, app))
  {
    if app.bundleId.Some? {
      PushKeepsNoDups(s.mru, app.bundleId.value);
    }
  }

  lemma PolledInv(s: State, granted: bool, created: bool)
    requires Inv(s)
    ensures Inv(Polled(s, granted, created))
  {
  }

  /** In a session that keeps the invariant, committing activates an app
      exactly when the overlay has items, and then it is the selected one,
      a regular app with a bundle identifier. */
  lemma CommitActivatesSelection(s: State)
    requires Inv(s) && s.switching
    ensures Committed(s).1.Some? <==> |s.overlay.value.items| > 0
    ensures Committed(s).1.Some? ==>
      Committed(s).1.value == s.overlay.value.items[s.overlay.value.index] &&
      Committed(s).1.value.regular && Committed(s).1.value.bundleId.Some?
  {
  }

  /** In a session that keeps the invariant the overlay always exists, so a
      mouse event passes exactly when it hits the overlay's window. */
  lemma MouseDuringSession(s: State, hit: bool)
    requires Inv(s) && s.switching
    ensures MouseDecision(s, hit) == Pass <==> hit
  {
  }

  /** The digit keys never change the selection: `kVK_ANSI_0` (0x1D) is
      above every code in [0x12, 0x19], so `keyCode - kVK_ANSI_0` is
      negative and `jump` ignores it. */
  lemma DigitKeysNeverJump(s: State, code: int, shift: bool, w: World)
    requires s.switching && Ansi1 <= code <= Ansi9
    ensures HandleKey(s, KeyDown(code, false, shift), w) == Outcome(s, Suppress, None)
    ensures HandleKey(s, KeyDown(code, true, shift), w) == Outcome(s, Suppress, None)
  {
    assert code - Ansi0 < 0;
    if s.overlay.Some? {
      assert JumpTo(s.overlay.value, code - Ansi0) == s.overlay.value;
    }
  }

  /** Three running apps with bundle ids A, B and C and the MRU list
      [B, C]: Command-Tab shows [B, C, A] with C selected (the one step
      `begin` takes), the "3" key leaves C selected, and releasing Command
      activates C and ends the session. */
  lemma ThreeAppSession()
    ensures
      var w := World([AppA, AppB, AppC], None, None, true);
      var s0 := Initial().(commandDown := true, mru := ["B", "C"]);
      var o1 := HandleKey(s0, KeyDown(Tab, true, false), w);
      var o2 := HandleKey(o1.state, KeyDown(0x14, true, false), w);
      var o3 := HandleKey(o2.state, FlagsChanged(false), w);
      o1.decision == Suppress && o1.state.switching &&
      o1.state.overlay == Some(Selection([AppB, AppC, AppA], 1)) &&
      o2.state == o1.state &&
      o3.activated == Some(AppC) && !o3.state.switching && !o3.state.mouseTap
  {
    ThreeAppCandidates();
  }

  const AppA := RunningApp(1, Some("A"), true)
  const AppB := RunningApp(2, Some("B"), true)
  const AppC := RunningApp(3, Some("C"), true)

  lemma ThreeAppCandidates()
    ensures Candidates(["B", "C"], [AppA, AppB, AppC]) == [AppB, AppC, AppA]
  {
    var all := [AppA, AppB, AppC];
    ThreeAppRegular();
    ThreeAppBundleIds();
    ThreeAppRunningIds();
    ThreeAppDedup("A", "B", "C");
    assert CandidateIds(["B", "C"], all) == ["B", "C", "A"];
    ThreeAppLookup();
  }

  lemma ThreeAppRegular()
    ensures Regular([AppA, AppB, AppC]) == [AppA, AppB, AppC]
  {
    assert [AppA][..0] == [];
    assert Regular([AppA]) == [AppA];
    assert [AppA, AppB][..1] == [AppA];
    assert Regular([AppA, AppB]) == [AppA, AppB];
    assert [AppA, AppB, AppC][..2] == [AppA, AppB];
  }

  lemma ThreeAppBundleIds()
    ensures BundleIds([AppA, AppB, AppC]) == ["A", "B", "C"]
  {
    BundleIdsSnoc([], AppA);
    BundleIdsSnoc([AppA], AppB);
    BundleIdsSnoc([AppA, AppB], AppC);
    assert [] + [AppA] == [AppA];
    assert [AppA] + [AppB] == [AppA, AppB];
    assert [AppA, AppB] + [AppC] == [AppA, AppB, AppC];
  }

  lemma ThreeAppRunningIds()
    ensures RunningIds(["B", "C"], [AppA, AppB, AppC]) == ["B", "C"]
  {
    var all := [AppA, AppB, AppC];
    ThreeAppBundleIds();
    assert "B" in BundleIds(all) && "C" in BundleIds(all);
    RunningIdsSnoc([], "B", all);
    RunningIdsSnoc(["B"], "C", all);
    assert [] + ["B"] == ["B"];
    assert ["B"] + ["C"] == ["B", "C"];
  }

  /** Deduplicating `[b, c, a, b, c]` for three distinct values. */
  lemma ThreeAppDedup(a: string, b: string, c: string)
    requires a != b && b != c && a != c
    ensures DedupFirst([b, c] + [a, b, c]) == [b, c, a]
  {
    var d := [b, c, a];
    var d4 := d + [b];
    assert d4 + [c] == [b, c] + [a, b, c];
    DedupFirstOfNoDups(d);
    DedupFirstSnoc(d, b);
    DedupFirstSnoc(d4, c);
  }

  /** `first(where:)` on the three apps finds each by its identifier. */
  lemma ThreeAppFirst()
    ensures FirstWithId([AppA, AppB, AppC], "A") == Some(AppA)
    ensures FirstWithId([AppA, AppB, AppC], "B") == Some(AppB)
    ensures FirstWithId([AppA, AppB, AppC], "C") == Some(AppC)
  {
    var all := [AppA, AppB, AppC];
    assert all[1..] == [AppB, AppC];
    assert all[1..][1..] == [AppC];
  }

  lemma ThreeAppLookup()
    ensures Lookup([AppA, AppB, AppC], ["B", "C", "A"]) == [AppB, AppC, AppA]
  {
    var all := [AppA, AppB, AppC];
    assert [] + ["B"] == ["B"];
    assert ["B"] + ["C"] == ["B", "C"];
    assert ["B", "C"] + ["A"] == ["B", "C", "A"];
    ThreeAppFirst();
    LookupSnoc(all, [], "B");
    LookupSnoc(all, ["B"], "C");
    LookupSnoc(all, ["B", "C"], "A");
  }

  /** `AppDelegate`: the session flags, the tap install flags, the MRU
      tracker and the overlay. The ghost `activated` records, in order,
      every app the delegate activates. */
  class AppDelegate {
    var keyTap: bool
    var mouseTap: bool
    var commandDown: bool
    var switching: bool
    const mru: MRU
    var overlay: Overlay?
    ghost var activated: seq<RunningApp>

    /** The delegate's state as a value. */
    function Abs(): State
      reads this, mru, overlay
    {
      State(commandDown, switching, keyTap, mouseTap, mru.list,
        if overlay == null then None else Some(overlay.Sel()))
    }

    constructor ()
      ensures Abs() == Initial() && activated == []
    {
      keyTap := false;
      mouseTap := false;
      commandDown := false;
      switching := false;
      mru := new MRU();
      overlay := null;
      activated := [];
    }

    /** `seedMRUIfNeeded()`, reading the system through `w`. */
    method SeedMRUIfNeeded(w: World)
      requires UniquePids(w.running)
      modifies mru
      ensures Abs() == Seeded(old(Abs()), w)
    {
      if !mru.IsEmpty() {
        return;
      }
      var ordered := ZOrderedRegularApps(w.windows, w.running);
      var apps: seq<RunningApp>;
      if ordered.Some? && ordered.value != [] {
        apps := ordered.value;
      } else {
        apps := Regular(w.running);
        if w.frontmost.Some? {
          var idx := IndexOfPid(apps, w.frontmost.value.pid);
          if idx.Some? {
            var f := apps[idx.value];
            apps := apps[..idx.value] + apps[idx.value + 1..];
            apps := [f] + apps;
          }
        }
      }
      assert apps == SeedSource(w.running, w.windows, w.frontmost);
      mru.SeedInOrder(apps, FrontId(w.frontmost));
    }

    /** `installMouseTap()`; `created` says whether the tap could be made. */
    method InstallMouseTap(created: bool)
      modifies this
      ensures Abs() == WithMouseTap(old(Abs()), created)
      ensures overlay == old(overlay) && activated == old(activated)
    {
      if mouseTap {
        return;
      }
      mouseTap := created;
    }

    /** `removeMouseTap()` */
    method RemoveMouseTap()
      modifies this
      ensures Abs() == old(Abs()).(mouseTap := false)
      ensures overlay == old(overlay) && activated == old(activated)
    {
      mouseTap := false;
    }

    /** `installKeyTap()`; `created` says whether the tap could be made. */
    method InstallKeyTap(created: bool)
      modifies this
      ensures Abs() == WithKeyTap(old(Abs()), created)
      ensures overlay == old(overlay) && activated == old(activated)
    {
      if keyTap {
        return;
      }
      keyTap := created;
    }

    /** `checkPermissionsAndFinalizeSetup()`; `granted` stands for both the
        Input Monitoring and the Accessibility permission. */
    method CheckPermissions(granted: bool, created: bool)
      modifies this
      ensures Abs() == Polled(old(Abs()), granted, created)
      ensures overlay == old(overlay) && activated == old(activated)
    {
      if keyTap {
        return;
      }
      if !granted {
        return;
      }
      InstallKeyTap(created);
    }

    /** `begin(reverse:)` */
    method Begin(reverse: bool, w: World)
      modifies this, overlay
      ensures Abs() == Begun(old(Abs()), reverse, w)
      ensures activated == old(activated)
    {
      switching := true;
      var apps := OrderedAppsForOverlay(mru.Ids(), w.running);
      ShowOverlay(apps);
      InstallMouseTap(w.canCreateTap);
      Move(reverse);
    }

    /** The overlay part of `begin`: the overlay is created on first use and
        reloaded with `apps`, the selection back at the first item. */
    method ShowOverlay(apps: seq<RunningApp>)
      modifies overlay
      modifies this
      ensures overlay != null && (overlay == old(overlay) || fresh(overlay))
      ensures Abs() == old(Abs()).(overlay := Some(Reloaded(apps)))
      ensures activated == old(activated)
    {
      if overlay == null {
        overlay := new Overlay();
      }
      overlay.Reload(apps);
    }

    /** `move(reverse:)` */
    method Move(reverse: bool)
      modifies overlay
      ensures Abs() == Moved(old(Abs()), reverse)
    {
      if overlay == null {
        return;
      }
      if reverse {
        overlay.MoveBackward();
      } else {
        overlay.MoveForward();
      }
    }

    /** `jump(_:)` */
    method Jump(n: int)
      modifies overlay
      ensures Abs() == Jumped(old(Abs()), n)
    {
      if overlay == null {
        return;
      }
      overlay.Jump(n);
    }

    /** `end()` */
    method End()
      modifies this
      ensures Abs() == Ended(old(Abs()))
      ensures overlay == old(overlay) && activated == old(activated)
    {
      switching := false;
      RemoveMouseTap();
    }

    /** `cancel()` */
    method Cancel()
      modifies this
      ensures Abs() == Ended(old(Abs()))
      ensures overlay == old(overlay) && activated == old(activated)
    {
      End();
    }

    /** `commit()`: the current app is taken before `end()`, then
        activated. */
    method Commit()
      modifies this
      ensures Abs() == Committed(old(Abs())).0
      ensures activated == old(activated) + OptSeq(Committed(old(Abs())).1)
      ensures overlay == old(overlay)
    {
      var app: Option<RunningApp> := None;
      if overlay != null {
        app := overlay.Current();
      }
      End();
      if app.Some? {
        activated := activated + [app.value];
      }
    }

    /** `handleKeyEvent(type:event:)` */
    method HandleKeyEvent(ev: Event, w: World) returns (d: Decision)
      requires UniquePids(w.running)
      modifies this, mru, overlay
      ensures Abs() == HandleKey(old(Abs()), ev, w).state
      ensures d == HandleKey(old(Abs()), ev, w).decision
      ensures activated == old(activated) + OptSeq(HandleKey(old(Abs()), ev, w).activated)
    {
      match ev
      case TapDisabledByTimeout =>
        return Pass;
      case TapDisabledByUserInput =>
        return Pass;
      case FlagsChanged(now) =>
        if commandDown && !now && switching {
          Commit();
          return Suppress;
        }
        commandDown := now;
        return if switching then Suppress else Pass;
      case KeyDown(code, cmd, shift) =>
        if code == Tab && cmd {
          if !switching {
            SeedMRUIfNeeded(w);
            Begin(shift, w);
          } else {
            Move(shift);
          }
          return Suppress;
        }
        if switching {
          if code == Return || code == KeypadEnter {
            Commit();
            return Suppress;
          }
          if code >= Ansi1 && code <= Ansi9 {
            Jump(code - Ansi0);
            return Suppress;
          }
          if code == Escape {
            Cancel();
            return Suppress;
          }
          return Suppress;
        }
        return Pass;
      case OtherEvent =>
        return Pass;
    }

    /** The mouse tap's callback; `hit` is the overlay window's hit test of
        the event's location. */
    method HandleMouseEvent(hit: bool) returns (d: Decision)
      ensures d == MouseDecision(Abs(), hit)
    {
      if switching {
        if overlay != null && hit {
          return Pass;
        }
        return Suppress;
      }
      return Pass;
    }

    /** A tap on tile `tapped` of the overlay. */
    method TapTile(tapped: int)
      requires tapped >= 0
      modifies this, overlay
      ensures Abs() == Tapped(old(Abs()), tapped).0
      ensures activated == old(activated) + OptSeq(Tapped(old(Abs()), tapped).1)
    {
      if overlay == null {
        return;
      }
      var app := overlay.TapIndex(tapped);
      if app.Some? {
        End();
        activated := activated + [app.value];
      }
    }

    /** The `didActivateApplicationNotification` observer. */
    method OnAppActivated(app: RunningApp)
      modifies mru
      ensures Abs() == AppActivated(old(Abs()), app)
    {
      mru.Push(app);
    }
  }

  /** The activated app, if any, as a sequence of zero or one. */
  function OptSeq<T>(o: Option<T>): (r: seq<T>)
    ensures |r| <= 1 && (o.Some? <==> |r| == 1) && (o.Some? ==> r[0] == o.value)
  {
    if o.Some? then [o.value] else []
  }
}
