/** The selection state of the overlay (overlay.swift, class `Overlay`):
    the candidate items and the selected index. Windows, views and the
    hit-test geometry are not part of this model. */
module OverlayState {
  import opened Apps

  /** The overlay's `items` and `index` as one value. */
  datatype Selection = Selection(items: seq<RunningApp>, index: int)

  /** Swift's `%` on `Int`: the remainder takes the sign of the dividend. */
  function Rem(a: int, b: int): (r: int)
    requires b != 0
    ensures a >= 0 && b > 0 ==> 0 <= r < b
  {
    if a >= 0 then a % b else -((-a) % b)
  }

  /** The selection after `reload(apps)`. */
  function Reloaded(apps: seq<RunningApp>): (r: Selection)
    ensures r.items == apps && r.index == 0
    ensures SelectedApp(r).Some? <==> |apps| > 0
  {
    Selection(apps, 0)
  }

  /** `moveForward()`: nothing on an empty list, else one step on, wrapping
      from the last item to the first. */
  function Forward(s: Selection): (r: Selection)
    ensures r.items == s.items
    ensures |s.items| == 0 ==> r == s
    ensures |s.items| > 0 && 0 <= s.index ==> 0 <= r.index < |s.items|
    ensures 0 <= s.index < |s.items| ==>
      r.index == if s.index == |s.items| - 1 then 0 else s.index + 1
  {
    if |s.items| == 0 then s
    else s.(index := Rem(s.index + 1, |s.items|))
  }

  /** `moveBackward()`: nothing on an empty list, else one step back,
      wrapping from the first item to the last. */
  function Backward(s: Selection): (r: Selection)
    ensures r.items == s.items
    ensures |s.items| == 0 ==> r == s
    ensures |s.items| > 0 && 0 <= s.index ==> 0 <= r.index < |s.items|
    ensures 0 <= s.index < |s.items| ==>
      r.index == if s.index == 0 then |s.items| - 1 else s.index - 1
  {
    if |s.items| == 0 then s
    else s.(index := Rem(s.index - 1 + |s.items|, |s.items|))
  }

  /** One step in the direction `reverse` asks for. */
  function Step(s: Selection, reverse: bool): (r: Selection)
    ensures r.items == s.items
    ensures |s.items| > 0 && 0 <= s.index ==> 0 <= r.index < |s.items|
  {
    if reverse then Backward(s) else Forward(s)
  }

  /** `jump(to: n)`: selects the n-th item, counting from 1, when there is
      one; otherwise the selection stays. */
  function JumpTo(s: Selection, n: int): (r: Selection)
    ensures r.items == s.items
    ensures 1 <= n <= |s.items| ==> r.index == n - 1
    ensures !(1 <= n <= |s.items|) ==> r == s
  {
    if n > 0 && n <= |s.items| then s.(index := n - 1) else s
  }

  /** `current`: the selected item, or nothing when the index is off the
      list. */
  function SelectedApp(s: Selection): (o: Option<RunningApp>)
    ensures o.None? <==> !(0 <= s.index < |s.items|)
    ensures o.Some? ==> o.value == s.items[s.index]
  {
    if 0 <= s.index < |s.items| then Some(s.items[s.index]) else None
  }

  /** A tap on tile `tapped` (the `onTapIndex` closure): the index is set
      unconditionally, and the app to activate is returned only when the
      index is on the list. */
  function TapAt(s: Selection, tapped: int): (r: (Selection, Option<RunningApp>))
    requires tapped >= 0
    ensures r.0 == Selection(s.items, tapped)
    ensures r.1.Some? <==> tapped < |s.items|
    ensures r.1.Some? ==> r.1.value == s.items[tapped]
  {
    (s.(index := tapped), if tapped < |s.items| then Some(s.items[tapped]) else None)
  }

  /** A step forward and a step back undo each other on a selection whose
      index is on the list. */
  lemma ForwardBackwardInverse(s: Selection)
    requires 0 <= s.index < |s.items|
    ensures Backward(Forward(s)) == s
    ensures Forward(Backward(s)) == s
  {
  }

  /** `k` steps forward from an index on the list of `n` items, for k <= n,
      land on index + k wrapped once past the end: so `n` steps come back to
      the start and the cycle visits every item. */
  lemma {:induction false} ForwardCycle(s: Selection, k: nat)
    requires 0 <= s.index < |s.items| && k <= |s.items|
    ensures ForwardN(s, k).items == s.items
    ensures ForwardN(s, k).index ==
      if s.index + k < |s.items| then s.index + k else s.index + k - |s.items|
  {
    if k > 0 {
      ForwardCycle(s, k - 1);
    }
  }

  lemma ForwardFullCycle(s: Selection)
    requires 0 <= s.index < |s.items|
    ensures ForwardN(s, |s.items|) == s
  {
    ForwardCycle(s, |s.items|);
  }

  /** `k` steps forward. */
  function ForwardN(s: Selection, k: nat): Selection {
    if k == 0 then s else Forward(ForwardN(s, k - 1))
  }

  /** Every selection reachable from a fresh reload by steps and jumps keeps
      its index on a non-empty list. */
  lemma SelectionStaysOnList(s: Selection, reverse: bool, n: int)
    requires |s.items| > 0 && 0 <= s.index < |s.items|
    ensures 0 <= Step(s, reverse).index < |s.items|
    ensures 0 <= JumpTo(s, n).index < |s.items|
    ensures SelectedApp(Step(s, reverse)).Some? && SelectedApp(JumpTo(s, n)).Some?
  {
  }

  /** `Overlay`: holds the candidates shown and the selected index. */
  class Overlay {
    var items: seq<RunningApp>
    var index: int

    constructor ()
      ensures items == [] && index == 0
    {
      items := [];
      index := 0;
    }

    /** The selection as a value. */
    function Sel(): Selection
      reads this
    {
      Selection(items, index)
    }

    /** `current` */
    function Current(): (o: Option<RunningApp>)
      reads this
      ensures o.None? <==> !(0 <= index < |items|)
      ensures o.Some? ==> o.value == items[index]
    {
      SelectedApp(Sel())
    }

    /** `reload(apps)`: new items, selection back to the first. */
    method Reload(apps: seq<RunningApp>)
      modifies this
      ensures Sel() == Reloaded(apps)
    {
      items := apps;
      index := 0;
    }

    method MoveForward()
      modifies this
      ensures Sel() == Forward(old(Sel()))
    {
      if |items| == 0 {
        return;
      }
      index := Rem(index + 1, |items|);
    }

    method MoveBackward()
      modifies this
      ensures Sel() == Backward(old(Sel()))
    {
      if |items| == 0 {
        return;
      }
      index := Rem(index - 1 + |items|, |items|);
    }

    /** `jump(to: n)` */
    method Jump(n: int)
      modifies this
      ensures Sel() == JumpTo(old(Sel()), n)
    {
      if !(n > 0 && n <= |items|) {
        return;
      }
      index := n - 1;
    }

    /** The `onTapIndex` closure installed by `reload`: sets the index and
        returns the app `onActivate` is to be called with, if any. */
    method TapIndex(tapped: int) returns (activate: Option<RunningApp>)
      requires tapped >= 0
      modifies this
      ensures (Sel(), activate) == TapAt(old(Sel()), tapped)
    {
      index := tapped;
      if tapped < |items| {
        activate := Some(items[tapped]);
      } else {
        activate := None;
      }
    }
  }
}
