/** The grid planner of the overlay (overlay.swift, `computeLayout` and
    `GridLayout`) and the mapping of item indexes to grid cells in
    `SwitcherView`. `CGFloat` arithmetic is modelled on exact reals: the
    IEEE rounding of the source's doubles is not represented. */
module Layout {
  import opened Apps

  datatype GridLayout = GridLayout(
    rows: int, cols: int,
    icon: real, cell: real,
    hSpacing: real, vSpacing: real,
    pad: real, corner: real)

  const TileInsetRatio: real := 0.1
  const SpacingBoost: real := 0.0
  const BaseIcon: real := 96.0
  const MinIcon: real := 16.0
  const BaseHSpacing: real := 4.0
  const BaseVSpacing: real := 8.0
  const BasePad: real := 30.0
  /** Cell side over icon side: the icon plus a 10% inset on each side. */
  const CellFactor: real := 1.0 + 2.0 * TileInsetRatio

  /** The planner's item count: `max(total, 1)`. */
  function ItemCount(total: int): int { if total > 1 then total else 1 }

  /** The usable height: 80% of the available height. */
  function Usable(height: real): real { height * 0.8 }

  function MaxR(a: real, b: real): real { if a >= b then a else b }
  function MinR(a: real, b: real): real { if a <= b then a else b }

  /** Columns for `rows` rows: the ceiling of `n / rows`. */
  function Cols(n: int, rows: int): (c: int)
    requires rows >= 1
    ensures n >= 1 ==> c >= 1
  {
    (n + rows - 1) / rows
  }

  /** `rows` rows of `Cols(n, rows)` columns hold `n` items, and one column
      fewer would not. */
  lemma ColsSpec(n: int, rows: int)
    requires n >= 1 && rows >= 1
    ensures Cols(n, rows) >= 1
    ensures rows * Cols(n, rows) >= n
    ensures rows * (Cols(n, rows) - 1) < n
    ensures rows <= n ==> Cols(n, rows) <= n
  {
    var a := n + rows - 1;
    var q := a / rows;
    var r := a % rows;
    DivMod(a, rows);
    MulPred(rows, q);
    MulMono(rows, q, 0);
    if rows <= n {
      MulMono(rows, n + 1, q);
      MulPred(rows, n + 1);
      MulMono(n, 1, rows);
    }
  }

  /** Euclidean division by a positive divisor. */
  lemma DivMod(a: int, d: int)
    requires d >= 1
    ensures a == d * (a / d) + a % d && 0 <= a % d < d
  {
  }

  lemma MulPred(a: int, b: int)
    ensures a * (b - 1) == a * b - a
  {
  }

  lemma MulMono(a: int, b: int, c: int)
    requires a >= 0
    ensures b <= c ==> a * b <= a * c
    ensures b < c && a > 0 ==> a * b < a * c
  {
    assert a * c - a * b == a * (c - b);
  }

  /** The icon side the planner tries for a grid of `cols` by `rows` in a
      usable area `w` by `h`: the largest that fits both ways, clamped to
      [16, 96] and rounded down. */
  function CandidateFor(cols: int, rows: int, w: real, h: real): (c: int)
    requires cols >= 1 && rows >= 1
    ensures 16 <= c <= 96
  {
    var maxCellW := (w - 2.0 * BasePad - (cols - 1) as real * (BaseHSpacing * SpacingBoost)) / cols as real;
    var maxCellH := (h - 2.0 * BasePad - (rows - 1) as real * (BaseVSpacing * SpacingBoost)) / rows as real;
    var maxIconW := maxCellW / CellFactor;
    var maxIconH := maxCellH / CellFactor;
    MaxR(MinIcon, MinR(BaseIcon, MinR(maxIconW, maxIconH))).Floor
  }

  /** The candidate icon side for `rows` rows of `n` items. */
  function CandidateIcon(n: int, w: real, h: real, rows: int): (c: int)
    requires n >= 1 && rows >= 1
    ensures 16 <= c <= 96
  {
    var cols := Cols(n, rows);
    ColsSpec(n, rows);
    CandidateFor(cols, rows, w, h)
  }

  /** The largest candidate over the row counts 1..k, and 16 when k is 0. */
  function MaxIcon(n: int, w: real, h: real, k: int): (m: int)
    requires n >= 1 && k >= 0
    ensures 16 <= m <= 96
  {
    if k == 0 then 16
    else
      var prev := MaxIcon(n, w, h, k - 1);
      var c := CandidateIcon(n, w, h, k);
      if c > prev then c else prev
  }

  /** No candidate over the row counts 1..k exceeds `MaxIcon`, and for k > 0
      some row count in 1..k attains it. */
  lemma {:induction false} MaxIconIsMax(n: int, w: real, h: real, k: int)
    requires n >= 1 && k >= 0
    ensures forall r :: 1 <= r <= k ==> CandidateIcon(n, w, h, r) <= MaxIcon(n, w, h, k)
    ensures k >= 1 ==> exists r :: 1 <= r <= k && CandidateIcon(n, w, h, r) == MaxIcon(n, w, h, k)
  {
    if k > 0 {
      MaxIconIsMax(n, w, h, k - 1);
      if k == 1 {
        assert CandidateIcon(n, w, h, 1) >= 16;
      }
    }
  }

  lemma {:induction false} MaxIconBelow(n: int, w: real, h: real, k: int, b: int)
    requires n >= 1 && k >= 0 && b >= 16
    requires forall r :: 1 <= r <= k ==> CandidateIcon(n, w, h, r) <= b
    ensures MaxIcon(n, w, h, k) <= b
  {
    if k > 0 {
      MaxIconBelow(n, w, h, k - 1, b);
    }
  }

  /** Dividing a non-negative length by more parts gives no more per part;
      a negative length stays negative. */
  lemma DivMono(x: real, c1: int, c2: int)
    requires 1 <= c1 <= c2
    ensures x >= 0.0 ==> x / c2 as real <= x / c1 as real
    ensures x < 0.0 ==> x / c2 as real < 0.0
  {
    var d1 := x / c1 as real;
    var d2 := x / c2 as real;
    assert d1 * c1 as real == x;
    assert d2 * c2 as real == x;
    assert (d1 - d2) * c1 as real == x - d2 * c1 as real;
    assert x - d2 * c1 as real == d2 * (c2 - c1) as real;
  }

  lemma ClampMono(a1: real, b1: real, a2: real, b2: real)
    requires (a2 <= a1 || a2 < MinIcon) && (b2 <= b1 || b2 < MinIcon)
    ensures MaxR(MinIcon, MinR(BaseIcon, MinR(a2, b2))).Floor <= MaxR(MinIcon, MinR(BaseIcon, MinR(a1, b1))).Floor
  {
    var v1 := MaxR(MinIcon, MinR(BaseIcon, MinR(a1, b1)));
    var v2 := MaxR(MinIcon, MinR(BaseIcon, MinR(a2, b2)));
    assert v2 <= v1;
    assert v2.Floor as real <= v2;
    assert v1 < v1.Floor as real + 1.0;
  }

  /** More columns or more rows never give a larger icon. */
  lemma CandidateForMono(c1: int, r1: int, c2: int, r2: int, w: real, h: real)
    requires 1 <= c1 <= c2 && 1 <= r1 <= r2
    ensures CandidateFor(c2, r2, w, h) <= CandidateFor(c1, r1, w, h)
  {
    var x := w - 2.0 * BasePad;
    var y := h - 2.0 * BasePad;
    assert (c1 - 1) as real * (BaseHSpacing * SpacingBoost) == 0.0;
    assert (c2 - 1) as real * (BaseHSpacing * SpacingBoost) == 0.0;
    assert (r1 - 1) as real * (BaseVSpacing * SpacingBoost) == 0.0;
    assert (r2 - 1) as real * (BaseVSpacing * SpacingBoost) == 0.0;
    DivMono(x, c1, c2);
    DivMono(y, r1, r2);
    ClampMono(x / c1 as real / CellFactor, y / r1 as real / CellFactor,
              x / c2 as real / CellFactor, y / r2 as real / CellFactor);
  }

  lemma ColsMono(n: int, rows: int)
    requires n >= 1 && rows >= 1
    ensures Cols(n, rows) <= Cols(n + 1, rows)
  {
    ColsSpec(n, rows);
    ColsSpec(n + 1, rows);
    MulMono(rows, Cols(n + 1, rows), Cols(n, rows) - 1);
  }

  /** With as many rows as items there is one column. */
  lemma ColsSquare(n: int)
    requires n >= 1
    ensures Cols(n, n) == 1
  {
    ColsSpec(n, n);
    MulMono(n, 1, Cols(n, n) - 1);
  }

  /** For a fixed row count, one more item never gives a larger candidate. */
  lemma CandidateShrinks(n: int, w: real, h: real, r: int)
    requires n >= 1 && 1 <= r <= n
    ensures CandidateIcon(n + 1, w, h, r) <= CandidateIcon(n, w, h, r)
  {
    ColsSpec(n, r);
    ColsSpec(n + 1, r);
    ColsMono(n, r);
    CandidateForMono(Cols(n, r), r, Cols(n + 1, r), r, w, h);
  }

  /** One row per item for n + 1 items gives no larger candidate than one row
      per item for n items. */
  lemma LastCandidateShrinks(n: int, w: real, h: real)
    requires n >= 1
    ensures CandidateIcon(n + 1, w, h, n + 1) <= CandidateIcon(n, w, h, n)
  {
    ColsSquare(n);
    ColsSquare(n + 1);
    CandidateForMono(1, n, 1, n + 1, w, h);
  }

  /** The chosen icon side never grows when one more app is shown in the
      same area. */
  lemma IconMonotone(n: int, w: real, h: real)
    requires n >= 1
    ensures MaxIcon(n + 1, w, h, n + 1) <= MaxIcon(n, w, h, n)
  {
    var b := MaxIcon(n, w, h, n);
    var m := n + 1;
    MaxIconIsMax(n, w, h, n);
    forall r | 1 <= r <= m
      ensures CandidateIcon(m, w, h, r) <= b
    {
      if r <= n {
        CandidateShrinks(n, w, h, r);
      } else {
        LastCandidateShrinks(n, w, h);
      }
    }
    MaxIconBelow(m, w, h, m, b);
  }

  /** `computeLayout(total:in:)`: tries every row count from 1 to
      `max(total, 1)` and keeps the first giving the largest icon. */
  method ComputeLayout(total: int, width: real, height: real) returns (g: GridLayout)
    ensures var n := ItemCount(total);
      1 <= g.rows <= n && g.cols == Cols(n, g.rows) &&
      g.rows * g.cols >= n && g.rows * (g.cols - 1) < n
    ensures g.icon == MaxIcon(ItemCount(total), width, Usable(height), ItemCount(total)) as real
    ensures g.icon == CandidateIcon(ItemCount(total), width, Usable(height), g.rows) as real
    ensures forall r :: 1 <= r <= ItemCount(total) ==>
      CandidateIcon(ItemCount(total), width, Usable(height), r) as real <= g.icon
    ensures forall r :: 1 <= r < g.rows ==>
      CandidateIcon(ItemCount(total), width, Usable(height), r) as real < g.icon
    ensures (forall r :: 1 <= r <= ItemCount(total) ==>
      CandidateIcon(ItemCount(total), width, Usable(height), r) <= 16) ==> g.rows == 1
    ensures 16.0 <= g.icon <= 96.0 && g.icon == g.icon.Floor as real
    ensures g == GridFor(ItemCount(total), g.rows, MaxIcon(ItemCount(total), width, Usable(height), ItemCount(total)))
  {
    var n := ItemCount(total);
    var bestRows, bestIcon := ChooseRows(n, width, Usable(height));
    MaxIconIsMax(n, width, Usable(height), n);
    ColsSpec(n, bestRows);
    if bestRows > 1 {
      assert CandidateIcon(n, width, Usable(height), 1) < bestIcon;
      assert bestIcon > 16;
    }
    g := GridFor(n, bestRows, bestIcon);
  }

  /** The loop of `computeLayout` over the row counts 1..n: a candidate
      replaces the best so far only when it is strictly larger, so the
      first row count that attains the largest icon wins. */
  method ChooseRows(n: int, w: real, h: real) returns (bestRows: int, bestIcon: int)
    requires n >= 1
    ensures 1 <= bestRows <= n
    ensures bestIcon == MaxIcon(n, w, h, n) && bestIcon == CandidateIcon(n, w, h, bestRows)
    ensures forall r :: 1 <= r < bestRows ==> CandidateIcon(n, w, h, r) < bestIcon
  {
    bestRows := 1;
    bestIcon := 16;
    var rows := 1;
    while rows <= n
      invariant 1 <= rows <= n + 1
      invariant 1 <= bestRows <= n && (bestRows < rows || bestRows == 1)
      invariant bestIcon == MaxIcon(n, w, h, rows - 1)
      invariant rows > 1 ==> bestIcon == CandidateIcon(n, w, h, bestRows)
      invariant forall r :: 1 <= r < bestRows ==> CandidateIcon(n, w, h, r) < bestIcon
    {
      var cols := (n + rows - 1) / rows;
      ColsSpec(n, rows);
      var maxCellW := (w - 2.0 * BasePad - (cols - 1) as real * (BaseHSpacing * SpacingBoost)) / cols as real;
      var maxCellH := (h - 2.0 * BasePad - (rows - 1) as real * (BaseVSpacing * SpacingBoost)) / rows as real;
      var maxIconW := maxCellW / CellFactor;
      var maxIconH := maxCellH / CellFactor;
      var candidate := MaxR(MinIcon, MinR(BaseIcon, MinR(maxIconW, maxIconH))).Floor;
      assert candidate == CandidateIcon(n, w, h, rows);
      MaxIconIsMax(n, w, h, rows - 1);
      if candidate > bestIcon {
        bestIcon := candidate;
        bestRows := rows;
      }
      rows := rows + 1;
    }
  }

  /** The layout `computeLayout` returns once the row count and the icon
      side are chosen: the columns for that row count, the cell side as the
      icon plus its inset rounded down, and spacing, padding and corner
      radius scaled by `icon / 96` and rounded down, each with a floor. With
      the spacing boost at 0 the spacings are exactly their floors. */
  function GridFor(n: int, rows: int, bestIcon: int): (g: GridLayout)
    requires n >= 1 && rows >= 1 && 16 <= bestIcon <= 96
    ensures g.rows == rows && g.cols == Cols(n, rows) && g.icon == bestIcon as real
    ensures g.cell == (g.icon * CellFactor).Floor as real
    ensures g.hSpacing == 4.0 && g.vSpacing == 8.0
    ensures g.pad == MaxR(12.0, (BasePad * (g.icon / BaseIcon)).Floor as real) && 12.0 <= g.pad <= 30.0
    ensures g.corner == MaxR(4.0, (8.0 * (g.icon / BaseIcon)).Floor as real) && 4.0 <= g.corner <= 8.0
  {
    var cols := (n + rows - 1) / rows;
    var icon := bestIcon as real;
    var s := icon / BaseIcon;
    assert BasePad * s <= 30.0 && 8.0 * s <= 8.0;
    GridLayout(
      rows, cols, icon,
      (icon * CellFactor).Floor as real,
      MaxR(4.0, (BaseHSpacing * s * SpacingBoost).Floor as real),
      MaxR(8.0, (BaseVSpacing * s * SpacingBoost).Floor as real),
      MaxR(12.0, (BasePad * s).Floor as real),
      MaxR(4.0, (8.0 * s).Floor as real))
  }

  /** The flat index of cell (r, c) in a grid of `cols` columns:
      `r * layout.cols + c`. */
  function CellIndex(r: int, c: int, cols: int): (i: int)
    ensures 0 <= c < cols ==> r * cols <= i < r * cols + cols
  {
    r * cols + c
  }

  /** What cell (r, c) shows: the item at its flat index, or nothing when
      that index is past the last item. */
  function CellItem<T>(items: seq<T>, r: nat, c: nat, cols: nat): (o: Option<T>)
    ensures o.Some? <==> CellIndex(r, c, cols) < |items|
  {
    var idx := CellIndex(r, c, cols);
    if idx < |items| then Some(items[idx]) else None
  }

  /** In a grid with room for all items, item `i` is shown in exactly one
      cell, (i / cols, i % cols), and that cell lies inside the grid. */
  lemma {:induction false} ItemCell<T>(items: seq<T>, rows: nat, cols: nat, i: nat)
    requires cols >= 1 && |items| <= rows * cols && i < |items|
    ensures i / cols < rows && i % cols < cols
    ensures CellItem(items, i / cols, i % cols, cols) == Some(items[i])
    ensures forall r: nat, c: nat :: c < cols && CellIndex(r, c, cols) == i ==> r == i / cols && c == i % cols
  {
    var q, m := i / cols, i % cols;
    assert i == cols * q + m && 0 <= m < cols by {
      DivMod(i, cols);
    }
    assert q < rows by {
      MulMono(cols, rows, q);
    }
    assert CellIndex(q, m, cols) == i by {
      assert q * cols == cols * q;
    }
    forall r: nat, c: nat | c < cols && CellIndex(r, c, cols) == i
      ensures r == i / cols && c == i % cols
    {
      CellUnique(r, c, cols, i);
    }
  }

  lemma CellUnique(r: nat, c: nat, cols: nat, i: nat)
    requires c < cols && r * cols + c == i
    ensures r == i / cols && c == i % cols
  {
    var q := i / cols;
    var m := i % cols;
    assert i == q * cols + m && 0 <= m < cols;
    MulMono(cols, r + 1, q);
    MulMono(cols, q + 1, r);
    assert cols * (r + 1) == r * cols + cols;
    assert cols * (q + 1) == q * cols + cols;
  }
}
