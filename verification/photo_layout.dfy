/**
  The masonry layout of the photo list (`PhotoLayout`): items are laid out
  in groups of `columns + 1`; the first `columns` items of a group share one
  row of small cells, the last one is a big cell spanning the whole width on
  the row below. Coordinates are integers; the small width is
  `ceil(width / columns)`.

  `Prepare` is the loop of `prepare()`; `FrameOf` is an independent closed
  form of the frame it computes for each item, and the lemmas below state the
  layout's properties on that closed form.
 */
module PhotoLayout {
  import opened Common

  /** `Int.numberOfColumns`, the column count the app uses. */
  const NumberOfColumns: int := 2

  datatype Frame = Frame(x: int, y: int, width: int, height: int)

  /** A `UICollectionViewLayoutAttributes` for the item at section 0. */
  datatype Attributes = Attributes(item: int, frame: Frame)

  /** The layout object's state: `cachedAttributes` and `totalCellHeight`. */
  datatype Layout = Layout(cached: map<int, Frame>, totalCellHeight: int)

  /** What `prepare()` reads from the collection view. */
  datatype CollectionView = CollectionView(itemsCount: int, width: nat)

  datatype Size = Size(width: int, height: int)

  /** Layout parameters: `columnsCount` and `cellHeight`. */
  datatype Params = Params(columns: int, cellHeight: int) {
    predicate Valid() { columns >= 1 && cellHeight > 0 }
    function GroupSize(): int { columns + 1 }
  }

  function CeilDiv(a: nat, b: int): (q: nat)
    requires b >= 1
    ensures q * b >= a
    ensures q == 0 || (q - 1) * b < a
  {
    var q := (a + b - 1) / b;
    assert q * b <= a + b - 1 < q * b + b;
    q
  }

  function SmallWidth(width: nat, p: Params): nat
    requires p.Valid()
  {
    CeilDiv(width, p.columns)
  }

  /** `(index + 1) % (columnsCount + 1) == 0`. */
  predicate IsBig(i: int, p: Params)
    requires p.Valid()
  {
    (i + 1) % p.GroupSize() == 0
  }

  /** A small cell closes its row: `(index + 2) % (columnsCount + 1) == 0` or it is the last item. */
  predicate EndsRow(i: int, n: int, p: Params)
    requires p.Valid()
  {
    (i + 2) % p.GroupSize() == 0 || i == n - 1
  }

  /** Row of item `i`: two rows per full group, the big cell on the second. */
  function Row(i: nat, p: Params): nat
    requires p.Valid()
  {
    2 * (i / p.GroupSize()) + (if i % p.GroupSize() == p.columns then 1 else 0)
  }

  /** Number of rows taken by `n` items. */
  function Rows(n: nat, p: Params): nat
    requires p.Valid()
  {
    2 * (n / p.GroupSize()) + (if n % p.GroupSize() == 0 then 0 else 1)
  }

  /** Closed form of the frame of item `i`. */
  function FrameOf(i: nat, width: nat, p: Params): Frame
    requires p.Valid()
  {
    var pos := i % p.GroupSize();
    if pos == p.columns then Frame(0, Row(i, p) * p.cellHeight, width, p.cellHeight)
    else Frame(pos * SmallWidth(width, p), Row(i, p) * p.cellHeight, SmallWidth(width, p), p.cellHeight)
  }

  /** The layout `prepare()` leaves behind, in closed form. */
  function Prepared(layout: Layout, view: Option<CollectionView>, p: Params): Layout
    requires p.Valid()
  {
    match view
    case None => Layout(map[], layout.totalCellHeight)
    case Some(cv) =>
      if cv.itemsCount <= 0 then Layout(map[], layout.totalCellHeight)
      else Layout(map i | 0 <= i < cv.itemsCount :: FrameOf(i, cv.width, p),
                  Rows(cv.itemsCount, p) * p.cellHeight)
  }

  lemma {:induction false} MulAtLeast(k: int, g: int)
    requires k >= 1 && g > 0
    ensures k * g >= g
    decreases k
  {
    if k > 1 {
      MulAtLeast(k - 1, g);
      assert k * g == (k - 1) * g + g;
    }
  }

  /** Euclidean division by a positive divisor is determined by quotient and remainder. */
  lemma DivModUnique(i: int, g: int, q: int, r: int)
    requires g > 0 && 0 <= r < g && i == q * g + r
    ensures i / g == q && i % g == r
  {
    var q0, r0 := i / g, i % g;
    assert i == q0 * g + r0 && 0 <= r0 < g;
    var k := q - q0;
    assert k * g == q * g - q0 * g;
    assert k * g == r0 - r;
    if k > 0 {
      MulAtLeast(k, g);
    } else if k < 0 {
      MulAtLeast(-k, g);
    }
  }

  /** How position-in-group and group number advance from `i` to `i + 1`. */
  lemma Next(i: nat, p: Params)
    requires p.Valid()
    ensures i % p.GroupSize() < p.columns ==>
              (i + 1) % p.GroupSize() == i % p.GroupSize() + 1 && (i + 1) / p.GroupSize() == i / p.GroupSize()
    ensures i % p.GroupSize() == p.columns ==>
              (i + 1) % p.GroupSize() == 0 && (i + 1) / p.GroupSize() == i / p.GroupSize() + 1
  {
    var g := p.GroupSize();
    var q, r := i / g, i % g;
    if r == p.columns {
      assert i + 1 == (q + 1) * g + 0;
      DivModUnique(i + 1, g, q + 1, 0);
    } else {
      assert i + 1 == q * g + (r + 1);
      DivModUnique(i + 1, g, q, r + 1);
    }
  }

  lemma IsBigIffLastOfGroup(i: nat, p: Params)
    requires p.Valid()
    ensures IsBig(i, p) <==> i % p.GroupSize() == p.columns
  {
    Next(i, p);
  }

  lemma EndsGroupRowIff(i: nat, p: Params)
    requires p.Valid()
    ensures (i + 2) % p.GroupSize() == 0 <==> i % p.GroupSize() == p.columns - 1
  {
    Next(i, p);
    Next(i + 1, p);
  }

  /**
    `prepare()`: empties the cache; with a collection view holding items,
    lays them out one by one with a running `lastX`/`lastY` and stores the
    final `lastY` as `totalCellHeight`. Without a view or without items the
    previous `totalCellHeight` stays.
   */
  method Prepare(layout: Layout, view: Option<CollectionView>, p: Params) returns (result: Layout)
    requires p.Valid()
    ensures result == Prepared(layout, view, p)
  {
    if view.None? || view.value.itemsCount <= 0 {
      return Layout(map[], layout.totalCellHeight);
    }
    var n := view.value.itemsCount;
    var bigCellWidth := view.value.width;
    var smallCellWidth := SmallWidth(view.value.width, p);
    var h := p.cellHeight;
    var g := p.GroupSize();

    var cached: map<int, Frame> := map[];
    var lastX := 0;
    var lastY := 0;
    var index := 0;
    while index < n
      invariant 0 <= index <= n
      invariant forall j :: j in cached <==> 0 <= j < index
      invariant forall j :: 0 <= j < index ==> cached[j] == FrameOf(j, bigCellWidth, p)
      invariant index < n ==> lastY == Row(index, p) * h
      invariant index < n ==>
                  lastX == (if index % g == p.columns then 0 else (index % g) * smallCellWidth)
      invariant index == n ==> lastY == Rows(n, p) * h
    {
      var pos := index % g;
      var q := index / g;
      IsBigIffLastOfGroup(index, p);
      EndsGroupRowIff(index, p);
      Next(index, p);
      var frame: Frame;
      if (index + 1) % g == 0 {
        frame := Frame(0, lastY, bigCellWidth, h);
        lastY := lastY + h;
        assert lastY == (2 * q + 2) * h;
      } else {
        frame := Frame(lastX, lastY, smallCellWidth, h);
        if (index + 2) % g == 0 || index == n - 1 {
          lastX := 0;
          lastY := lastY + h;
          assert lastY == (2 * q + 1) * h;
        } else {
          lastX := lastX + smallCellWidth;
          assert lastX == (pos + 1) * smallCellWidth;
        }
      }
      assert frame == FrameOf(index, bigCellWidth, p);
      cached := cached[index := frame];
      index := index + 1;
    }
    result := Layout(cached, lastY);
  }

  /** `layoutAttributesForItem(at:)`. */
  function AttributesForItem(layout: Layout, item: int): (r: Option<Frame>)
    ensures r.Some? <==> item in layout.cached
    ensures r.Some? ==> r.value == layout.cached[item]
  {
    if item in layout.cached then Some(layout.cached[item]) else None
  }

  /** Whether two rectangles share interior points (touching edges do not count). */
  predicate Intersects(a: Frame, b: Frame) {
    && a.x < b.x + b.width && b.x < a.x + a.width
    && a.y < b.y + b.height && b.y < a.y + a.height
  }

  /** `layoutAttributesForElements(in:)`: the cached attributes whose frame meets `rect`. */
  method AttributesInRect(layout: Layout, rect: Frame) returns (found: set<Attributes>)
    ensures forall a :: a in found <==>
              a.item in layout.cached && a.frame == layout.cached[a.item] && Intersects(rect, a.frame)
  {
    found := {};
    var rest := layout.cached.Keys;
    ghost var seen: set<int> := {};
    while rest != {}
      invariant rest !! seen && rest + seen == layout.cached.Keys
      invariant forall a :: a in found <==>
                  && a.item in seen
                  && a.frame == layout.cached[a.item] && Intersects(rect, a.frame)
      decreases rest
    {
      var k := Pick(rest);
      if Intersects(rect, layout.cached[k]) {
        found := found + {Attributes(k, layout.cached[k])};
      }
      rest := rest - {k};
      seen := seen + {k};
    }
  }

  /** `collectionViewContentSize`: the view's width (0 without a view) by `totalCellHeight`. */
  function ContentSize(layout: Layout, view: Option<CollectionView>): (s: Size)
    ensures s.height == layout.totalCellHeight
    ensures s.width == (if view.Some? then view.value.width else 0)
  {
    Size(if view.Some? then view.value.width else 0, layout.totalCellHeight)
  }

  // ---------------------------------------------------------------------------
  // Properties of the prepared layout.

  /** After `prepare()`, exactly the items 0..n-1 have attributes, each its closed-form frame. */
  lemma LookupAfterPrepare(layout: Layout, cv: CollectionView, item: int, p: Params)
    requires p.Valid()
    ensures var r := AttributesForItem(Prepared(layout, Some(cv), p), item);
            && (r.Some? <==> 0 <= item < cv.itemsCount)
            && (r.Some? ==> r.value == FrameOf(item, cv.width, p))
  {
  }

  /** Without a view, or with no items, the cache is empty but the old height is kept. */
  lemma EmptyPrepareKeepsHeight(layout: Layout, view: Option<CollectionView>, p: Params)
    requires p.Valid()
    requires view.None? || view.value.itemsCount <= 0
    ensures Prepared(layout, view, p).cached == map[]
    ensures ContentSize(Prepared(layout, view, p), view).height == layout.totalCellHeight
  {
  }

  /** A big cell starts at x = 0, spans the full width, and the next item is one cell lower. */
  lemma BigCellShape(i: nat, width: nat, p: Params)
    requires p.Valid() && IsBig(i, p)
    ensures FrameOf(i, width, p).x == 0 && FrameOf(i, width, p).width == width
    ensures FrameOf(i, width, p).height == p.cellHeight
    ensures FrameOf(i + 1, width, p).y == FrameOf(i, width, p).y + p.cellHeight
    ensures FrameOf(i + 1, width, p).x == 0
  {
    IsBigIffLastOfGroup(i, p);
    Next(i, p);
    var q := i / p.GroupSize();
    assert Row(i, p) == 2 * q + 1;
    assert Row(i + 1, p) == 2 * q + 2;
  }

  /** A small cell is `ceil(width / columns)` wide, at x = its position in the group times that width. */
  lemma SmallCellShape(i: nat, width: nat, p: Params)
    requires p.Valid() && !IsBig(i, p)
    ensures FrameOf(i, width, p).width == SmallWidth(width, p)
    ensures FrameOf(i, width, p).height == p.cellHeight
    ensures FrameOf(i, width, p).x == (i % p.GroupSize()) * SmallWidth(width, p)
    ensures i % p.GroupSize() < p.columns
  {
    IsBigIffLastOfGroup(i, p);
  }

  /** After the last small cell of a group the next item is one cell lower, at x = 0. */
  lemma RowBreak(i: nat, width: nat, p: Params)
    requires p.Valid() && !IsBig(i, p) && (i + 2) % p.GroupSize() == 0
    ensures FrameOf(i + 1, width, p).y == FrameOf(i, width, p).y + p.cellHeight
    ensures FrameOf(i + 1, width, p).x == 0
  {
    IsBigIffLastOfGroup(i, p);
    EndsGroupRowIff(i, p);
    Next(i, p);
    assert Row(i + 1, p) == Row(i, p) + 1;
  }

  /** Inside a row, the next small cell sits right of the previous one. */
  lemma SameRow(i: nat, width: nat, p: Params)
    requires p.Valid() && !IsBig(i, p) && (i + 2) % p.GroupSize() != 0
    ensures FrameOf(i + 1, width, p).y == FrameOf(i, width, p).y
    ensures FrameOf(i + 1, width, p).x == FrameOf(i, width, p).x + SmallWidth(width, p)
  {
    IsBigIffLastOfGroup(i, p);
    EndsGroupRowIff(i, p);
    Next(i, p);
    var pos := i % p.GroupSize();
    assert (pos + 1) * SmallWidth(width, p) == pos * SmallWidth(width, p) + SmallWidth(width, p);
  }

  lemma RowStep(i: nat, p: Params)
    requires p.Valid()
    ensures Row(i, p) <= Row(i + 1, p) <= Row(i, p) + 1
  {
    Next(i, p);
  }

  lemma {:induction false} RowMonotone(i: nat, j: nat, p: Params)
    requires p.Valid() && i <= j
    ensures Row(i, p) <= Row(j, p)
    decreases j - i
  {
    if i < j {
      RowStep(i, p);
      RowMonotone(i + 1, j, p);
    }
  }

  /** `y` never decreases with the item index. */
  lemma YMonotone(i: nat, j: nat, width: nat, p: Params)
    requires p.Valid() && i <= j
    ensures FrameOf(i, width, p).y <= FrameOf(j, width, p).y
  {
    RowMonotone(i, j, p);
    MulMonotone(Row(i, p), Row(j, p), p.cellHeight);
  }

  lemma MulMonotone(a: int, b: int, h: int)
    requires a <= b && h > 0
    ensures a * h <= b * h
  {
    assert b * h - a * h == (b - a) * h;
  }

  /** The last item's row is the last row counted by `Rows`. */
  lemma LastRow(n: nat, p: Params)
    requires p.Valid() && n > 0
    ensures Row(n - 1, p) + 1 == Rows(n, p)
  {
    var g := p.GroupSize();
    Next(n - 1, p);
  }

  /** Every frame lies within the content height, and the last one touches it. */
  lemma FramesWithinContent(i: nat, n: nat, width: nat, p: Params)
    requires p.Valid() && i < n
    ensures FrameOf(i, width, p).y >= 0
    ensures FrameOf(i, width, p).y + p.cellHeight <= Rows(n, p) * p.cellHeight
    ensures i == n - 1 ==> FrameOf(i, width, p).y + p.cellHeight == Rows(n, p) * p.cellHeight
  {
    RowMonotone(i, n - 1, p);
    LastRow(n, p);
    MulMonotone(Row(i, p) + 1, Rows(n, p), p.cellHeight);
    assert (Row(i, p) + 1) * p.cellHeight == Row(i, p) * p.cellHeight + p.cellHeight;
  }

  /** An item on an earlier row ends above any item of a later row. */
  lemma EarlierRowAbove(i: nat, j: nat, width: nat, p: Params)
    requires p.Valid() && Row(i, p) < Row(j, p)
    ensures FrameOf(i, width, p).y + FrameOf(i, width, p).height <= FrameOf(j, width, p).y
  {
    MulMonotone(Row(i, p) + 1, Row(j, p), p.cellHeight);
    assert (Row(i, p) + 1) * p.cellHeight == Row(i, p) * p.cellHeight + p.cellHeight;
  }

  /** Two items of one row are small cells of one group, the earlier one to the left. */
  lemma SameRowLeftOf(i: nat, j: nat, width: nat, p: Params)
    requires p.Valid() && Row(i, p) == Row(j, p) && i < j
    ensures FrameOf(i, width, p).x + FrameOf(i, width, p).width <= FrameOf(j, width, p).x
  {
    var g := p.GroupSize();
    var qi, pi := i / g, i % g;
    var qj, pj := j / g, j % g;
    assert i == qi * g + pi && j == qj * g + pj;
    assert qi == qj;
    assert pi < pj;
    assert pi != p.columns;
    assert pj != p.columns;
    var w := SmallWidth(width, p);
    MulMonotoneNonNeg(pi + 1, pj, w);
    assert (pi + 1) * w == pi * w + w;
  }

  /** Frames of distinct items never overlap. */
  lemma NoOverlap(i: nat, j: nat, width: nat, p: Params)
    requires p.Valid() && i != j
    ensures !Intersects(FrameOf(i, width, p), FrameOf(j, width, p))
  {
    if Row(i, p) < Row(j, p) {
      EarlierRowAbove(i, j, width, p);
    } else if Row(j, p) < Row(i, p) {
      EarlierRowAbove(j, i, width, p);
    } else if i < j {
      SameRowLeftOf(i, j, width, p);
    } else {
      SameRowLeftOf(j, i, width, p);
    }
  }

  lemma MulMonotoneNonNeg(a: int, b: int, w: int)
    requires a <= b && w >= 0
    ensures a * w <= b * w
  {
    assert b * w - a * w == (b - a) * w;
  }

  /** The content height is the height of all rows, and the width the view's. */
  lemma ContentSizeAfterPrepare(layout: Layout, cv: CollectionView, p: Params)
    requires p.Valid() && cv.itemsCount > 0
    ensures ContentSize(Prepared(layout, Some(cv), p), Some(cv))
            == Size(cv.width, Rows(cv.itemsCount, p) * p.cellHeight)
  {
  }
}
