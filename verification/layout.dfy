/**
 * Layout arithmetic of `LayoutBox` (src/render.cpp).
 *
 * A layout box remembers the parent rectangle it was created for
 * (xp, yp, wp, hp) and its own placement (x, y, w, h). Its header is not part
 * of this model; its constructors take `long`, so its fields are modelled as
 * 64-bit `long`. `split` and `center` compute in `unsigned long`, and that
 * arithmetic, with its wrap-around and the conversions back to `long`, is
 * written out with `ToULong` and `ToLong`.
 */
module Layout {
  import opened Ints

  datatype Orientation = Horizontal | Vertical

  datatype LayoutBox = LayoutBox(xp: Long, yp: Long, wp: Long, hp: Long, x: Long, y: Long, w: Long, h: Long)

  /** An axis-aligned rectangle of cells. */
  datatype Rect = Rect(x: int, y: int, w: int, h: int)

  predicate Covers(r: Rect, cx: int, cy: int) {
    r.x <= cx < r.x + r.w && r.y <= cy < r.y + r.h
  }

  function Placement(b: LayoutBox): Rect {
    Rect(b.x, b.y, b.w, b.h)
  }

  function Parent(b: LayoutBox): Rect {
    Rect(b.xp, b.yp, b.wp, b.hp)
  }

  /** A box placed exactly on the rectangle it was created for, as every constructor leaves it. */
  predicate Fills(b: LayoutBox) {
    Placement(b) == Parent(b)
  }

  /** `LayoutBox()` */
  function EmptyBox(): (b: LayoutBox)
    ensures Fills(b) && Placement(b) == Rect(0, 0, 0, 0)
  {
    LayoutBox(0, 0, 0, 0, 0, 0, 0, 0)
  }

  /** `LayoutBox(w, h)` */
  function SizedBox(w: Long, h: Long): (b: LayoutBox)
    ensures Fills(b) && Placement(b) == Rect(0, 0, w, h)
  {
    LayoutBox(0, 0, w, h, 0, 0, w, h)
  }

  /** `LayoutBox(x, y, w, h)` */
  function PlacedBox(x: Long, y: Long, w: Long, h: Long): (b: LayoutBox)
    ensures Fills(b) && Placement(b) == Rect(x, y, w, h)
  {
    LayoutBox(x, y, w, h, x, y, w, h)
  }

  /**
   * `get_abs_pos`: box-relative coordinates to absolute ones, by `long`
   * addition. A sum past the `long` range is undefined behaviour in C++; it is
   * modelled as the two's-complement wrap of the hardware.
   */
  function AbsPos(b: LayoutBox, x0: Long, y0: Long): (r: (Long, Long))
    ensures LongMin <= b.x + x0 <= LongMax ==> r.0 == b.x + x0
    ensures LongMin <= b.y + y0 <= LongMax ==> r.1 == b.y + y0
  {
    (ToLong(b.x + x0), ToLong(b.y + y0))
  }

  /** Within the `long` range, `get_abs_pos` is a translation by the box origin. */
  lemma AbsPosTranslates(b: LayoutBox, x0: Long, y0: Long, x1: Long, y1: Long)
    requires LongMin <= b.x + x0 <= LongMax && LongMin <= b.y + y0 <= LongMax
    requires LongMin <= b.x + x1 <= LongMax && LongMin <= b.y + y1 <= LongMax
    ensures AbsPos(b, 0, 0) == (b.x, b.y)
    ensures AbsPos(b, x0, y0) == (b.x + x0, b.y + y0)
    ensures AbsPos(b, x0, y0).0 - AbsPos(b, x1, y1).0 == x0 - x1
    ensures AbsPos(b, x0, y0).1 - AbsPos(b, x1, y1).1 == y0 - y1
  {
  }

  datatype Children = Children(first: LayoutBox, second: LayoutBox)

  /** The length of the first part: `len * percentage / 100` in `unsigned long`. */
  function FirstPart(len: Long, percentage: ULong): ULong {
    ToULong(ToULong(len) * percentage) / 100
  }

  /**
   * `split`: cuts the placement across its height (horizontal) or its width
   * (vertical). Whatever the arithmetic gives, both children are fresh boxes,
   * the first starts at the parent's origin, and the axis not cut is kept.
   */
  function Split(b: LayoutBox, percentage: ULong, o: Orientation): (c: Children)
    ensures Fills(c.first) && Fills(c.second)
    ensures c.first.x == b.x && c.first.y == b.y
    ensures o == Horizontal ==> c.second.x == b.x && c.first.w == b.w && c.second.w == b.w
    ensures o == Vertical ==> c.second.y == b.y && c.first.h == b.h && c.second.h == b.h
  {
    match o
    case Horizontal =>
      var firstH := FirstPart(b.h, percentage);
      var secondH := ToULong(ToULong(b.h) - firstH);
      Children(PlacedBox(b.x, b.y, b.w, ToLong(firstH)),
               PlacedBox(b.x, ToLong(ToULong(b.y) + firstH), b.w, ToLong(secondH)))
    case Vertical =>
      var firstW := FirstPart(b.w, percentage);
      var secondW := ToULong(ToULong(b.w) - firstW);
      Children(PlacedBox(b.x, b.y, ToLong(firstW), b.h),
               PlacedBox(ToLong(ToULong(b.x) + firstW), b.y, ToLong(secondW), b.h))
  }

  /** Without wrap-around, the first part is `len * percentage / 100` and fits in `len`. */
  lemma FirstPartFits(len: Long, percentage: ULong)
    requires 0 <= len && len * 100 < ULongModulus && percentage <= 100
    ensures FirstPart(len, percentage) == len * percentage / 100 <= len
  {
    var prod := len * percentage;
    assert 0 <= prod <= len * 100 by {
      assert len * 100 - prod == len * (100 - percentage);
      assert len * (100 - percentage) >= 0;
    }
    assert ToULong(len) == len;
    assert ToULong(prod) == prod;
    var q := prod / 100;
    assert q * 100 <= prod;
    assert q <= len;
  }

  /** The conditions under which a split computes without wrap-around, for the length it cuts. */
  predicate Splittable(start: Long, len: Long, percentage: ULong) {
    0 <= len && len * 100 < ULongModulus && start + len <= LongMax && percentage <= 100
  }

  /** Both parts of a split length, and the start of the second, computed without wrap-around. */
  lemma PartsFit(start: Long, len: Long, p: ULong)
    requires Splittable(start, len, p)
    ensures var f := FirstPart(len, p);
      && 0 <= f <= len
      && ToLong(f) == f
      && ToLong(ToULong(ToULong(len) - f)) == len - f
      && ToLong(ToULong(start) + f) == start + f
  {
    FirstPartFits(len, p);
    var f := FirstPart(len, p);
    assert ToULong(len) == len;
    assert ToULong(len - f) == len - f;
    OffsetInULong(start, f);
  }

  /**
   * A horizontal split gives the first child `h * p / 100` rows and the second
   * the rest, starting where the first ends; both keep x and w, and each is a
   * fresh box on its own rectangle.
   */
  lemma SplitHorizontalSizes(b: LayoutBox, p: ULong)
    requires Splittable(b.y, b.h, p)
    ensures var c := Split(b, p, Horizontal);
      && 0 <= c.first.h == b.h * p / 100 <= b.h
      && c.first == PlacedBox(b.x, b.y, b.w, c.first.h)
      && c.second == PlacedBox(b.x, b.y + c.first.h, b.w, b.h - c.first.h)
  {
    PartsFit(b.y, b.h, p);
    FirstPartFits(b.h, p);
  }

  /** The vertical mirror: the split cuts the width, and both children keep y and h. */
  lemma SplitVerticalSizes(b: LayoutBox, p: ULong)
    requires Splittable(b.x, b.w, p)
    ensures var c := Split(b, p, Vertical);
      && 0 <= c.first.w == b.w * p / 100 <= b.w
      && c.first == PlacedBox(b.x, b.y, c.first.w, b.h)
      && c.second == PlacedBox(b.x + c.first.w, b.y, b.w - c.first.w, b.h)
  {
    PartsFit(b.x, b.w, p);
    FirstPartFits(b.w, p);
  }

  /** A rectangle cut into a top part of `f` rows and the rest is tiled by the two parts. */
  lemma RowsTile(r: Rect, f: int)
    requires 0 <= f <= r.h
    ensures forall cx, cy ::
      && (Covers(r, cx, cy) <==> Covers(Rect(r.x, r.y, r.w, f), cx, cy) || Covers(Rect(r.x, r.y + f, r.w, r.h - f), cx, cy))
      && !(Covers(Rect(r.x, r.y, r.w, f), cx, cy) && Covers(Rect(r.x, r.y + f, r.w, r.h - f), cx, cy))
  {
  }

  /** A rectangle cut into a left part of `f` columns and the rest is tiled by the two parts. */
  lemma ColumnsTile(r: Rect, f: int)
    requires 0 <= f <= r.w
    ensures forall cx, cy ::
      && (Covers(r, cx, cy) <==> Covers(Rect(r.x, r.y, f, r.h), cx, cy) || Covers(Rect(r.x + f, r.y, r.w - f, r.h), cx, cy))
      && !(Covers(Rect(r.x, r.y, f, r.h), cx, cy) && Covers(Rect(r.x + f, r.y, r.w - f, r.h), cx, cy))
  {
  }

  /** The two children of a split tile the parent's placement: every cell lies in exactly one of them. */
  lemma SplitTiles(b: LayoutBox, p: ULong, o: Orientation)
    requires o == Horizontal ==> Splittable(b.y, b.h, p)
    requires o == Vertical ==> Splittable(b.x, b.w, p)
    ensures var c := Split(b, p, o);
      forall cx, cy ::
        && (Covers(Placement(b), cx, cy) <==> Covers(Placement(c.first), cx, cy) || Covers(Placement(c.second), cx, cy))
        && !(Covers(Placement(c.first), cx, cy) && Covers(Placement(c.second), cx, cy))
  {
    var c := Split(b, p, o);
    if o == Horizontal {
      SplitHorizontalSizes(b, p);
      RowsTile(Placement(b), c.first.h);
    } else {
      SplitVerticalSizes(b, p);
      ColumnsTile(Placement(b), c.first.w);
    }
  }

  /** A position inside the second child of a horizontal split is the parent's position shifted down by the first child's height. */
  lemma SecondChildOffset(b: LayoutBox, p: ULong, x0: Long, y0: Long)
    requires Splittable(b.y, b.h, p)
    requires 0 <= b.y && 0 <= y0 && b.y + b.h + y0 <= LongMax
    ensures var c := Split(b, p, Horizontal);
      && 0 <= c.first.h + y0 <= LongMax
      && AbsPos(c.second, x0, y0) == AbsPos(b, x0, c.first.h + y0)
  {
    var c := Split(b, p, Horizontal);
    SplitHorizontalSizes(b, p);
    var f := c.first.h;
    assert c.second.x == b.x && c.second.y == b.y + f;
    assert c.second.y + y0 == b.y + (f + y0);
  }

  /**
   * `center`: resizes the placement to (nw, nh) and places it in the middle of
   * the parent rectangle, computed in `unsigned long`.
   */
  function Center(b: LayoutBox, nw: ULong, nh: ULong): (c: LayoutBox)
    ensures Parent(c) == Parent(b)
    ensures nw <= LongMax ==> c.w == nw
    ensures nh <= LongMax ==> c.h == nh
  {
    b.(x := ToLong(ToULong(b.xp) + ToULong(ToULong(b.wp) - nw) / 2),
       y := ToLong(ToULong(b.yp) + ToULong(ToULong(b.hp) - nh) / 2),
       w := ToLong(nw),
       h := ToLong(nh))
  }

  /**
   * A size that fits the parent is centred inside it: the new placement has
   * the requested size, lies within the parent, and its margins on either side
   * differ by at most one cell.
   */
  lemma CenterInside(b: LayoutBox, nw: ULong, nh: ULong)
    requires nw <= b.wp && b.xp + b.wp <= LongMax
    requires nh <= b.hp && b.yp + b.hp <= LongMax
    ensures var c := Center(b, nw, nh);
      && Parent(c) == Parent(b)
      && c.w == nw && c.h == nh
      && b.xp <= c.x && c.x + nw <= b.xp + b.wp
      && b.yp <= c.y && c.y + nh <= b.yp + b.hp
      && 0 <= (b.xp + b.wp - (c.x + nw)) - (c.x - b.xp) <= 1
      && 0 <= (b.yp + b.hp - (c.y + nh)) - (c.y - b.yp) <= 1
  {
    CenterAxis(b.xp, b.wp, nw);
    CenterAxis(b.yp, b.hp, nh);
  }

  /** One axis of `center`: the start `start + (len - n) / 2` computed in `unsigned long`, read back as `long`. */
  lemma CenterAxis(start: Long, len: Long, n: ULong)
    requires n <= len && start + len <= LongMax
    ensures ToLong(ToULong(start) + ToULong(ToULong(len) - n) / 2) == start + (len - n) / 2
    ensures ToLong(n) == n
  {
    assert ToULong(len) == len;
    assert ToULong(len - n) == len - n;
    OffsetInULong(start, (len - n) / 2);
  }

  /** Centring depends only on the parent rectangle: re-centring forgets an earlier centring. */
  lemma CenterForgetsPlacement(b: LayoutBox, nw: ULong, nh: ULong, nw': ULong, nh': ULong)
    ensures Center(Center(b, nw, nh), nw', nh') == Center(b, nw', nh')
  {
    SameParentSameCenter(Center(b, nw, nh), b, nw', nh');
  }

  lemma SameParentSameCenter(b1: LayoutBox, b2: LayoutBox, nw: ULong, nh: ULong)
    requires Parent(b1) == Parent(b2)
    ensures Center(b1, nw, nh) == Center(b2, nw, nh)
  {
    assert b1.xp == b2.xp && b1.yp == b2.yp && b1.wp == b2.wp && b1.hp == b2.hp;
  }

  /** Centring a freshly built box at its parent's own size leaves it as it was. */
  lemma CenterFullSize(b: LayoutBox)
    requires Fills(b) && 0 <= b.wp && 0 <= b.hp
    ensures Center(b, b.wp, b.hp) == b
  {
    assert ToULong(b.wp) == b.wp && ToULong(b.hp) == b.hp;
    OffsetInULong(b.xp, 0);
    OffsetInULong(b.yp, 0);
  }
}
