/**
 * The framed text block `Box` draws into a character grid (src/render.cpp,
 * `struct Box`): a border of '+', '|' and '-' around a block of text lines,
 * written cell by cell into `asciiGrid`, a vector of strings.
 */
module AsciiBox {
  import opened Ints

  /** `asciiGrid`: rows of characters, indexed `[row][column]`. */
  type Canvas = seq<seq<char>>

  /** A box's origin and size, stored as `unsigned long`. */
  datatype Box = Box(x: ULong, y: ULong, w: ULong, h: ULong)

  /** `Box(asciiGrid, x, y, w, h)`: `long` and `int` arguments converted to `unsigned long`. */
  function MakeBox(x: Long, y: Long, w: CInt, h: CInt): (b: Box)
    ensures 0 <= x ==> b.x == x
    ensures x < 0 ==> b.x == x + ULongModulus
    ensures 0 <= y ==> b.y == y
    ensures 0 <= w ==> b.w == w
    ensures 0 <= h ==> b.h == h
  {
    Box(ToULong(x), ToULong(y), ToULong(w), ToULong(h))
  }

  /** Read back as the `long` and `int` values it was built from, every field is unchanged. */
  lemma MakeBoxReadsBack(x: Long, y: Long, w: CInt, h: CInt)
    ensures var b := MakeBox(x, y, w, h);
      ToLong(b.x) == x && ToLong(b.y) == y && ToLong(b.w) == w && ToLong(b.h) == h
  {
    OffsetInULong(x, 0);
    OffsetInULong(y, 0);
    OffsetInULong(w, 0);
    OffsetInULong(h, 0);
  }

  /**
   * `checkInputText`: the text has `h - 2` lines of `w - 2` characters each,
   * with both differences taken in `unsigned long`.
   */
  predicate CheckInputText(b: Box, text: seq<string>) {
    && |text| == ToULong(b.h - 2)
    && forall i | 0 <= i < |text| :: |text[i]| == ToULong(b.w - 2)
  }

  /**
   * For any text a vector can hold, the check demands a box at least two rows
   * high with exactly two more rows than lines, and, when there is a line, two
   * more columns than each line has characters; conversely such a text passes.
   */
  lemma CheckInputTextShape(b: Box, text: seq<string>)
    requires |text| < ULongModulus - 2
    requires forall i | 0 <= i < |text| :: |text[i]| < ULongModulus - 2
    ensures CheckInputText(b, text) ==> 2 <= b.h && |text| == b.h - 2
    ensures CheckInputText(b, text) && |text| > 0 ==>
      2 <= b.w && forall i | 0 <= i < |text| :: |text[i]| == b.w - 2
    ensures 2 <= b.h && 2 <= b.w && |text| == b.h - 2 && (forall i | 0 <= i < |text| :: |text[i]| == b.w - 2) ==>
      CheckInputText(b, text)
  {
    if CheckInputText(b, text) && |text| > 0 {
      assert |text[0]| == ToULong(b.w - 2);
    }
  }

  predicate SameShape(c: Canvas, c': Canvas) {
    |c'| == |c| && forall r | 0 <= r < |c| :: |c'[r]| == |c[r]|
  }

  /** Every cell of the box exists in the canvas. */
  predicate FitsIn(c: Canvas, b: Box) {
    b.y + b.h <= |c| && forall r | b.y <= r < b.y + b.h :: b.x + b.w <= |c[r]|
  }

  /** `populateChar`: writes one cell at a box-relative position. */
  function PutChar(c: Canvas, b: Box, xIdx: int, yIdx: int, ch: char): (c': Canvas)
    requires 0 <= xIdx && 0 <= yIdx
    requires b.y + yIdx < |c| && b.x + xIdx < |c[b.y + yIdx]|
    ensures SameShape(c, c')
    ensures c'[b.y + yIdx][b.x + xIdx] == ch
    ensures forall r, k | 0 <= r < |c| && 0 <= k < |c[r]| && (r != b.y + yIdx || k != b.x + xIdx) :: c'[r][k] == c[r][k]
  {
    c[b.y + yIdx := c[b.y + yIdx][b.x + xIdx := ch]]
  }

  /** What `populate` may be asked to draw: the checked text in a box of at least one column and two rows. */
  predicate Drawable(b: Box, text: seq<string>) {
    2 <= b.h && 1 <= b.w && CheckInputText(b, text)
  }

  predicate InBox(b: Box, k: int, r: int) {
    b.x <= k < b.x + b.w && b.y <= r < b.y + b.h
  }

  // Regions of the frame, in box-relative coordinates (column, row).

  predicate IsCorner(b: Box, col: int, row: int) {
    (col == 0 || col == b.w - 1) && (row == 0 || row == b.h - 1)
  }

  predicate OnSide(b: Box, col: int, row: int) {
    (col == 0 || col == b.w - 1) && 1 <= row < b.h - 1
  }

  predicate OnTopOrBottom(b: Box, col: int, row: int) {
    1 <= col < b.w - 1 && (row == 0 || row == b.h - 1)
  }

  predicate Inside(b: Box, col: int, row: int) {
    1 <= col < b.w - 1 && 1 <= row < b.h - 1
  }

  /** The character the finished box shows at a box-relative cell. */
  function Glyph(b: Box, text: seq<string>, col: int, row: int): char
    requires Drawable(b, text) && 0 <= col < b.w && 0 <= row < b.h
  {
    if IsCorner(b, col, row) then '+'
    else if OnSide(b, col, row) then '|'
    else if OnTopOrBottom(b, col, row) then '-'
    else text[row - 1][col - 1]
  }

  /**
   * The cells `populate` has written after its corner step (stage 1), its
   * side loop up to row `i` (stage 2), its top-and-bottom loop up to column
   * `i` (stage 3), and its text loop up to row `i`, column `j` (stage 4).
   */
  ghost predicate Drawn(b: Box, col: int, row: int, stage: nat, i: int, j: int) {
    || IsCorner(b, col, row)
    || (stage >= 2 && OnSide(b, col, row) && (stage > 2 || row < i))
    || (stage >= 3 && OnTopOrBottom(b, col, row) && (stage > 3 || col < i))
    || (stage >= 4 && Inside(b, col, row) && (row < i || (row == i && col < j)))
  }

  /** `c1` is `c0` with exactly the drawn cells of the box holding their glyphs. */
  ghost predicate Painted(c0: Canvas, c1: Canvas, b: Box, text: seq<string>, stage: nat, i: int, j: int)
    requires Drawable(b, text)
  {
    && SameShape(c0, c1)
    && forall r, k | 0 <= r < |c1| && 0 <= k < |c1[r]| ::
      c1[r][k] == if InBox(b, k, r) && Drawn(b, k - b.x, r - b.y, stage, i, j)
        then Glyph(b, text, k - b.x, r - b.y) else c0[r][k]
  }

  /** The four corners: `populate`'s first step. */
  method DrawCorners(c0: Canvas, b: Box, text: seq<string>) returns (c1: Canvas)
    requires Drawable(b, text) && FitsIn(c0, b)
    ensures Painted(c0, c1, b, text, 2, 1, 0)
  {
    c1 := PutChar(c0, b, 0, 0, '+');
    c1 := PutChar(c1, b, 0, b.h - 1, '+');
    c1 := PutChar(c1, b, b.w - 1, 0, '+');
    c1 := PutChar(c1, b, b.w - 1, b.h - 1, '+');
  }

  /** The left and right sides, row by row. */
  method DrawSides(ghost c0: Canvas, c1: Canvas, b: Box, text: seq<string>) returns (c2: Canvas)
    requires Drawable(b, text) && FitsIn(c0, b)
    requires Painted(c0, c1, b, text, 2, 1, 0)
    ensures Painted(c0, c2, b, text, 3, 1, 0)
  {
    c2 := c1;
    var i := 1;
    while i < b.h - 1
      invariant 1 <= i <= b.h - 1
      invariant Painted(c0, c2, b, text, 2, i, 0)
    {
      c2 := PutChar(c2, b, 0, i, '|');
      c2 := PutChar(c2, b, b.w - 1, i, '|');
      i := i + 1;
    }
  }

  /** The top and bottom edges, column by column. */
  method DrawEdges(ghost c0: Canvas, c1: Canvas, b: Box, text: seq<string>) returns (c2: Canvas)
    requires Drawable(b, text) && FitsIn(c0, b)
    requires Painted(c0, c1, b, text, 3, 1, 0)
    ensures Painted(c0, c2, b, text, 4, 1, 0)
  {
    c2 := c1;
    var i := 1;
    while i < b.w - 1
      invariant 1 <= i && (i <= b.w - 1 || i == 1)
      invariant Painted(c0, c2, b, text, 3, i, 0)
    {
      c2 := PutChar(c2, b, i, 0, '-');
      c2 := PutChar(c2, b, i, b.h - 1, '-');
      i := i + 1;
    }
  }

  /** One line of text, into row `i` of the box. */
  method DrawLine(ghost c0: Canvas, c1: Canvas, b: Box, text: seq<string>, i: int) returns (c2: Canvas)
    requires Drawable(b, text) && FitsIn(c0, b) && 1 <= i < b.h - 1
    requires Painted(c0, c1, b, text, 4, i, 0)
    ensures Painted(c0, c2, b, text, 4, i + 1, 0)
  {
    c2 := c1;
    var j := 1;
    while j < b.w - 1
      invariant 1 <= j && (j <= b.w - 1 || j == 1)
      invariant Painted(c0, c2, b, text, 4, i, j)
    {
      c2 := PutChar(c2, b, j, i, text[i - 1][j - 1]);
      j := j + 1;
    }
  }

  /** All lines of text, row by row. */
  method DrawText(ghost c0: Canvas, c1: Canvas, b: Box, text: seq<string>) returns (c2: Canvas)
    requires Drawable(b, text) && FitsIn(c0, b)
    requires Painted(c0, c1, b, text, 4, 1, 0)
    ensures Painted(c0, c2, b, text, 4, b.h - 1, 0)
  {
    c2 := c1;
    var i := 1;
    while i < b.h - 1
      invariant 1 <= i <= b.h - 1
      invariant Painted(c0, c2, b, text, 4, i, 0)
    {
      c2 := DrawLine(c0, c2, b, text, i);
      i := i + 1;
    }
  }

  /** A fully painted box shows its frame and its text, and nothing outside it changed. */
  lemma PaintedPicture(c0: Canvas, c1: Canvas, b: Box, text: seq<string>)
    requires Drawable(b, text) && FitsIn(c0, b)
    requires Painted(c0, c1, b, text, 4, b.h - 1, 0)
    ensures c1[b.y][b.x] == '+' && c1[b.y + b.h - 1][b.x] == '+'
    ensures c1[b.y][b.x + b.w - 1] == '+' && c1[b.y + b.h - 1][b.x + b.w - 1] == '+'
    ensures forall r | b.y + 1 <= r < b.y + b.h - 1 :: c1[r][b.x] == '|' && c1[r][b.x + b.w - 1] == '|'
    ensures forall k | b.x + 1 <= k < b.x + b.w - 1 :: c1[b.y][k] == '-' && c1[b.y + b.h - 1][k] == '-'
    ensures forall r, k | b.y + 1 <= r < b.y + b.h - 1 && b.x + 1 <= k < b.x + b.w - 1 ::
      c1[r][k] == text[r - b.y - 1][k - b.x - 1]
    ensures forall r, k | 0 <= r < |c0| && 0 <= k < |c0[r]| && !InBox(b, k, r) :: c1[r][k] == c0[r][k]
  {
  }

  /**
   * `populate`: checks the text, then draws the four corners, the left and
   * right sides, the top and bottom edges and the text inside, in that order.
   * It leaves '+' at the corners, '|' on the sides, '-' on the top and bottom
   * edges and the text inside, and writes no cell outside the box.
   */
  method Populate(c: Canvas, b: Box, text: seq<string>) returns (c': Canvas)
    requires CheckInputText(b, text)
    requires 2 <= b.h && 1 <= b.w
    requires FitsIn(c, b)
    ensures SameShape(c, c')
    ensures c'[b.y][b.x] == '+' && c'[b.y + b.h - 1][b.x] == '+'
    ensures c'[b.y][b.x + b.w - 1] == '+' && c'[b.y + b.h - 1][b.x + b.w - 1] == '+'
    ensures forall r | b.y + 1 <= r < b.y + b.h - 1 :: c'[r][b.x] == '|' && c'[r][b.x + b.w - 1] == '|'
    ensures forall k | b.x + 1 <= k < b.x + b.w - 1 :: c'[b.y][k] == '-' && c'[b.y + b.h - 1][k] == '-'
    ensures forall r, k | b.y + 1 <= r < b.y + b.h - 1 && b.x + 1 <= k < b.x + b.w - 1 ::
      c'[r][k] == text[r - b.y - 1][k - b.x - 1]
    ensures forall r, k | 0 <= r < |c| && 0 <= k < |c[r]| && !InBox(b, k, r) :: c'[r][k] == c[r][k]
  {
    c' := DrawCorners(c, b, text);
    c' := DrawSides(c, c', b, text);
    c' := DrawEdges(c, c', b, text);
    c' := DrawText(c, c', b, text);
    PaintedPicture(c, c', b, text);
  }
}
