/** Numbering a grid row by row. */
module RowMajor {

  /** Row-major numbering: a number has one column and one row. */
  lemma RowMajorUnique(w: int, col: int, row: int, col': int, row': int)
    requires 0 <= col < w && 0 <= col' < w
    requires col + row * w == col' + row' * w
    ensures col == col' && row == row'
  {
    var d := row - row';
    assert d * w == col' - col;
    MultipleAtLeast(d, w);
  }

  lemma MultipleAtLeast(d: int, w: int)
    requires w > 0
    ensures d >= 1 ==> d * w >= w
    ensures d <= -1 ==> d * w <= -w
  {
    if d >= 1 {
      assert (d - 1) * w >= 0;
    } else if d <= -1 {
      assert (d + 1) * w <= 0;
    }
  }
}
