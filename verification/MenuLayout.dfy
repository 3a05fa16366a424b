/** The dropdown menus: where each row is painted, and which item a click on a row means. */
module MenuLayout {
  import opened Bytes

  datatype Rect = Rect(x: nat, y: nat, w: nat, h: nat)

  /** A painted interior row: a separator in front of an item, or the item itself. */
  datatype Row = Separator(before: nat) | Item(index: nat)

  /** A menu is its item count and the items that have a separator before them, in order. */
  datatype Menu = Menu(items: nat, separators: seq<nat>) {
    ghost predicate WellFormed() {
      && (forall i :: 0 <= i < |separators| ==> separators[i] < items)
      && (forall i, j :: 0 <= i < j < |separators| ==> separators[i] < separators[j])
    }
  }

  // ----- The box

  datatype Anchor = Anchor(x: nat, y: nat, width: nat, openUp: bool)

  const U16_MAX: nat := 0xffff

  function Min(a: nat, b: nat): nat { if a < b then a else b }
  function Max(a: nat, b: nat): nat { if a < b then b else a }
  function Minus(a: nat, b: nat): nat { if a < b then 0 else a - b }

  /** The box for content of a given width; it opens beside its anchor, or beside the status line. */
  function MenuRect(m: Menu, contentWidth: nat, anchor: Option<Anchor>, cols: nat, rows: nat, statusTop: bool): Rect {
    var w := Max(Min(Max(contentWidth + 4, if anchor.Some? then anchor.value.width else 0), Minus(cols, 2)), 6);
    var h := Min(m.items + |m.separators| + 2, Minus(rows, 2));
    var x := Min(if anchor.Some? then anchor.value.x else 1, Max(Minus(cols, w), 1));
    var y := if anchor.Some? then
               if anchor.value.openUp then Minus(anchor.value.y, h) else Min(anchor.value.y + 1, U16_MAX)
             else if statusTop then 2 else Minus(rows, h);
    Rect(x, Max(y, 1), w, h)
  }

  // ----- What is painted

  /** All interior rows from item `i` on, before clipping. */
  function RowsFrom(m: Menu, i: nat): seq<Row>
    decreases m.items - i
  {
    if i >= m.items then []
    else (if i in m.separators then [Separator(i)] else []) + [Item(i)] + RowsFrom(m, i + 1)
  }

  /** As many rows as fit. */
  function Clip(rows: seq<Row>, n: nat): seq<Row> { rows[..Min(|rows|, n)] }

  /** The interior rows that fit between the borders. */
  function Visible(m: Menu, h: nat): seq<Row> { Clip(RowsFrom(m, 0), Minus(h, 2)) }

  lemma ClipFull(painted: seq<Row>, rest: seq<Row>)
    ensures Clip(painted + rest, |painted|) == painted
  {
  }

  lemma PaintOne(painted: seq<Row>, row: Row, rest: seq<Row>)
    ensures painted + ([row] + rest) == (painted + [row]) + rest
  {
  }

  lemma RowsHere(m: Menu, i: nat)
    requires i < m.items
    ensures RowsFrom(m, i) ==
            if i in m.separators then [Separator(i)] + ([Item(i)] + RowsFrom(m, i + 1))
              else [Item(i)] + RowsFrom(m, i + 1)
  {
  }

  /** The row loop of the renderer: rows go down from below the top border until the bottom border. */
  method PaintRows(m: Menu, r: Rect) returns (painted: seq<Row>)
    ensures painted == Visible(m, r.h)
  {
    painted := [];
    var rowY := r.y + 1;
    ghost var todo := RowsFrom(m, 0);
    ghost var n := Minus(r.h, 2);
    for i := 0 to m.items
      invariant rowY == r.y + 1 + |painted| && |painted| <= n
      invariant todo == RowsFrom(m, i) && Visible(m, r.h) == Clip(painted + todo, n)
    {
      RowsHere(m, i);
      if i in m.separators {
        if rowY >= r.y + r.h - 1 {
          ClipFull(painted, todo);
          return;
        }
        PaintOne(painted, Separator(i), [Item(i)] + RowsFrom(m, i + 1));
        painted, rowY, todo := painted + [Separator(i)], rowY + 1, [Item(i)] + RowsFrom(m, i + 1);
      }
      if rowY >= r.y + r.h - 1 {
        ClipFull(painted, todo);
        return;
      }
      PaintOne(painted, Item(i), RowsFrom(m, i + 1));
      painted, rowY, todo := painted + [Item(i)], rowY + 1, RowsFrom(m, i + 1);
    }
    assert painted + [] == painted;
  }

  // ----- Which row an item is on

  /** Exactly the first `j` separators stand before an item below `i`. */
  ghost predicate Below(m: Menu, i: nat, j: nat) {
    && j <= |m.separators|
    && (forall k :: 0 <= k < j ==> m.separators[k] < i)
    && (forall k :: j <= k < |m.separators| ==> m.separators[k] >= i)
  }

  lemma BelowBefore(m: Menu, i: nat, j: nat) returns (j': nat)
    requires m.WellFormed() && i > 0 && Below(m, i, j)
    ensures Below(m, i - 1, j') && j == j' + (if i - 1 in m.separators then 1 else 0)
  {
    j' := if j > 0 && m.separators[j - 1] == i - 1 then j - 1 else j;
    if i - 1 in m.separators {
      var k :| 0 <= k < |m.separators| && m.separators[k] == i - 1;
      assert k < j && m.separators[j - 1] < i;
    }
  }

  /** The rows of item `i` and everything after it start at row `i + j`. */
  lemma {:induction false} RowsStartAt(m: Menu, i: nat, j: nat)
    requires m.WellFormed() && i <= m.items && Below(m, i, j)
    ensures i + j <= |RowsFrom(m, 0)| && RowsFrom(m, 0)[i + j..] == RowsFrom(m, i)
    decreases i
  {
    if i == 0 {
      assert |m.separators| > 0 ==> m.separators[0] >= 0;
    } else {
      var j' := BelowBefore(m, i, j);
      RowsStartAt(m, i - 1, j');
      var step := if i - 1 in m.separators then 2 else 1;
      RowsNext(m, i - 1);
      DropTwice(RowsFrom(m, 0), i - 1 + j', step);
    }
  }

  lemma RowsNext(m: Menu, i: nat)
    requires i < m.items
    ensures var step := if i in m.separators then 2 else 1;
            step <= |RowsFrom(m, i)| && RowsFrom(m, i)[step..] == RowsFrom(m, i + 1)
  {
    RowsHere(m, i);
  }

  lemma DropTwice(rows: seq<Row>, a: nat, b: nat)
    requires a + b <= |rows|
    ensures rows[a..][b..] == rows[a + b..]
  {
  }

  lemma RowCount(m: Menu)
    requires m.WellFormed()
    ensures |RowsFrom(m, 0)| == m.items + |m.separators|
  {
    RowsStartAt(m, m.items, |m.separators|);
  }

  lemma SeparatorRow(m: Menu, a: nat)
    requires m.WellFormed() && a < |m.separators|
    ensures m.separators[a] + a < |RowsFrom(m, 0)| && RowsFrom(m, 0)[m.separators[a] + a] == Separator(m.separators[a])
  {
    var i := m.separators[a];
    RowsStartAt(m, i, a);
    RowsHere(m, i);
    assert RowsFrom(m, 0)[i + a] == RowsFrom(m, 0)[i + a..][0];
  }

  lemma ItemRow(m: Menu, i: nat, a: nat)
    requires m.WellFormed() && i < m.items && Below(m, i + 1, a)
    ensures i + a < |RowsFrom(m, 0)| && RowsFrom(m, 0)[i + a] == Item(i)
  {
    var j := BelowBefore(m, i + 1, a);
    RowsStartAt(m, i, j);
    RowsHere(m, i);
    var rest := RowsFrom(m, 0)[i + j..];
    assert rest[a - j] == Item(i) && RowsFrom(m, 0)[i + a] == rest[a - j];
  }

  /** What a click on interior row `row` must mean: the item painted there, if one is. */
  ghost function ItemOn(m: Menu, row: nat): Option<nat> {
    if row < |RowsFrom(m, 0)| && RowsFrom(m, 0)[row].Item? then Some(RowsFrom(m, 0)[row].index) else None
  }

  /** The separator count of the hit test: those above `row` have been passed. */
  ghost predicate Passed(m: Menu, row: nat, above: nat) {
    above <= |m.separators| && forall k :: 0 <= k < above ==> m.separators[k] + k < row
  }

  lemma HitItem(m: Menu, row: nat, above: nat)
    requires m.WellFormed() && Passed(m, row, above)
    requires above < |m.separators| ==> row < m.separators[above] + above
    ensures above <= row && ItemOn(m, row) == if row - above < m.items then Some(row - above) else None
  {
    assert above > 0 ==> m.separators[above - 1] + (above - 1) < row;
    assert forall k :: above <= k < |m.separators| ==> m.separators[above] <= m.separators[k];
    assert forall k :: 0 <= k < above ==> m.separators[k] <= m.separators[above - 1];
    var i := row - above;
    if i < m.items {
      ItemRow(m, i, above);
    } else {
      RowCount(m);
    }
  }

  /** The hit test: the item painted under the cell, or nothing on a separator, a border or outside. */
  method ItemAt(m: Menu, r: Rect, cx: nat, cy: nat) returns (item: Option<nat>)
    requires m.WellFormed()
    ensures var painted := Visible(m, r.h);
            item == if r.x < cx < r.x + r.w - 1 && r.y < cy < r.y + r.h - 1
                       && cy - r.y - 1 < |painted| && painted[cy - r.y - 1].Item?
                    then Some(painted[cy - r.y - 1].index) else None
  {
    if cx <= r.x || cx >= r.x + r.w - 1 || cy <= r.y || cy >= r.y + r.h - 1 {
      return None;
    }
    var row := cy - r.y - 1;
    assert Visible(m, r.h) == Clip(RowsFrom(m, 0), r.h - 2);
    var above := 0;
    while above < |m.separators|
      invariant Passed(m, row, above)
    {
      var separatorRow := m.separators[above] + above;
      if row == separatorRow {
        SeparatorRow(m, above);
        return None;
      }
      if row < separatorRow {
        break;
      }
      above := above + 1;
    }
    HitItem(m, row, above);
    item := if row - above < m.items then Some(row - above) else None;
  }

  /** Every painted item can be clicked: its row resolves to it, and to no other item. */
  lemma RowsAreDistinct(m: Menu, i: nat, j: nat)
    requires m.WellFormed() && i < |RowsFrom(m, 0)| && j < |RowsFrom(m, 0)|
    requires RowsFrom(m, 0)[i] == RowsFrom(m, 0)[j]
    ensures i == j
  {
    RowsInOrder(m, 0, i, j);
    RowsInOrder(m, 0, j, i);
  }

  function Rank(row: Row): int {
    match row
    case Separator(before) => 2 * before
    case Item(index) => 2 * index + 1
  }

  lemma {:induction false} RowsInOrder(m: Menu, from: nat, i: nat, j: nat)
    requires i < j < |RowsFrom(m, from)| || j <= i
    requires i < |RowsFrom(m, from)|
    ensures Rank(RowsFrom(m, from)[i]) >= 2 * from
    ensures i < j ==> Rank(RowsFrom(m, from)[i]) < Rank(RowsFrom(m, from)[j])
    decreases m.items - from
  {
    RowsHere(m, from);
    var step := if from in m.separators then 2 else 1;
    if i >= step {
      RowsInOrder(m, from + 1, i - step, if i < j then j - step else 0);
    }
    if i < step <= j {
      RowsInOrder(m, from + 1, j - step, 0);
    }
  }

  /** A box that is not clipped by the screen paints every row. */
  lemma UnclippedShowsAll(m: Menu, contentWidth: nat, anchor: Option<Anchor>, cols: nat, rows: nat, statusTop: bool)
    requires m.WellFormed() && m.items + |m.separators| + 4 <= rows
    ensures Visible(m, MenuRect(m, contentWidth, anchor, cols, rows, statusTop).h) == RowsFrom(m, 0)
  {
    RowCount(m);
  }

  /** On any screen wide enough for the smallest box, the box and its shadow fit sideways, wherever the anchor is. */
  lemma FitsSideways(m: Menu, contentWidth: nat, anchor: Option<Anchor>, cols: nat, rows: nat, statusTop: bool)
    requires anchor.Some? ==> anchor.value.x >= 1
    ensures var r := MenuRect(m, contentWidth, anchor, cols, rows, statusTop);
            r.x >= 1 && (r.x + r.w <= cols <==> cols >= 7)
  {
  }

  /**
   The box stays above the lower edge of the screen exactly if it is not anchored, opens upwards from a row
   of the screen, or opens downwards from a row with enough room below: a low anchor is not clamped.
   */
  lemma StaysOnScreenExactlyWhen(
    m: Menu, contentWidth: nat, anchor: Option<Anchor>, cols: nat, rows: nat, statusTop: bool
  )
    requires rows >= 2 && (anchor.Some? ==> anchor.value.y < U16_MAX)
    ensures var r := MenuRect(m, contentWidth, anchor, cols, rows, statusTop);
            r.y + r.h <= rows + 1 <==>
            match anchor
            case None => true
            case Some(a) => if a.openUp then a.y <= rows + 1
              else a.y + Min(m.items + |m.separators| + 2, rows - 2) <= rows
  {
  }

  /**
   With room on the screen the box is as wide as its content or its anchor, as high as its rows, and opens at its
   anchor: below it, or above it so that it ends right there; without an anchor in the first column, beside the
   status line.
   */
  lemma OpensAtAnchor(m: Menu, contentWidth: nat, anchor: Option<Anchor>, cols: nat, rows: nat, statusTop: bool)
    requires var width := Max(contentWidth + 4, if anchor.Some? then anchor.value.width else 0);
             6 <= width && (if anchor.Some? then anchor.value.x else 1) + width <= cols && width + 2 <= cols
    requires m.items + |m.separators| + 4 <= rows
    requires anchor.Some? ==> anchor.value.x >= 1 && anchor.value.y < U16_MAX
    requires anchor.Some? && anchor.value.openUp ==> m.items + |m.separators| + 2 < anchor.value.y
    ensures var r := MenuRect(m, contentWidth, anchor, cols, rows, statusTop);
            && r.h == m.items + |m.separators| + 2
            && match anchor
               case None =>
                 && r.x == 1 && r.w == contentWidth + 4
                 && (if statusTop then r.y == 2 else r.y + r.h == rows)
               case Some(a) =>
                 && r.x == a.x && r.w >= contentWidth + 4 && r.w >= a.width
                 && (r.w == contentWidth + 4 || r.w == a.width)
                 && (if a.openUp then r.y + r.h == a.y else r.y == a.y + 1)
  {
  }

  /** The Project menu on a screen of 24 rows, opening downwards from row 12: its box ends at row 28. */
  lemma LowAnchorLeavesScreen(contentWidth: nat, x: nat, width: nat, cols: nat, statusTop: bool)
    ensures var r := MenuRect(Menu(11, [2, 6, 8]), contentWidth, Some(Anchor(x, 12, width, false)), cols, 24,
            statusTop);
            Menu(11, [2, 6, 8]).WellFormed() && r.y == 13 && r.y + r.h - 1 == 28
  {
  }
}
