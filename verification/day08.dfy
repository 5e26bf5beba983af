/** Day 8 (`src/days/day08/mod.rs`): a grid of tree heights (one digit per
    tree). Part one counts the trees visible from outside the grid, part two
    finds the best scenic score, the product of the four viewing distances. */
module Day08 {
  import opened Utils

  /** `parse_input`'s pair: the rows of the grid, and its columns. */
  datatype Forest = Forest(rows: seq<seq<nat>>, columns: seq<seq<nat>>)

  /** Every row is as long as the first. */
  predicate Rectangular(rows: seq<seq<nat>>)
  {
    |rows| > 0 && forall y :: 0 <= y < |rows| ==> |rows[y]| == |rows[0]|
  }

  /** `get_column`: entry `index` of every row. Indexing panics on a row
      that is too short. */
  function GetColumn<T>(table: seq<seq<T>>, index: nat): (column: seq<T>)
    requires forall y :: 0 <= y < |table| ==> index < |table[y]|
    ensures |column| == |table|
    ensures forall y :: 0 <= y < |table| ==> column[y] == table[y][index]
  {
    seq(|table|, y requires 0 <= y < |table| => table[y][index])
  }

  /** The columns of a rectangular table, as `parse_input` builds them. */
  function Columns<T>(table: seq<seq<T>>): (columns: seq<seq<T>>)
    requires |table| > 0 && forall y :: 0 <= y < |table| ==> |table[y]| == |table[0]|
    ensures |columns| == |table[0]|
    ensures forall x :: 0 <= x < |columns| ==> columns[x] == GetColumn(table, x)
  {
    seq(|table[0]|, x requires 0 <= x < |table[0]| => GetColumn(table, x))
  }

  /** Taking the columns twice gives the rows back: the columns are the
      transposed grid. */
  lemma ColumnsTranspose<T>(table: seq<seq<T>>)
    requires |table| > 0 && |table[0]| > 0
    requires forall y :: 0 <= y < |table| ==> |table[y]| == |table[0]|
    ensures var columns := Columns(table);
      (forall x :: 0 <= x < |columns| ==> |columns[x]| == |columns[0]|) && Columns(columns) == table
  {
    var columns := Columns(table);
    var back := Columns(columns);
    forall y | 0 <= y < |table|
      ensures back[y] == table[y]
    {
      assert |back[y]| == |table[y]|;
      forall x | 0 <= x < |table[y]|
        ensures back[y][x] == table[y][x]
      {
        assert back[y][x] == columns[x][y];
      }
    }
  }

  /** A forest as `parse_input` returns it: rectangular rows, and the columns
      built from them. */
  predicate ValidForest(f: Forest)
  {
    Rectangular(f.rows) && f.columns == Columns(f.rows)
  }

  function Width(f: Forest): nat
    requires ValidForest(f)
  {
    |f.rows[0]|
  }

  function Height(f: Forest): nat
  {
    |f.rows|
  }

  // ---------------------------------------------------------------------------
  // Part one: visibility
  // ---------------------------------------------------------------------------

  /** `all(|height| height < tree_height)`. */
  predicate AllShorter(trees: seq<nat>, height: nat)
  {
    forall i :: 0 <= i < |trees| ==> trees[i] < height
  }

  /** The test of `part_one` for the tree in column `x` of row `y`: all the
      trees above it (`take(y)` of its column), below it (`skip(y + 1)`), to
      its left (`take(x)` of its row) or to its right (`skip(x + 1)`) are
      shorter. */
  predicate IsVisible(f: Forest, x: nat, y: nat)
    requires ValidForest(f) && x < Width(f) && y < Height(f)
  {
    var height := f.rows[y][x];
    var column := f.columns[x];
    var row := f.rows[y];
    AllShorter(column[..y], height) || AllShorter(column[y + 1..], height)
    || AllShorter(row[..x], height) || AllShorter(row[x + 1..], height)
  }

  /** Visibility stated on the grid alone: in one of the four directions,
      every tree between this one and the edge is shorter. */
  predicate VisibleInGrid(rows: seq<seq<nat>>, x: nat, y: nat)
    requires Rectangular(rows) && x < |rows[0]| && y < |rows|
  {
    var height := rows[y][x];
    (forall k :: 0 <= k < y ==> rows[k][x] < height)
    || (forall k :: y < k < |rows| ==> rows[k][x] < height)
    || (forall k :: 0 <= k < x ==> rows[y][k] < height)
    || (forall k :: x < k < |rows[0]| ==> rows[y][k] < height)
  }

  /** The test through the columns is the test on the grid. */
  lemma IsVisibleInGrid(f: Forest, x: nat, y: nat)
    requires ValidForest(f) && x < Width(f) && y < Height(f)
    ensures IsVisible(f, x, y) <==> VisibleInGrid(f.rows, x, y)
  {
    var column := f.columns[x];
    var row := f.rows[y];
    var height := row[x];
    assert forall k :: 0 <= k < |f.rows| ==> column[k] == f.rows[k][x];
    assert AllShorter(column[..y], height) <==> forall k :: 0 <= k < y ==> f.rows[k][x] < height by {
      assert forall k :: 0 <= k < y ==> column[..y][k] == f.rows[k][x];
    }
    assert AllShorter(column[y + 1..], height) <==> forall k :: y < k < |f.rows| ==> f.rows[k][x] < height by {
      assert forall k :: y < k < |f.rows| ==> column[y + 1..][k - y - 1] == f.rows[k][x];
    }
    assert AllShorter(row[..x], height) <==> forall k :: 0 <= k < x ==> row[k] < height by {
      assert forall k :: 0 <= k < x ==> row[..x][k] == row[k];
    }
    assert AllShorter(row[x + 1..], height) <==> forall k :: x < k < |row| ==> row[k] < height by {
      assert forall k :: x < k < |row| ==> row[x + 1..][k - x - 1] == row[k];
    }
  }

  /** A tree on the edge is visible: one of its directions holds no tree. */
  lemma EdgeIsVisible(f: Forest, x: nat, y: nat)
    requires ValidForest(f) && x < Width(f) && y < Height(f)
    requires x == 0 || y == 0 || x == Width(f) - 1 || y == Height(f) - 1
    ensures IsVisible(f, x, y)
  {
    IsVisibleInGrid(f, x, y);
  }

  /** The number of visible trees among the first `k` of row `y`. */
  function RowVisibleCount(f: Forest, y: nat, k: nat): (n: nat)
    requires ValidForest(f) && y < Height(f) && k <= Width(f)
    ensures n <= k
  {
    if k == 0 then 0
    else RowVisibleCount(f, y, k - 1) + (if IsVisible(f, k - 1, y) then 1 else 0)
  }

  /** The number of visible trees in the first `k` rows: the count of the
      nested loops of `part_one`. */
  function VisibleCount(f: Forest, k: nat): (n: nat)
    requires ValidForest(f) && k <= Height(f)
    ensures n <= k * Width(f)
  {
    if k == 0 then 0 else VisibleCount(f, k - 1) + RowVisibleCount(f, k - 1, Width(f))
  }

  /** The loops of `part_one` over every tree, counting the visible ones. */
  method CountVisible(f: Forest) returns (count: nat)
    requires ValidForest(f)
    ensures count == VisibleCount(f, Height(f))
    ensures count <= Width(f) * Height(f)
  {
    count := 0;
    var y := 0;
    while y < |f.rows|
      invariant 0 <= y <= |f.rows|
      invariant count == VisibleCount(f, y)
    {
      var rowCount := CountRow(f, y);
      count := count + rowCount;
      y := y + 1;
    }
  }

  /** The inner loop of `part_one`, over the trees of row `y`. */
  method CountRow(f: Forest, y: nat) returns (rowCount: nat)
    requires ValidForest(f) && y < Height(f)
    ensures rowCount == RowVisibleCount(f, y, Width(f))
  {
    rowCount := 0;
    var x := 0;
    while x < |f.rows[y]|
      invariant 0 <= x <= Width(f) && |f.rows[y]| == Width(f)
      invariant rowCount == RowVisibleCount(f, y, x)
    {
      var visible := CheckVisible(f, x, y);
      if visible {
        rowCount := rowCount + 1;
      }
      x := x + 1;
    }
  }

  /** The four `all` tests of `part_one` for one tree. */
  method CheckVisible(f: Forest, x: nat, y: nat) returns (visible: bool)
    requires ValidForest(f) && x < Width(f) && y < Height(f)
    ensures visible <==> IsVisible(f, x, y)
  {
    var height := f.rows[y][x];
    var visibleTop := AllShorterLoop(f.columns[x][..y], height);
    var visibleBottom := AllShorterLoop(f.columns[x][y + 1..], height);
    var visibleLeft := AllShorterLoop(f.rows[y][..x], height);
    var visibleRight := AllShorterLoop(f.rows[y][x + 1..], height);
    visible := visibleTop || visibleBottom || visibleLeft || visibleRight;
  }

  /** `Iterator::all` with the height test, stopping at the first tree that
      is not shorter. */
  method AllShorterLoop(trees: seq<nat>, height: nat) returns (all: bool)
    ensures all <==> AllShorter(trees, height)
  {
    var i := 0;
    while i < |trees|
      invariant 0 <= i <= |trees|
      invariant forall j :: 0 <= j < i ==> trees[j] < height
    {
      if trees[i] >= height {
        return false;
      }
      i := i + 1;
    }
    return true;
  }

  /** Every tree on the edge is counted: the rows at the top and bottom are
      counted in full. */
  lemma EdgeRowsCounted(f: Forest, y: nat)
    requires ValidForest(f) && y < Height(f) && (y == 0 || y == Height(f) - 1)
    ensures RowVisibleCount(f, y, Width(f)) == Width(f)
  {
    RowFullyVisible(f, y, Width(f));
  }

  lemma {:induction false} RowFullyVisible(f: Forest, y: nat, k: nat)
    requires ValidForest(f) && y < Height(f) && (y == 0 || y == Height(f) - 1) && k <= Width(f)
    ensures RowVisibleCount(f, y, k) == k
  {
    if k > 0 {
      RowFullyVisible(f, y, k - 1);
      EdgeIsVisible(f, k - 1, y);
    }
  }

  // ---------------------------------------------------------------------------
  // Part two: scenic scores
  // ---------------------------------------------------------------------------

  /** `get_visible_count`: the trees seen from a tree of height `maxHeight`
      looking along `trees`: every tree up to and including the first that is
      at least as tall, or all of them when none is. */
  function ViewingDistance(trees: seq<nat>, maxHeight: nat): (n: nat)
    ensures n <= |trees|
    ensures forall i :: 0 <= i < n - 1 ==> trees[i] < maxHeight
    ensures n < |trees| ==> n > 0 && trees[n - 1] >= maxHeight
  {
    if |trees| == 0 then 0
    else if trees[0] >= maxHeight then 1
    else 1 + ViewingDistance(trees[1..], maxHeight)
  }

  /** The loop of `get_visible_count`, breaking at the first tall tree. */
  method GetVisibleCount(trees: seq<nat>, maxHeight: nat) returns (viewingDistance: nat)
    ensures viewingDistance == ViewingDistance(trees, maxHeight)
  {
    viewingDistance := 0;
    var i := 0;
    while i < |trees|
      invariant 0 <= i <= |trees| && viewingDistance == i
      invariant forall j :: 0 <= j < i ==> trees[j] < maxHeight
      invariant ViewingDistance(trees, maxHeight) == i + ViewingDistance(trees[i..], maxHeight)
    {
      viewingDistance := viewingDistance + 1;
      if trees[i] >= maxHeight {
        break;
      }
      assert trees[i..][1..] == trees[i + 1..];
      i := i + 1;
    }
  }

  /** The scenic score of `part_two`: the product of the viewing distances up
      (the column above, read upward), down, left (the row to the left, read
      leftward) and right. */
  function ScenicScore(f: Forest, x: nat, y: nat): nat
    requires ValidForest(f) && x < Width(f) && y < Height(f)
  {
    var height := f.rows[y][x];
    var column := f.columns[x];
    var row := f.rows[y];
    Product(ViewingDistance(Reverse(column[..y]), height), ViewingDistance(column[y + 1..], height),
            ViewingDistance(Reverse(row[..x]), height), ViewingDistance(row[x + 1..], height))
  }

  /** The product of the four viewing distances; 0 when any of them is. */
  function Product(up: nat, down: nat, left: nat, right: nat): (r: nat)
    ensures r == 0 <==> up == 0 || down == 0 || left == 0 || right == 0
  {
    up * down * left * right
  }

  /** A tree on the edge sees nothing in one direction, so it scores 0. */
  lemma EdgeScoresZero(f: Forest, x: nat, y: nat)
    requires ValidForest(f) && x < Width(f) && y < Height(f)
    requires x == 0 || y == 0 || x == Width(f) - 1 || y == Height(f) - 1
    ensures ScenicScore(f, x, y) == 0
  {
    var height := f.rows[y][x];
    var column := f.columns[x];
    var row := f.rows[y];
    if x == 0 {
      assert ViewingDistance(Reverse(row[..x]), height) == 0;
    } else if y == 0 {
      assert ViewingDistance(Reverse(column[..y]), height) == 0;
    } else if x == Width(f) - 1 {
      assert ViewingDistance(row[x + 1..], height) == 0;
    } else {
      assert ViewingDistance(column[y + 1..], height) == 0;
    }
  }

  /** The score from the four views spelt out. */
  lemma ScoreOfViews(f: Forest, x: nat, y: nat, up: seq<nat>, down: seq<nat>, left: seq<nat>, right: seq<nat>)
    requires ValidForest(f) && x < Width(f) && y < Height(f)
    requires up == Reverse(f.columns[x][..y]) && down == f.columns[x][y + 1..]
    requires left == Reverse(f.rows[y][..x]) && right == f.rows[y][x + 1..]
    ensures ScenicScore(f, x, y) == Product(ViewingDistance(up, f.rows[y][x]), ViewingDistance(down, f.rows[y][x]),
                                            ViewingDistance(left, f.rows[y][x]), ViewingDistance(right, f.rows[y][x]))
  {
  }

  /** The scores of the trees of row `y`, left to right. */
  function RowScores(f: Forest, y: nat): (scores: seq<nat>)
    requires ValidForest(f) && y < Height(f)
    ensures |scores| == Width(f)
    ensures forall x :: 0 <= x < Width(f) ==> scores[x] == ScenicScore(f, x, y)
  {
    seq(Width(f), x requires 0 <= x < Width(f) => ScenicScore(f, x, y))
  }

  /** The best score of each row, top to bottom. */
  function RowBests(f: Forest): (bests: seq<nat>)
    requires ValidForest(f)
    ensures |bests| == Height(f)
    ensures forall y :: 0 <= y < Height(f) ==> bests[y] == MaxOf(RowScores(f, y))
  {
    seq(Height(f), y requires 0 <= y < Height(f) => MaxOf(RowScores(f, y)))
  }

  /** The nested loops of `part_two`, keeping the best score seen so far,
      from 0. */
  function BestScenicScore(f: Forest): (r: nat)
    requires ValidForest(f)
  {
    MaxOf(RowBests(f))
  }

  /** The best score is at least every tree's score. */
  lemma BestScenicScoreIsUpperBound(f: Forest)
    requires ValidForest(f)
    ensures forall x, y :: 0 <= y < Height(f) && 0 <= x < Width(f) ==> ScenicScore(f, x, y) <= BestScenicScore(f)
  {
    forall x, y | 0 <= y < Height(f) && 0 <= x < Width(f)
      ensures ScenicScore(f, x, y) <= BestScenicScore(f)
    {
      ScoreAtMostBest(f, x, y);
    }
  }

  lemma ScoreAtMostBest(f: Forest, x: nat, y: nat)
    requires ValidForest(f) && x < Width(f) && y < Height(f)
    ensures ScenicScore(f, x, y) <= BestScenicScore(f)
  {
    var row := RowScores(f, y);
    assert row[x] == ScenicScore(f, x, y);
    assert RowBests(f)[y] == MaxOf(row);
  }

  /** The best score is 0 or the score of some tree. */
  lemma BestScenicScoreIsReached(f: Forest)
    requires ValidForest(f)
    ensures BestScenicScore(f) == 0 || exists x, y :: 0 <= x < Width(f) && 0 <= y < Height(f) && ScenicScore(f, x, y) == BestScenicScore(f)
  {
    var r := BestScenicScore(f);
    if r != 0 {
      var y :| 0 <= y < Height(f) && RowBests(f)[y] == r;
      var row := RowScores(f, y);
      assert MaxOf(row) == r;
      var x :| 0 <= x < |row| && row[x] == r;
      assert ScenicScore(f, x, y) == r;
    }
  }

  // ---------------------------------------------------------------------------
  // Parsing
  // ---------------------------------------------------------------------------

  /** `chars_to_digits`: `to_digit(10).unwrap()` panics on a non-digit. */
  function CharsToDigits(line: string): (digits: seq<nat>)
    requires forall i :: 0 <= i < |line| ==> IsDigit(line[i])
    ensures |digits| == |line|
    ensures forall i :: 0 <= i < |line| ==> digits[i] == DigitValue(line[i])
  {
    seq(|line|, i requires 0 <= i < |line| => DigitValue(line[i]))
  }

  /** An input the source reads: at least one line (`rows[0]`), digits only,
      and lines of equal length (shorter lines make `get_column` panic, longer
      ones the index into `columns`). */
  predicate ValidInput(input: string)
  {
    && |Lines(input)| > 0
    && (forall y :: 0 <= y < |Lines(input)| ==> |Lines(input)[y]| == |Lines(input)[0]|)
    && forall y, i :: 0 <= y < |Lines(input)| && 0 <= i < |Lines(input)[y]| ==> IsDigit(Lines(input)[y][i])
  }

  /** `parse_input`. */
  function ParseInput(input: string): (f: Forest)
    requires ValidInput(input)
    ensures ValidForest(f)
    ensures Height(f) == |Lines(input)| && Width(f) == |Lines(input)[0]|
    ensures forall y, x :: 0 <= y < Height(f) && 0 <= x < Width(f) ==> f.rows[y][x] == DigitValue(Lines(input)[y][x])
  {
    var lines := Lines(input);
    var rows := seq(|lines|, y requires 0 <= y < |lines| => CharsToDigits(lines[y]));
    Forest(rows, Columns(rows))
  }

  /** `part_one`: the number of trees visible from outside the grid. */
  method PartOne(input: string) returns (count: nat)
    requires ValidInput(input)
    ensures count == VisibleCount(ParseInput(input), |Lines(input)|)
    ensures count <= |Lines(input)| * |Lines(input)[0]|
  {
    count := CountVisible(ParseInput(input));
  }

  /** `part_two`: the best scenic score of the grid. */
  function PartTwo(input: string): (r: nat)
    requires ValidInput(input)
    ensures forall x, y :: 0 <= y < |Lines(input)| && 0 <= x < |Lines(input)[0]| ==> ScenicScore(ParseInput(input), x, y) <= r
    ensures r == 0 || exists x, y :: 0 <= y < |Lines(input)| && 0 <= x < |Lines(input)[0]| && ScenicScore(ParseInput(input), x, y) == r
  {
    var f := ParseInput(input);
    BestScenicScoreIsReached(f);
    BestScenicScoreIsUpperBound(f);
    BestScenicScore(f)
  }

  // ---------------------------------------------------------------------------
  // The example of the tests
  // ---------------------------------------------------------------------------

  const ExampleRows: seq<seq<nat>> :=
    [[3, 0, 3, 7, 3], [2, 5, 5, 1, 2], [6, 5, 3, 3, 2], [3, 3, 5, 4, 9], [3, 5, 3, 9, 0]]

  /** The example grid with its columns. */
  function Example(): (f: Forest)
    ensures ValidForest(f) && Width(f) == 5 && Height(f) == 5
  {
    Forest(ExampleRows, Columns(ExampleRows))
  }

  /** The tree of height 5 in the middle of the fourth row sees 2, 2, 1 and 2
      trees: its score is 8. */
  lemma ExampleBestTree()
    ensures ScenicScore(Example(), 2, 3) == 8
  {
    var f := Example();
    var column := f.columns[2];
    assert column == [3, 5, 3, 5, 3];
    assert Reverse(column[..3]) == [3, 5, 3];
    assert ViewingDistance([3, 5, 3], 5) == 2;
    assert ViewingDistance([3], 5) == 1;
    assert f.rows[3] == [3, 3, 5, 4, 9];
    assert f.rows[3][..2] == [3, 3] && f.rows[3][3..] == [4, 9];
    assert Reverse(f.rows[3][..2]) == [3, 3];
    assert ViewingDistance([3, 3], 5) == 2;
    assert ViewingDistance([4, 9], 5) == 2;
  }

  /** The middle tree of the grid, of height 3, is hidden from every side. */
  lemma ExampleHiddenCenter()
    ensures !IsVisible(Example(), 2, 2)
  {
    var f := Example();
    IsVisibleInGrid(f, 2, 2);
    assert f.rows[1][2] == 5 && f.rows[3][2] == 5 && f.rows[2][1] == 5 && f.rows[2][3] == 3;
  }

  /** The grid of the example, entry by entry. */
  lemma ExampleGrid(f: Forest)
    requires f == Example()
    ensures f.rows[0] == [3, 0, 3, 7, 3] && f.rows[1] == [2, 5, 5, 1, 2] && f.rows[2] == [6, 5, 3, 3, 2]
    ensures f.rows[3] == [3, 3, 5, 4, 9] && f.rows[4] == [3, 5, 3, 9, 0]
  {
  }

  /** In the second row the trees of heights 5 and 5 are seen from above,
      the one of height 1 from nowhere: with both edges, 4 are visible. */
  lemma ExampleSecondRow()
    ensures RowVisibleCount(Example(), 1, 5) == 4
  {
    var f := Example();
    ExampleGrid(f);
    EdgeIsVisible(f, 0, 1);
    EdgeIsVisible(f, 4, 1);
    IsVisibleInGrid(f, 1, 1);
    IsVisibleInGrid(f, 2, 1);
    IsVisibleInGrid(f, 3, 1);
    assert f.rows[0][3] >= 1 && f.rows[2][3] >= 1 && f.rows[1][2] >= 1 && f.rows[1][4] >= 1;
    assert RowVisibleCount(f, 1, 1) == 1;
    assert RowVisibleCount(f, 1, 2) == 2;
    assert RowVisibleCount(f, 1, 3) == 3;
    assert RowVisibleCount(f, 1, 4) == 3;
  }

  /** In the third row the tree of height 5 is seen from the right and so
      is the second tree of height 3; the middle one is hidden. */
  lemma ExampleThirdRow()
    ensures RowVisibleCount(Example(), 2, 5) == 4
  {
    var f := Example();
    ExampleGrid(f);
    EdgeIsVisible(f, 0, 2);
    EdgeIsVisible(f, 4, 2);
    IsVisibleInGrid(f, 1, 2);
    ExampleHiddenCenter();
    IsVisibleInGrid(f, 3, 2);
    assert RowVisibleCount(f, 2, 1) == 1;
    assert RowVisibleCount(f, 2, 2) == 2;
    assert RowVisibleCount(f, 2, 3) == 2;
    assert RowVisibleCount(f, 2, 4) == 3;
  }

  /** In the fourth row only the tree of height 5 is seen, from the left. */
  lemma ExampleFourthRow()
    ensures RowVisibleCount(Example(), 3, 5) == 3
  {
    var f := Example();
    ExampleGrid(f);
    EdgeIsVisible(f, 0, 3);
    EdgeIsVisible(f, 4, 3);
    IsVisibleInGrid(f, 1, 3);
    IsVisibleInGrid(f, 2, 3);
    IsVisibleInGrid(f, 3, 3);
    assert f.rows[1][1] >= 3 && f.rows[4][1] >= 3 && f.rows[3][0] >= 3 && f.rows[3][2] >= 3;
    assert f.rows[0][3] >= 4 && f.rows[4][3] >= 4 && f.rows[3][2] >= 4 && f.rows[3][4] >= 4;
    assert RowVisibleCount(f, 3, 1) == 1;
    assert RowVisibleCount(f, 3, 2) == 1;
    assert RowVisibleCount(f, 3, 3) == 2;
    assert RowVisibleCount(f, 3, 4) == 2;
  }

  /** Part one of the example: 21 trees are visible. */
  lemma ExamplePartOne()
    ensures VisibleCount(Example(), 5) == 21
  {
    var f := Example();
    EdgeRowsCounted(f, 0);
    EdgeRowsCounted(f, 4);
    ExampleSecondRow();
    ExampleThirdRow();
    ExampleFourthRow();
    assert VisibleCount(f, 1) == 5;
    assert VisibleCount(f, 2) == 9;
    assert VisibleCount(f, 3) == 13;
    assert VisibleCount(f, 4) == 16;
  }

  /** The columns of the example. */
  lemma ExampleColumns(f: Forest)
    requires f == Example()
    ensures f.columns[1] == [0, 5, 5, 3, 5] && f.columns[2] == [3, 5, 3, 5, 3] && f.columns[3] == [7, 1, 3, 4, 9]
  {
    ExampleGrid(f);
  }

  /** The tree in column 1 of row 1 (height 5) scores 1. */
  lemma ExampleScore11()
    ensures ScenicScore(Example(), 1, 1) == 1
  {
    var f := Example();
    ExampleGrid(f);
    ExampleColumns(f);
    assert f.columns[1][..1] == [0] && f.columns[1][2..] == [5, 3, 5];
    assert f.rows[1][..1] == [2] && f.rows[1][2..] == [5, 1, 2];
    ScoreOfViews(f, 1, 1, [0], [5, 3, 5], [2], [5, 1, 2]);
  }

  /** The tree in column 2 of row 1 (height 5) scores 4. */
  lemma ExampleScore21()
    ensures ScenicScore(Example(), 2, 1) == 4
  {
    var f := Example();
    ExampleGrid(f);
    ExampleColumns(f);
    assert f.columns[2][..1] == [3] && f.columns[2][2..] == [3, 5, 3];
    assert f.rows[1][..2] == [2, 5] && f.rows[1][3..] == [1, 2];
    assert Reverse([2, 5]) == [5, 2];
    ScoreOfViews(f, 2, 1, [3], [3, 5, 3], [5, 2], [1, 2]);
  }

  /** The tree in column 3 of row 1 (height 1) scores 1. */
  lemma ExampleScore31()
    ensures ScenicScore(Example(), 3, 1) == 1
  {
    var f := Example();
    ExampleGrid(f);
    ExampleColumns(f);
    assert f.columns[3][..1] == [7] && f.columns[3][2..] == [3, 4, 9];
    assert f.rows[1][..3] == [2, 5, 5] && f.rows[1][4..] == [2];
    assert Reverse([2, 5, 5]) == [5, 5, 2];
    ScoreOfViews(f, 3, 1, [7], [3, 4, 9], [5, 5, 2], [2]);
  }

  /** The tree in column 1 of row 2 (height 5) scores 6. */
  lemma ExampleScore12()
    ensures ScenicScore(Example(), 1, 2) == 6
  {
    var f := Example();
    ExampleGrid(f);
    ExampleColumns(f);
    assert f.columns[1][..2] == [0, 5] && f.columns[1][3..] == [3, 5];
    assert f.rows[2][..1] == [6] && f.rows[2][2..] == [3, 3, 2];
    assert Reverse([0, 5]) == [5, 0];
    ScoreOfViews(f, 1, 2, [5, 0], [3, 5], [6], [3, 3, 2]);
  }

  /** The tree in column 2 of row 2 (height 3) scores 1. */
  lemma ExampleScore22()
    ensures ScenicScore(Example(), 2, 2) == 1
  {
    var f := Example();
    ExampleGrid(f);
    ExampleColumns(f);
    assert f.columns[2][..2] == [3, 5] && f.columns[2][3..] == [5, 3];
    assert f.rows[2][..2] == [6, 5] && f.rows[2][3..] == [3, 2];
    assert Reverse([3, 5]) == [5, 3] && Reverse([6, 5]) == [5, 6];
    ScoreOfViews(f, 2, 2, [5, 3], [5, 3], [5, 6], [3, 2]);
  }

  /** The tree in column 3 of row 2 (height 3) scores 2. */
  lemma ExampleScore32()
    ensures ScenicScore(Example(), 3, 2) == 2
  {
    var f := Example();
    ExampleGrid(f);
    ExampleColumns(f);
    assert f.columns[3][..2] == [7, 1] && f.columns[3][3..] == [4, 9];
    assert f.rows[2][..3] == [6, 5, 3] && f.rows[2][4..] == [2];
    assert Reverse([7, 1]) == [1, 7] && Reverse([6, 5, 3]) == [3, 5, 6];
    ScoreOfViews(f, 3, 2, [1, 7], [4, 9], [3, 5, 6], [2]);
  }

  /** The tree in column 1 of row 3 (height 3) scores 1. */
  lemma ExampleScore13()
    ensures ScenicScore(Example(), 1, 3) == 1
  {
    var f := Example();
    ExampleGrid(f);
    ExampleColumns(f);
    assert f.columns[1][..3] == [0, 5, 5] && f.columns[1][4..] == [5];
    assert f.rows[3][..1] == [3] && f.rows[3][2..] == [5, 4, 9];
    assert Reverse([0, 5, 5]) == [5, 5, 0];
    ScoreOfViews(f, 1, 3, [5, 5, 0], [5], [3], [5, 4, 9]);
  }

  /** The tree in column 3 of row 3 (height 4) scores 3. */
  lemma ExampleScore33()
    ensures ScenicScore(Example(), 3, 3) == 3
  {
    var f := Example();
    ExampleGrid(f);
    ExampleColumns(f);
    assert f.columns[3][..3] == [7, 1, 3] && f.columns[3][4..] == [9];
    assert f.rows[3][..3] == [3, 3, 5] && f.rows[3][4..] == [9];
    assert Reverse([7, 1, 3]) == [3, 1, 7] && Reverse([3, 3, 5]) == [5, 3, 3];
    ScoreOfViews(f, 3, 3, [3, 1, 7], [9], [5, 3, 3], [9]);
  }

  /** The scores of the second row are 0, 1, 4, 1 and 0: the best is 4. */
  lemma ExampleSecondRowScores()
    ensures MaxOf(RowScores(Example(), 1)) == 4
  {
    var f := Example();
    EdgeScoresZero(f, 0, 1);
    EdgeScoresZero(f, 4, 1);
    ExampleScore11();
    ExampleScore21();
    ExampleScore31();
    var row := RowScores(f, 1);
    assert row[0] == 0 && row[1] == 1 && row[2] == 4 && row[3] == 1 && row[4] == 0;
    MaxOfFive(row, 4, 2);
  }

  /** The scores of the third row are 0, 6, 1, 2 and 0: the best is 6. */
  lemma ExampleThirdRowScores()
    ensures MaxOf(RowScores(Example(), 2)) == 6
  {
    var f := Example();
    EdgeScoresZero(f, 0, 2);
    EdgeScoresZero(f, 4, 2);
    ExampleScore12();
    ExampleScore22();
    ExampleScore32();
    var row := RowScores(f, 2);
    assert row[0] == 0 && row[1] == 6 && row[2] == 1 && row[3] == 2 && row[4] == 0;
    MaxOfFive(row, 6, 1);
  }

  /** The scores of the fourth row are 0, 1, 8, 3 and 0: the best is 8. */
  lemma ExampleFourthRowScores()
    ensures MaxOf(RowScores(Example(), 3)) == 8
  {
    var f := Example();
    EdgeScoresZero(f, 0, 3);
    EdgeScoresZero(f, 4, 3);
    ExampleScore13();
    ExampleBestTree();
    ExampleScore33();
    var row := RowScores(f, 3);
    assert row[0] == 0 && row[1] == 1 && row[2] == 8 && row[3] == 3 && row[4] == 0;
    MaxOfFive(row, 8, 2);
  }

  /** The scores of an edge row are all 0. */
  lemma EdgeRowScores(f: Forest, y: nat)
    requires ValidForest(f) && y < Height(f) && (y == 0 || y == Height(f) - 1)
    ensures MaxOf(RowScores(f, y)) == 0
  {
    var row := RowScores(f, y);
    forall x | 0 <= x < Width(f)
      ensures row[x] == 0
    {
      EdgeScoresZero(f, x, y);
    }
  }

  /** Part two of the example: the best score is 8. */
  lemma ExamplePartTwo()
    ensures BestScenicScore(Example()) == 8
  {
    var f := Example();
    var bests := RowBests(f);
    EdgeRowScores(f, 0);
    EdgeRowScores(f, 4);
    ExampleSecondRowScores();
    ExampleThirdRowScores();
    ExampleFourthRowScores();
    assert bests[0] == 0 && bests[1] == 4 && bests[2] == 6 && bests[3] == 8 && bests[4] == 0;
    MaxOfFive(bests, 8, 3);
  }

  /** The maximum of five numbers, given one of them that is the largest. */
  lemma MaxOfFive(s: seq<nat>, m: nat, k: nat)
    requires |s| == 5 && k < 5 && s[k] == m
    requires s[0] <= m && s[1] <= m && s[2] <= m && s[3] <= m && s[4] <= m
    ensures MaxOf(s) == m
  {
    MaxOfIs(s, m, k);
  }
}
