// The column layout of kernel/coreutils/ls.c.
module LsColumns {
  const MIN_COLUMN_WIDTH: nat := 3

  // ---- What the layout in c columns is ----

  // Rows of c columns that hold n files, filled down the columns.
  function Rows(n: nat, c: nat): nat
    requires c > 0
  {
    (n + c - 1) / c
  }

  // The column of file f.
  function ColumnOf(n: nat, c: nat, byColumns: bool, f: nat): nat
    requires c > 0 && n > 0
  {
    RowsPositive(n, c);
    if byColumns then f / Rows(n, c) else f % c
  }

  lemma RowsPositive(n: nat, c: nat)
    requires c > 0
    ensures n > 0 ==> Rows(n, c) > 0
    ensures Rows(n, c) * c >= n
  {
    DivCover(n + c - 1, c);
    if n > 0 { DivPositive(n + c - 1, c); }
  }

  lemma DivCover(a: nat, c: nat)
    requires c > 0
    ensures a / c * c + a % c == a && a % c < c
  {
  }

  lemma DivPositive(a: nat, c: nat)
    requires 0 < c <= a
    ensures a / c > 0
  {
    DivCover(a, c);
  }

  lemma DivBelow(f: nat, r: nat, c: nat)
    requires r > 0 && f < r * c
    ensures f / r < c
  {
    DivCover(f, r);
    if f / r >= c { MulGrows(c, f / r, r); }
  }

  lemma MulGrows(a: nat, b: nat, r: nat)
    requires a <= b
    ensures a * r <= b * r
  {
  }

  // Every file has one of the c columns, so the index stays in its slice.
  lemma ColumnInRange(n: nat, c: nat, byColumns: bool, f: nat)
    requires c > 0 && f < n
    ensures ColumnOf(n, c, byColumns, f) < c
  {
    RowsPositive(n, c);
    if byColumns { DivBelow(f, Rows(n, c), c); }
  }

  // What file f needs: its length, and two columns of space unless it is in the last.
  function Need(lens: seq<nat>, c: nat, byColumns: bool, f: nat): nat
    requires c > 0 && f < |lens|
  {
    lens[f] + if ColumnOf(|lens|, c, byColumns, f) == c - 1 then 0 else 2
  }

  // The width of column j for the first k files: the widest need, and at least 3.
  function Width(lens: seq<nat>, c: nat, byColumns: bool, j: nat, k: nat): nat
    requires c > 0 && k <= |lens|
  {
    if k == 0 then MIN_COLUMN_WIDTH
    else
      var w := Width(lens, c, byColumns, j, k - 1);
      if ColumnOf(|lens|, c, byColumns, k - 1) == j && Need(lens, c, byColumns, k - 1) > w
      then Need(lens, c, byColumns, k - 1) else w
  }

  lemma {:induction false} WidthCovers(lens: seq<nat>, c: nat, byColumns: bool, j: nat, k: nat, f: nat)
    requires c > 0 && f < k <= |lens| && ColumnOf(|lens|, c, byColumns, f) == j
    ensures Need(lens, c, byColumns, f) <= Width(lens, c, byColumns, j, k)
  {
    if f < k - 1 { WidthCovers(lens, c, byColumns, j, k - 1, f); }
  }

  // And it is no wider than that: some file of the column needs it, or it is the least.
  lemma {:induction false} WidthAttained(lens: seq<nat>, c: nat, byColumns: bool, j: nat, k: nat)
    requires c > 0 && k <= |lens| && Width(lens, c, byColumns, j, k) > MIN_COLUMN_WIDTH
    ensures exists f: nat :: f < k && NeededBy(lens, c, byColumns, j, f, Width(lens, c, byColumns, j, k))
  {
    var w := Width(lens, c, byColumns, j, k);
    if w == Width(lens, c, byColumns, j, k - 1) {
      WidthAttained(lens, c, byColumns, j, k - 1);
      var f: nat :| f < k - 1 && NeededBy(lens, c, byColumns, j, f, w);
      assert f < k;
    } else {
      assert NeededBy(lens, c, byColumns, j, k - 1, w);
    }
  }

  // File f is in column j and just fits in w there.
  predicate NeededBy(lens: seq<nat>, c: nat, byColumns: bool, j: nat, f: nat, w: nat)
    requires c > 0 && f < |lens|
  {
    ColumnOf(|lens|, c, byColumns, f) == j && lens[f] + (if j == c - 1 then 0 else 2) == w
  }

  function Widths(lens: seq<nat>, c: nat, byColumns: bool, k: nat): (ws: seq<nat>)
    requires c > 0 && k <= |lens|
    ensures |ws| == c
  {
    seq(c, j requires 0 <= j < c => Width(lens, c, byColumns, j, k))
  }

  function Sum(ws: seq<nat>): nat { if ws == [] then 0 else Sum(ws[..|ws| - 1]) + ws[|ws| - 1] }

  lemma {:induction false} SumUpdate(ws: seq<nat>, j: nat, w: nat)
    requires j < |ws|
    ensures Sum(ws[j := w]) == Sum(ws) - ws[j] + w
  {
    var last := |ws| - 1;
    if j < last {
      assert ws[j := w][..last] == ws[..last][j := w];
      SumUpdate(ws[..last], j, w);
    } else {
      assert ws[j := w][..last] == ws[..last];
    }
  }

  lemma {:induction false} SumConst(ws: seq<nat>)
    requires forall j | 0 <= j < |ws| :: ws[j] == MIN_COLUMN_WIDTH
    ensures Sum(ws) == |ws| * MIN_COLUMN_WIDTH
  {
    if ws != [] { SumConst(ws[..|ws| - 1]); }
  }

  function Total(lens: seq<nat>, c: nat, byColumns: bool, k: nat): nat
    requires c > 0 && k <= |lens|
  {
    Sum(Widths(lens, c, byColumns, k))
  }

  // c columns are acceptable: they are narrower than the line, or all as narrow as can be.
  predicate Fits(lens: seq<nat>, c: nat, byColumns: bool, lineLength: nat)
    requires c > 0
  {
    var t := Total(lens, c, byColumns, |lens|);
    t < lineLength || t == c * MIN_COLUMN_WIDTH
  }

  // One more file widens at most its own column.
  lemma WidthsStep(lens: seq<nat>, c: nat, byColumns: bool, k: nat)
    requires c > 0 && k < |lens|
    ensures var ws, j := Widths(lens, c, byColumns, k), ColumnOf(|lens|, c, byColumns, k);
      var need := Need(lens, c, byColumns, k);
      && j < c
      && Widths(lens, c, byColumns, k + 1) == (if need > ws[j] then ws[j := need] else ws)
      && Total(lens, c, byColumns, k + 1) ==
         Total(lens, c, byColumns, k) + (if need > ws[j] then need - ws[j] else 0)
  {
    var ws, j := Widths(lens, c, byColumns, k), ColumnOf(|lens|, c, byColumns, k);
    ColumnInRange(|lens|, c, byColumns, k);
    var need := Need(lens, c, byColumns, k);
    assert Widths(lens, c, byColumns, k + 1) == (if need > ws[j] then ws[j := need] else ws);
    if need > ws[j] { SumUpdate(ws, j, need); }
  }

  lemma NarrowestTotal(lens: seq<nat>, c: nat, byColumns: bool)
    requires c > 0
    ensures Total(lens, c, byColumns, 0) == c * MIN_COLUMN_WIDTH
  {
    SumConst(Widths(lens, c, byColumns, 0));
  }

  // ---- The computation ----

  // One struct column_info: col_arr is the stretch of a block from at on.
  datatype Info = Info(valid: bool, lineLen: nat, block: array<nat>, at: nat)

  // The cells that rows a to b - 1 take.
  function Slots(a: nat, b: nat): nat
    requires a <= b
    decreases b
  {
    if a == b then 0 else Slots(a, b - 1) + b
  }

  lemma {:induction false} SlotsClosed(a: nat, b: nat)
    requires a <= b
    ensures (a + 1 + b) * (b - a) == 2 * Slots(a, b)
    decreases b
  {
    if a < b {
      SlotsClosed(a, b - 1);
      var d := b - 1 - a;
      assert (a + 1 + b) * (d + 1) == (a + b) * d + d + (a + 1 + b);
    }
  }

  lemma {:induction false} SlotsGrow(a: nat, i: nat, b: nat)
    requires a <= i <= b
    ensures Slots(a, i) <= Slots(a, b)
    decreases b
  {
    if i < b {
      SlotsGrow(a, i, b - 1);
    }
  }

  // The state for c columns after the first k files: exact while valid, and once not
  // valid, too wide for good.
  ghost predicate ColumnState(e: Info, row: seq<nat>, lens: seq<nat>, c: nat, byColumns: bool, lineLength: nat, k: nat)
    requires c > 0 && k <= |lens|
  {
    var t := Total(lens, c, byColumns, k);
    if e.valid then
      row == Widths(lens, c, byColumns, k) && e.lineLen == t && (t < lineLength || t == c * MIN_COLUMN_WIDTH)
    else t >= lineLength && t > c * MIN_COLUMN_WIDTH
  }

  class Layout {
    const lineLength: nat
    const maxIdx: nat
    var info: seq<Info>
    ghost var blocks: set<array<nat>>

    // Each row has room for its columns, apart from all other rows.
    ghost predicate Shape()
      reads this
    {
      && (forall i | 0 <= i < |info| :: info[i].block in blocks && info[i].at + i + 1 <= info[i].block.Length)
      && forall i, j | 0 <= i < j < |info| :: RowsApart(info[i], i, info[j])
    }

    ghost function Row(i: nat): seq<nat>
      requires i < |info| && info[i].at + i + 1 <= info[i].block.Length
      reads this, info[i].block
    {
      info[i].block[info[i].at..info[i].at + i + 1]
    }

    constructor (lineLength: nat)
      ensures Shape() && this.lineLength == lineLength && blocks == {}
    {
      this.lineLength := lineLength;
      this.maxIdx := lineLength / MIN_COLUMN_WIDTH + if lineLength % MIN_COLUMN_WIDTH != 0 then 1 else 0;
      this.info, this.blocks := [], {};
    }

    // Lines 5317-5360: room for the rows up to maxCols.
    method Allocate(maxCols: nat)
      requires Shape() && (maxIdx == 0 || maxCols <= maxIdx)
      modifies this
      ensures Shape() && |info| >= maxCols && fresh(blocks - old(blocks))
    {
      if |info| < maxCols {
        if maxIdx == 0 || maxCols < maxIdx / 2 {
          Grow(2 * maxCols);
        } else {
          Grow(maxIdx);
        }
      }
    }

    // The new rows are parcelled out of one block, which is just large enough.
    method Grow(n: nat)
      requires Shape() && |info| < n
      modifies this
      ensures Shape() && |info| == n && fresh(blocks - old(blocks))
    {
      var growth := n - |info|;
      var s := |info| + 1 + n;
      var t := s * growth;
      SlotsClosed(|info|, n);
      var p := new nat[t / 2];
      var q: nat := 0;
      ghost var a := |info|;
      blocks := blocks + {p};
      while |info| < n
        invariant a <= |info| <= n && q == Slots(a, |info|)
        invariant Shape() && blocks == old(blocks) + {p} && p.Length == Slots(a, n) && p !in old(blocks)
        invariant forall i | 0 <= i < |info| && info[i].block == p :: info[i].at + i + 1 <= q
      {
        SlotsGrow(a, |info| + 1, n);
        q := AddRow(p, q);
      }
    }

    method AddRow(p: array<nat>, at: nat) returns (next: nat)
      requires Shape() && p in blocks && at + |info| + 1 <= p.Length
      requires forall i | 0 <= i < |info| && info[i].block == p :: info[i].at + i + 1 <= at
      modifies this`info
      ensures Shape() && info == old(info) + [Info(false, 0, p, at)] && next == at + |old(info)| + 1
      ensures forall i | 0 <= i < |info| && info[i].block == p :: info[i].at + i + 1 <= next
    {
      next := at + |info| + 1;
      info := info + [Info(false, 0, p, at)];
    }

    // Row i changes at column j only, and no other row does.
    method SetCell(i: nat, j: nat, w: nat)
      requires Shape() && i < |info| && j <= i
      modifies blocks
      ensures Row(i) == old(Row(i))[j := w]
      ensures forall k: nat | k < |info| && k != i :: Row(k) == old(Row(k))
    {
      info[i].block[info[i].at + j] := w;
      forall k: nat | k < |info| && k != i ensures Row(k) == old(Row(k)) {
        assert if k < i then RowsApart(info[k], k, info[i]) else RowsApart(info[i], i, info[k]);
      }
    }

    // init_column_info
    method InitColumnInfo(maxCols: nat)
      requires Shape() && (maxIdx == 0 || maxCols <= maxIdx)
      modifies this, blocks
      ensures Shape() && |info| >= maxCols && fresh(blocks - old(blocks))
      ensures forall i: nat | i < maxCols :: Narrowest(i)
    {
      Allocate(maxCols);
      for i := 0 to maxCols
        invariant Shape() && |info| >= maxCols && fresh(blocks - old(blocks))
        invariant forall k: nat | k < i :: Narrowest(k)
      {
        label Before:
        ResetRow(i);
        forall k: nat | k < i ensures Narrowest(k) {
          assert old@Before(Narrowest(k)) && Row(k) == old@Before(Row(k));
        }
      }
    }

    ghost predicate Narrowest(i: nat)
      requires i < |info| && Shape()
      reads this, blocks
    {
      && info[i].valid && info[i].lineLen == (i + 1) * MIN_COLUMN_WIDTH
      && forall j | 0 <= j <= i :: Row(i)[j] == MIN_COLUMN_WIDTH
    }

    method ResetRow(i: nat)
      requires Shape() && i < |info|
      modifies this`info, blocks
      ensures Shape() && |info| == |old(info)| && Narrowest(i)
      ensures forall k: nat | k < |info| && k != i :: info[k] == old(info[k]) && Row(k) == old(Row(k))
    {
      info := info[i := info[i].(valid := true, lineLen := (i + 1) * MIN_COLUMN_WIDTH)];
      for j := 0 to i + 1
        invariant forall k: nat | k < j :: Row(i)[k] == MIN_COLUMN_WIDTH
        invariant forall k: nat | k < |info| && k != i :: Row(k) == old(Row(k))
        modifies blocks
      {
        SetCell(i, j, MIN_COLUMN_WIDTH);
      }
    }

    ghost predicate State(i: nat, lens: seq<nat>, byColumns: bool, k: nat)
      requires i < |info| && Shape() && k <= |lens|
      reads this, blocks
    {
      ColumnState(info[i], Row(i), lens, i + 1, byColumns, lineLength, k)
    }

    // Lines 5397-5412: file k counted in the layout of i + 1 columns.
    method Account(i: nat, lens: seq<nat>, byColumns: bool, k: nat)
      requires Shape() && i < |info| && k < |lens| && State(i, lens, byColumns, k)
      modifies this`info, blocks
      ensures Shape() && |info| == |old(info)| && State(i, lens, byColumns, k + 1)
      ensures forall j: nat | j < |info| && j != i :: info[j] == old(info[j]) && Row(j) == old(Row(j))
    {
      ghost var e, row := info[i], Row(i);
      if info[i].valid {
        var idx := ColumnOf(|lens|, i + 1, byColumns, k);
        ColumnInRange(|lens|, i + 1, byColumns, k);
        var realLength := lens[k] + if idx == i then 0 else 2;
        Widen(i, idx, realLength);
      }
      StateStep(e, row, info[i], Row(i), lens, i + 1, byColumns, lineLength, k);
    }

    method Widen(i: nat, idx: nat, realLength: nat)
      requires Shape() && i < |info| && idx <= i
      modifies this`info, blocks
      ensures Shape() && |info| == |old(info)|
      ensures Widened(old(info[i]), old(Row(i)), info[i], Row(i), idx, realLength, lineLength)
      ensures forall j: nat | j < |info| && j != i :: info[j] == old(info[j]) && Row(j) == old(Row(j))
    {
      var w := info[i].block[info[i].at + idx];
      assert w == Row(i)[idx];
      if w < realLength {
        SetCell(i, idx, realLength);
        info := info[i := info[i].(lineLen := info[i].lineLen + (realLength - w))];
        info := info[i := info[i].(valid := info[i].lineLen < lineLength)];
      }
    }

    // One turn of the loop over files; next is k + 1.
    method AccountFile(maxCols: nat, lens: seq<nat>, byColumns: bool, k: nat, ghost next: nat)
      requires Shape() && maxCols <= |info| && k < |lens| && next == k + 1
      requires forall i: nat | i < maxCols :: State(i, lens, byColumns, k)
      modifies this`info, blocks
      ensures Shape() && |info| == |old(info)|
      ensures forall i: nat | i < maxCols :: State(i, lens, byColumns, next)
    {
      for i := 0 to maxCols
        invariant Shape() && |info| == |old(info)|
        invariant forall j: nat | j < i :: State(j, lens, byColumns, next)
        invariant forall j: nat | i <= j < maxCols :: State(j, lens, byColumns, k)
      {
        label Before:
        Account(i, lens, byColumns, k);
        forall j: nat | j < i ensures State(j, lens, byColumns, next) {
          assert old@Before(State(j, lens, byColumns, next)) && Row(j) == old@Before(Row(j));
        }
        forall j: nat | i < j < maxCols ensures State(j, lens, byColumns, k) {
          assert old@Before(State(j, lens, byColumns, k)) && Row(j) == old@Before(Row(j));
        }
      }
    }

    // calculate_columns: the largest acceptable number of columns, up to the limit of
    // the line length and the number of files, or else one; and in it the widths.
    method CalculateColumns(lens: seq<nat>, byColumns: bool) returns (cols: nat)
      requires Shape() && |lens| > 0
      modifies this, blocks
      ensures Shape() && 1 <= cols <= MaxCols(|lens|) && cols <= |info|
      ensures forall c: nat | cols < c <= MaxCols(|lens|) :: !Fits(lens, c, byColumns, lineLength)
      ensures cols == 1 || Fits(lens, cols, byColumns, lineLength)
      ensures cols > 1 ==> Row(cols - 1) == Widths(lens, cols, byColumns, |lens|)
      ensures State(cols - 1, lens, byColumns, |lens|)
    {
      var maxCols := MaxCols(|lens|);
      StartAll(maxCols, lens, byColumns);
      for k := 0 to |lens|
        invariant Shape() && maxCols <= |info| && fresh(blocks - old(blocks))
        invariant forall i: nat | i < maxCols :: State(i, lens, byColumns, k)
      {
        AccountFile(maxCols, lens, byColumns, k, k + 1);
      }
      cols := LargestValid(maxCols, lens, byColumns);
    }

    method StartAll(maxCols: nat, ghost lens: seq<nat>, ghost byColumns: bool)
      requires Shape() && (maxIdx == 0 || maxCols <= maxIdx)
      modifies this, blocks
      ensures Shape() && |info| >= maxCols && fresh(blocks - old(blocks))
      ensures forall i: nat | i < maxCols :: State(i, lens, byColumns, 0)
    {
      InitColumnInfo(maxCols);
      forall i: nat | i < maxCols ensures State(i, lens, byColumns, 0) {
        assert Narrowest(i);
        NarrowestTotal(lens, i + 1, byColumns);
        assert Row(i) == Widths(lens, i + 1, byColumns, 0);
      }
    }

    // print_many_per_line with the widths calculate_columns chose: every file is printed
    // once, names in a row are two columns apart, and each ends within the total of the
    // widths, hence before the end of the line if that does.
    method PrintFiles(lens: seq<nat>) returns (lines: seq<seq<Item>>, cols: nat)
      requires Shape() && |lens| > 0
      modifies this, blocks
      ensures Shape() && 1 <= cols <= MaxCols(|lens|)
      ensures forall c: nat | cols < c <= MaxCols(|lens|) :: !Fits(lens, c, true, lineLength)
      ensures cols == 1 || Fits(lens, cols, true, lineLength)
      ensures Prints(lines, lens, cols)
      ensures forall f: nat | f < |lens| :: PrintedOnce(lines, f)
      ensures AllClear(lines, lens, Total(lens, cols, true, |lens|))
      ensures Total(lens, cols, true, |lens|) < lineLength ==> AllClear(lines, lens, lineLength - 1)
    {
      cols := CalculateColumns(lens, true);
      var widths := info[cols - 1].block[info[cols - 1].at..info[cols - 1].at + cols];
      lines := PrintManyPerLine(|lens|, widths);
      if cols == 1 { OneColumn(lines, |lens|, widths, Widths(lens, 1, true, |lens|)); }
      AllPrintedOnce(lines, lens, cols);
      NamesClear(lines, lens, cols);
      if Total(lens, cols, true, |lens|) < lineLength {
        ClearWithin(lines, lens, Total(lens, cols, true, |lens|), lineLength - 1);
      }
    }

    // Lines 5416-5421.
    method LargestValid(maxCols: nat, lens: seq<nat>, byColumns: bool) returns (cols: nat)
      requires Shape() && 1 <= maxCols <= |info|
      requires forall i: nat | i < maxCols :: State(i, lens, byColumns, |lens|)
      ensures 1 <= cols <= maxCols
      ensures forall c: nat | cols < c <= maxCols :: !Fits(lens, c, byColumns, lineLength)
      ensures cols > 1 ==> Fits(lens, cols, byColumns, lineLength)
      ensures cols > 1 ==> Row(cols - 1) == Widths(lens, cols, byColumns, |lens|)
    {
      cols := maxCols;
      while 1 < cols
        invariant 1 <= cols <= maxCols
        invariant forall c: nat | cols < c <= maxCols :: !Fits(lens, c, byColumns, lineLength)
      {
        assert State(cols - 1, lens, byColumns, |lens|);
        if info[cols - 1].valid { break; }
        cols := cols - 1;
      }
    }

    function MaxCols(n: nat): nat {
      if 0 < maxIdx < n then maxIdx else n
    }
  }

  ghost predicate Widened(e: Info, row: seq<nat>, e': Info, row': seq<nat>, j: nat, need: nat, lineLength: nat) {
    && j < |row|
    && if row[j] < need then
         var t := e.lineLen + (need - row[j]);
         row' == row[j := need] && e'.lineLen == t && e'.valid == (t < lineLength)
       else row' == row && e' == e
  }

  lemma StateStep(e: Info, row: seq<nat>, e': Info, row': seq<nat>,
                  lens: seq<nat>, c: nat, byColumns: bool, lineLength: nat, k: nat)
    requires c > 0 && k < |lens| && ColumnState(e, row, lens, c, byColumns, lineLength, k)
    requires if e.valid then
        Widened(e, row, e', row', ColumnOf(|lens|, c, byColumns, k), Need(lens, c, byColumns, k), lineLength)
             else e' == e && row' == row
    ensures ColumnState(e', row', lens, c, byColumns, lineLength, k + 1)
  {
    WidthsStep(lens, c, byColumns, k);
    AtLeastNarrowest(lens, c, byColumns, k);
  }

  lemma {:induction false} AtLeastNarrowest(lens: seq<nat>, c: nat, byColumns: bool, k: nat)
    requires c > 0 && k <= |lens|
    ensures Total(lens, c, byColumns, k) >= c * MIN_COLUMN_WIDTH
  {
    if k == 0 { NarrowestTotal(lens, c, byColumns); }
    else {
      AtLeastNarrowest(lens, c, byColumns, k - 1);
      WidthsStep(lens, c, byColumns, k - 1);
    }
  }

  ghost predicate RowsApart(a: Info, i: nat, b: Info) {
    a.block != b.block || a.at + i + 1 <= b.at
  }

  // ---- Printing ----

  // A file printed at column pos of its row.
  datatype Item = Item(file: nat, pos: nat)

  // print_many_per_line, for the widths of the layout chosen: row by row, file
  // row + col * rows in each column, at the sum of the widths before it.
  method PrintManyPerLine(n: nat, widths: seq<nat>) returns (lines: seq<seq<Item>>)
    requires n > 0 && |widths| > 0
    ensures |lines| == Rows(n, |widths|)
    ensures forall r | 0 <= r < |lines| :: IsLine(lines[r], n, widths, r)
  {
    var cols := |widths|;
    var rows := n / cols + if n % cols != 0 then 1 else 0;
    RowsAgree(n, cols);
    RowsPositive(n, cols);
    lines := [];
    for row := 0 to rows
      invariant |lines| == row && forall r | 0 <= r < row :: IsLine(lines[r], n, widths, r)
    {
      FirstInRow(n, cols, row);
      var line := PrintRow(n, widths, rows, row);
      lines := lines + [line];
    }
  }

  // A row holds the files row, row + rows, ..., as far as there are files.
  ghost predicate IsLine(line: seq<Item>, n: nat, widths: seq<nat>, row: nat)
    requires n > 0 && |widths| > 0
  {
    var rows := Rows(n, |widths|);
    && 0 < |line| <= |widths|
    && (forall c | 0 <= c < |line| :: line[c] == Item(row + c * rows, Sum(widths[..c])) && line[c].file < n)
    && row + |line| * rows >= n
  }

  method PrintRow(n: nat, widths: seq<nat>, rows: nat, row: nat) returns (line: seq<Item>)
    requires |widths| > 0 && n > 0 && rows == Rows(n, |widths|) && row < n && row < rows
    ensures IsLine(line, n, widths, row)
  {
    var col, filesno, pos := 0, row, 0;
    line := [];
    while true
      invariant col < |widths| && |line| == col && filesno == row + col * rows < n && pos == Sum(widths[..col])
      invariant forall c | 0 <= c < col :: line[c] == Item(row + c * rows, Sum(widths[..c])) && line[c].file < n
      decreases n - filesno
    {
      var maxNameLength := widths[col];
      line := line + [Item(filesno, pos)];
      RowsPositive(n, |widths|);
      NextColumn(n, |widths|, row, col);
      col := col + 1;
      filesno := filesno + rows;
      if filesno >= n { return; }
      assert widths[..col][..col - 1] == widths[..col - 1];
      pos := pos + maxNameLength;
    }
  }

  lemma NextColumn(n: nat, cols: nat, row: nat, col: nat)
    requires n > 0 && cols > 0 && col < cols
    ensures row + col * Rows(n, cols) + Rows(n, cols) == row + (col + 1) * Rows(n, cols)
    ensures row + (col + 1) * Rows(n, cols) < n ==> col + 1 < cols
  {
    var r := Rows(n, cols);
    RowsPositive(n, cols);
    assert (col + 1) * r == col * r + r;
    if col + 1 >= cols { MulGrows(cols, col + 1, r); }
  }

  lemma RowsAgree(n: nat, cols: nat)
    requires cols > 0
    ensures n / cols + (if n % cols != 0 then 1 else 0) == Rows(n, cols)
  {
    DivCover(n, cols);
    var q := n / cols + if n % cols != 0 then 1 else 0;
    var d := n + cols - 1 - q * cols;
    assert 0 <= d < cols;
    DivUnique(n + cols - 1, cols, q, d);
  }

  lemma DivUnique(a: nat, c: nat, q: nat, d: nat)
    requires c > 0 && a == q * c + d && d < c
    ensures a / c == q
  {
    DivCover(a, c);
    if a / c > q { MulGrows(q + 1, a / c, c); }
    if a / c < q { MulGrows(a / c + 1, q, c); }
  }

  lemma FirstInRow(n: nat, cols: nat, row: nat)
    requires cols > 0 && n > 0 && row < Rows(n, cols)
    ensures row < n
  {
    DivCover(n + cols - 1, cols);
    if row >= n {
      MulGrows(n + 1, Rows(n, cols), cols);
      assert (n + 1) * cols == n * cols + cols;
      MulGrows(1, cols, n);
    }
  }

  lemma PlaceOf(line: seq<Item>, n: nat, widths: seq<nat>, row: nat, c: nat)
    requires n > 0 && |widths| > 0 && IsLine(line, n, widths, row) && row < Rows(n, |widths|) && c < |line|
    ensures var f, rows := line[c].file, Rows(n, |widths|); row == f % rows && c == f / rows
  {
    var f, rows := line[c].file, Rows(n, |widths|);
    DivUnique(f, rows, c, row);
    DivCover(f, rows);
  }

  lemma FileInLine(line: seq<Item>, n: nat, widths: seq<nat>, f: nat)
    requires n > 0 && |widths| > 0 && f < n && Rows(n, |widths|) > 0
    requires IsLine(line, n, widths, f % Rows(n, |widths|))
    ensures var rows := Rows(n, |widths|); f / rows < |line| && line[f / rows].file == f
  {
    var rows := Rows(n, |widths|);
    var r, c := f % rows, f / rows;
    DivCover(f, rows);
    if c >= |line| { MulGrows(|line|, c, rows); }
    assert line[c].file == r + c * rows;
  }

  // Every file is printed, in one place only.
  lemma EachFileOnce(lines: seq<seq<Item>>, n: nat, widths: seq<nat>, f: nat)
    requires n > 0 && |widths| > 0 && |lines| == Rows(n, |widths|) && f < n
    requires forall r | 0 <= r < |lines| :: IsLine(lines[r], n, widths, r)
    ensures var rows := Rows(n, |widths|);
      && rows > 0 && f % rows < |lines| && f / rows < |lines[f % rows]| && lines[f % rows][f / rows].file == f
      && forall r: nat, c: nat | r < |lines| && c < |lines[r]| && lines[r][c].file == f ::
          r == f % rows && c == f / rows
  {
    var rows := Rows(n, |widths|);
    RowsPositive(n, |widths|);
    DivCover(f, rows);
    FileInLine(lines[f % rows], n, widths, f);
    forall r: nat, c: nat | r < |lines| && c < |lines[r]| && lines[r][c].file == f
      ensures r == f % rows && c == f / rows
    {
      PlaceOf(lines[r], n, widths, r, c);
    }
  }

  // With the widths calculate_columns found, a file ends two columns before the next one
  // in its row begins, and before the end of the line if the layout fits.
  lemma NoOverlap(lines: seq<seq<Item>>, lens: seq<nat>, cols: nat, r: nat, c: nat)
    requires |lens| > 0 && cols > 0
    requires var widths := Widths(lens, cols, true, |lens|);
      && |lines| == Rows(|lens|, cols) && (forall i | 0 <= i < |lines| :: IsLine(lines[i], |lens|, widths, i))
    requires r < |lines| && c < |lines[r]|
    ensures var widths := Widths(lens, cols, true, |lens|); var end := lines[r][c].pos + lens[lines[r][c].file];
      && (c + 1 < |lines[r]| ==> end + 2 <= lines[r][c + 1].pos)
      && end <= Sum(widths)
  {
    var n, widths := |lens|, Widths(lens, cols, true, |lens|);
    var rows, f := Rows(n, cols), lines[r][c].file;
    RowsPositive(n, cols);
    assert IsLine(lines[r], n, widths, r);
    DivUnique(f, rows, c, r);
    WidthCovers(lens, cols, true, c, n, f);
    assert widths[..c + 1][..c] == widths[..c];
    SumPrefix(widths, c + 1);
  }

  // The rows are those of the layout of cols columns.
  ghost predicate Prints(lines: seq<seq<Item>>, lens: seq<nat>, cols: nat)
    requires |lens| > 0 && cols > 0
  {
    && |lines| == Rows(|lens|, cols)
    && forall r | 0 <= r < |lines| :: IsLine(lines[r], |lens|, Widths(lens, cols, true, |lens|), r)
  }

  ghost predicate PrintedOnce(lines: seq<seq<Item>>, f: nat) {
    exists r: nat, c: nat :: r < |lines| && c < |lines[r]| && lines[r][c].file == f && OnlyAt(lines, f, r, c)
  }

  ghost predicate OnlyAt(lines: seq<seq<Item>>, f: nat, r: nat, c: nat) {
    forall r1: nat, c1: nat | r1 < |lines| && c1 < |lines[r1]| && lines[r1][c1].file == f :: r1 == r && c1 == c
  }

  // The name at row r and column c ends two columns before the next, and within total.
  ghost predicate ItemClear(lines: seq<seq<Item>>, lens: seq<nat>, r: nat, c: nat, total: nat)
    requires r < |lines| && c < |lines[r]|
  {
    var item := lines[r][c];
    && item.file < |lens| && item.pos + lens[item.file] <= total
    && (c + 1 < |lines[r]| ==> item.pos + lens[item.file] + 2 <= lines[r][c + 1].pos)
  }

  // With one column the width has no part in where names are.
  lemma OneColumn(lines: seq<seq<Item>>, n: nat, widths: seq<nat>, other: seq<nat>)
    requires n > 0 && |widths| == |other| == 1
    requires forall r | 0 <= r < |lines| :: IsLine(lines[r], n, widths, r)
    ensures forall r | 0 <= r < |lines| :: IsLine(lines[r], n, other, r)
  {
    assert widths[..0] == other[..0];
    forall r | 0 <= r < |lines| ensures IsLine(lines[r], n, other, r) {
      assert IsLine(lines[r], n, widths, r);
    }
  }

  lemma AllPrintedOnce(lines: seq<seq<Item>>, lens: seq<nat>, cols: nat)
    requires |lens| > 0 && cols > 0 && Prints(lines, lens, cols)
    ensures forall f: nat | f < |lens| :: PrintedOnce(lines, f)
  {
    forall f: nat | f < |lens| ensures PrintedOnce(lines, f) {
      EachFileOnce(lines, |lens|, Widths(lens, cols, true, |lens|), f);
      var rows := Rows(|lens|, cols);
      assert OnlyAt(lines, f, f % rows, f / rows);
    }
  }

  ghost predicate AllClear(lines: seq<seq<Item>>, lens: seq<nat>, total: nat) {
    forall r: nat, c: nat | r < |lines| && c < |lines[r]| :: ItemClear(lines, lens, r, c, total)
  }

  lemma NamesClear(lines: seq<seq<Item>>, lens: seq<nat>, cols: nat)
    requires |lens| > 0 && cols > 0 && Prints(lines, lens, cols)
    ensures AllClear(lines, lens, Total(lens, cols, true, |lens|))
  {
    forall r: nat, c: nat | r < |lines| && c < |lines[r]|
      ensures ItemClear(lines, lens, r, c, Total(lens, cols, true, |lens|))
    {
      NoOverlap(lines, lens, cols, r, c);
    }
  }

  lemma ClearWithin(lines: seq<seq<Item>>, lens: seq<nat>, total: nat, bound: nat)
    requires AllClear(lines, lens, total) && total <= bound
    ensures AllClear(lines, lens, bound)
  {
    forall r: nat, c: nat | r < |lines| && c < |lines[r]| ensures ItemClear(lines, lens, r, c, bound) {
      assert ItemClear(lines, lens, r, c, total);
    }
  }

  lemma {:induction false} SumPrefix(ws: seq<nat>, c: nat)
    requires c <= |ws|
    ensures Sum(ws[..c]) <= Sum(ws)
    decreases |ws| - c
  {
    if c < |ws| {
      assert ws[..c + 1][..c] == ws[..c];
      SumPrefix(ws, c + 1);
    } else {
      assert ws[..c] == ws;
    }
  }

  // ---- indent ----

  // Where the cursor is after a tab or a space.
  function After(tabsize: nat, col: nat, ch: char): nat {
    if ch == '\t' && tabsize != 0 then col + tabsize - col % tabsize else col + 1
  }

  function AfterAll(tabsize: nat, col: nat, s: string): nat {
    if s == "" then col else After(tabsize, AfterAll(tabsize, col, s[..|s| - 1]), s[|s| - 1])
  }

  // indent puts the cursor at column to, whatever the tab size; it never passes it.
  method Indent(tabsize: nat, start: nat, to: nat) returns (out: string)
    ensures start <= to ==> AfterAll(tabsize, start, out) == to
    ensures start > to ==> out == ""
  {
    var from := start;
    out := "";
    while from < to
      invariant AfterAll(tabsize, start, out) == from
      invariant from <= to || (from == start && out == "")
    {
      if tabsize != 0 && to / tabsize > (from + 1) / tabsize {
        TabStaysBefore(tabsize, from, to);
        out := out + "\t";
        from := from + (tabsize - from % tabsize);
      } else {
        out := out + " ";
        from := from + 1;
      }
    }
  }

  lemma TabStaysBefore(tabsize: nat, from: nat, to: nat)
    requires tabsize > 0 && to / tabsize > (from + 1) / tabsize
    ensures from < from + tabsize - from % tabsize <= to
  {
    DivCover(from, tabsize);
    DivCover(to, tabsize);
    DivMonotone(from, from + 1, tabsize);
    MulGrows(from / tabsize + 1, to / tabsize, tabsize);
  }

  lemma DivMonotone(a: nat, b: nat, c: nat)
    requires c > 0 && a <= b
    ensures a / c <= b / c
  {
    DivCover(a, c);
    DivCover(b, c);
    if a / c > b / c { MulGrows(b / c + 1, a / c, c); }
  }
}
