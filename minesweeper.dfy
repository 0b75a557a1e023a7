/** Minesweeper: the game board that answers "how many mines are next to this
    cell", the logical sentences a player learns ("exactly `count` of these
    cells are mines"), and the knowledge-based player that keeps them. */
module Minesweeper {
  import opened Wrappers

  /** A board cell: (row, column). */
  type Cell = (int, int)

  predicate InBounds(height: int, width: int, c: Cell) {
    0 <= c.0 < height && 0 <= c.1 < width
  }

  /** Two different cells at most one row and at most one column apart. */
  predicate Adjacent(a: Cell, b: Cell) {
    a != b && -1 <= a.0 - b.0 <= 1 && -1 <= a.1 - b.1 <= 1
  }

  /** The neighbourhood of `cell`: the in-bounds cells within one row and one
      column of it, not including the cell itself. */
  ghost function Neighbours(height: int, width: int, cell: Cell): set<Cell> {
    set i, j | cell.0 - 1 <= i <= cell.0 + 1 && cell.1 - 1 <= j <= cell.1 + 1
               && (i, j) != cell && 0 <= i < height && 0 <= j < width :: (i, j)
  }

  /** The eight positions around `cell`, in bounds or not. */
  function Ring(cell: Cell): set<Cell> {
    var (r, c) := cell;
    {(r - 1, c - 1), (r - 1, c), (r - 1, c + 1), (r, c - 1),
     (r, c + 1), (r + 1, c - 1), (r + 1, c), (r + 1, c + 1)}
  }

  lemma NeighboursMembership(height: int, width: int, cell: Cell, p: Cell)
    ensures p in Neighbours(height, width, cell) <==> Adjacent(p, cell) && InBounds(height, width, p)
  {
    if Adjacent(p, cell) && InBounds(height, width, p) {
      var (i, j) := p;
      assert (i, j) in Neighbours(height, width, cell);
    }
  }

  /** A neighbourhood has at most eight cells and never contains the cell itself. */
  lemma NeighboursAtMostEight(height: int, width: int, cell: Cell)
    ensures cell !in Neighbours(height, width, cell)
    ensures |Neighbours(height, width, cell)| <= 8
  {
    var n := Neighbours(height, width, cell);
    var ring := Ring(cell);
    assert |ring| <= 8;
    forall p | p in n ensures p in ring {
      NeighboursMembership(height, width, cell, p);
    }
    assert n - ring == {};
    assert n * ring == n;
    assert |ring - n| + |n - ring| + |n * ring| == |ring + n|;
    assert ring + n == ring;
  }

  /** Adjacency is symmetric: a cell is in the neighbourhood of each of its in-bounds neighbours. */
  lemma NeighboursSymmetric(height: int, width: int, a: Cell, b: Cell)
    requires a in Neighbours(height, width, b) && InBounds(height, width, b)
    ensures b in Neighbours(height, width, a)
  {
    NeighboursMembership(height, width, b, a);
    NeighboursMembership(height, width, a, b);
  }

  /** The cells of row `i` and column `j` of the 3 x 3 window around `cell` that
      the neighbour scans have visited before reaching (i, j). */
  predicate ScannedBefore(cell: Cell, p: Cell, i: int, j: int) {
    && cell.0 - 1 <= p.0 <= cell.0 + 1 && cell.1 - 1 <= p.1 <= cell.1 + 1
    && (p.0 < i || (p.0 == i && p.1 < j))
  }

  /** `seen` holds exactly the neighbours of `cell` that a row-by-row scan of
      the 3 x 3 window around it has passed before reaching (i, j). */
  ghost predicate ScannedSet(height: int, width: int, cell: Cell, seen: set<Cell>, i: int, j: int) {
    forall p :: p in seen <==> ScannedBefore(cell, p, i, j) && p != cell && InBounds(height, width, p)
  }

  /** The scan visits (i, j) and takes it when it is an in-bounds neighbour. */
  lemma ScanStep(height: int, width: int, cell: Cell, seen: set<Cell>, i: int, j: int)
    requires ScannedSet(height, width, cell, seen, i, j)
    requires cell.0 - 1 <= i <= cell.0 + 1 && cell.1 - 1 <= j <= cell.1 + 1
    ensures (i, j) != cell && InBounds(height, width, (i, j)) ==>
      (i, j) !in seen && ScannedSet(height, width, cell, seen + {(i, j)}, i, j + 1)
    ensures !((i, j) != cell && InBounds(height, width, (i, j))) ==>
      ScannedSet(height, width, cell, seen, i, j + 1)
  {
  }

  /** Finishing a row of the window is starting the next one. */
  lemma ScanNextRow(height: int, width: int, cell: Cell, seen: set<Cell>, i: int)
    requires ScannedSet(height, width, cell, seen, i, cell.1 + 2)
    ensures ScannedSet(height, width, cell, seen, i + 1, cell.1 - 1)
  {
  }

  /** A scan that has passed the whole window has seen exactly the neighbourhood. */
  lemma ScanDone(height: int, width: int, cell: Cell, seen: set<Cell>)
    requires ScannedSet(height, width, cell, seen, cell.0 + 2, cell.1 - 1)
    ensures seen == Neighbours(height, width, cell)
  {
    forall p ensures p in seen <==> p in Neighbours(height, width, cell) {
      NeighboursMembership(height, width, cell, p);
    }
  }

  /** Every cell of a `height` x `width` board. */
  ghost function AllCells(height: int, width: int): set<Cell> {
    set i, j | 0 <= i < height && 0 <= j < width :: (i, j)
  }

  lemma AllCellsMembership(height: int, width: int, p: Cell)
    ensures p in AllCells(height, width) <==> InBounds(height, width, p)
  {
    if InBounds(height, width, p) {
      var (a, b) := p;
      assert (a, b) in AllCells(height, width);
    }
  }

  /** The cells of row `i` of a board `width` cells wide. */
  ghost function RowCells(i: int, width: int): set<Cell> {
    set j | 0 <= j < width :: (i, j)
  }

  lemma {:induction false} RowCellsCount(i: int, width: nat)
    ensures |RowCells(i, width)| == width
  {
    if width > 0 {
      RowCellsCount(i, width - 1);
      assert RowCells(i, width) == RowCells(i, width - 1) + {(i, width - 1)};
    } else {
      assert RowCells(i, width) == {};
    }
  }

  /** The board is the rows above the last one plus the last row, which share no cell. */
  lemma AllCellsSplit(height: nat, width: nat)
    requires height > 0
    ensures AllCells(height, width) == AllCells(height - 1, width) + RowCells(height - 1, width)
    ensures AllCells(height - 1, width) * RowCells(height - 1, width) == {}
  {
    var fewer := AllCells(height - 1, width);
    var row := RowCells(height - 1, width);
    forall p ensures p in AllCells(height, width) <==> p in fewer + row {
      AllCellsMembership(height, width, p);
      AllCellsMembership(height - 1, width, p);
      if p.0 == height - 1 && 0 <= p.1 < width {
        var (a, b) := p;
        assert (a, b) in row;
      }
    }
    forall p | p in row ensures p !in fewer {
      AllCellsMembership(height - 1, width, p);
    }
  }

  /** A board has height * width cells. */
  lemma {:induction false} AllCellsCount(height: nat, width: nat)
    ensures |AllCells(height, width)| == height * width
  {
    if height > 0 {
      var fewer := AllCells(height - 1, width);
      var row := RowCells(height - 1, width);
      AllCellsCount(height - 1, width);
      RowCellsCount(height - 1, width);
      AllCellsSplit(height, width);
      assert |fewer + row| == |fewer| + |row| by {
        assert |fewer + row| + |fewer * row| == |fewer| + |row|;
      }
      assert (height - 1) * width + width == height * width;
    } else {
      assert AllCells(height, width) == {};
    }
  }

  /** Adding one new cell to a scanned set adds one to the mines among it exactly when that cell is a mine. */
  lemma CountStep(seen: set<Cell>, mines: set<Cell>, c: Cell)
    requires c !in seen
    ensures |(seen + {c}) * mines| == |seen * mines| + if c in mines then 1 else 0
  {
    if c in mines {
      assert (seen + {c}) * mines == seen * mines + {c};
    } else {
      assert (seen + {c}) * mines == seen * mines;
    }
  }

  // ---------------------------------------------------------------------
  // The game

  /** The position a Python index `i` denotes in a list of length `n`. */
  function PythonIndex(i: int, n: int): (p: int)
    requires -n <= i < n
    ensures 0 <= p < n
    ensures p == i || p == i + n
    ensures 0 <= i ==> p == i
  {
    if i < 0 then i + n else i
  }

  /** The game board. Mine placement is random in the program; here the
      resulting layout is given to the constructor. */
  class Minesweeper {
    const height: int
    const width: int
    var board: seq<seq<bool>>
    var mines: set<Cell>
    var minesFound: set<Cell>

    /** `board[i][j]` is true exactly for the cells of `mines`, which all lie on the board. */
    ghost predicate Valid()
      reads this
    {
      && |board| == height
      && (forall i :: 0 <= i < height ==> |board[i]| == width)
      && (forall c :: c in mines ==> InBounds(height, width, c))
      && (forall i, j :: 0 <= i < height && 0 <= j < width ==> (board[i][j] <==> (i, j) in mines))
    }

    /** An empty `height` x `width` field, then the mines of `layout` placed one at a time. */
    constructor (height: nat, width: nat, layout: set<Cell>)
      requires forall c :: c in layout ==> InBounds(height, width, c)
      ensures Valid()
      ensures this.height == height && this.width == width
      ensures mines == layout && minesFound == {}
    {
      var field := seq(height, _ => seq(width, _ => false));
      var placed: set<Cell> := {};
      var rest := layout;
      while rest != {}
        invariant |field| == height && forall i :: 0 <= i < height ==> |field[i]| == width
        invariant placed + rest == layout && placed !! rest
        invariant forall i, j :: 0 <= i < height && 0 <= j < width ==> (field[i][j] <==> (i, j) in placed)
        decreases rest
      {
        var c :| c in rest;
        field := field[c.0 := field[c.0][c.1 := true]];
        placed := placed + {c};
        rest := rest - {c};
      }
      this.height := height;
      this.width := width;
      board := field;
      mines := placed;
      minesFound := {};
    }

    /** Whether `cell` holds a mine, indexing the board as a Python list of
        lists does: a negative index counts from the end of its row or column,
        and an index outside the board is an error (`None`). */
    function IsMine(cell: Cell): (r: Option<bool>)
      reads this
      requires Valid()
      ensures r.Some? <==> -height <= cell.0 < height && -width <= cell.1 < width
      ensures r.Some? ==> (r.value <==> (PythonIndex(cell.0, height), PythonIndex(cell.1, width)) in mines)
      ensures InBounds(height, width, cell) ==> r == Some(cell in mines)
    {
      if -height <= cell.0 < height && -width <= cell.1 < width then
        Some(board[PythonIndex(cell.0, height)][PythonIndex(cell.1, width)])
      else
        None
    }

    /** The number of mines in the neighbourhood of `cell`. */
    method NearbyMines(cell: Cell) returns (count: nat)
      requires Valid()
      ensures count == |Neighbours(height, width, cell) * mines|
    {
      count := 0;
      ghost var seen: set<Cell> := {};
      var i := cell.0 - 1;
      while i < cell.0 + 2
        invariant cell.0 - 1 <= i <= cell.0 + 2
        invariant ScannedSet(height, width, cell, seen, i, cell.1 - 1)
        invariant count == |seen * mines|
      {
        var j := cell.1 - 1;
        while j < cell.1 + 2
          invariant cell.1 - 1 <= j <= cell.1 + 2
          invariant ScannedSet(height, width, cell, seen, i, j)
          invariant count == |seen * mines|
        {
          ScanStep(height, width, cell, seen, i, j);
          if (i, j) != cell && 0 <= i < height && 0 <= j < width {
            CountStep(seen, mines, (i, j));
            if board[i][j] {
              count := count + 1;
            }
            seen := seen + {(i, j)};
          }
          j := j + 1;
        }
        ScanNextRow(height, width, cell, seen, i);
        i := i + 1;
      }
      ScanDone(height, width, cell, seen);
    }

    /** The game is won when the flagged cells are exactly the cells holding a mine. */
    function Won(): (r: bool)
      reads this
      requires Valid()
      ensures r <==> forall c :: c in minesFound <==> InBounds(height, width, c) && board[c.0][c.1]
    {
      minesFound == mines
    }
  }

  // ---------------------------------------------------------------------
  // Sentences

  /** "Exactly `count` of `cells` are mines" is true of a mine layout. */
  ghost predicate Describes(cells: set<Cell>, count: int, layout: set<Cell>) {
    |cells * layout| == count
  }

  /** A logical statement about the game: exactly `count` of `cells` are mines. */
  class Sentence {
    var cells: set<Cell>
    var count: int

    constructor (cells: set<Cell>, count: int)
      ensures this.cells == cells && this.count == count
    {
      this.cells := cells;
      this.count := count;
    }

    /** Two sentences are equal when they have the same cells and the same count. */
    predicate Equals(other: Sentence)
      reads this, other
    {
      cells == other.cells && count == other.count
    }

    /** The cells known to be mines: all of them when there are as many mines as cells, otherwise none. */
    function KnownMines(): (r: set<Cell>)
      reads this
      ensures r <= cells
      ensures r != {} <==> cells != {} && count == |cells|
      ensures r != {} ==> r == cells
    {
      if count == |cells| then cells else {}
    }

    /** The cells known to be safe: all of them when a non-empty sentence counts no mine, otherwise none. */
    function KnownSafes(): (r: set<Cell>)
      reads this
      ensures r <= cells
      ensures r != {} <==> cells != {} && count == 0
      ensures r != {} ==> r == cells
    {
      if count == 0 && |cells| > 0 then cells else {}
    }

    /** Learn that `cell` is a mine: drop it and count one mine fewer, if the sentence mentions it. */
    method MarkMine(cell: Cell)
      modifies this
      ensures cells == old(cells) - {cell}
      ensures count == if cell in old(cells) then old(count) - 1 else old(count)
    {
      if cell in cells {
        cells := cells - {cell};
        count := count - 1;
      }
    }

    /** Learn that `cell` is safe: drop it, keeping the count. */
    method MarkSafe(cell: Cell)
      modifies this
      ensures cells == old(cells) - {cell}
      ensures count == old(count)
    {
      if cell in cells {
        cells := cells - {cell};
      }
    }
  }

  lemma SubsetOfSameSize(a: set<Cell>, b: set<Cell>)
    requires a <= b && |a| == |b|
    ensures a == b
  {
    assert |b - a| + |a - b| + |b * a| == |b + a|;
    assert b + a == b && b * a == a;
  }

  /** Every cell a true sentence reports as a mine is a mine. */
  lemma KnownMinesAreMines(s: Sentence, layout: set<Cell>)
    requires Describes(s.cells, s.count, layout)
    ensures s.KnownMines() <= layout
  {
    if s.count == |s.cells| {
      SubsetOfSameSize(s.cells * layout, s.cells);
    }
  }

  /** No cell a true sentence reports as safe is a mine. */
  lemma KnownSafesAreSafe(s: Sentence, layout: set<Cell>)
    requires Describes(s.cells, s.count, layout)
    ensures s.KnownSafes() !! layout
  {
    if s.count == 0 && |s.cells| > 0 {
      assert s.cells * layout == {};
      forall c | c in s.cells ensures c !in layout {
        assert c !in s.cells * layout;
      }
    }
  }

  /** A true sentence never counts more mines than it has cells, nor fewer than none. */
  lemma TrueSentenceIsNotOverfull(cells: set<Cell>, count: int, layout: set<Cell>)
    requires Describes(cells, count, layout)
    ensures 0 <= count <= |cells|
  {
    assert |cells - layout| + |layout - cells| + |cells * layout| == |cells + layout|;
    assert |cells + layout| + |cells * layout| == |cells| + |layout|;
  }

  /** Sentence.MarkMine keeps a sentence true when the marked cell really is a mine. */
  lemma MarkMineKeepsTruth(cells: set<Cell>, count: int, cell: Cell, layout: set<Cell>)
    requires Describes(cells, count, layout) && cell in layout
    ensures Describes(cells - {cell}, if cell in cells then count - 1 else count, layout)
  {
    if cell in cells {
      assert cells * layout == (cells - {cell}) * layout + {cell};
    } else {
      assert (cells - {cell}) * layout == cells * layout;
    }
  }

  /** Sentence.MarkSafe keeps a sentence true when the marked cell really is safe. */
  lemma MarkSafeKeepsTruth(cells: set<Cell>, count: int, cell: Cell, layout: set<Cell>)
    requires Describes(cells, count, layout) && cell !in layout
    ensures Describes(cells - {cell}, count, layout)
  {
    assert (cells - {cell}) * layout == cells * layout;
  }

  // ---------------------------------------------------------------------
  // Lists of sentences

  /** The sentence objects of `ks` are pairwise different objects. */
  ghost predicate Distinct(ks: seq<Sentence>) {
    forall i, j :: 0 <= i < j < |ks| ==> ks[i] != ks[j]
  }

  /** Python's `s in ks` on a list of sentences: some element equals `s`. */
  predicate ContainsEqual(ks: seq<Sentence>, s: Sentence)
    reads ks, s
  {
    exists k :: 0 <= k < |ks| && ks[k].Equals(s)
  }

  /** Some sentence of `ks` has exactly these cells and this count. */
  ghost predicate ContainsValue(ks: seq<Sentence>, cells: set<Cell>, count: int)
    reads ks
  {
    exists k :: 0 <= k < |ks| && ks[k].cells == cells && ks[k].count == count
  }

  /** Some two positions of `ks` hold equal sentences. */
  ghost predicate HasEqualPair(ks: seq<Sentence>)
    reads ks
  {
    exists i, j :: 0 <= i < j < |ks| && ks[i].Equals(ks[j])
  }

  /** A sentence claiming more mines than it has cells. */
  predicate Overfull(s: Sentence)
    reads s
  {
    s.count > |s.cells|
  }

  /** The position of the first overfull sentence, or |ks| when there is none. */
  function FirstOverfull(ks: seq<Sentence>): (r: nat)
    reads ks
    ensures r <= |ks|
  {
    if ks == [] then 0 else if Overfull(ks[0]) then 0 else 1 + FirstOverfull(ks[1..])
  }

  /** Every sentence before the first overfull position is not overfull. */
  lemma {:induction false} FirstOverfullSkipsOnlySafe(ks: seq<Sentence>)
    ensures forall j :: 0 <= j < FirstOverfull(ks) ==> !Overfull(ks[j])
  {
    if ks != [] && !Overfull(ks[0]) {
      FirstOverfullSkipsOnlySafe(ks[1..]);
      forall j | 0 < j < FirstOverfull(ks)
        ensures !Overfull(ks[j])
      {
        assert ks[j] == ks[1..][j - 1];
      }
    }
  }

  /** The first overfull position, unless it is the end, holds an overfull sentence. */
  lemma {:induction false} FirstOverfullIsOverfull(ks: seq<Sentence>)
    ensures FirstOverfull(ks) < |ks| ==> Overfull(ks[FirstOverfull(ks)])
  {
    if ks != [] && !Overfull(ks[0]) {
      FirstOverfullIsOverfull(ks[1..]);
    }
  }

  /** No sentence of `ks` is overfull. */
  ghost predicate NoneOverfull(ks: seq<Sentence>)
    reads ks
  {
    ks == [] || (NoneOverfull(ks[..|ks| - 1]) && !Overfull(ks[|ks| - 1]))
  }

  /** A sentence that is not overfull extends a prefix without overfull sentences. */
  lemma NoneOverfullGrows(ks: seq<Sentence>, i: int)
    requires 0 <= i < |ks| && NoneOverfull(ks[..i]) && !Overfull(ks[i])
    ensures NoneOverfull(ks[..i + 1])
  {
    assert ks[..i + 1][..i] == ks[..i];
  }

  /** A prefix without overfull sentences ends no later than the first overfull position. */
  lemma {:induction false} NoneOverfullBeforeFirst(ks: seq<Sentence>, i: int)
    requires 0 <= i <= |ks| && NoneOverfull(ks[..i])
    ensures i <= FirstOverfull(ks)
  {
    if i > 0 {
      assert ks[..i][..i - 1] == ks[..i - 1];
      NoneOverfullBeforeFirst(ks, i - 1);
      FirstOverfullIsOverfull(ks);
    }
  }

  /** One step of the loop past a sentence that is not overfull. */
  lemma CleaningStep(snapshot: seq<Sentence>, i: int, knowledge: seq<Sentence>)
    requires CleaningAt(snapshot, i, knowledge) && NoneOverfull(snapshot[..i])
    requires i < |snapshot| && !Overfull(snapshot[i])
    ensures CleaningAt(snapshot, i + 1, if snapshot[i].cells == {} then RemoveFirstEqual(knowledge, snapshot[i]) else knowledge)
    ensures NoneOverfull(snapshot[..i + 1])
  {
    NoneOverfullGrows(snapshot, i);
    if snapshot[i].cells == {} {
      CleaningRemoves(snapshot, i, knowledge);
    } else {
      CleaningKeeps(snapshot, i, knowledge);
    }
  }

  /** The loop ends at the end of the snapshot or at its first overfull sentence. */
  lemma CleaningEnds(snapshot: seq<Sentence>, i: int, knowledge: seq<Sentence>)
    requires CleaningAt(snapshot, i, knowledge) && NoneOverfull(snapshot[..i])
    requires i == |snapshot| || Overfull(snapshot[i])
    ensures FirstOverfull(snapshot) == i
    ensures knowledge == CleanedUpTo(snapshot, FirstOverfull(snapshot))
    ensures i == |snapshot| ==> knowledge == NonEmpty(snapshot)
  {
    NoneOverfullBeforeFirst(snapshot, i);
    FirstOverfullAtMost(snapshot, i);
    if i == |snapshot| {
      CleanedAll(snapshot);
    }
  }

  /** The first overfull position comes no later than any overfull sentence. */
  lemma {:induction false} FirstOverfullAtMost(ks: seq<Sentence>, i: int)
    requires 0 <= i <= |ks|
    requires i == |ks| || Overfull(ks[i])
    ensures FirstOverfull(ks) <= i
  {
    if i > 0 && !Overfull(ks[0]) {
      assert i == |ks| || Overfull(ks[1..][i - 1]);
      FirstOverfullAtMost(ks[1..], i - 1);
    }
  }

  /** Python's `ks.remove(s)`: drop the first element equal to `s`. */
  function RemoveFirstEqual(ks: seq<Sentence>, s: Sentence): seq<Sentence>
    reads ks, s
  {
    if ks == [] then []
    else if ks[0].Equals(s) then ks[1..]
    else [ks[0]] + RemoveFirstEqual(ks[1..], s)
  }

  /** When nothing in `a` equals `s` and `b` starts with `s`, removing `s` from `a + b` drops exactly that element. */
  lemma {:induction false} RemoveFirstEqualSkips(a: seq<Sentence>, b: seq<Sentence>, s: Sentence)
    requires forall k :: 0 <= k < |a| ==> !a[k].Equals(s)
    requires |b| > 0 && b[0] == s
    ensures RemoveFirstEqual(a + b, s) == a + b[1..]
  {
    if a == [] {
      assert a + b == b;
    } else {
      assert (a + b)[0] == a[0];
      assert (a + b)[1..] == a[1..] + b;
      RemoveFirstEqualSkips(a[1..], b, s);
      assert [a[0]] + (a[1..] + b[1..]) == a + b[1..];
    }
  }

  /** The sentences of `ks` whose cell set is non-empty, in order. */
  function NonEmpty(ks: seq<Sentence>): seq<Sentence>
    reads ks
  {
    if ks == [] then []
    else
      var last := ks[|ks| - 1];
      NonEmpty(ks[..|ks| - 1]) + (if last.cells == {} then [] else [last])
  }

  /** NonEmpty keeps exactly the sentences with cells, each object at most once when `ks` has each at most once. */
  lemma {:induction false} NonEmptyFilters(ks: seq<Sentence>)
    ensures |NonEmpty(ks)| <= |ks|
    ensures forall k :: 0 <= k < |NonEmpty(ks)| ==> NonEmpty(ks)[k].cells != {} && NonEmpty(ks)[k] in ks
    ensures forall k :: 0 <= k < |ks| && ks[k].cells != {} ==> ks[k] in NonEmpty(ks)
    ensures Distinct(ks) ==> Distinct(NonEmpty(ks))
  {
    if ks != [] {
      var init := ks[..|ks| - 1];
      var last := ks[|ks| - 1];
      NonEmptyFilters(init);
      assert forall k :: 0 <= k < |ks| - 1 ==> ks[k] == init[k];
      assert Distinct(ks) ==> last !in init;
    }
  }

  lemma DistinctWithout(ks: seq<Sentence>, p: int)
    requires Distinct(ks) && 0 <= p < |ks|
    ensures Distinct(ks[..p] + ks[p + 1..])
  {
    var r := ks[..p] + ks[p + 1..];
    forall i, j | 0 <= i < j < |r| ensures r[i] != r[j] {
      var i' := if i < p then i else i + 1;
      var j' := if j < p then j else j + 1;
      assert r[i] == ks[i'] && r[j] == ks[j'];
    }
  }

  /** A knowledge base cleaned up to position `i`: the empty sentences before
      `i` removed, the rest untouched. */
  function CleanedUpTo(snapshot: seq<Sentence>, i: int): seq<Sentence>
    reads snapshot
    requires 0 <= i <= |snapshot|
  {
    NonEmpty(snapshot[..i]) + snapshot[i..]
  }

  lemma CleanedNothing(snapshot: seq<Sentence>)
    ensures CleanedUpTo(snapshot, 0) == snapshot
  {
    assert snapshot[..0] == [];
  }

  lemma CleanedAll(snapshot: seq<Sentence>)
    ensures CleanedUpTo(snapshot, |snapshot|) == NonEmpty(snapshot)
  {
    assert snapshot[..|snapshot|] == snapshot;
  }

  /** One step of cleaning the knowledge base, over a snapshot of it: a
      non-empty sentence is kept where it is. */
  lemma CleanKeeps(snapshot: seq<Sentence>, i: int)
    requires 0 <= i < |snapshot| && snapshot[i].cells != {}
    ensures CleanedUpTo(snapshot, i) == CleanedUpTo(snapshot, i + 1)
  {
    assert snapshot[..i + 1][..i] == snapshot[..i];
    assert snapshot[i..] == [snapshot[i]] + snapshot[i + 1..];
  }

  /** One step of cleaning the knowledge base: removing an empty sentence
      removes exactly the snapshot's entry, and the objects stay distinct. */
  lemma CleanRemoves(snapshot: seq<Sentence>, i: int)
    requires 0 <= i < |snapshot| && snapshot[i].cells == {}
    requires Distinct(CleanedUpTo(snapshot, i))
    ensures RemoveFirstEqual(CleanedUpTo(snapshot, i), snapshot[i]) == CleanedUpTo(snapshot, i + 1)
    ensures Distinct(CleanedUpTo(snapshot, i + 1))
  {
    var kept := NonEmpty(snapshot[..i]);
    var knowledge := kept + snapshot[i..];
    assert NonEmpty(snapshot[..i + 1]) == kept by {
      assert snapshot[..i + 1][..i] == snapshot[..i];
    }
    assert RemoveFirstEqual(knowledge, snapshot[i]) == kept + snapshot[i + 1..] by {
      NonEmptyFilters(snapshot[..i]);
      RemoveFirstEqualSkips(kept, snapshot[i..], snapshot[i]);
      assert snapshot[i..][1..] == snapshot[i + 1..];
    }
    assert Distinct(kept + snapshot[i + 1..]) by {
      DistinctWithout(knowledge, |kept|);
      assert knowledge[..|kept|] + knowledge[|kept| + 1..] == kept + snapshot[i + 1..];
    }
  }

  /** The state of the clean-up loop after `i` sentences of the snapshot:
      the empty ones among them removed. */
  ghost predicate CleaningAt(snapshot: seq<Sentence>, i: int, knowledge: seq<Sentence>)
    reads snapshot
  {
    && 0 <= i <= |snapshot|
    && knowledge == CleanedUpTo(snapshot, i)
    && Distinct(knowledge)
  }

  lemma CleaningStarts(snapshot: seq<Sentence>)
    requires Distinct(snapshot)
    ensures CleaningAt(snapshot, 0, snapshot)
  {
    CleanedNothing(snapshot);
  }

  /** A sentence with cells stays. */
  lemma CleaningKeeps(snapshot: seq<Sentence>, i: int, knowledge: seq<Sentence>)
    requires CleaningAt(snapshot, i, knowledge) && i < |snapshot| && snapshot[i].cells != {}
    ensures CleaningAt(snapshot, i + 1, knowledge)
  {
    CleanKeeps(snapshot, i);
  }

  /** A sentence without cells is removed. */
  lemma CleaningRemoves(snapshot: seq<Sentence>, i: int, knowledge: seq<Sentence>)
    requires CleaningAt(snapshot, i, knowledge) && i < |snapshot| && snapshot[i].cells == {}
    ensures CleaningAt(snapshot, i + 1, RemoveFirstEqual(knowledge, snapshot[i]))
  {
    CleanRemoves(snapshot, i);
  }

  /** The clean-up pass over a copy of the knowledge base: walk the sentences
      in order, stop at the first one claiming more mines than cells, and drop
      each sentence without cells on the way. */
  method CleanSentences(snapshot: seq<Sentence>) returns (ok: bool, cleaned: seq<Sentence>)
    requires Distinct(snapshot)
    ensures ok <==> FirstOverfull(snapshot) == |snapshot|
    ensures cleaned == CleanedUpTo(snapshot, FirstOverfull(snapshot))
    ensures Distinct(cleaned)
    ensures ok ==> cleaned == NonEmpty(snapshot)
  {
    cleaned := snapshot;
    CleaningStarts(snapshot);
    assert snapshot[..0] == [];
    var i := 0;
    while i < |snapshot| && !Overfull(snapshot[i])
      invariant CleaningAt(snapshot, i, cleaned)
      invariant NoneOverfull(snapshot[..i])
    {
      var s := snapshot[i];
      CleaningStep(snapshot, i, cleaned);
      cleaned := if s.cells == {} then RemoveFirstEqual(cleaned, s) else cleaned;
      i := i + 1;
    }
    CleaningEnds(snapshot, i, cleaned);
    ok := i == |snapshot|;
  }

  // ---------------------------------------------------------------------
  // The player

  /** A Minesweeper player that keeps what it knows about the board:
      the cells it clicked, the cells known to be mines or safe, the cells it
      has not yet ruled out for a random move, and a list of sentences. */
  class MinesweeperAI {
    const height: int
    const width: int
    var movesMade: set<Cell>
    var mines: set<Cell>
    var safes: set<Cell>
    var blancCells: set<Cell>
    var knowledge: seq<Sentence>

    /** Every sentence of the knowledge base is its own object: the player only
        ever appends freshly built sentences. */
    ghost predicate Valid()
      reads this
    {
      Distinct(knowledge)
    }

    constructor (height: int, width: int)
      ensures Valid()
      ensures this.height == height && this.width == width
      ensures movesMade == {} && mines == {} && safes == {} && knowledge == []
      ensures blancCells == AllCells(height, width)
    {
      this.height := height;
      this.width := width;
      movesMade := {};
      mines := {};
      safes := {};
      knowledge := [];
      new;
      blancCells := PopulateBlancs();
    }

    /** Every cell of the board. */
    method PopulateBlancs() returns (cells: set<Cell>)
      ensures cells == AllCells(height, width)
    {
      cells := {};
      var i := 0;
      while i < height
        invariant 0 <= i && (i <= height || i == 0)
        invariant forall p :: p in cells <==> 0 <= p.0 < i && 0 <= p.1 < width
      {
        var j := 0;
        while j < width
          invariant 0 <= j && (j <= width || j == 0)
          invariant forall p :: p in cells <==> (0 <= p.0 < i && 0 <= p.1 < width) || (p.0 == i && 0 <= p.1 < j)
        {
          cells := cells + {(i, j)};
          j := j + 1;
        }
        i := i + 1;
      }
      forall p ensures p in cells <==> p in AllCells(height, width) {
        if InBounds(height, width, p) {
          var (a, b) := p;
          assert (a, b) in AllCells(height, width);
        }
      }
    }

    /** Remove the sentences without cells. Fails (the program raises
        ValueError) at the first sentence claiming more mines than cells; the
        empty sentences before it have been removed by then. */
    method CleanKnowledge() returns (ok: bool)
      requires Valid()
      modifies this`knowledge
      ensures Valid()
      ensures ok <==> old(FirstOverfull(knowledge)) == |old(knowledge)|
      ensures knowledge == old(CleanedUpTo(knowledge, FirstOverfull(knowledge)))
      ensures ok ==> knowledge == old(NonEmpty(knowledge))
    {
      ok, knowledge := CleanSentences(knowledge);
    }

    /** Append `s` unless an equal sentence is already known. */
    method AddSentenceToKnowledge(s: Sentence)
      requires Valid()
      modifies this`knowledge
      ensures Valid()
      ensures ContainsEqual(knowledge, s)
      ensures knowledge == if ContainsEqual(old(knowledge), s) then old(knowledge) else old(knowledge) + [s]
      ensures !HasEqualPair(old(knowledge)) ==> !HasEqualPair(knowledge)
    {
      if !ContainsEqual(knowledge, s) {
        knowledge := knowledge + [s];
        assert knowledge[|knowledge| - 1].Equals(s);
      }
    }

    /** The neighbourhood of `cell` on this player's board. */
    method ListNearbyCells(cell: Cell) returns (nearby: set<Cell>)
      ensures nearby == Neighbours(height, width, cell)
      ensures |nearby| <= 8
    {
      nearby := {};
      var i := cell.0 - 1;
      while i < cell.0 + 2
        invariant cell.0 - 1 <= i <= cell.0 + 2
        invariant ScannedSet(height, width, cell, nearby, i, cell.1 - 1)
      {
        var j := cell.1 - 1;
        while j < cell.1 + 2
          invariant cell.1 - 1 <= j <= cell.1 + 2
          invariant ScannedSet(height, width, cell, nearby, i, j)
        {
          ScanStep(height, width, cell, nearby, i, j);
          if (i, j) != cell && 0 <= i < height && 0 <= j < width {
            nearby := nearby + {(i, j)};
          }
          j := j + 1;
        }
        ScanNextRow(height, width, cell, nearby, i);
        i := i + 1;
      }
      ScanDone(height, width, cell, nearby);
      NeighboursAtMostEight(height, width, cell);
    }

    /** Record that `cell` is a mine and tell every sentence. */
    method MarkMine(cell: Cell)
      requires Valid()
      modifies this`mines, knowledge
      ensures Valid() && knowledge == old(knowledge)
      ensures mines == old(mines) + {cell}
      ensures safes == old(safes) && movesMade == old(movesMade)
      ensures forall k :: 0 <= k < |knowledge| ==>
        && knowledge[k].cells == old(knowledge[k].cells) - {cell}
        && knowledge[k].count == if cell in old(knowledge[k].cells) then old(knowledge[k].count) - 1 else old(knowledge[k].count)
      ensures forall k :: 0 <= k < |knowledge| ==> cell !in knowledge[k].cells
    {
      mines := mines + {cell};
      for i := 0 to |knowledge|
        invariant mines == old(mines) + {cell}
        invariant forall k :: 0 <= k < i ==>
          && knowledge[k].cells == old(knowledge[k].cells) - {cell}
          && knowledge[k].count == if cell in old(knowledge[k].cells) then old(knowledge[k].count) - 1 else old(knowledge[k].count)
        invariant forall k :: i <= k < |knowledge| ==>
          knowledge[k].cells == old(knowledge[k].cells) && knowledge[k].count == old(knowledge[k].count)
      {
        knowledge[i].MarkMine(cell);
      }
    }

    /** Record that `cell` is safe and tell every sentence. */
    method MarkSafe(cell: Cell)
      requires Valid()
      modifies this`safes, knowledge
      ensures Valid() && knowledge == old(knowledge)
      ensures safes == old(safes) + {cell}
      ensures mines == old(mines) && movesMade == old(movesMade)
      ensures forall k :: 0 <= k < |knowledge| ==>
        knowledge[k].cells == old(knowledge[k].cells) - {cell} && knowledge[k].count == old(knowledge[k].count)
      ensures forall k :: 0 <= k < |knowledge| ==> cell !in knowledge[k].cells
    {
      safes := safes + {cell};
      for i := 0 to |knowledge|
        invariant safes == old(safes) + {cell}
        invariant forall k :: 0 <= k < i ==>
          knowledge[k].cells == old(knowledge[k].cells) - {cell} && knowledge[k].count == old(knowledge[k].count)
        invariant forall k :: i <= k < |knowledge| ==>
          knowledge[k].cells == old(knowledge[k].cells) && knowledge[k].count == old(knowledge[k].count)
      {
        knowledge[i].MarkSafe(cell);
      }
    }

    /** Steps 1 to 3 of taking in the board's answer `count` for the clicked
        cell `cell`: record the move, then add the sentence "exactly `count`
        of the neighbours not yet known to be mines or safe are mines", when
        it has cells and is not already known. */
    method AddKnowledge(cell: Cell, count: int)
      requires Valid()
      modifies this`movesMade, this`knowledge
      ensures Valid()
      ensures movesMade == old(movesMade) + {cell}
      ensures mines == old(mines) && safes == old(safes)
      ensures var candidate := Neighbours(height, width, cell) - (mines + safes);
        if candidate == {} || ContainsValue(old(knowledge), candidate, count) then knowledge == old(knowledge)
        else && |knowledge| == |old(knowledge)| + 1 && knowledge[..|old(knowledge)|] == old(knowledge)
             && fresh(knowledge[|old(knowledge)|])
             && knowledge[|old(knowledge)|].cells == candidate && knowledge[|old(knowledge)|].count == count
    {
      movesMade := movesMade + {cell};
      var nearby := ListNearbyCells(cell);
      var knownMinesAndSafes := mines + safes;
      var cellsToConsider := nearby - knownMinesAndSafes;
      if |cellsToConsider| > 0 {
        var s := new Sentence(cellsToConsider, count);
        ghost var before := knowledge;
        assert ContainsEqual(before, s) <==> ContainsValue(before, cellsToConsider, count);
        AddSentenceToKnowledge(s);
        assert knowledge[..|before|] == before || knowledge == before;
      }
    }

    /** A cell known to be safe that has been neither played nor marked as a
        mine, or `None` when there is none; changes nothing. */
    method MakeSafeMove() returns (move: Option<Cell>)
      ensures move.Some? ==> move.value in safes && move.value !in movesMade && move.value !in mines
      ensures move.None? <==> safes - (movesMade + mines) == {}
    {
      if |safes| > 0 {
        var exploredOrMined := movesMade + mines;
        var availableSafes := safes - exploredOrMined;
        if availableSafes != {} {
          var chosen :| chosen in availableSafes;
          return Some(chosen);
        } else {
          return None;
        }
      } else {
        return None;
      }
    }

    /** Drop the played, mined and safe cells from the cells left for a
        random move, then pick any one of them; `None` where the program's
        random choice from an empty list would fail. */
    method MakeRandomMove() returns (move: Option<Cell>)
      modifies this`blancCells
      ensures blancCells == old(blancCells) - (movesMade + mines + safes)
      ensures move.Some? ==> move.value in blancCells
      ensures move.None? <==> blancCells == {}
    {
      var unavailable := movesMade + mines + safes;
      blancCells := blancCells - unavailable;
      if blancCells == {} {
        return None;
      }
      var randomCell :| randomCell in blancCells;
      return Some(randomCell);
    }
  }
}
