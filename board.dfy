// The board model of the 5x5 engine: a grid of cell codes (0 empty, 1 and 2
// the two players), positions, orthogonal neighbours, and the row-major scan
// that find_empty_positions performs.
module Board {
  import opened Seqs

  /** A row or column index; every position of the model is on the board. */
  type Coord = x: int | 0 <= x < 5

  datatype Pos = Pos(row: Coord, col: Coord)

  /** The two players; the opponent of c is 3 - c. */
  type Color = c: int | c == 1 || c == 2 witness 1

  const EMPTY := 0

  /** Number of cells on the board. */
  const CELLS: nat := 25

  function Opponent(c: Color): (o: Color)
    ensures o != c && 3 - o == c
  {
    3 - c
  }

  predicate IsGrid(b: seq<seq<int>>) {
    |b| == 5 && forall r | 0 <= r < 5 :: |b[r]| == 5
  }

  /** A 5x5 list of rows, each cell holding a cell code. */
  type Board = b: seq<seq<int>> | IsGrid(b)
    witness [[0, 0, 0, 0, 0], [0, 0, 0, 0, 0], [0, 0, 0, 0, 0], [0, 0, 0, 0, 0], [0, 0, 0, 0, 0]]

  function At(b: Board, p: Pos): int {
    b[p.row][p.col]
  }

  /** Two boards with the same cell everywhere are the same value. */
  lemma BoardExt(b1: Board, b2: Board)
    requires forall q: Pos :: At(b1, q) == At(b2, q)
    ensures b1 == b2
  {
    forall r | 0 <= r < 5 ensures b1[r] == b2[r] {
      forall c | 0 <= c < 5 ensures b1[r][c] == b2[r][c] {
        assert At(b1, Pos(r, c)) == At(b2, Pos(r, c));
      }
    }
  }

  /** `next_board[row][col] = v` on a fresh copy of the board. */
  function Place(b: Board, p: Pos, v: int): (r: Board)
    ensures At(r, p) == v
    ensures forall q: Pos | q != p :: At(r, q) == At(b, q)
  {
    b[p.row := b[p.row][p.col := v]]
  }

  /** The board with every cell of s emptied. */
  function Clear(b: Board, s: set<Pos>): (r: Board)
    ensures forall q: Pos :: At(r, q) == if q in s then EMPTY else At(b, q)
  {
    seq(5, row requires 0 <= row < 5 =>
      seq(5, col requires 0 <= col < 5 => if Pos(row, col) in s then EMPTY else b[row][col]))
  }

  function Abs(x: int): nat {
    if x < 0 then -x else x
  }

  /** Orthogonal adjacency. */
  predicate Adjacent(p: Pos, q: Pos) {
    Abs(p.row - q.row) + Abs(p.col - q.col) == 1
  }

  /** find_neighbor: the orthogonal neighbours clipped to the board, in the
      order up, down, left, right. */
  function Neighbors(p: Pos): (r: seq<Pos>)
    ensures forall q: Pos :: q in r <==> Adjacent(p, q)
    ensures Distinct(r) && 2 <= |r| <= 4
  {
    (if p.row > 0 then [Pos(p.row - 1, p.col)] else []) +
    (if p.row < 4 then [Pos(p.row + 1, p.col)] else []) +
    (if p.col > 0 then [Pos(p.row, p.col - 1)] else []) +
    (if p.col < 4 then [Pos(p.row, p.col + 1)] else [])
  }

  lemma NeighborsSymmetric(p: Pos, q: Pos)
    ensures q in Neighbors(p) <==> p in Neighbors(q)
  {
  }

  /** Row-major index of a position. */
  function Index(p: Pos): (i: nat)
    ensures i < 25
  {
    5 * p.row + p.col
  }

  /** The position with row-major index i. */
  function CellAt(i: int): (p: Pos)
    requires 0 <= i < 25
    ensures Index(p) == i
  {
    Pos(i / 5, i % 5)
  }

  lemma CellAtIndex(p: Pos)
    ensures CellAt(Index(p)) == p
  {
  }

  /** Strictly increasing in row-major order. */
  predicate RowMajor(s: seq<Pos>) {
    forall i, j | 0 <= i < j < |s| :: Index(s[i]) < Index(s[j])
  }

  /** The positions among the first n in row-major order whose cell holds v,
      in row-major order: what the double loop of find_empty_positions (and
      the same loop in find_all_connect_group) collects after n cells. */
  function Scan(b: Board, v: int, n: nat): seq<Pos>
    requires n <= 25
  {
    if n == 0 then []
    else
      var q := CellAt(n - 1);
      Scan(b, v, n - 1) + (if At(b, q) == v then [q] else [])
  }

  /** The scan holds exactly the cells before n that hold v, in row-major order. */
  lemma {:induction false} ScanSpec(b: Board, v: int, n: nat)
    requires n <= 25
    ensures forall q: Pos :: q in Scan(b, v, n) <==> Index(q) < n && At(b, q) == v
    ensures RowMajor(Scan(b, v, n))
  {
    if n > 0 {
      ScanSpec(b, v, n - 1);
      var q := CellAt(n - 1);
      var prev := Scan(b, v, n - 1);
      var tail := if At(b, q) == v then [q] else [];
      assert Scan(b, v, n) == prev + tail;
      forall q': Pos ensures q' in Scan(b, v, n) <==> Index(q') < n && At(b, q') == v {
        if Index(q') == n - 1 {
          CellAtIndex(q');
        }
      }
      forall i, j | 0 <= i < j < |prev + tail| ensures Index((prev + tail)[i]) < Index((prev + tail)[j]) {
        if j >= |prev| {
          assert (prev + tail)[i] in prev;
        }
      }
    }
  }

  /** The scan of n cells has at most n entries, and has n exactly when
      each of those cells holds v. */
  lemma {:induction false} ScanFull(b: Board, v: int, n: nat)
    requires n <= 25
    ensures |Scan(b, v, n)| <= n
    ensures |Scan(b, v, n)| == n <==> forall i | 0 <= i < n :: At(b, CellAt(i)) == v
  {
    if n > 0 {
      ScanFull(b, v, n - 1);
    }
  }

  lemma RowMajorDistinct(s: seq<Pos>)
    requires RowMajor(s)
    ensures Distinct(s)
  {
  }

  /** A subsequence of a row-major list is row-major. */
  lemma {:induction false} SubseqRowMajor(xs: seq<Pos>, ys: seq<Pos>)
    requires Subseq(xs, ys) && RowMajor(ys)
    ensures RowMajor(xs)
    decreases |ys|
  {
    if xs != [] {
      assert RowMajor(ys[1..]);
      if xs[0] == ys[0] && Subseq(xs[1..], ys[1..]) {
        SubseqRowMajor(xs[1..], ys[1..]);
        SubseqElems(xs[1..], ys[1..]);
        forall i, j | 0 <= i < j < |xs| ensures Index(xs[i]) < Index(xs[j]) {
          if i == 0 {
            assert xs[j] == xs[1..][j - 1];
            assert xs[j] in ys[1..];
            var k :| 0 <= k < |ys[1..]| && ys[1..][k] == xs[j];
            assert ys[k + 1] == xs[j];
          } else {
            assert xs[i] == xs[1..][i - 1] && xs[j] == xs[1..][j - 1];
          }
        }
      } else {
        SubseqRowMajor(xs, ys[1..]);
      }
    }
  }

  /** One more cell of the row-major scan. */
  lemma ScanStep(b: Board, v: int, row: Coord, col: Coord)
    ensures Scan(b, v, 5 * row + col + 1) ==
            Scan(b, v, 5 * row + col) + (if b[row][col] == v then [Pos(row, col)] else [])
  {
    CellAtIndex(Pos(row, col));
  }

  /** find_empty_positions and the same-colour scan of find_all_connect_group:
      every cell holding v, row by row. */
  method CollectCells(b: Board, v: int) returns (cells: seq<Pos>)
    ensures cells == Scan(b, v, CELLS)
  {
    cells := [];
    for row := 0 to 5
      invariant cells == Scan(b, v, 5 * row)
    {
      for col := 0 to 5
        invariant cells == Scan(b, v, 5 * row + col)
      {
        ScanStep(b, v, row, col);
        if b[row][col] == v {
          cells := cells + [Pos(row, col)];
        }
      }
    }
  }

  /** find_empty_positions. */
  method FindEmptyPositions(b: Board) returns (empty: seq<Pos>)
    ensures empty == Scan(b, EMPTY, CELLS)
  {
    empty := CollectCells(b, EMPTY);
  }

  /** The full scan lists every cell holding v exactly once, in row-major
      order. */
  lemma ScanAll(b: Board, v: int)
    ensures forall q: Pos :: q in Scan(b, v, CELLS) <==> At(b, q) == v
    ensures RowMajor(Scan(b, v, CELLS)) && Distinct(Scan(b, v, CELLS))
  {
    ScanSpec(b, v, CELLS);
    RowMajorDistinct(Scan(b, v, CELLS));
  }

  lemma ScanDistinct(b: Board, v: int)
    ensures Distinct(Scan(b, v, CELLS))
  {
    ScanAll(b, v);
  }
}
