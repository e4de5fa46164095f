/**
 The lattice of the Game of Life: a cell coordinate, the Moore-neighbourhood
 offset table and the enumeration of a cell's eight neighbours.
 Coordinates are mathematical integers (see README, "Left out").
 */
module Grid {

  /** One grid cell; equality is structural on both fields. */
  datatype Coord = Coord(x: int, y: int)

  /** The offset table, in the order `DIFFS` in main.rs lists it (row by row, the centre left out). */
  const Diffs: seq<(int, int)> := [
    (-1, -1), (-1, 0), (-1, 1),
    (0, -1),           (0, 1),
    (1, -1),  (1, 0),  (1, 1)
  ]

  /** The cell at `cell` displaced by the offset `d`. */
  function Shift(cell: Coord, d: (int, int)): Coord
  {
    Coord(cell.x + d.0, cell.y + d.1)
  }

  /** Moore adjacency: distinct cells at most one step apart on each axis. */
  predicate Adjacent(a: Coord, b: Coord)
  {
    a != b && -1 <= a.x - b.x <= 1 && -1 <= a.y - b.y <= 1
  }

  /** No two entries of `s` are equal. */
  predicate Distinct<T(==)>(s: seq<T>)
  {
    forall i, j :: 0 <= i < j < |s| ==> s[i] != s[j]
  }

  /** The eight neighbours of `cell`, one per entry of `Diffs`, in the table's order. */
  function Neighbours(cell: Coord): seq<Coord>
  {
    seq(|Diffs|, i requires 0 <= i < |Diffs| => Shift(cell, Diffs[i]))
  }

  /**
   Writes the neighbours of `cell` into the caller's eight-slot buffer,
   walking the offset table with its index.
   */
  method FillNeighbours(cell: Coord, buf: array<Coord>)
    requires buf.Length == |Diffs|
    modifies buf
    ensures buf[..] == Neighbours(cell)
  {
    for i := 0 to |Diffs|
      invariant forall k :: 0 <= k < i ==> buf[k] == Neighbours(cell)[k]
    {
      var (dx, dy) := Diffs[i];
      buf[i] := Coord(cell.x + dx, cell.y + dy);
    }
  }

  /** The table holds exactly the eight non-zero offsets in {-1, 0, 1}^2. */
  lemma DiffsAreMoore(dx: int, dy: int)
    ensures (dx, dy) in Diffs <==> (dx, dy) != (0, 0) && -1 <= dx <= 1 && -1 <= dy <= 1
  {
  }

  /** `n` is one of the enumerated neighbours of `cell` exactly when the two are adjacent. */
  lemma NeighboursExact(cell: Coord, n: Coord)
    ensures n in Neighbours(cell) <==> Adjacent(cell, n)
  {
    var ns := Neighbours(cell);
    DiffsAreMoore(n.x - cell.x, n.y - cell.y);
    if Adjacent(cell, n) {
      var i :| 0 <= i < |Diffs| && Diffs[i] == (n.x - cell.x, n.y - cell.y);
      assert ns[i] == n;
    }
    if n in ns {
      var i :| 0 <= i < |ns| && ns[i] == n;
      assert Diffs[i] in Diffs;
    }
  }

  /** The eight neighbours are pairwise distinct and none of them is the cell itself. */
  lemma NeighboursDistinct(cell: Coord)
    ensures Distinct(Neighbours(cell))
    ensures cell !in Neighbours(cell)
  {
  }

  /** Neighbourhood is symmetric: `n` neighbours `c` iff `c` neighbours `n`. */
  lemma NeighboursSymmetric(c: Coord, n: Coord)
    ensures n in Neighbours(c) <==> c in Neighbours(n)
  {
    NeighboursExact(c, n);
    NeighboursExact(n, c);
  }

  /** A sequence without repetitions has as many distinct elements as entries. */
  lemma {:induction false} DistinctCard<T>(s: seq<T>)
    requires Distinct(s)
    ensures |set x | x in s| == |s|
  {
    if s != [] {
      var rest := s[1..];
      assert Distinct(rest) by {
        forall i, j | 0 <= i < j < |rest| ensures rest[i] != rest[j] {
          assert rest[i] == s[i + 1] && rest[j] == s[j + 1];
        }
      }
      DistinctCard(rest);
      assert (set x | x in s) == (set x | x in rest) + {s[0]};
      assert s[0] !in rest by {
        forall j | 0 <= j < |rest| ensures rest[j] != s[0] {
          assert rest[j] == s[j + 1];
        }
      }
    }
  }

  /** The Moore neighbourhood of a cell, as a set, has exactly eight members. */
  lemma MooreSize(cell: Coord)
    ensures |set n | n in Neighbours(cell)| == 8
  {
    NeighboursDistinct(cell);
    DistinctCard(Neighbours(cell));
  }
}
