/**
 The generation engine: neighbour counting over the sparse live set and the
 B3/S23 rule. `CountMap` and `NextGeneration` are the specification (set
 and map comprehensions); `NeighbourCounts` and `Step` are the loops of
 main.rs, proved to compute exactly those values, whatever order they visit
 the set and the map in.
 */
module Life {
  import opened Grid

  /** The live cells adjacent to `p`: the live part of `p`'s Moore neighbourhood. */
  function LiveNeighbours(cells: set<Coord>, p: Coord): set<Coord>
  {
    set c | c in cells && Adjacent(c, p)
  }

  /** The number of live cells around `p`. */
  function NeighbourCount(cells: set<Coord>, p: Coord): nat
  {
    |LiveNeighbours(cells, p)|
  }

  /** Every coordinate that is the neighbour of some live cell, i.e. every coordinate the counting loop touches. */
  function Touched(cells: set<Coord>): set<Coord>
  {
    set c, n | c in cells && n in Neighbours(c) :: n
  }

  /** The count map `neighbour_counts` in main.rs builds: one entry per touched coordinate, holding its live-neighbour count. */
  function CountMap(cells: set<Coord>): map<Coord, nat>
  {
    map p | p in Touched(cells) :: NeighbourCount(cells, p)
  }

  /** The survival/birth rule: born with exactly 3 live neighbours, survives with 2 or 3. */
  predicate Rule(count: nat, alive: bool)
  {
    count == 3 || (alive && count == 2)
  }

  /** The next generation: each counted coordinate whose count and current state satisfy the rule. */
  function NextGeneration(cells: set<Coord>): set<Coord>
  {
    set p | p in Touched(cells) && Rule(NeighbourCount(cells, p), p in cells)
  }

  /** A map lookup that reads a missing key as 0, as `entry(..).or_insert(0)` does. */
  function Tally(counts: map<Coord, nat>, p: Coord): nat
  {
    if p in counts then counts[p] else 0
  }

  /** Adding one cell that was not live adds one to the count of each of its neighbours and nothing elsewhere. */
  lemma CountInsert(cells: set<Coord>, c: Coord, p: Coord)
    requires c !in cells
    ensures NeighbourCount(cells + {c}, p) == NeighbourCount(cells, p) + (if Adjacent(c, p) then 1 else 0)
  {
    if Adjacent(c, p) {
      assert LiveNeighbours(cells + {c}, p) == LiveNeighbours(cells, p) + {c};
    } else {
      assert LiveNeighbours(cells + {c}, p) == LiveNeighbours(cells, p);
    }
  }

  /** A coordinate is touched by the counting loop exactly when it has at least one live neighbour. */
  lemma TouchedIffCounted(cells: set<Coord>, p: Coord)
    ensures p in Touched(cells) <==> NeighbourCount(cells, p) >= 1
  {
    if p in Touched(cells) {
      var c, n :| c in cells && n in Neighbours(c) && n == p;
      NeighboursExact(c, p);
      assert c in LiveNeighbours(cells, p);
    }
    if NeighbourCount(cells, p) >= 1 {
      var c :| c in LiveNeighbours(cells, p);
      NeighboursExact(c, p);
    }
  }

  /** No coordinate has more live neighbours than its neighbourhood has cells. */
  lemma CountAtMostEight(cells: set<Coord>, p: Coord)
    ensures NeighbourCount(cells, p) <= 8
  {
    var moore := set n | n in Neighbours(p);
    forall c | c in LiveNeighbours(cells, p) ensures c in moore {
      NeighboursExact(p, c);
    }
    MooreSize(p);
    SubsetCard(LiveNeighbours(cells, p), moore);
  }

  /** A subset has at most as many elements as the set containing it. */
  lemma {:induction false} SubsetCard<T>(a: set<T>, b: set<T>)
    requires a <= b
    ensures |a| <= |b|
    decreases b
  {
    if a != {} {
      var x :| x in a;
      SubsetCard(a - {x}, b - {x});
    }
  }

  /**
   The count map holds exactly the coordinates with at least one live
   neighbour, each mapped to its live-neighbour count, which lies in 1..8.
   */
  lemma CountMapCorrect(cells: set<Coord>, p: Coord)
    ensures p in CountMap(cells) <==> NeighbourCount(cells, p) >= 1
    ensures p in CountMap(cells) ==> CountMap(cells)[p] == NeighbourCount(cells, p) && 1 <= CountMap(cells)[p] <= 8
  {
    TouchedIffCounted(cells, p);
    CountAtMostEight(cells, p);
  }

  /** A coordinate is live in the next generation iff the rule holds of its count, for every coordinate. */
  lemma NextGenerationRule(cells: set<Coord>, p: Coord)
    ensures p in NextGeneration(cells) <==> Rule(NeighbourCount(cells, p), p in cells)
  {
    TouchedIffCounted(cells, p);
  }

  /** Every cell of the next generation is adjacent to some currently live cell. */
  lemma NextGenerationNearLife(cells: set<Coord>, p: Coord)
    requires p in NextGeneration(cells)
    ensures exists c :: c in cells && Adjacent(c, p)
  {
  }

  /**
   `neighbour_counts` in main.rs: for each live cell, fill an eight-slot
   buffer with its neighbours and increment each neighbour's entry.
   */
  method NeighbourCounts(cells: set<Coord>) returns (counts: map<Coord, nat>)
    ensures counts == CountMap(cells)
  {
    counts := map[];
    var remaining := cells;
    ghost var done: set<Coord> := {};
    while remaining != {}
      invariant remaining <= cells && done == cells - remaining
      invariant forall p :: Tally(counts, p) == NeighbourCount(done, p)
      invariant forall p :: p in counts ==> counts[p] >= 1
      decreases remaining
    {
      var c :| c in remaining;
      var nei := new Coord[|Diffs|](_ => Coord(0, 0));
      FillNeighbours(c, nei);
      ghost var ns := Neighbours(c);
      NeighboursDistinct(c);
      for k := 0 to |Diffs|
        invariant forall p :: Tally(counts, p) == NeighbourCount(done, p) + (if p in ns[..k] then 1 else 0)
        invariant forall p :: p in counts ==> counts[p] >= 1
      {
        var n := nei[k];
        assert n !in ns[..k] && ns[..k + 1] == ns[..k] + [n];
        counts := counts[n := Tally(counts, n) + 1];
      }
      forall p ensures Tally(counts, p) == NeighbourCount(done + {c}, p) {
        assert ns[..|Diffs|] == ns;
        NeighboursExact(c, p);
        CountInsert(done, c, p);
      }
      done := done + {c};
      remaining := remaining - {c};
    }
    assert done == cells;
    forall p ensures p in counts <==> p in CountMap(cells) {
      assert Tally(counts, p) == NeighbourCount(cells, p);
      CountMapCorrect(cells, p);
    }
    forall p | p in counts ensures counts[p] == CountMap(cells)[p] {
      assert Tally(counts, p) == NeighbourCount(cells, p);
      CountMapCorrect(cells, p);
    }
  }

  /**
   `step` in main.rs: build the count map, then insert every counted
   coordinate whose count is 3, or 2 for a live one. The input set is a
   value and is left as it was.
   */
  method Step(cells: set<Coord>) returns (next: set<Coord>)
    ensures next == NextGeneration(cells)
  {
    var counts := NeighbourCounts(cells);
    next := {};
    var remaining := counts.Keys;
    while remaining != {}
      invariant remaining <= counts.Keys
      invariant forall p :: p in next <==> p in counts && p !in remaining && Rule(counts[p], p in cells)
      decreases remaining
    {
      var cell :| cell in remaining;
      var count := counts[cell];
      if count == 3 || (cell in cells && count == 2) {
        next := next + {cell};
      }
      remaining := remaining - {cell};
    }
    forall p ensures p in next <==> p in NextGeneration(cells) {
      CountMapCorrect(cells, p);
      NextGenerationRule(cells, p);
    }
  }
}
