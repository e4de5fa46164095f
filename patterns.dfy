/**
 Consequences of the B3/S23 rule for small configurations: the empty
 lattice, configurations of at most two cells, the blinker and the block.
 */
module Patterns {
  import opened Grid
  import opened Life

  /** 1 when `c` is adjacent to `p`, 0 otherwise. */
  function Indicator(c: Coord, p: Coord): nat
  {
    if Adjacent(c, p) then 1 else 0
  }

  /** The number of entries of `cs` adjacent to `p`. */
  function CountList(cs: seq<Coord>, p: Coord): nat
  {
    if cs == [] then 0 else Indicator(cs[0], p) + CountList(cs[1..], p)
  }

  /** For a list without repetitions, the live-neighbour count of its set is the sum of indicators. */
  lemma {:induction false} CountOfList(cs: seq<Coord>, p: Coord)
    requires Distinct(cs)
    ensures NeighbourCount((set c | c in cs), p) == CountList(cs, p)
  {
    if cs == [] {
      assert LiveNeighbours((set c | c in cs), p) == {};
    } else {
      var rest := cs[1..];
      assert Distinct(rest) by {
        forall i, j | 0 <= i < j < |rest| ensures rest[i] != rest[j] {
          assert rest[i] == cs[i + 1] && rest[j] == cs[j + 1];
        }
      }
      assert cs[0] !in rest by {
        forall j | 0 <= j < |rest| ensures rest[j] != cs[0] {
          assert rest[j] == cs[j + 1];
        }
      }
      CountOfList(rest, p);
      assert (set c | c in cs) == (set c | c in rest) + {cs[0]};
      CountInsert((set c | c in rest), cs[0], p);
    }
  }

  /** The empty lattice stays empty, generation after generation. */
  lemma EmptyStaysEmpty()
    ensures NextGeneration({}) == {}
    ensures NextGeneration(NextGeneration({})) == {}
  {
  }

  /** Any configuration of at most two cells dies out in one generation. */
  lemma AtMostTwoDie(cells: set<Coord>)
    requires |cells| <= 2
    ensures NextGeneration(cells) == {}
  {
    forall p ensures p !in NextGeneration(cells) {
      NextGenerationRule(cells, p);
      var around := LiveNeighbours(cells, p);
      assert p !in around;
      SubsetCard(around, cells - {p});
      if p in cells {
        assert |cells - {p}| == |cells| - 1;
      }
    }
  }

  const HorizontalBlinker: set<Coord> := {Coord(0, 0), Coord(1, 0), Coord(2, 0)}
  const VerticalBlinker: set<Coord> := {Coord(1, -1), Coord(1, 0), Coord(1, 1)}
  const Block: set<Coord> := {Coord(0, 0), Coord(1, 0), Coord(0, 1), Coord(1, 1)}

  /** For three cells, the rule of the next generation reads the sum of three indicators. */
  lemma ThreeCellRule(a: Coord, b: Coord, c: Coord, p: Coord)
    requires a != b && a != c && b != c
    ensures p in NextGeneration({a, b, c})
        <==> Rule(Indicator(a, p) + Indicator(b, p) + Indicator(c, p), p == a || p == b || p == c)
  {
    var cs := [a, b, c];
    assert (set q | q in cs) == {a, b, c};
    CountOfList(cs, p);
    assert cs[1..] == [b, c] && [b, c][1..] == [c] && [c][1..] == [];
    assert CountList([c], p) == Indicator(c, p) + CountList([], p);
    assert CountList([b, c], p) == Indicator(b, p) + CountList([c], p);
    NextGenerationRule({a, b, c}, p);
  }

  /** For four cells, likewise with four indicators. */
  lemma FourCellRule(a: Coord, b: Coord, c: Coord, d: Coord, p: Coord)
    requires a != b && a != c && a != d && b != c && b != d && c != d
    ensures p in NextGeneration({a, b, c, d})
        <==> Rule(Indicator(a, p) + Indicator(b, p) + Indicator(c, p) + Indicator(d, p), p == a || p == b || p == c || p == d)
  {
    var cs := [a, b, c, d];
    assert (set q | q in cs) == {a, b, c, d};
    CountOfList(cs, p);
    assert cs[1..] == [b, c, d] && [b, c, d][1..] == [c, d] && [c, d][1..] == [d] && [d][1..] == [];
    assert CountList([d], p) == Indicator(d, p) + CountList([], p);
    assert CountList([c, d], p) == Indicator(c, p) + CountList([d], p);
    assert CountList([b, c, d], p) == Indicator(b, p) + CountList([c, d], p);
    NextGenerationRule({a, b, c, d}, p);
  }

  /** The horizontal blinker turns into the vertical one. */
  lemma HorizontalBlinkerSteps()
    ensures NextGeneration(HorizontalBlinker) == VerticalBlinker
  {
    forall p ensures p in NextGeneration(HorizontalBlinker) <==> p in VerticalBlinker {
      ThreeCellRule(Coord(0, 0), Coord(1, 0), Coord(2, 0), p);
    }
  }

  /** The vertical blinker turns back into the horizontal one. */
  lemma VerticalBlinkerSteps()
    ensures NextGeneration(VerticalBlinker) == HorizontalBlinker
  {
    forall p ensures p in NextGeneration(VerticalBlinker) <==> p in HorizontalBlinker {
      ThreeCellRule(Coord(1, -1), Coord(1, 0), Coord(1, 1), p);
    }
  }

  /** The blinker oscillates with period exactly 2. */
  lemma BlinkerPeriodTwo()
    ensures NextGeneration(NextGeneration(HorizontalBlinker)) == HorizontalBlinker
    ensures NextGeneration(HorizontalBlinker) != HorizontalBlinker
  {
    HorizontalBlinkerSteps();
    var vertical := NextGeneration(HorizontalBlinker);
    assert Coord(1, 1) in vertical;
    assert Coord(1, 1) !in HorizontalBlinker;
    VerticalBlinkerSteps();
  }

  /** The 2x2 block is a still life. */
  lemma BlockIsStill()
    ensures NextGeneration(Block) == Block
  {
    forall p ensures p in NextGeneration(Block) <==> p in Block {
      FourCellRule(Coord(0, 0), Coord(1, 0), Coord(0, 1), Coord(1, 1), p);
    }
  }
}
