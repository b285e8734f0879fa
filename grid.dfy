/**
 * Coordinates and the 8-neighbourhood. A coordinate is the integer pair the
 * detector reports for a cell (its pixel centre); the offsets are +-1 on
 * each axis and nothing checks that a neighbour lies on the board: one that
 * does not is simply absent from the snapshot.
 */
module Grid {
  import opened Labels

  type Coord = (int, int)

  /** The offsets in the order both neighbour lists use. */
  const Offsets: seq<(int, int)> :=
    [(-1, -1), (-1, 0), (-1, 1), (0, -1), (0, 1), (1, -1), (1, 0), (1, 1)]

  predicate Distinct(cs: seq<Coord>) {
    forall i, j :: 0 <= i < j < |cs| ==> cs[i] != cs[j]
  }

  /** `d` is another cell at most one step from `c` on both axes. */
  predicate Adjacent(c: Coord, d: Coord) {
    d != c && -1 <= d.0 - c.0 <= 1 && -1 <= d.1 - c.1 <= 1
  }

  /** `get_neighbors`: the 8 surrounding coordinates, in the fixed order of `Offsets`. */
  function Neighbors(c: Coord): (r: seq<Coord>)
    ensures |r| == 8 && Distinct(r)
    ensures forall d :: d in r <==> Adjacent(c, d)
  {
    var (x, y) := c;
    [(x - 1, y - 1), (x - 1, y), (x - 1, y + 1), (x, y - 1), (x, y + 1), (x + 1, y - 1), (x + 1, y), (x + 1, y + 1)]
  }

  /** The entries of `cs` whose label in `b` is `l`, in order; an entry absent from `b` never qualifies. */
  function Labelled(cs: seq<Coord>, b: map<Coord, Label>, l: Label): (r: seq<Coord>)
    ensures forall d :: d in r <==> d in cs && d in b && b[d] == l
    ensures |r| <= |cs|
    ensures Distinct(cs) ==> Distinct(r)
  {
    if cs == [] then []
    else
      var rest := Labelled(cs[1..], b, l);
      if cs[0] in b && b[cs[0]] == l then [cs[0]] + rest else rest
  }

  /** The neighbours of `c` labelled `l`: the list comprehension over `get_neighbors(cell)`. */
  function NeighborsLabelled(c: Coord, b: map<Coord, Label>, l: Label): (r: seq<Coord>)
    ensures |r| <= 8 && Distinct(r)
    ensures forall d :: d in r <==> Adjacent(c, d) && d in b && b[d] == l
  {
    Labelled(Neighbors(c), b, l)
  }

  /** Number of entries of `cs` labelled `l` in `b`: `sum(1 for ... if board_state.get(n) == target)`. */
  function CountLabelled(cs: seq<Coord>, b: map<Coord, Label>, l: Label): nat {
    if cs == [] then 0
    else (if cs[0] in b && b[cs[0]] == l then 1 else 0) + CountLabelled(cs[1..], b, l)
  }

  /** `count_neighbors(cell, board_state, target_state)`. */
  function CountNeighbors(c: Coord, b: map<Coord, Label>, l: Label): nat {
    CountLabelled(Neighbors(c), b, l)
  }

  /** The count is the length of the filtered list. */
  lemma {:induction false} CountLabelledIsLength(cs: seq<Coord>, b: map<Coord, Label>, l: Label)
    ensures CountLabelled(cs, b, l) == |Labelled(cs, b, l)|
  {
    if cs != [] {
      CountLabelledIsLength(cs[1..], b, l);
    }
  }

  /** A list without repeats has as many entries as its set of elements. */
  lemma {:induction false} DistinctCardinality(cs: seq<Coord>)
    requires Distinct(cs)
    ensures |set d | d in cs| == |cs|
  {
    if cs != [] {
      var last := cs[|cs| - 1];
      var init := cs[..|cs| - 1];
      DistinctCardinality(init);
      assert last !in init;
      assert (set d | d in cs) == (set d | d in init) + {last};
    }
  }

  /**
   * `count_neighbors` counts exactly the neighbours labelled `l` (a
   * coordinate absent from `b` never counts), so it is the length of the
   * deduction's neighbour list and at most 8.
   */
  lemma CountNeighborsSpec(c: Coord, b: map<Coord, Label>, l: Label)
    ensures CountNeighbors(c, b, l) == |NeighborsLabelled(c, b, l)|
    ensures CountNeighbors(c, b, l) == |set d | Adjacent(c, d) && d in b && b[d] == l|
    ensures CountNeighbors(c, b, l) <= 8
  {
    var r := NeighborsLabelled(c, b, l);
    CountLabelledIsLength(Neighbors(c), b, l);
    DistinctCardinality(r);
    assert (set d | d in r) == (set d | Adjacent(c, d) && d in b && b[d] == l);
  }
}
