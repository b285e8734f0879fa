/**
 * The board snapshot: a dictionary from coordinate to label that, like a
 * Python dict, remembers the order in which keys were first inserted, and
 * the merge `scan_board` performs over the three detector results.
 */
module Snapshots {
  import opened Labels
  import opened Grid

  /** `order` lists the keys in insertion order; `cells` gives each key's label. */
  datatype Snapshot = Snapshot(order: seq<Coord>, cells: map<Coord, Label>)

  ghost predicate Valid(s: Snapshot) {
    Distinct(s.order) && forall c :: c in s.cells <==> c in s.order
  }

  const Empty: Snapshot := Snapshot([], map[])

  /** `d[c] = l`: a new key goes to the end of the order, an existing key keeps its place. */
  function Assign(s: Snapshot, c: Coord, l: Label): (r: Snapshot)
    ensures Valid(s) ==> Valid(r)
  {
    Snapshot(if c in s.cells then s.order else s.order + [c], s.cells[c := l])
  }

  /** The keys of a list of entries, in order. */
  function Keys<V>(es: seq<(Coord, V)>): (ks: seq<Coord>)
    ensures |ks| == |es|
  {
    if es == [] then [] else Keys(es[..|es| - 1]) + [es[|es| - 1].0]
  }

  /** The value of the last entry for `c`: the one a run of assignments leaves behind. */
  function LastFor<V>(es: seq<(Coord, V)>, c: Coord): (v: V)
    requires c in Keys(es)
    ensures (c, v) in es
  {
    var e := es[|es| - 1];
    if e.0 == c then e.1 else LastFor(es[..|es| - 1], c)
  }

  /** The assignments `d[c] = l` for each entry in turn, as `dict.update` performs them. */
  function AssignAll(s: Snapshot, es: seq<(Coord, Label)>): Snapshot {
    if es == [] then s else Assign(AssignAll(s, es[..|es| - 1]), es[|es| - 1].0, es[|es| - 1].1)
  }

  /** The elements of `cs` in order of first appearance. */
  function Dedup(cs: seq<Coord>): (r: seq<Coord>)
    ensures Distinct(r)
    ensures forall c :: c in r <==> c in cs
  {
    if cs == [] then []
    else
      var p := Dedup(cs[..|cs| - 1]);
      if cs[|cs| - 1] in p then p else p + [cs[|cs| - 1]]
  }

  /** Every cell of `cs` paired with the label `l`: `{cell: l for cell in cs}`. */
  function Tag(cs: seq<Coord>, l: Label): (es: seq<(Coord, Label)>)
    ensures Keys(es) == cs
    ensures forall c :: c in cs ==> LastFor(es, c) == l
  {
    if cs == [] then [] else Tag(cs[..|cs| - 1], l) + [(cs[|cs| - 1], l)]
  }

  /** Every detected number `n` as the label `number_n`. */
  function NumberTags(ns: seq<(Coord, nat)>): (es: seq<(Coord, Label)>)
    ensures Keys(es) == Keys(ns)
    ensures forall c :: c in Keys(ns) ==> LastFor(es, c) == Number(LastFor(ns, c))
  {
    if ns == [] then [] else NumberTags(ns[..|ns| - 1]) + [(ns[|ns| - 1].0, Number(ns[|ns| - 1].1))]
  }

  /** A run of assignments keeps the snapshot well formed. */
  lemma {:induction false} AssignAllValid(s: Snapshot, es: seq<(Coord, Label)>)
    requires Valid(s)
    ensures Valid(AssignAll(s, es))
  {
    if es != [] {
      AssignAllValid(s, es[..|es| - 1]);
    }
  }

  /** A run of assignments keeps the snapshot valid; each assigned key ends with its last value, the others keep theirs. */
  lemma {:induction false} AssignAllLabels(s: Snapshot, es: seq<(Coord, Label)>)
    requires Valid(s)
    ensures Valid(AssignAll(s, es))
    ensures forall c :: c in AssignAll(s, es).cells <==> c in s.cells || c in Keys(es)
    ensures forall c :: c in Keys(es) ==> AssignAll(s, es).cells[c] == LastFor(es, c)
    ensures forall c :: c in s.cells && c !in Keys(es) ==> AssignAll(s, es).cells[c] == s.cells[c]
  {
    if es != [] {
      AssignAllLabels(s, es[..|es| - 1]);
    }
  }

  /** A run of assignments appends the keys it has not seen, in order of first appearance. */
  lemma {:induction false} AssignAllOrder(s: Snapshot, es: seq<(Coord, Label)>, history: seq<Coord>)
    requires Valid(s) && s.order == Dedup(history)
    ensures AssignAll(s, es).order == Dedup(history + Keys(es))
  {
    if es == [] {
      assert history + Keys(es) == history;
    } else {
      var init, last := es[..|es| - 1], es[|es| - 1].0;
      AssignAllOrder(s, init, history);
      AssignAllValid(s, init);
      var prev := AssignAll(s, init);
      assert last in prev.cells <==> last in prev.order;
      var all := history + Keys(es);
      assert all[..|all| - 1] == history + Keys(init);
      assert all[|all| - 1] == last;
    }
  }

  /**
   * `scan_board`'s merge (lines 134-136): every unopened cell, then every
   * opened cell, then every numbered cell is written into the dictionary,
   * so a number overrides "opened", which overrides "unopened". The keys
   * are all detected cells in order of first detection, and no cell is
   * ever labelled flagged.
   */
  function ScanBoard(unopenedCells: seq<Coord>, openedCells: seq<Coord>, numberedCells: seq<(Coord, nat)>): (r: Snapshot)
    ensures Valid(r)
    ensures r.order == Dedup(unopenedCells + openedCells + Keys(numberedCells))
    ensures forall c :: c in r.cells <==> c in unopenedCells || c in openedCells || c in Keys(numberedCells)
    ensures forall c :: c in r.cells ==>
      r.cells[c] == (if c in Keys(numberedCells) then Number(LastFor(numberedCells, c))
                     else if c in openedCells then Opened
                     else Unopened)
    ensures forall c :: c in r.cells ==> r.cells[c] != Flagged
  {
    var s1 := AssignAll(Empty, Tag(unopenedCells, Unopened));
    var s2 := AssignAll(s1, Tag(openedCells, Opened));
    var s3 := AssignAll(s2, NumberTags(numberedCells));
    AssignAllLabels(Empty, Tag(unopenedCells, Unopened));
    AssignAllLabels(s1, Tag(openedCells, Opened));
    AssignAllLabels(s2, NumberTags(numberedCells));
    AssignAllOrder(Empty, Tag(unopenedCells, Unopened), []);
    assert [] + unopenedCells == unopenedCells;
    AssignAllOrder(s1, Tag(openedCells, Opened), unopenedCells);
    AssignAllOrder(s2, NumberTags(numberedCells), unopenedCells + openedCells);
    s3
  }
}
