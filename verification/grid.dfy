/**
  The board of the Maus & Käse game: integer cells, unit movement vectors and
  the toroidal edge wrap applied to the mouse's head (app.js, `stepGame`).
 */
module Grid {
  import opened Seqs

  /** A cell `{x, y}` of the board, or a movement direction. */
  datatype Vec = Vec(x: int, y: int)

  function Add(a: Vec, b: Vec): Vec {
    Vec(a.x + b.x, a.y + b.y)
  }

  function Neg(v: Vec): Vec {
    Vec(-v.x, -v.y)
  }

  const Up := Vec(0, -1)
  const Down := Vec(0, 1)
  const Left := Vec(-1, 0)
  const Right := Vec(1, 0)

  /** The four directions the mouse can face. */
  predicate IsUnit(v: Vec) {
    v == Up || v == Down || v == Left || v == Right
  }

  predicate InBounds(cols: int, rows: int, c: Vec) {
    0 <= c.x < cols && 0 <= c.y < rows
  }

  predicate AllInBounds(cols: int, rows: int, cs: seq<Vec>) {
    forall i | 0 <= i < |cs| :: InBounds(cols, rows, cs[i])
  }

  /**
    One coordinate of the edge wrap, as the source applies it: first a value
    below zero becomes `n - 1`, then a value at or past `n` becomes 0.
   */
  function WrapAxis(v: int, n: int): int {
    var v1 := if v < 0 then n - 1 else v;
    if v1 >= n then 0 else v1
  }

  function Wrap(cols: int, rows: int, c: Vec): Vec {
    Vec(WrapAxis(c.x, cols), WrapAxis(c.y, rows))
  }

  /**
    A head inside the board that moves one cell in a unit direction stays inside
    the board: the board is a torus, and the wrap is addition modulo its size.
   */
  lemma WrapTorus(cols: int, rows: int, c: Vec, d: Vec)
    requires cols >= 1 && rows >= 1
    requires InBounds(cols, rows, c) && IsUnit(d)
    ensures InBounds(cols, rows, Wrap(cols, rows, Add(c, d)))
    ensures Wrap(cols, rows, Add(c, d)) == Vec((c.x + d.x) % cols, (c.y + d.y) % rows)
  {
    AxisIsMod(c.x, d.x, cols);
    AxisIsMod(c.y, d.y, rows);
  }

  lemma AxisIsMod(v: int, d: int, n: int)
    requires n >= 1 && 0 <= v < n && -1 <= d <= 1
    ensures WrapAxis(v + d, n) == (v + d) % n
  {
  }

  /** Crossing an edge lands on the opposite edge, in each of the four directions. */
  lemma WrapEdges(cols: int, rows: int, x: int, y: int)
    requires cols >= 1 && rows >= 1 && 0 <= x < cols && 0 <= y < rows
    ensures Wrap(cols, rows, Add(Vec(cols - 1, y), Right)) == Vec(0, y)
    ensures Wrap(cols, rows, Add(Vec(0, y), Left)) == Vec(cols - 1, y)
    ensures Wrap(cols, rows, Add(Vec(x, rows - 1), Down)) == Vec(x, 0)
    ensures Wrap(cols, rows, Add(Vec(x, 0), Up)) == Vec(x, rows - 1)
  {
  }

  /** The cells `(0, y) .. (cols - 1, y)` of one row. */
  function Row(cols: nat, y: int): (r: set<Vec>)
    ensures forall c :: c in r <==> c.y == y && 0 <= c.x < cols
    ensures |r| == cols
  {
    if cols == 0 then {} else Row(cols - 1, y) + {Vec(cols - 1, y)}
  }

  /** Every cell of a `cols` by `rows` board. */
  function Board(cols: nat, rows: nat): (r: set<Vec>)
    ensures forall c :: c in r <==> InBounds(cols, rows, c)
    ensures |r| == cols * rows
  {
    if rows == 0 then {}
    else
      var above := Board(cols, rows - 1);
      var last := Row(cols, rows - 1);
      assert above * last == {};
      assert |above + last| == |above| + |last|;
      assert cols * (rows - 1) + cols == cols * rows;
      above + last
  }

  /** While the body has fewer segments than the board has cells, some cell is free. */
  lemma FreeCellExists(cols: nat, rows: nat, body: seq<Vec>)
    requires |body| < cols * rows
    ensures exists c :: InBounds(cols, rows, c) && c !in body
  {
    var all := Board(cols, rows);
    ElemsBound(body);
    if all <= Elems(body) {
      SubsetCard(all, Elems(body));
      assert false;
    }
    var c :| c in all && c !in Elems(body);
    assert InBounds(cols, rows, c) && c !in body;
  }

  /** A body of pairwise distinct cells on the board never has more segments than the board has cells. */
  lemma BoardCapacity(cols: nat, rows: nat, body: seq<Vec>)
    requires AllInBounds(cols, rows, body) && Distinct(body)
    ensures |body| <= cols * rows
  {
    DistinctElems(body);
    assert Elems(body) <= Board(cols, rows) by {
      forall c | c in Elems(body)
        ensures c in Board(cols, rows)
      {
        var i :| 0 <= i < |body| && body[i] == c;
      }
    }
    SubsetCard(Elems(body), Board(cols, rows));
  }

  /** Once such a body covers the board, no cell is free. */
  lemma FullBoardNoFreeCell(cols: nat, rows: nat, body: seq<Vec>, c: Vec)
    requires AllInBounds(cols, rows, body) && Distinct(body)
    requires |body| == cols * rows
    requires InBounds(cols, rows, c)
    ensures c in body
  {
    if c !in body {
      var more := body + [c];
      assert Distinct(more);
      assert AllInBounds(cols, rows, more);
      BoardCapacity(cols, rows, more);
    }
  }
}
