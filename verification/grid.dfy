/**
 Placement of the spheres on a square grid in the x/z plane, as done by the
 sphere-creation loop of init() in main.js: sphere i sits in row floor(i / 10)
 and column i % 10, and its world position is that cell, shifted so that the
 grid is centred on the origin and scaled by 35.
 */
module Grid {

  /** Number of rows (and of columns) of the grid. */
  const GridDim: nat := 10

  /** Number of spheres in the scene: one per grid cell. */
  const NumSpheres: nat := GridDim * GridDim

  /** Distance between the centres of two neighbouring spheres. */
  const Spacing: real := 35.0

  /** Shift that centres the grid on the origin: GridDim / 2 - 0.5. */
  const GridOffset: real := GridDim as real / 2.0 - 0.5

  datatype Cell = Cell(row: int, col: int)

  /** World position of a sphere's centre; every sphere sits at height 0. */
  datatype Placement = Placement(x: real, y: real, z: real)

  predicate InGrid(c: Cell) {
    0 <= c.row < GridDim && 0 <= c.col < GridDim
  }

  /** The cell of the i-th sphere created: row floor(i / GridDim), column i % GridDim. */
  function CellOf(i: nat): (c: Cell)
    ensures i < NumSpheres ==> InGrid(c)
    ensures i == c.row * GridDim + c.col && 0 <= c.col < GridDim
  {
    Cell(i / GridDim, i % GridDim)
  }

  /** The creation index of the sphere placed in cell c: the inverse of CellOf. */
  function IndexOf(c: Cell): (i: nat)
    requires InGrid(c)
    ensures i < NumSpheres
    ensures CellOf(i) == c
  {
    var i := c.row * GridDim + c.col;
    CellOfUnique(i, c);
    i
  }

  /** A creation index determines its cell and no other pair (row, col) with col in range. */
  lemma CellOfUnique(i: nat, c: Cell)
    requires 0 <= c.col < GridDim && i == c.row * GridDim + c.col
    ensures CellOf(i) == c
  {
  }

  /** Distinct spheres occupy distinct cells, and every cell of the grid holds a sphere. */
  lemma {:induction false} CellOfBijective(i: nat, j: nat, c: Cell)
    requires i < NumSpheres && j < NumSpheres
    requires InGrid(c)
    ensures CellOf(i) == CellOf(j) ==> i == j
    ensures exists k :: 0 <= k < NumSpheres && CellOf(k) == c
  {
    var k := IndexOf(c);
    assert CellOf(k) == c;
  }

  /** Position given to the i-th sphere: ((row - offset) * 35, 0, (col - offset) * 35). */
  function PlacementOf(i: nat): (p: Placement)
    ensures p.y == 0.0
    ensures i < NumSpheres ==>
      && -GridOffset * Spacing <= p.x <= GridOffset * Spacing
      && -GridOffset * Spacing <= p.z <= GridOffset * Spacing
  {
    var c := CellOf(i);
    Placement((c.row as real - GridOffset) * Spacing, 0.0, (c.col as real - GridOffset) * Spacing)
  }

  /** No two spheres are placed at the same position. */
  lemma PlacementInjective(i: nat, j: nat)
    requires i < NumSpheres && j < NumSpheres && i != j
    ensures PlacementOf(i) != PlacementOf(j)
  {
    CellOfBijective(i, j, CellOf(i));
  }
}
