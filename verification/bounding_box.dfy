/**
 The proxy geometry drawn for each sphere's occlusion query: the triangle
 list of an axis-aligned box, as built by computeBoundingBoxPositions in
 main.js. The box is given by its min and max corners; the result is a flat
 table of 108 coordinates, i.e. 36 vertices = 6 faces x 2 triangles x 3
 vertices, each vertex one of the box's 8 corners.

 Coordinates are reals: the Float32Array rounding of the source is not modelled.
 */
module BoundingBox {

  datatype Vec3 = Vec3(x: real, y: real, z: real)

  /** An axis-aligned box (three.js Box3): its least and greatest corners. */
  datatype Box3 = Box3(min: Vec3, max: Vec3)

  /** The eight corners, named front/back (z), bottom/top (y), left/right (x). */
  datatype Corners = Corners(
    fbl: Vec3, fbr: Vec3, ftl: Vec3, ftr: Vec3,
    bbl: Vec3, bbr: Vec3, btl: Vec3, btr: Vec3)

  /** Number of vertices in the table, the count handed to drawArrays. */
  const VertexCount: nat := 36

  /** Component-wise difference, as three.js Vector3.sub computes it. */
  function Sub(a: Vec3, b: Vec3): (d: Vec3)
    ensures Vec3(b.x + d.x, b.y + d.y, b.z + d.z) == a
  {
    Vec3(a.x - b.x, a.y - b.y, a.z - b.z)
  }

  /** The corners spanned from `origin` by the extent `dimension` (width, height, depth). */
  function CornersOf(origin: Vec3, dimension: Vec3): (k: Corners)
    ensures k.fbl.x == k.ftl.x == k.bbl.x == k.btl.x == origin.x
    ensures k.fbr.x == k.ftr.x == k.bbr.x == k.btr.x == origin.x + dimension.x
    ensures k.fbl.y == k.fbr.y == k.bbl.y == k.bbr.y == origin.y
    ensures k.ftl.y == k.ftr.y == k.btl.y == k.btr.y == origin.y + dimension.y
    ensures k.bbl.z == k.bbr.z == k.btl.z == k.btr.z == origin.z
    ensures k.fbl.z == k.fbr.z == k.ftl.z == k.ftr.z == origin.z + dimension.z
  {
    var x, y, z := origin.x, origin.y, origin.z;
    var width, height, depth := dimension.x, dimension.y, dimension.z;
    Corners(
      Vec3(x, y, z + depth), Vec3(x + width, y, z + depth),
      Vec3(x, y + height, z + depth), Vec3(x + width, y + height, z + depth),
      Vec3(x, y, z), Vec3(x + width, y, z),
      Vec3(x, y + height, z), Vec3(x + width, y + height, z))
  }

  /**
   The 36 vertices in the order of the source's table: front, right, back,
   left, top, bottom, two triangles each. The first vertex of the back face
   takes its x from fbr and its y, z from bbr, as the source writes it.
   */
  function Triangles(k: Corners): (vs: seq<Vec3>)
    ensures |vs| == VertexCount
    ensures forall i :: 0 <= i < |vs| && i != 12 ==>
      vs[i] in {k.fbl, k.fbr, k.ftl, k.ftr, k.bbl, k.bbr, k.btl, k.btr}
    ensures vs[12] == Vec3(k.fbr.x, k.bbr.y, k.bbr.z)
  {
    [k.fbl, k.fbr, k.ftl, k.ftl, k.fbr, k.ftr] +                 // front
    [k.fbr, k.bbr, k.ftr, k.ftr, k.bbr, k.btr] +                 // right
    [Vec3(k.fbr.x, k.bbr.y, k.bbr.z), k.bbl, k.btr, k.btr, k.bbl, k.btl] +  // back
    [k.bbl, k.fbl, k.btl, k.btl, k.fbl, k.ftl] +                 // left
    [k.ftl, k.ftr, k.btl, k.btl, k.ftr, k.btr] +                 // top
    [k.bbl, k.bbr, k.fbl, k.fbl, k.bbr, k.fbr]                   // bottom
  }

  /** Lays vertices out as consecutive (x, y, z) triples. */
  function Flatten(vs: seq<Vec3>): (r: seq<real>)
    ensures |r| == 3 * |vs|
    ensures forall k :: 0 <= k < |vs| ==> r[3 * k] == vs[k].x && r[3 * k + 1] == vs[k].y && r[3 * k + 2] == vs[k].z
  {
    if vs == [] then []
    else
      var rest := Flatten(vs[1..]);
      assert forall k :: 1 <= k < |vs| ==> 3 * k == 3 + 3 * (k - 1);
      [vs[0].x, vs[0].y, vs[0].z] + rest
  }

  /** The k-th vertex of a flat coordinate table. */
  function VertexAt(positions: seq<real>, k: nat): Vec3
    requires 3 * k + 2 < |positions|
  {
    Vec3(positions[3 * k], positions[3 * k + 1], positions[3 * k + 2])
  }

  /** v is one of the eight corners of box. */
  predicate IsCorner(v: Vec3, box: Box3) {
    && (v.x == box.min.x || v.x == box.max.x)
    && (v.y == box.min.y || v.y == box.max.y)
    && (v.z == box.min.z || v.z == box.max.z)
  }

  /** v lies inside box, component-wise. */
  predicate Within(v: Vec3, box: Box3) {
    && box.min.x <= v.x <= box.max.x
    && box.min.y <= v.y <= box.max.y
    && box.min.z <= v.z <= box.max.z
  }

  predicate WellFormed(box: Box3) {
    box.min.x <= box.max.x && box.min.y <= box.max.y && box.min.z <= box.max.z
  }

  /**
   The corrected computeBoundingBoxPositions: the extent max - min is computed
   without touching the box, and the table is the flattened triangle list.
   */
  function ComputeBoundingBoxPositions(box: Box3): (positions: seq<real>)
    ensures |positions| == 3 * VertexCount
  {
    Flatten(Triangles(CornersOf(box.min, Sub(box.max, box.min))))
  }

  /**
   computeBoundingBoxPositions as written: `box.max.sub(box.min)` overwrites
   box.max with the extent before the table is built. Returns the table and
   the box as the caller holds it afterwards.
   */
  function ComputeBoundingBoxPositionsAsWritten(box: Box3): (r: (seq<real>, Box3))
    ensures r.0 == ComputeBoundingBoxPositions(box)
    ensures r.1.min == box.min && r.1.max == Sub(box.max, box.min)
  {
    var dimension := Sub(box.max, box.min);
    (Flatten(Triangles(CornersOf(box.min, dimension))), box.(max := dimension))
  }

  /** The triangle list holds 36 vertices, each one of the box's eight corners. */
  lemma {:induction false} VerticesAreCorners(box: Box3)
    ensures |ComputeBoundingBoxPositions(box)| / 3 == VertexCount
    ensures forall k :: 0 <= k < VertexCount ==> IsCorner(VertexAt(ComputeBoundingBoxPositions(box), k), box)
  {
    forall k | 0 <= k < VertexCount
      ensures IsCorner(VertexAt(ComputeBoundingBoxPositions(box), k), box)
    {
      VertexOfTable(box, k);
    }
  }

  /** For a box with min <= max, every coordinate of the table lies between min and max. */
  lemma VerticesWithinBox(box: Box3)
    requires WellFormed(box)
    ensures forall k :: 0 <= k < VertexCount ==> Within(VertexAt(ComputeBoundingBoxPositions(box), k), box)
  {
    VerticesAreCorners(box);
  }

  /**
   The six faces: the six vertices of each face lie in that face's plane
   (front z = max.z, right x = max.x, back z = min.z, left x = min.x,
   top y = max.y, bottom y = min.y).
   */
  lemma {:induction false} FacesArePlanar(box: Box3)
    ensures var p := ComputeBoundingBoxPositions(box);
      && (forall k :: 0 <= k < 6 ==> VertexAt(p, k).z == box.max.z)
      && (forall k :: 6 <= k < 12 ==> VertexAt(p, k).x == box.max.x)
      && (forall k :: 12 <= k < 18 ==> VertexAt(p, k).z == box.min.z)
      && (forall k :: 18 <= k < 24 ==> VertexAt(p, k).x == box.min.x)
      && (forall k :: 24 <= k < 30 ==> VertexAt(p, k).y == box.max.y)
      && (forall k :: 30 <= k < 36 ==> VertexAt(p, k).y == box.min.y)
  {
    forall k | 0 <= k < VertexCount
      ensures VertexAt(ComputeBoundingBoxPositions(box), k) == Triangles(CornersOf(box.min, Sub(box.max, box.min)))[k]
    {
      VertexOfTable(box, k);
    }
  }

  /** All eight corners of the box occur in the table, so the proxy covers the whole box. */
  lemma {:induction false} EveryCornerDrawn(box: Box3, v: Vec3)
    requires IsCorner(v, box)
    ensures exists k :: 0 <= k < VertexCount && VertexAt(ComputeBoundingBoxPositions(box), k) == v
  {
    var k: nat :=
      if v.z == box.max.z then
        (if v.y == box.min.y then (if v.x == box.min.x then 0 else 1)
         else (if v.x == box.min.x then 2 else 5))
      else
        (if v.y == box.min.y then (if v.x == box.min.x then 13 else 7)
         else (if v.x == box.min.x then 17 else 11));
    VertexOfTable(box, k);
  }

  /**
   The as-written function changes the caller's box unless min is the origin:
   box.max becomes the box's extent.
   */
  lemma AsWrittenMutatesBox(box: Box3)
    ensures ComputeBoundingBoxPositionsAsWritten(box).1 == box <==> box.min == Vec3(0.0, 0.0, 0.0)
  {
  }

  /**
   On the bounding box of a sphere of radius r > 0 centred at the origin (the
   demo's spheres have r = 20), a second call of the as-written function on the
   same box object yields a different table, with a vertex outside the box.
   */
  lemma AsWrittenSecondCallDiffers(r: real)
    requires r > 0.0
    ensures
      var box := Box3(Vec3(-r, -r, -r), Vec3(r, r, r));
      var first := ComputeBoundingBoxPositionsAsWritten(box);
      var second := ComputeBoundingBoxPositionsAsWritten(first.1).0;
      && first.0 != second
      && !Within(VertexAt(second, 1), box)
  {
    var box := Box3(Vec3(-r, -r, -r), Vec3(r, r, r));
    var after := Box3(box.min, Vec3(2.0 * r, 2.0 * r, 2.0 * r));
    assert ComputeBoundingBoxPositionsAsWritten(box).1 == after;
    VertexOfTable(box, 1);
    VertexOfTable(after, 1);
    assert VertexAt(ComputeBoundingBoxPositions(box), 1) == Vec3(r, -r, r);
    assert VertexAt(ComputeBoundingBoxPositions(after), 1) == Vec3(2.0 * r, -r, 2.0 * r);
  }

  /** The k-th vertex of the table is the k-th entry of the triangle list. */
  lemma VertexOfTable(box: Box3, k: nat)
    requires k < VertexCount
    ensures VertexAt(ComputeBoundingBoxPositions(box), k) == Triangles(CornersOf(box.min, Sub(box.max, box.min)))[k]
  {
  }
}
