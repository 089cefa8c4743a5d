/**
 * The render pipeline of 3DRender/renderer/Pipeline.java: the back-face test,
 * mapping a scene through a transform, scan-converting a triangle into an
 * edge list, and compositing an edge list into a z-buffer.
 */
module Pipeline {
  import opened Wrappers
  import opened Geometry

  /** `java.awt.Color`, kept opaque. */
  datatype Color = Color(red: int, green: int, blue: int)

  const ORIGIN := Vector3D(0.0, 0.0, 0.0)

  type Triangle = vs: seq<Vector3D> | |vs| == 3 witness [ORIGIN, ORIGIN, ORIGIN]

  datatype Polygon = Polygon(vertices: Triangle, reflectance: Color)

  datatype Scene = Scene(polygons: seq<Polygon>, light: Vector3D)

  // ------------------------------------------------------------- back faces

  const HIDDEN_THRESHOLD: real := 0.00001

  /**
   * `isHidden(poly)`: the polygon faces away from the viewer. Polygon.java is
   * not part of this model, so `getNormal` is passed in as `normalOf`.
   */
  function IsHidden(poly: Polygon, normalOf: Triangle -> Vector3D): (hidden: bool)
    ensures hidden <==> normalOf(poly.vertices).z > HIDDEN_THRESHOLD
  {
    normalOf(poly.vertices).z > HIDDEN_THRESHOLD
  }

  /** The same triangle with its winding reversed. */
  function Rewound(t: Triangle): Triangle
  {
    [t[0], t[2], t[1]]
  }

  /** A normal whose z component changes sign with the winding, as a cross product's does. */
  ghost predicate FlipsWithWinding(normalOf: Triangle -> Vector3D)
  {
    forall t: Triangle :: normalOf(Rewound(t)).z == -normalOf(t).z
  }

  /** The cross product of two edges: the usual way to compute a face normal. */
  function CrossNormal(t: Triangle): Vector3D
  {
    Cross(Minus(t[1], t[0]), Minus(t[2], t[1]))
  }

  lemma CrossNormalFlipsWithWinding()
    ensures FlipsWithWinding(CrossNormal)
  {
    forall t: Triangle ensures CrossNormal(Rewound(t)).z == -CrossNormal(t).z {
      var a, b, c := t[0], t[1], t[2];
      assert Rewound(t)[1] == c && Rewound(t)[2] == b;
      assert CrossNormal(Rewound(t)).z == (c.x - a.x) * (b.y - c.y) - (c.y - a.y) * (b.x - c.x);
      assert CrossNormal(t).z == (b.x - a.x) * (c.y - b.y) - (b.y - a.y) * (c.x - b.x);
      CrossZSwapsSign(a.x, a.y, b.x, b.y, c.x, c.y);
    }
  }

  /** The z component of the cross product of the edges changes sign when `b` and `c` swap. */
  lemma CrossZSwapsSign(x1: real, y1: real, x2: real, y2: real, x3: real, y3: real)
    ensures (x3 - x1) * (y2 - y3) - (y3 - y1) * (x2 - x3) == -((x2 - x1) * (y3 - y2) - (y2 - y1) * (x3 - x2))
  {
  }

  /**
   * With a normal that flips with the winding, a polygon and its reversed
   * twin are never both hidden: back faces are culled from one side only.
   */
  lemma TwinsNeverBothHidden(poly: Polygon, normalOf: Triangle -> Vector3D)
    requires FlipsWithWinding(normalOf)
    ensures !(IsHidden(poly, normalOf) && IsHidden(Polygon(Rewound(poly.vertices), poly.reflectance), normalOf))
  {
    assert normalOf(Rewound(poly.vertices)).z == -normalOf(poly.vertices).z;
  }

  // --------------------------------------------------------- scene mapping

  function TransformPolygon(m: Transform, p: Polygon): Polygon
  {
    Polygon([Multiply(m, p.vertices[0]), Multiply(m, p.vertices[1]), Multiply(m, p.vertices[2])], p.reflectance)
  }

  /** The scene `processMatrix(scene, m)` builds. */
  function TransformScene(scene: Scene, m: Transform): Scene
  {
    Scene(seq(|scene.polygons|, i requires 0 <= i < |scene.polygons| => TransformPolygon(m, scene.polygons[i])),
          Multiply(m, scene.light))
  }

  /**
   * `processMatrix(scene, m)`: a new scene with one polygon per input polygon,
   * in order, each vertex and the light mapped through `m`, reflectances kept.
   */
  method ProcessMatrix(scene: Scene, m: Transform) returns (r: Scene)
    ensures r.light == Multiply(m, scene.light)
    ensures |r.polygons| == |scene.polygons|
    ensures forall i :: 0 <= i < |r.polygons| ==>
      r.polygons[i].reflectance == scene.polygons[i].reflectance &&
      forall k :: 0 <= k < 3 ==> r.polygons[i].vertices[k] == Multiply(m, scene.polygons[i].vertices[k])
    ensures r == TransformScene(scene, m)
  {
    var processedLightPos := Multiply(m, scene.light);
    var processedPolygonList: seq<Polygon> := [];
    for n := 0 to |scene.polygons|
      invariant processedPolygonList == seq(n, i requires 0 <= i < n => TransformPolygon(m, scene.polygons[i]))
    {
      var polygon := scene.polygons[n];
      var processedVectors: seq<Vector3D> := [];
      for i := 0 to 3
        invariant |processedVectors| == i
        invariant forall k :: 0 <= k < i ==> processedVectors[k] == Multiply(m, polygon.vertices[k])
      {
        processedVectors := processedVectors + [Multiply(m, polygon.vertices[i])];
      }
      assert processedVectors == TransformPolygon(m, polygon).vertices;
      processedPolygonList := processedPolygonList + [Polygon(processedVectors, polygon.reflectance)];
    }
    return Scene(processedPolygonList, processedLightPos);
  }

  /** `rotateScene`: the rotation about the y axis acts first, then the one about the x axis. */
  method RotateScene(scene: Scene, xRotation: Transform, yRotation: Transform) returns (r: Scene)
    ensures r == TransformScene(scene, Compose(xRotation, yRotation))
    ensures r == TransformScene(TransformScene(scene, yRotation), xRotation)
  {
    r := ProcessMatrix(scene, Compose(xRotation, yRotation));
    TransformSceneCompose(scene, xRotation, yRotation);
  }

  /** `translateScene`. */
  method TranslateScene(scene: Scene, dx: real, dy: real, dz: real) returns (r: Scene)
    ensures r == TransformScene(scene, Translation(dx, dy, dz))
  {
    r := ProcessMatrix(scene, Translation(dx, dy, dz));
  }

  /** `scaleScene`. */
  method ScaleScene(scene: Scene, sx: real, sy: real, sz: real) returns (r: Scene)
    ensures r == TransformScene(scene, Scaling(sx, sy, sz))
  {
    r := ProcessMatrix(scene, Scaling(sx, sy, sz));
  }

  /** Mapping a scene through `t` and then `s` is mapping it through `s.compose(t)`. */
  lemma TransformSceneCompose(scene: Scene, s: Transform, t: Transform)
    ensures TransformScene(TransformScene(scene, t), s) == TransformScene(scene, Compose(s, t))
  {
    ComposeMultiply(s, t, scene.light);
    var lhs := TransformScene(TransformScene(scene, t), s);
    var rhs := TransformScene(scene, Compose(s, t));
    forall i | 0 <= i < |scene.polygons| ensures lhs.polygons[i] == rhs.polygons[i] {
      var p := scene.polygons[i];
      ComposeMultiply(s, t, p.vertices[0]);
      ComposeMultiply(s, t, p.vertices[1]);
      ComposeMultiply(s, t, p.vertices[2]);
    }
  }

  lemma TransformSceneIdentity(scene: Scene)
    ensures TransformScene(scene, Identity()) == scene
  {
    var r := TransformScene(scene, Identity());
    forall i | 0 <= i < |scene.polygons| ensures r.polygons[i] == scene.polygons[i] {
      var vs := scene.polygons[i].vertices;
      assert vs == [vs[0], vs[1], vs[2]];
    }
  }

  /** Translating a scene and translating it back gives the original scene. */
  lemma TranslateSceneRoundTrip(scene: Scene, dx: real, dy: real, dz: real)
    ensures TransformScene(TransformScene(scene, Translation(dx, dy, dz)), Translation(-dx, -dy, -dz)) == scene
  {
    TransformSceneCompose(scene, Translation(-dx, -dy, -dz), Translation(dx, dy, dz));
    TranslationInverse(dx, dy, dz);
    TransformSceneIdentity(scene);
  }

  /** Scaling a scene by non-zero factors and then by their inverses gives the original scene. */
  lemma ScaleSceneRoundTrip(scene: Scene, sx: real, sy: real, sz: real)
    requires sx != 0.0 && sy != 0.0 && sz != 0.0
    ensures TransformScene(TransformScene(scene, Scaling(sx, sy, sz)), Scaling(1.0 / sx, 1.0 / sy, 1.0 / sz)) == scene
  {
    TransformSceneCompose(scene, Scaling(1.0 / sx, 1.0 / sy, 1.0 / sz), Scaling(sx, sy, sz));
    ScalingInverse(sx, sy, sz);
    TransformSceneIdentity(scene);
  }

  // ------------------------------------------------------------- edge lists

  /** Java's `(int)` cast of a float: the integer part, rounding toward zero. */
  function Trunc(r: real): (n: int)
    ensures r >= 0.0 ==> 0 <= n && n as real <= r < n as real + 1.0
    ensures r < 0.0 ==> n <= 0 && n as real - 1.0 < r <= n as real
  {
    if r >= 0.0 then r.Floor else -((-r).Floor)
  }

  lemma TruncMonotone(a: real, b: real)
    requires a <= b
    ensures Trunc(a) <= Trunc(b)
  {
    if a >= 0.0 {
      assert Trunc(a) as real <= a <= b < Trunc(b) as real + 1.0;
    } else if b < 0.0 {
      assert Trunc(a) as real - 1.0 < a <= b <= Trunc(b) as real;
    }
  }

  /** The leftmost and rightmost points written to one row of an edge list. */
  datatype Span = Span(xLeft: real, zLeft: real, xRight: real, zRight: real)

  /**
   * `addRow(row, x, z)`. EdgeList.java is not part of this model: a row's
   * first write sets both ends, later writes move the left end to a smaller
   * x and the right end to a larger x.
   */
  function Widen(spans: map<int, Span>, row: int, x: real, z: real): (r: map<int, Span>)
    ensures r.Keys == spans.Keys + {row}
    ensures r[row].xLeft <= x <= r[row].xRight
    ensures forall other :: other in spans && other != row ==> r[other] == spans[other]
  {
    if row !in spans then spans[row := Span(x, z, x, z)]
    else
      var s := spans[row];
      var s1 := if x < s.xLeft then s.(xLeft := x, zLeft := z) else s;
      var s2 := if x > s1.xRight then s1.(xRight := x, zRight := z) else s1;
      spans[row := s2]
  }

  datatype RowWrite = RowWrite(row: int, x: real, z: real)

  /** The edge list after a sequence of `addRow` calls, in order. */
  function AddAll(spans: map<int, Span>, writes: seq<RowWrite>): map<int, Span>
  {
    if writes == [] then spans
    else
      var last := writes[|writes| - 1];
      Widen(AddAll(spans, writes[..|writes| - 1]), last.row, last.x, last.z)
  }

  /** The rows of an edge list are exactly the rows written to it. */
  lemma {:induction false} AddAllKeys(spans: map<int, Span>, writes: seq<RowWrite>)
    ensures AddAll(spans, writes).Keys == spans.Keys + set w | w in writes :: w.row
  {
    if writes != [] {
      var last := writes[|writes| - 1];
      var earlier := writes[..|writes| - 1];
      AddAllKeys(spans, earlier);
      assert writes == earlier + [last];
      assert (set w | w in writes :: w.row) == (set w | w in earlier :: w.row) + {last.row};
    }
  }

  lemma AddAllAppend(spans: map<int, Span>, writes: seq<RowWrite>, w: RowWrite)
    ensures AddAll(spans, writes + [w]) == Widen(AddAll(spans, writes), w.row, w.x, w.z)
  {
    assert (writes + [w])[..|writes|] == writes;
  }

  class EdgeList {
    const startY: int
    const endY: int
    var spans: map<int, Span>

    constructor (startY: int, endY: int)
      ensures this.startY == startY && this.endY == endY && spans == map[]
    {
      this.startY := startY;
      this.endY := endY;
      spans := map[];
    }

    method AddRow(row: int, x: real, z: real)
      modifies this
      ensures spans == Widen(old(spans), row, x, z)
    {
      spans := Widen(spans, row, x, z);
    }
  }

  function Min3(a: real, b: real, c: real): (m: real)
    ensures m <= a && m <= b && m <= c
    ensures m == a || m == b || m == c
  {
    var m := if a < b then a else b;
    if m < c then m else c
  }

  function Max3(a: real, b: real, c: real): (m: real)
    ensures m >= a && m >= b && m >= c
    ensures m == a || m == b || m == c
  {
    var m := if a > b then a else b;
    if m > c then m else c
  }

  /** The first row of a triangle's edge list: the truncated smallest y. */
  function StartRow(t: Triangle): int
  {
    Trunc(Min3(t[0].y, t[1].y, t[2].y))
  }

  /** The end row: the truncated largest y. */
  function EndRow(t: Triangle): int
  {
    Trunc(Max3(t[0].y, t[1].y, t[2].y))
  }

  /** `n` rows from `row` on, x and z starting at the given values and advancing by `mx` and `mz` per row. */
  function Walk(row: int, x: real, z: real, mx: real, mz: real, n: nat): seq<RowWrite>
    decreases n
  {
    if n == 0 then [] else [RowWrite(row, x, z)] + Walk(row + 1, x + mx, z + mz, mx, mz, n - 1)
  }

  lemma {:induction false} WalkRows(row: int, x: real, z: real, mx: real, mz: real, n: nat)
    ensures |Walk(row, x, z, mx, mz, n)| == n
    ensures forall k :: 0 <= k < n ==> Walk(row, x, z, mx, mz, n)[k].row == row + k
    decreases n
  {
    if n > 0 {
      WalkRows(row + 1, x + mx, z + mz, mx, mz, n - 1);
    }
  }

  /**
   * The rows one edge writes: nothing for a horizontal edge; otherwise, from
   * its upper end (smaller y), rows `(int) up.y` up to but excluding
   * `(int) down.y`, at offset `row - startY`, x and z advanced by their slopes.
   */
  function EdgeWalk(p: Vector3D, q: Vector3D, startY: int): seq<RowWrite>
  {
    if p.y == q.y then []
    else
      var up := if p.y < q.y then p else q;
      var down := if p.y < q.y then q else p;
      var n := Trunc(down.y) - Trunc(up.y);
      Walk(Trunc(up.y) - startY, up.x, up.z, (down.x - up.x) / (down.y - up.y), (down.z - up.z) / (down.y - up.y),
           if n > 0 then n else 0)
  }

  /** An edge is walked from its upper end whichever way round its ends are given. */
  lemma EdgeWalkSymmetric(p: Vector3D, q: Vector3D, startY: int)
    ensures EdgeWalk(p, q, startY) == EdgeWalk(q, p, startY)
  {
  }

  /** Walking an edge from its upper end: one write per row from `(int) up.y` to `(int) down.y`, either way round. */
  lemma EdgeWalkFromUp(up: Vector3D, down: Vector3D, startY: int)
    requires up.y < down.y
    ensures EdgeWalk(down, up, startY) == EdgeWalk(up, down, startY)
    ensures EdgeWalk(up, down, startY) ==
      Walk(Trunc(up.y) - startY, up.x, up.z, (down.x - up.x) / (down.y - up.y), (down.z - up.z) / (down.y - up.y),
           Trunc(down.y) - Trunc(up.y))
  {
    TruncMonotone(up.y, down.y);
  }

  /** The writes of the first `n` edges, edge `i` joining vertex `i` to vertex `(i + 1) % 3`. */
  function EdgeWrites(t: Triangle, startY: int, n: nat): seq<RowWrite>
    requires n <= 3
  {
    if n == 0 then [] else EdgeWrites(t, startY, n - 1) + Edge(t, startY, n - 1)
  }

  /** Edge `i` joins vertex `i` to vertex `(i + 1) % 3`. */
  function Edge(t: Triangle, startY: int, i: nat): seq<RowWrite>
    requires i < 3
  {
    EdgeWalk(t[i], t[(i + 1) % 3], startY)
  }

  /** `computeEdgeList(poly)`. */
  method ComputeEdgeList(poly: Polygon) returns (edgeList: EdgeList)
    ensures fresh(edgeList)
    ensures edgeList.startY == StartRow(poly.vertices) && edgeList.endY == EndRow(poly.vertices)
    ensures edgeList.spans == AddAll(map[], EdgeWrites(poly.vertices, edgeList.startY, 3))
  {
    var vertices := poly.vertices;
    var startY := Trunc(Min3(vertices[0].y, vertices[1].y, vertices[2].y));
    var endY := Trunc(Max3(vertices[0].y, vertices[1].y, vertices[2].y));
    edgeList := new EdgeList(startY, endY);
    for i := 0 to 3
      invariant edgeList.spans == AddAll(map[], EdgeWrites(vertices, startY, i))
    {
      var j := i + 1;
      j := if j == 3 then 0 else j; // wraps back to the first vertex
      assert j == (i + 1) % 3;
      if vertices[i].y == vertices[j].y {
        // a horizontal edge: both ends share one y
        assert Edge(vertices, startY, i) == [];
        assert EdgeWrites(vertices, startY, i + 1) == EdgeWrites(vertices, startY, i) + [] == EdgeWrites(vertices, startY, i);
        continue;
      }
      var vertexUp, vertexDown;
      if vertices[i].y < vertices[j].y {
        vertexUp := vertices[i];
        vertexDown := vertices[j];
      } else {
        vertexDown := vertices[i];
        vertexUp := vertices[j];
      }
      EdgeWalkSymmetric(vertices[i], vertices[j], startY);
      assert EdgeWalk(vertexUp, vertexDown, startY) == Edge(vertices, startY, i);
      WalkEdge(edgeList, vertexUp, vertexDown, startY, EdgeWrites(vertices, startY, i));
      assert EdgeWrites(vertices, startY, i + 1) == EdgeWrites(vertices, startY, i) + Edge(vertices, startY, i);
      assert edgeList.spans == AddAll(map[], EdgeWrites(vertices, startY, i + 1));
    }
  }

  /** The `while (y < yEnd)` walk of one non-horizontal edge, from its upper end. */
  method WalkEdge(edgeList: EdgeList, vertexUp: Vector3D, vertexDown: Vector3D, startY: int, ghost done: seq<RowWrite>)
    requires vertexUp.y < vertexDown.y
    requires edgeList.spans == AddAll(map[], done)
    modifies edgeList
    ensures edgeList.spans == AddAll(map[], done + EdgeWalk(vertexUp, vertexDown, startY))
  {
    hide Walk, AddAll, EdgeWalk, Widen;
    var x := vertexUp.x;
    var z := vertexUp.z;
    var mx := (vertexDown.x - x) / (vertexDown.y - vertexUp.y);
    var mz := (vertexDown.z - z) / (vertexDown.y - vertexUp.y);
    var y := Trunc(vertexUp.y);
    var yEnd := Trunc(vertexDown.y);
    EdgeWalkFromUp(vertexUp, vertexDown, startY);
    ghost var written := done;
    while y < yEnd
      invariant y <= yEnd
      invariant done + EdgeWalk(vertexUp, vertexDown, startY) == written + Walk(y - startY, x, z, mx, mz, yEnd - y)
      invariant edgeList.spans == AddAll(map[], written)
      decreases yEnd - y
    {
      AddAllAppend(map[], written, RowWrite(y - startY, x, z));
      WalkStep(written, y - startY, x, z, mx, mz, yEnd - y);
      edgeList.AddRow(y - startY, x, z);
      written := written + [RowWrite(y - startY, x, z)];
      y := y + 1;
      x := x + mx;
      z := z + mz;
    }
    WalkDone(written, y - startY, x, z, mx, mz);
  }

  /** One step of a walk: its first write, then the walk from the next row. */
  lemma WalkStep(written: seq<RowWrite>, row: int, x: real, z: real, mx: real, mz: real, n: nat)
    requires n > 0
    ensures written + Walk(row, x, z, mx, mz, n) ==
      (written + [RowWrite(row, x, z)]) + Walk(row + 1, x + mx, z + mz, mx, mz, n - 1)
  {
  }

  lemma WalkDone(written: seq<RowWrite>, row: int, x: real, z: real, mx: real, mz: real)
    ensures written + Walk(row, x, z, mx, mz, 0) == written
  {
    assert written + [] == written;
  }

  /** The three edges, in order. */
  lemma EdgeWritesOfTriangle(t: Triangle, startY: int)
    ensures EdgeWrites(t, startY, 3) ==
      EdgeWalk(t[0], t[1], startY) + EdgeWalk(t[1], t[2], startY) + EdgeWalk(t[2], t[0], startY)
  {
    assert EdgeWrites(t, startY, 1) == Edge(t, startY, 0);
  }

  /** An edge whose ends lie between heights `lo` and `hi` writes only rows of `[0, (int) hi - (int) lo)`. */
  lemma EdgeWalkInRange(p: Vector3D, q: Vector3D, lo: real, hi: real)
    requires lo <= p.y <= hi && lo <= q.y <= hi
    ensures forall w :: w in EdgeWalk(p, q, Trunc(lo)) ==> 0 <= w.row < Trunc(hi) - Trunc(lo)
  {
    if p.y != q.y {
      var up := if p.y < q.y then p else q;
      var down := if p.y < q.y then q else p;
      TruncMonotone(lo, up.y);
      TruncMonotone(down.y, hi);
      EdgeWalkFromUp(up, down, Trunc(lo));
      var walk := EdgeWalk(up, down, Trunc(lo));
      WalkRows(Trunc(up.y) - Trunc(lo), up.x, up.z, (down.x - up.x) / (down.y - up.y), (down.z - up.z) / (down.y - up.y),
               Trunc(down.y) - Trunc(up.y));
      forall w | w in EdgeWalk(p, q, Trunc(lo)) ensures 0 <= w.row < Trunc(hi) - Trunc(lo) {
        var k :| 0 <= k < |walk| && walk[k] == w;
      }
    }
  }

  /** Every row written lies in `[0, endY - startY)`. */
  lemma EdgeWritesInRange(t: Triangle)
    ensures forall w :: w in EdgeWrites(t, StartRow(t), 3) ==> 0 <= w.row < EndRow(t) - StartRow(t)
  {
    var lo := Min3(t[0].y, t[1].y, t[2].y);
    var hi := Max3(t[0].y, t[1].y, t[2].y);
    EdgeWritesOfTriangle(t, StartRow(t));
    EdgeWalkInRange(t[0], t[1], lo, hi);
    EdgeWalkInRange(t[1], t[2], lo, hi);
    EdgeWalkInRange(t[2], t[0], lo, hi);
  }

  /** The edge between heights `lo` and `hi`, in either direction, writes every row of `[0, (int) hi - (int) lo)`. */
  lemma LongEdgeCoversRow(p: Vector3D, q: Vector3D, lo: real, hi: real, row: int)
    requires lo < hi && ((p.y == lo && q.y == hi) || (p.y == hi && q.y == lo))
    requires 0 <= row < Trunc(hi) - Trunc(lo)
    ensures exists w :: w in EdgeWalk(p, q, Trunc(lo)) && w.row == row
  {
    var up := if p.y < q.y then p else q;
    var down := if p.y < q.y then q else p;
    EdgeWalkFromUp(up, down, Trunc(lo));
    WalkRows(0, up.x, up.z, (down.x - up.x) / (down.y - up.y), (down.z - up.z) / (down.y - up.y), Trunc(hi) - Trunc(lo));
    assert EdgeWalk(p, q, Trunc(lo))[row].row == row;
  }

  /** Each row in `[0, endY - startY)` is written by some edge. */
  lemma EdgeListCoversRow(t: Triangle, row: int)
    requires 0 <= row < EndRow(t) - StartRow(t)
    ensures row in AddAll(map[], EdgeWrites(t, StartRow(t), 3))
  {
    var lo := Min3(t[0].y, t[1].y, t[2].y);
    var hi := Max3(t[0].y, t[1].y, t[2].y);
    var startY := Trunc(lo);
    var all := EdgeWrites(t, startY, 3);
    EdgeWritesOfTriangle(t, startY);
    if hi <= lo {
      TruncMonotone(hi, lo);
    }
    var w: RowWrite;
    if (t[0].y == lo && t[1].y == hi) || (t[0].y == hi && t[1].y == lo) {
      LongEdgeCoversRow(t[0], t[1], lo, hi, row);
      w :| w in EdgeWalk(t[0], t[1], startY) && w.row == row;
    } else if (t[1].y == lo && t[2].y == hi) || (t[1].y == hi && t[2].y == lo) {
      LongEdgeCoversRow(t[1], t[2], lo, hi, row);
      w :| w in EdgeWalk(t[1], t[2], startY) && w.row == row;
    } else {
      LongEdgeCoversRow(t[2], t[0], lo, hi, row);
      w :| w in EdgeWalk(t[2], t[0], startY) && w.row == row;
    }
    assert w in all;
    AddAllKeys(map[], all);
  }

  /** Every row in `[0, endY - startY)` of a triangle's edge list is written. */
  lemma EdgeListCoversRows(t: Triangle)
    ensures forall row :: 0 <= row < EndRow(t) - StartRow(t) ==> row in AddAll(map[], EdgeWrites(t, StartRow(t), 3))
  {
    forall row | 0 <= row < EndRow(t) - StartRow(t) {
      EdgeListCoversRow(t, row);
    }
  }

  // --------------------------------------------------------------- z-buffer

  /** `mz`: the depth step per column, (zRight - zLeft) / (xRight - x); never used when the span is empty. */
  function ColumnSlope(s: Span): real
  {
    var x0 := Trunc(s.xLeft);
    var x1 := Trunc(s.xRight);
    if x1 != x0 then (s.zRight - s.zLeft) / (x1 - x0) as real else 0.0
  }

  /** The value `k` steps of `slope` on from `start`: how z advances column by column. */
  function Along(start: real, k: int, slope: real): real
  {
    start + k as real * slope
  }

  lemma AlongNext(start: real, k: int, slope: real)
    ensures Along(start, k + 1, slope) == Along(start, k, slope) + slope
  {
    assert (k + 1) as real * slope == k as real * slope + slope;
  }

  /** The depth a span offers at column `px`, when it covers it: columns `(int) xLeft` up to but excluding `(int) xRight`. */
  function SpanDepth(s: Span, px: int): Option<real>
  {
    var x0 := Trunc(s.xLeft);
    if x0 <= px < Trunc(s.xRight) then Some(Along(s.zLeft, px - x0, ColumnSlope(s))) else None
  }

  /** The depth the first `height` rows of an edge list offer at pixel (px, py). */
  function Offered(spans: map<int, Span>, startY: int, height: int, px: int, py: int): Option<real>
  {
    var row := py - startY;
    if 0 <= row < height && row in spans then SpanDepth(spans[row], px) else None
  }

  /** The strict depth test: an offered depth wins only when it is smaller than the stored one. */
  predicate Wins(offered: Option<real>, depth: real)
  {
    offered.Some? && offered.value < depth
  }

  function DepthAfter(offered: Option<real>, depth: real): (d: real)
    ensures d <= depth
    ensures d < depth <==> Wins(offered, depth)
    ensures d == depth || d == offered.value
  {
    if Wins(offered, depth) then offered.value else depth
  }

  function ColorAfter(offered: Option<real>, depth: real, color: Color, polyColor: Color): (c: Color)
    ensures Wins(offered, depth) ==> c == polyColor
    ensures !Wins(offered, depth) ==> c == color
  {
    if Wins(offered, depth) then polyColor else color
  }

  /** Two polygons at different depths leave the same pixel whichever is composited first: the nearer one. */
  lemma DepthTestOrderIndependent(a: Option<real>, b: Option<real>, depth: real, color: Color, ca: Color, cb: Color)
    requires a.Some? && b.Some? ==> a.value != b.value
    ensures DepthAfter(b, DepthAfter(a, depth)) == DepthAfter(a, DepthAfter(b, depth))
    ensures ColorAfter(b, DepthAfter(a, depth), ColorAfter(a, depth, color, ca), cb) ==
            ColorAfter(a, DepthAfter(b, depth), ColorAfter(b, depth, color, cb), ca)
  {
  }

  /** The offer after `rowsDone` whole rows and the first columns, below `x`, of the next row. */
  function PartlyOffered(spans: map<int, Span>, startY: int, rowsDone: int, x: int, px: int, py: int): Option<real>
  {
    if py - startY == rowsDone && rowsDone in spans then (if px < x then SpanDepth(spans[rowsDone], px) else None)
    else Offered(spans, startY, rowsDone, px, py)
  }

  /**
   * The compositing loop of `computeZBuffer` over `height` rows of the edge
   * list: rows outside the buffer and columns outside it are skipped; a pixel
   * takes the polygon's depth and colour exactly when its depth is strictly
   * smaller than the stored one; everything else is left as it was. The
   * row bound is read from `zbuffer[0]`, so a buffer with no columns throws
   * `ArrayIndexOutOfBoundsException` at the first row that is not above the
   * buffer (`thrown`); it has no pixels to change.
   */
  method CompositeRows(zbuffer: array2<Color>, zdepth: array2<real>, edgeList: EdgeList, startY: int, height: int, polyColor: Color)
    returns (thrown: bool)
    requires height > 0 ==> zdepth.Length0 >= zbuffer.Length0 && zdepth.Length1 >= zbuffer.Length1
    requires forall row :: 0 <= row < height ==> row in edgeList.spans
    modifies zbuffer, zdepth
    ensures thrown <==> zbuffer.Length0 == 0 && height > 0 && startY + height > 0
    ensures forall i, j :: 0 <= i < zbuffer.Length0 && 0 <= j < zbuffer.Length1 && 0 <= i < zdepth.Length0 && 0 <= j < zdepth.Length1 ==>
      zdepth[i, j] == DepthAfter(Offered(edgeList.spans, startY, height, i, j), old(zdepth[i, j])) &&
      zbuffer[i, j] == ColorAfter(Offered(edgeList.spans, startY, height, i, j), old(zdepth[i, j]), old(zbuffer[i, j]), polyColor)
    ensures forall i, j :: 0 <= i < zdepth.Length0 && 0 <= j < zdepth.Length1 && !(0 <= i < zbuffer.Length0 && 0 <= j < zbuffer.Length1) ==> zdepth[i, j] == old(zdepth[i, j])
    ensures forall i, j :: 0 <= i < zbuffer.Length0 && 0 <= j < zbuffer.Length1 && !(0 <= i < zdepth.Length0 && 0 <= j < zdepth.Length1) ==> zbuffer[i, j] == old(zbuffer[i, j])
  {
    var y := 0;
    while y < height
      invariant 0 <= y <= (if height > 0 then height else 0)
      invariant zbuffer.Length0 == 0 && y > 0 ==> startY + y <= 0
      invariant forall i, j :: 0 <= i < zbuffer.Length0 && 0 <= j < zbuffer.Length1 && 0 <= i < zdepth.Length0 && 0 <= j < zdepth.Length1 ==>
        zdepth[i, j] == DepthAfter(Offered(edgeList.spans, startY, y, i, j), old(zdepth[i, j])) &&
        zbuffer[i, j] == ColorAfter(Offered(edgeList.spans, startY, y, i, j), old(zdepth[i, j]), old(zbuffer[i, j]), polyColor)
      invariant forall i, j :: 0 <= i < zdepth.Length0 && 0 <= j < zdepth.Length1 && !(0 <= i < zbuffer.Length0 && 0 <= j < zbuffer.Length1) ==> zdepth[i, j] == old(zdepth[i, j])
      invariant y == 0 ==> forall i, j :: 0 <= i < zbuffer.Length0 && 0 <= j < zbuffer.Length1 ==> zbuffer[i, j] == old(zbuffer[i, j])
    {
      if y + startY < 0 {
        y := y + 1;
        continue;
      }
      if zbuffer.Length0 == 0 {
        return true;
      }
      if y + startY >= zbuffer.Length1 {
        y := y + 1;
        continue;
      }
      var span := edgeList.spans[y];
      var x := Trunc(span.xLeft);
      var xRight := Trunc(span.xRight);
      var z := span.zLeft;
      var mz := if xRight != x then (span.zRight - z) / (xRight - x) as real else 0.0;
      ghost var x0 := x;
      assert mz == ColumnSlope(span);
      while x < xRight
        invariant x0 <= x && (x0 < xRight ==> x <= xRight)
        invariant z == Along(span.zLeft, x - x0, mz)
        invariant forall i, j :: 0 <= i < zbuffer.Length0 && 0 <= j < zbuffer.Length1 ==>
          zdepth[i, j] == DepthAfter(PartlyOffered(edgeList.spans, startY, y, x, i, j), old(zdepth[i, j])) &&
          zbuffer[i, j] == ColorAfter(PartlyOffered(edgeList.spans, startY, y, x, i, j), old(zdepth[i, j]), old(zbuffer[i, j]), polyColor)
        invariant forall i, j :: 0 <= i < zdepth.Length0 && 0 <= j < zdepth.Length1 && !(0 <= i < zbuffer.Length0 && 0 <= j < zbuffer.Length1) ==> zdepth[i, j] == old(zdepth[i, j])
      {
        AlongNext(span.zLeft, x - x0, mz);
        if x < 0 || x >= zbuffer.Length0 {
          z := z + mz;
          x := x + 1;
          continue;
        }
        assert SpanDepth(span, x) == Some(z);
        if z < zdepth[x, y + startY] {
          zdepth[x, y + startY] := z;
          zbuffer[x, y + startY] := polyColor;
        }
        z := z + mz;
        x := x + 1;
      }
      y := y + 1;
    }
    forall i, j | 0 <= i < zbuffer.Length0 && 0 <= j < zbuffer.Length1 && 0 <= i < zdepth.Length0 && 0 <= j < zdepth.Length1
      ensures Offered(edgeList.spans, startY, y, i, j) == Offered(edgeList.spans, startY, height, i, j)
    {
    }
    thrown := false;
  }

  /**
   * `computeZBuffer` as written: `endY` is read with `getStartY()`, so the
   * row count is 0 and neither buffer changes.
   */
  method ComputeZBuffer(zbuffer: array2<Color>, zdepth: array2<real>, polyEdgeList: EdgeList, polyColor: Color)
    modifies zbuffer, zdepth
    ensures forall i, j :: 0 <= i < zdepth.Length0 && 0 <= j < zdepth.Length1 ==> zdepth[i, j] == old(zdepth[i, j])
    ensures forall i, j :: 0 <= i < zbuffer.Length0 && 0 <= j < zbuffer.Length1 ==> zbuffer[i, j] == old(zbuffer[i, j])
  {
    var startY := polyEdgeList.startY;
    var endY := polyEdgeList.startY;
    var height := endY - startY;
    var _ := CompositeRows(zbuffer, zdepth, polyEdgeList, startY, height, polyColor);
    forall i, j | 0 <= i < zbuffer.Length0 && 0 <= j < zbuffer.Length1 && 0 <= i < zdepth.Length0 && 0 <= j < zdepth.Length1
      ensures zdepth[i, j] == old(zdepth[i, j]) && zbuffer[i, j] == old(zbuffer[i, j])
    {
      assert Offered(polyEdgeList.spans, startY, height, i, j) == None;
    }
  }

  /**
   * `computeZBuffer` with the row count read from `getEndY()`; `thrown` when
   * a buffer with no columns meets a row that is not above it.
   */
  method CompositeEdgeList(zbuffer: array2<Color>, zdepth: array2<real>, polyEdgeList: EdgeList, polyColor: Color)
    returns (thrown: bool)
    requires polyEdgeList.endY > polyEdgeList.startY ==>
      zdepth.Length0 >= zbuffer.Length0 && zdepth.Length1 >= zbuffer.Length1
    requires forall row :: 0 <= row < polyEdgeList.endY - polyEdgeList.startY ==> row in polyEdgeList.spans
    modifies zbuffer, zdepth
    ensures thrown <==> zbuffer.Length0 == 0 && polyEdgeList.endY > polyEdgeList.startY && polyEdgeList.endY > 0
    ensures forall i, j :: 0 <= i < zdepth.Length0 && 0 <= j < zdepth.Length1 && !(0 <= i < zbuffer.Length0 && 0 <= j < zbuffer.Length1) ==> zdepth[i, j] == old(zdepth[i, j])
    ensures forall i, j :: 0 <= i < zbuffer.Length0 && 0 <= j < zbuffer.Length1 && !(0 <= i < zdepth.Length0 && 0 <= j < zdepth.Length1) ==> zbuffer[i, j] == old(zbuffer[i, j])
    ensures forall i, j :: 0 <= i < zbuffer.Length0 && 0 <= j < zbuffer.Length1 && 0 <= i < zdepth.Length0 && 0 <= j < zdepth.Length1 ==>
      zdepth[i, j] == DepthAfter(Offered(polyEdgeList.spans, polyEdgeList.startY, polyEdgeList.endY - polyEdgeList.startY, i, j), old(zdepth[i, j])) &&
      zbuffer[i, j] == ColorAfter(Offered(polyEdgeList.spans, polyEdgeList.startY, polyEdgeList.endY - polyEdgeList.startY, i, j),
                                  old(zdepth[i, j]), old(zbuffer[i, j]), polyColor)
  {
    var startY := polyEdgeList.startY;
    var endY := polyEdgeList.endY;
    var height := endY - startY;
    thrown := CompositeRows(zbuffer, zdepth, polyEdgeList, startY, height, polyColor);
  }

  /**
   * One pixel, one row, one span covering column 0 at depth 0 over a stored
   * depth of 1: as written the pixel keeps depth 1; with the row count taken
   * from `endY` it takes depth 0.
   */
  method ZBufferFindingWitness() returns (asWritten: real, corrected: real)
    ensures asWritten == 1.0 && corrected == 0.0
  {
    var background := Color(0, 0, 0);
    var red := Color(255, 0, 0);
    var edgeList := new EdgeList(0, 1);
    edgeList.AddRow(0, 0.0, 0.0);
    edgeList.AddRow(0, 1.0, 0.0);
    assert edgeList.spans[0] == Span(0.0, 0.0, 1.0, 0.0);
    assert SpanDepth(edgeList.spans[0], 0) == Some(0.0);
    var zbuffer := new Color[1, 1]((i, j) => background);
    var zdepth := new real[1, 1]((i, j) => 1.0);
    ComputeZBuffer(zbuffer, zdepth, edgeList, red);
    asWritten := zdepth[0, 0];
    var _ := CompositeEdgeList(zbuffer, zdepth, edgeList, red);
    corrected := zdepth[0, 0];
  }
}
