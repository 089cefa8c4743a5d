/**
 * The commands of a shape program and what running them draws.
 *
 * `Shape.contains`, `Shape.boundingBox` and the outline that `drawShape`
 * scans are given as a `ShapeOps` value, since the shape classes that
 * decide them are not part of this model. A canvas is the sequence of its
 * `draw(x, y, color)` calls, in order.
 */
module ShapeCommands {
  import opened Wrappers
  import opened JavaLang
  import opened ShapeParser

  /** One `canvas.draw(x, y, color)` call. */
  datatype Pixel = Pixel(x: int, y: int, color: Color)

  /** A bounding box, as the `Rectangle` that `boundingBox()` returns. */
  type Box = s: Shape | s.Rectangle? witness Rectangle(0, 0, 0, 0)

  /**
   * What the shape classes decide: whether a point lies in a shape, its
   * bounding box (`None` for Java's null), and the pixels `drawShape`
   * draws for its outline.
   */
  datatype ShapeOps = ShapeOps(
    contains: (Shape, int, int) -> bool,
    boundingBox: Shape -> Option<Box>,
    outline: (Shape, Color) -> seq<Pixel>)

  /** The pixels `fillShape` draws in column `x`, for rows `top` up to `y` (exclusive). */
  function Column(ops: ShapeOps, shape: Shape, color: Color, x: int, top: int, y: int): seq<Pixel>
    decreases y - top
  {
    if y <= top then []
    else Column(ops, shape, color, x, top, y - 1) + (if ops.contains(shape, x, y - 1) then [Pixel(x, y - 1, color)] else [])
  }

  /** The pixels `fillShape` draws in columns `left` up to `x` (exclusive). */
  function Columns(ops: ShapeOps, shape: Shape, color: Color, left: int, x: int, top: int, bottom: int): seq<Pixel>
    decreases x - left
  {
    if x <= left then []
    else Columns(ops, shape, color, left, x - 1, top, bottom) + Column(ops, shape, color, x - 1, top, bottom)
  }

  /** An empty range of rows draws nothing. */
  lemma ColumnEmpty(ops: ShapeOps, shape: Shape, color: Color, x: int, top: int, y: int)
    requires y <= top
    ensures Column(ops, shape, color, x, top, y) == []
  {
  }

  /** An empty range of columns draws nothing. */
  lemma ColumnsEmpty(ops: ShapeOps, shape: Shape, color: Color, left: int, x: int, top: int, bottom: int)
    requires x <= left
    ensures Columns(ops, shape, color, left, x, top, bottom) == []
  {
  }

  /** One more row of a column: the pixel is added when the shape contains it. */
  lemma ColumnNext(ops: ShapeOps, shape: Shape, color: Color, x: int, top: int, y: int)
    requires top <= y
    ensures Column(ops, shape, color, x, top, y + 1) ==
      Column(ops, shape, color, x, top, y) + (if ops.contains(shape, x, y) then [Pixel(x, y, color)] else [])
  {
  }

  /** One more column: its pixels follow those of the columns before it. */
  lemma ColumnsNext(ops: ShapeOps, shape: Shape, color: Color, left: int, x: int, top: int, bottom: int)
    requires left <= x
    ensures Columns(ops, shape, color, left, x + 1, top, bottom) ==
      Columns(ops, shape, color, left, x, top, bottom) + Column(ops, shape, color, x, top, bottom)
  {
  }

  /**
   * The pixels `fillShape` draws: column by column over the bounding box,
   * every point of the shape. The right and bottom edges are computed in
   * 32-bit `int` arithmetic, as the source does.
   */
  function FillPixels(ops: ShapeOps, shape: Shape, color: Color): seq<Pixel>
  {
    match ops.boundingBox(shape)
    case None => []
    case Some(box) =>
      Columns(ops, shape, color, box.x, Wrap32(box.x + box.width), box.y, Wrap32(box.y + box.height))
  }

  /** The points of `[left, right) × [top, bottom)` that lie in the shape. */
  ghost predicate Covered(ops: ShapeOps, shape: Shape, color: Color, left: int, right: int, top: int, bottom: int, p: Pixel)
  {
    p.color == color && left <= p.x < right && top <= p.y < bottom && ops.contains(shape, p.x, p.y)
  }

  lemma {:induction false} ColumnMembers(ops: ShapeOps, shape: Shape, color: Color, x: int, top: int, y: int, p: Pixel)
    ensures p in Column(ops, shape, color, x, top, y) <==> Covered(ops, shape, color, x, x + 1, top, y, p)
    decreases y - top
  {
    if y > top {
      ColumnMembers(ops, shape, color, x, top, y - 1, p);
    }
  }

  lemma {:induction false} ColumnsMembers(ops: ShapeOps, shape: Shape, color: Color, left: int, x: int, top: int, bottom: int, p: Pixel)
    ensures p in Columns(ops, shape, color, left, x, top, bottom) <==> Covered(ops, shape, color, left, x, top, bottom, p)
    decreases x - left
  {
    if x > left {
      ColumnsMembers(ops, shape, color, left, x - 1, top, bottom, p);
      ColumnMembers(ops, shape, color, x - 1, top, bottom, p);
    }
  }

  /**
   * `fillShape` draws exactly the points of the bounding box that the shape
   * contains, in the given color, and nothing when there is no bounding box.
   */
  lemma FillPixelsMembers(ops: ShapeOps, shape: Shape, color: Color, p: Pixel)
    ensures ops.boundingBox(shape).None? ==> FillPixels(ops, shape, color) == []
    ensures ops.boundingBox(shape).Some? ==>
              var box := ops.boundingBox(shape).value;
              (p in FillPixels(ops, shape, color) <==>
                 Covered(ops, shape, color, box.x, Wrap32(box.x + box.width), box.y, Wrap32(box.y + box.height), p))
  {
    hide Wrap32, Columns, Column, Covered;
    if ops.boundingBox(shape).Some? {
      var box := ops.boundingBox(shape).value;
      ColumnsMembers(ops, shape, color, box.x, Wrap32(box.x + box.width), box.y, Wrap32(box.y + box.height), p);
    }
  }

  /** No point is drawn twice by one `fillShape`. */
  lemma {:induction false} ColumnsDistinct(ops: ShapeOps, shape: Shape, color: Color, left: int, x: int, top: int, bottom: int)
    ensures forall a, b :: 0 <= a < b < |Columns(ops, shape, color, left, x, top, bottom)| ==>
              var ps := Columns(ops, shape, color, left, x, top, bottom);
              (ps[a].x, ps[a].y) != (ps[b].x, ps[b].y)
    decreases x - left
  {
    if x > left {
      var before := Columns(ops, shape, color, left, x - 1, top, bottom);
      var col := Column(ops, shape, color, x - 1, top, bottom);
      ColumnsDistinct(ops, shape, color, left, x - 1, top, bottom);
      ColumnDistinct(ops, shape, color, x - 1, top, bottom);
      var ps := before + col;
      assert Columns(ops, shape, color, left, x, top, bottom) == ps;
      forall a, b | 0 <= a < b < |ps| ensures (ps[a].x, ps[a].y) != (ps[b].x, ps[b].y) {
        if b < |before| {
          assert ps[a] == before[a] && ps[b] == before[b];
        } else if a < |before| {
          assert ps[a] == before[a] && ps[b] == col[b - |before|];
          assert ps[a] in before && ps[b] in col;
          ColumnsMembers(ops, shape, color, left, x - 1, top, bottom, ps[a]);
          ColumnMembers(ops, shape, color, x - 1, top, bottom, ps[b]);
        } else {
          assert ps[a] == col[a - |before|] && ps[b] == col[b - |before|];
        }
      }
    }
  }

  lemma {:induction false} ColumnDistinct(ops: ShapeOps, shape: Shape, color: Color, x: int, top: int, y: int)
    ensures forall a, b :: 0 <= a < b < |Column(ops, shape, color, x, top, y)| ==>
              Column(ops, shape, color, x, top, y)[a].y < Column(ops, shape, color, x, top, y)[b].y
    decreases y - top
  {
    if y > top {
      var before := Column(ops, shape, color, x, top, y - 1);
      ColumnDistinct(ops, shape, color, x, top, y - 1);
      var last := if ops.contains(shape, x, y - 1) then [Pixel(x, y - 1, color)] else [];
      var ps := before + last;
      assert Column(ops, shape, color, x, top, y) == ps;
      forall a, b | 0 <= a < b < |ps| ensures ps[a].y < ps[b].y {
        if b < |before| {
          assert ps[a] == before[a] && ps[b] == before[b];
          assert before[a].y < before[b].y;
        } else {
          assert ps[a] == before[a] && ps[b] == last[b - |before|];
          assert ps[a] in before;
          ColumnMembers(ops, shape, color, x, top, y - 1, ps[a]);
          assert ps[a].y < y - 1;
          assert ps[b].y == y - 1;
        }
      }
    }
  }

  /** What one command does once it has been read. */
  datatype Effect =
    | Fill(shape: Shape, color: Color)
    | Draw(shape: Shape, color: Color)
    | Assign(name: string, value: Shape)

  /** A shape expression and then a color: what "fill" and "draw" read. */
  function ShapeAndColor(s: string, env: Environment, i: nat): (r: Result<(Shape, Color, nat), Error>)
    requires i <= |s|
    ensures r.Ok? ==> i < r.value.2 <= |s|
  {
    match ShapeExpr(s, env, i)
    case Err(e) => Err(e)
    case Ok((shape, j)) =>
      match ReadColorAt(s, j)
      case Err(e) => Err(e)
      case Ok((color, end)) => Ok((shape, color, end))
  }

  /**
   * `evaluateNextCommand`: the first word decides the command. "fill" and
   * "draw" take a shape expression and a color; any other word is assigned
   * the shape expression after '='. Blanks after the command are skipped.
   * (`readVariable` never returns an empty word, so the source's test for
   * one never fails.)
   */
  function CommandOf(s: string, env: Environment, i: nat): (r: Result<(Effect, nat), Error>)
    requires i <= |s|
    ensures r.Ok? ==> i < r.value.1 <= |s|
  {
    var k := SkipSpaces(s, i);
    match ReadVariableAt(s, k)
    case Err(e) => Err(e)
    case Ok((word, wEnd)) =>
      var b := SkipSpaces(s, wEnd);
      if word == "fill" then
        match ShapeAndColor(s, env, b)
        case Err(e) => Err(e)
        case Ok((shape, color, end)) => Ok((Fill(shape, color), SkipSpaces(s, end)))
      else if word == "draw" then
        match ShapeAndColor(s, env, b)
        case Err(e) => Err(e)
        case Ok((shape, color, end)) => Ok((Draw(shape, color), SkipSpaces(s, end)))
      else
        match Match(s, b, "=")
        case Err(e) => Err(e)
        case Ok(eq) =>
          match ShapeExpr(s, env, eq)
          case Err(e) => Err(e)
          case Ok((rhs, end)) => Ok((Assign(word, rhs), SkipSpaces(s, end)))
  }

  /** An assignment binds the name, replacing any earlier binding. */
  function Bind(effect: Effect, env: Environment): (env': Environment)
    ensures effect.Assign? ==> effect.name in env' && env'[effect.name] == effect.value
    ensures effect.Assign? ==> forall v :: v in env && v != effect.name ==> v in env' && env'[v] == env[v]
    ensures effect.Assign? ==> env'.Keys == env.Keys + {effect.name}
    ensures !effect.Assign? ==> env' == env
  {
    if effect.Assign? then env[effect.name := effect.value] else env
  }

  /** The pixels a command adds to the canvas. */
  function Painted(effect: Effect, ops: ShapeOps): seq<Pixel>
  {
    match effect
    case Fill(shape, color) => FillPixels(ops, shape, color)
    case Draw(shape, color) => ops.outline(shape, color)
    case Assign(_, _) => []
  }

  /**
   * `run()` from cursor `i`: commands one after another until the input is
   * used up; the first exception ends the run.
   */
  function ProgramOf(s: string, env: Environment, canvas: seq<Pixel>, i: nat, ops: ShapeOps): (r: Result<seq<Pixel>, Error>)
    requires i <= |s|
    ensures r.Ok? ==> canvas <= r.value
    decreases |s| - i
  {
    if i == |s| then Ok(canvas)
    else
      match CommandOf(s, env, i)
      case Err(e) => Err(e)
      case Ok((effect, j)) => ProgramOf(s, Bind(effect, env), canvas + Painted(effect, ops), j, ops)
  }
}
