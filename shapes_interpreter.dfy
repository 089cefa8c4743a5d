/**
 * The shape drawer's interpreter as the object it is: a cursor `index` that
 * every reader moves through the program text, and a variable environment
 * that assignments update. Each method is proved to do what the function of
 * the same name in `ShapeParser` or `ShapeCommands` says, so the properties
 * proved about those functions hold of the interpreter.
 */
module ShapeInterpreter {
  import opened Wrappers
  import opened JavaLang
  import opened ShapeParser
  import opened ShapeCommands

  /** A canvas, as the `draw` calls made on it, in order. */
  class Canvas {
    var pixels: seq<Pixel>

    constructor ()
      ensures pixels == []
    {
      pixels := [];
    }

    method Draw(x: int, y: int, color: Color)
      modifies this
      ensures pixels == old(pixels) + [Pixel(x, y, color)]
    {
      pixels := pixels + [Pixel(x, y, color)];
    }
  }

  /**
   * A reader's result and where it leaves the cursor agree with the function
   * that specifies it: the value it reads and the cursor after it, or the
   * exception it throws.
   */
  predicate Agrees<T(==)>(r: Result<T, Error>, index: nat, spec: Result<(T, nat), Error>)
  {
    match spec
    case Ok((v, j)) => r == Ok(v) && index == j
    case Err(e) => r == Err(e)
  }

  /** The same for a reader that returns nothing (`match`). */
  predicate Moved(failure: Option<Error>, index: nat, spec: Result<nat, Error>)
  {
    match spec
    case Ok(j) => failure == None && index == j
    case Err(e) => failure == Some(e)
  }

  class Interpreter {
    /** The program text. */
    const input: string
    /** The cursor: how far the interpreter has read. */
    var index: nat
    /** The variables assigned so far and their shapes. */
    var environment: Environment

    predicate Valid()
      reads this
    {
      index <= |input|
    }

    constructor (input: string)
      ensures this.input == input && index == 0 && environment == map[]
      ensures Valid()
    {
      this.input := input;
      index := 0;
      environment := map[];
    }

    /** `skipWhiteSpace()`: past every space and newline, and no further. */
    method SkipWhiteSpace()
      requires Valid()
      modifies this`index
      ensures Valid()
      ensures index == SkipSpaces(input, old(index))
    {
      while index < |input| && (input[index] == ' ' || input[index] == '\n')
        invariant old(index) <= index <= |input|
        invariant RunEnd(input, index, Blanks) == RunEnd(input, old(index), Blanks)
        decreases |input| - index
      {
        index := index + 1;
      }
    }

    /** `match(text)`: the text after the blanks, or "expecting: <text>". */
    method Match(text: string) returns (failure: Option<Error>)
      requires Valid()
      modifies this`index
      ensures Valid()
      ensures Moved(failure, index, ShapeParser.Match(input, old(index), text))
    {
      SkipWhiteSpace();
      if index + |text| <= |input| && input[index..index + |text|] == text {
        index := index + |text|;
        failure := None;
      } else {
        failure := Some(IllegalArgument(Expecting(text), index));
      }
    }

    /** `readNumber()`: the digit run after the blanks, through `Integer.parseInt`. */
    method ReadNumber() returns (r: Result<Int32, Error>)
      requires Valid()
      modifies this`index
      ensures Valid()
      ensures Agrees(r, index, ReadNumberAt(input, old(index)))
    {
      SkipWhiteSpace();
      var start := index;
      while index < |input| && IsDigit(input[index])
        invariant start <= index <= |input|
        invariant RunEnd(input, index, Digits) == RunEnd(input, start, Digits)
        decreases |input| - index
      {
        index := index + 1;
      }
      match ParseInt(input[start..index])
      case None => r := Err(NumberFormat(input[start..index]));
      case Some(n) => r := Ok(n);
    }

    /** `readColor()`: the seven characters after the blanks, or "expecting color". */
    method ReadColor() returns (r: Result<Color, Error>)
      requires Valid()
      modifies this`index
      ensures Valid()
      ensures Agrees(r, index, ReadColorAt(input, old(index)))
    {
      SkipWhiteSpace();
      if index + 7 > |input| {
        r := Err(IllegalArgument(ExpectingColor, index));
      } else {
        var code := input[index..index + 7];
        index := index + 7;
        r := Ok(Color(code));
      }
    }

    /** `readVariable()`: a letter, then letters and digits; no blanks are skipped. */
    method ReadVariable() returns (r: Result<string, Error>)
      requires Valid()
      modifies this`index
      ensures Valid()
      ensures Agrees(r, index, ReadVariableAt(input, old(index)))
    {
      var start := index;
      if index == |input| {
        r := Err(IndexOutOfBounds(index));
      } else if !IsLetter(input[index]) {
        r := Err(IllegalArgument(IllegalVariable, index));
      } else {
        while index < |input| && (IsLetter(input[index]) || IsDigit(input[index]))
          invariant start <= index <= |input|
          invariant RunEnd(input, index, NameChars) == RunEnd(input, start, NameChars)
          decreases |input| - index
        {
          index := index + 1;
        }
        r := Ok(input[start..index]);
      }
    }

    /**
     * `readOperator(c)`: an operator moves the cursor past it; any other
     * character raises "invalid shape operator". The cursor stands on `c`.
     */
    method ReadOperator(c: char) returns (r: Result<char, Error>)
      requires Valid() && index < |input|
      modifies this`index
      ensures Valid()
      ensures IsOperator(c) ==> r == Ok(c) && index == old(index) + 1
      ensures !IsOperator(c) ==> r == Err(IllegalArgument(InvalidOperator, old(index)))
    {
      if c != '+' && c != '-' && c != '&' {
        r := Err(IllegalArgument(InvalidOperator, index));
      } else {
        index := index + 1;
        r := Ok(c);
      }
    }
  
    /**
     * `evaluateShapeExpression()`: an operand chosen by its first character,
     * then, when an operator follows, the operator and a further expression.
     */
    method EvaluateShapeExpression() returns (r: Result<Shape, Error>)
      requires Valid()
      modifies this`index
      ensures Valid()
      ensures Agrees(r, index, ShapeExpr(input, environment, old(index)))
      decreases |input| - index, 2
    {
      hide Bracketed, RectangleExpr, VariableExpr, NumbersAt, ReadNumberAt, ReadColorAt, ReadVariableAt, ShapeParser.Match, SkipSpaces, RunEnd;
      SkipWhiteSpace();
      if index == |input| {
        return Err(IndexOutOfBounds(index));
      }
      ghost var k := index;
      var lookahead := input[index];
      var first: Result<Shape, Error>;
      if lookahead == '(' {
        first := EvaluateBracketedExpression();
      } else if lookahead == '[' {
        first := EvaluateRectangleExpression();
      } else if IsLetter(lookahead) {
        first := EvaluateVariableExpression();
      } else {
        return Err(IllegalArgument(UnknownOperator, index));
      }
      assert Agrees(first, index, Operand(input, environment, k));
      if first.Err? {
        return first;
      }
      var value := first.value;
      SkipWhiteSpace();
      if index < |input| {
        lookahead := input[index];
        if lookahead == '+' || lookahead == '-' || lookahead == '&' {
          var operator := ReadOperator(lookahead);
          assert operator.Ok?;
          var second := EvaluateShapeExpression();
          if second.Err? {
            return second;
          }
          value := CompoundShape(value, second.value, operator.value);
        }
      }
      return Ok(value);
    }

    /** `evaluateBracketedExpression()`: '(' expression ')'. */
    method EvaluateBracketedExpression() returns (r: Result<Shape, Error>)
      requires Valid()
      modifies this`index
      ensures Valid()
      ensures Agrees(r, index, Bracketed(input, environment, old(index)))
      decreases |input| - index, 0
    {
      var failure := Match("(");
      if failure.Some? {
        return Err(failure.value);
      }
      var inner := EvaluateShapeExpression();
      if inner.Err? {
        return inner;
      }
      failure := Match(")");
      if failure.Some? {
        return Err(failure.value);
      }
      return inner;
    }

    /**
     * `evaluateRectangleExpression()`: '[' x ',' y ',' width ',' height ']',
     * read one after another up to the first failure.
     */
    method EvaluateRectangleExpression() returns (r: Result<Shape, Error>)
      requires Valid()
      modifies this`index
      ensures Valid()
      ensures Agrees(r, index, RectangleExpr(input, old(index)))
    {
      hide ShapeExpr, Operand, Bracketed, VariableExpr, ReadNumberAt, ReadColorAt, ReadVariableAt, ShapeParser.Match, SkipSpaces, RunEnd;
      var failure := Match("[");
      if failure.Some? {
        return Err(failure.value);
      }
      ghost var a := index;
      var x := ReadNumber();
      if x.Err? {
        return Err(x.error);
      }
      failure := Match(",");
      if failure.Some? {
        return Err(failure.value);
      }
      ghost var b1 := index;
      var y := ReadNumber();
      if y.Err? {
        assert NumbersAt(input, b1, 3) == Err(y.error);
        return Err(y.error);
      }
      failure := Match(",");
      if failure.Some? {
        assert NumbersAt(input, b1, 3) == Err(failure.value);
        return Err(failure.value);
      }
      ghost var b2 := index;
      var width := ReadNumber();
      if width.Err? {
        assert NumbersAt(input, b2, 2) == Err(width.error);
        assert NumbersAt(input, b1, 3) == Err(width.error);
        return Err(width.error);
      }
      failure := Match(",");
      if failure.Some? {
        assert NumbersAt(input, b2, 2) == Err(failure.value);
        assert NumbersAt(input, b1, 3) == Err(failure.value);
        return Err(failure.value);
      }
      ghost var b3 := index;
      var height := ReadNumber();
      if height.Err? {
        assert NumbersAt(input, b3, 1) == Err(height.error);
        assert NumbersAt(input, b2, 2) == Err(height.error);
        assert NumbersAt(input, b1, 3) == Err(height.error);
        return Err(height.error);
      }
      assert NumbersAt(input, b3, 1) == Ok(([height.value], index));
      assert NumbersAt(input, b2, 2) == Ok(([width.value] + [height.value], index));
      assert NumbersAt(input, b1, 3) == Ok(([y.value] + ([width.value] + [height.value]), index));
      assert NumbersAt(input, a, 4) == Ok(([x.value] + ([y.value] + ([width.value] + [height.value])), index));
      failure := Match("]");
      if failure.Some? {
        return Err(failure.value);
      }
      return Ok(Rectangle(x.value, y.value, width.value, height.value));
    }

    /**
     * `evaluateVariableExpression()`: the shape bound to the name; an
     * unbound name puts the cursor back and raises "undefined variable".
     */
    method EvaluateVariableExpression() returns (r: Result<Shape, Error>)
      requires Valid()
      modifies this`index
      ensures Valid()
      ensures Agrees(r, index, VariableExpr(input, environment, old(index)))
    {
      var start := index;
      var name := ReadVariable();
      if name.Err? {
        return Err(name.error);
      }
      if name.value !in environment {
        index := start;
        return Err(IllegalArgument(UndefinedVariable, index));
      }
      return Ok(environment[name.value]);
    }

    /**
     * `fillShape(color, shape, canvas)`: over the bounding box, column by
     * column and row by row, draws every point the shape contains; without a
     * bounding box it draws nothing. The edges are 32-bit `int` sums.
     */
    method FillShape(color: Color, shape: Shape, canvas: Canvas, ops: ShapeOps)
      modifies canvas
      ensures canvas.pixels == old(canvas.pixels) + FillPixels(ops, shape, color)
    {
      hide Wrap32, Column, Columns;
      var box := ops.boundingBox(shape);
      if box.None? {
        return;
      }
      var left := box.value.x;
      var right := Wrap32(left + box.value.width);
      var top := box.value.y;
      var bottom := Wrap32(top + box.value.height);
      var x := left;
      ColumnsEmpty(ops, shape, color, left, x, top, bottom);
      while x < right
        invariant x == left || left < x <= right
        invariant canvas.pixels == old(canvas.pixels) + Columns(ops, shape, color, left, x, top, bottom)
        decreases right - x
      {
        var y := top;
        ColumnEmpty(ops, shape, color, x, top, y);
        while y < bottom
          invariant y == top || top < y <= bottom
          invariant canvas.pixels == old(canvas.pixels) + Columns(ops, shape, color, left, x, top, bottom)
                                     + Column(ops, shape, color, x, top, y)
          decreases bottom - y
        {
          ColumnNext(ops, shape, color, x, top, y);
          if ops.contains(shape, x, y) {
            canvas.Draw(x, y, color);
          }
          y := y + 1;
        }
        if y != bottom {
          ColumnEmpty(ops, shape, color, x, top, bottom);
        }
        ColumnsNext(ops, shape, color, left, x, top, bottom);
        x := x + 1;
      }
      if x != right {
        ColumnsEmpty(ops, shape, color, left, right, top, bottom);
      }
    }

    /**
     * `drawShape(color, shape, canvas)`: draws the pixels of the shape's
     * outline, in the order the outline scan finds them.
     */
    method DrawShape(color: Color, shape: Shape, canvas: Canvas, ops: ShapeOps)
      modifies canvas
      ensures canvas.pixels == old(canvas.pixels) + ops.outline(shape, color)
    {
      var outline := ops.outline(shape, color);
      var n := 0;
      while n < |outline|
        invariant n <= |outline|
        invariant canvas.pixels == old(canvas.pixels) + outline[..n]
      {
        canvas.Draw(outline[n].x, outline[n].y, outline[n].color);
        assert outline[..n + 1] == outline[..n] + [outline[n]];
        n := n + 1;
      }
      assert outline[..n] == outline;
    }

    /**
     * `evaluateNextCommand(canvas)`: reads the command word, then either a
     * shape and a color to fill or draw, or '=' and the shape to assign to
     * the word; the blanks after the command are skipped.
     */
    method EvaluateNextCommand(canvas: Canvas, ops: ShapeOps) returns (failure: Option<Error>)
      requires Valid()
      modifies this`index, this`environment, canvas
      ensures Valid()
      ensures match CommandOf(input, old(environment), old(index))
              case Ok((effect, j)) =>
                failure == None && index == j && environment == Bind(effect, old(environment)) &&
                canvas.pixels == old(canvas.pixels) + Painted(effect, ops)
              case Err(e) => failure == Some(e)
    {
      hide ShapeExpr, Operand, Bracketed, RectangleExpr, VariableExpr, NumbersAt, ReadNumberAt, ReadColorAt, ReadVariableAt, ShapeParser.Match, SkipSpaces, RunEnd, FillPixels;
      SkipWhiteSpace();
      var cmd := ReadVariable();
      if cmd.Err? {
        return Some(cmd.error);
      }
      SkipWhiteSpace();
      if cmd.value == "fill" {
        var shape := EvaluateShapeExpression();
        if shape.Err? {
          return Some(shape.error);
        }
        var color := ReadColor();
        if color.Err? {
          return Some(color.error);
        }
        FillShape(color.value, shape.value, canvas, ops);
      } else if cmd.value == "draw" {
        var shape := EvaluateShapeExpression();
        if shape.Err? {
          return Some(shape.error);
        }
        var color := ReadColor();
        if color.Err? {
          return Some(color.error);
        }
        DrawShape(color.value, shape.value, canvas, ops);
      } else {
        // The source tests for an empty word here; `readVariable` never returns one.
        assert cmd.value != "";
        failure := Match("=");
        if failure.Some? {
          return failure;
        }
        var rhs := EvaluateShapeExpression();
        if rhs.Err? {
          return Some(rhs.error);
        }
        environment := environment[cmd.value := rhs.value];
      }
      SkipWhiteSpace();
      return None;
    }

    /**
     * `run()`: a new canvas, and commands evaluated one after another until
     * the input is used up. The first exception ends the run.
     */
    method Run(ops: ShapeOps) returns (canvas: Canvas, failure: Option<Error>)
      requires Valid()
      modifies this`index, this`environment
      ensures Valid() && fresh(canvas)
      ensures match ProgramOf(input, old(environment), [], old(index), ops)
              case Ok(pixels) => failure == None && canvas.pixels == pixels && index == |input|
              case Err(e) => failure == Some(e)
    {
      canvas := new Canvas();
      while index < |input|
        invariant Valid() && fresh(canvas)
        invariant ProgramOf(input, environment, canvas.pixels, index, ops) == ProgramOf(input, old(environment), [], old(index), ops)
        decreases |input| - index
      {
        failure := EvaluateNextCommand(canvas, ops);
        if failure.Some? {
          return;
        }
      }
      failure := None;
    }
}
}
