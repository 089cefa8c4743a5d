/**
 * The shape language read by the shape drawer's interpreter, as functions of
 * the program text and a cursor position.
 *
 * Every reader of the interpreter moves a cursor `index` through the input
 * string; here each one is a function from the text and the position it
 * starts at to the value it reads and the position it leaves the cursor at,
 * or to the exception it throws. The interpreter class proves its methods
 * equal to these functions.
 */
module ShapeParser {
  import opened Wrappers
  import opened JavaLang

  /**
   * A shape value. `Rectangle` and `CompoundShape` are the two kinds of
   * shape the interpreter builds; what they contain is not decided here.
   */
  datatype Shape =
    | Rectangle(x: Int32, y: Int32, width: Int32, height: Int32)
    | CompoundShape(left: Shape, right: Shape, operator: char)

  /** The seven characters that `readColor` hands to `new Color(..)`. */
  datatype Color = Color(code: string)

  /**
   * The messages `error(..)` raises: "expecting: " followed by the expected
   * text, "expecting color", "Illegal variabl", "undefined variable",
   * "unknown operator" and "invalid shape operator".
   */
  datatype Message =
    | Expecting(text: string)
    | ExpectingColor
    | IllegalVariable
    | UndefinedVariable
    | UnknownOperator
    | InvalidOperator

  /** The exceptions the interpreter throws while reading. */
  datatype Error =
    | IllegalArgument(message: Message, at: nat)  // from `error(..)`, with the cursor it reports
    | IndexOutOfBounds(at: nat)                  // `input.charAt(index)` at the end of the input
    | NumberFormat(text: string)                 // `Integer.parseInt` of a bad digit run

  /** The interpreter's variables and the shapes bound to them. */
  type Environment = map<string, Shape>

  /** The "whitespace" of `skipWhiteSpace`: only the space and the newline. */
  predicate IsBlank(c: char) { c == ' ' || c == '\n' }

  predicate IsLetterOrDigit(c: char) { IsLetter(c) || IsDigit(c) }

  /** The three shape operators: union, difference and intersection. */
  predicate IsOperator(c: char) { c == '+' || c == '-' || c == '&' }

  /** A variable name: a letter followed by letters and digits. */
  predicate IsName(name: string)
  {
    |name| > 0 && IsLetter(name[0]) && forall k :: 0 <= k < |name| ==> IsLetterOrDigit(name[k])
  }

  /** `input.startsWith(text, k)`. */
  predicate StartsWithAt(s: string, k: nat, text: string)
  {
    k + |text| <= |s| && s[k..k + |text|] == text
  }

  /** The character classes the reader's scanning loops run over. */
  datatype CharClass = Blanks | Digits | NameChars

  predicate InClass(c: char, kind: CharClass)
  {
    match kind
    case Blanks => IsBlank(c)
    case Digits => IsDigit(c)
    case NameChars => IsLetterOrDigit(c)
  }

  /**
   * Where a loop `while (index < length && kind(charAt(index))) index++`
   * started at `i` stops.
   */
  function RunEnd(s: string, i: nat, kind: CharClass): (k: nat)
    requires i <= |s|
    ensures i <= k <= |s|
    decreases |s| - i
  {
    if i < |s| && InClass(s[i], kind) then RunEnd(s, i + 1, kind) else i
  }

  /** The loop stops at the end of the longest run of `p` characters from `i`. */
  lemma {:induction false} RunEndSpec(s: string, i: nat, kind: CharClass)
    requires i <= |s|
    ensures forall j :: i <= j < RunEnd(s, i, kind) ==> InClass(s[j], kind)
    ensures RunEnd(s, i, kind) == |s| || !InClass(s[RunEnd(s, i, kind)], kind)
    decreases |s| - i
  {
    if i < |s| && InClass(s[i], kind) {
      RunEndSpec(s, i + 1, kind);
    }
  }

  /** `skipWhiteSpace()`. */
  function SkipSpaces(s: string, i: nat): (k: nat)
    requires i <= |s|
    ensures i <= k <= |s|
  {
    RunEnd(s, i, Blanks)
  }

  /** `skipWhiteSpace()` moves past every space and newline, and no further. */
  lemma SkipSpacesSpec(s: string, i: nat)
    requires i <= |s|
    ensures forall j :: i <= j < SkipSpaces(s, i) ==> IsBlank(s[j])
    ensures SkipSpaces(s, i) == |s| || !IsBlank(s[SkipSpaces(s, i)])
  {
    RunEndSpec(s, i, Blanks);
  }

  /** `match(text)`. */
  function Match(s: string, i: nat, text: string): (r: Result<nat, Error>)
    requires i <= |s|
    ensures r.Ok? ==> i + |text| <= r.value <= |s|
  {
    var k := SkipSpaces(s, i);
    if StartsWithAt(s, k, text) then Ok(k + |text|) else Err(IllegalArgument(Expecting(text), k))
  }

  /**
   * `match(text)` succeeds exactly when the text follows the blanks, and
   * then moves the cursor over it; otherwise it raises "expecting: <text>"
   * at the first non-blank character.
   */
  lemma MatchSpec(s: string, i: nat, text: string)
    requires i <= |s|
    ensures Match(s, i, text).Ok? <==> StartsWithAt(s, SkipSpaces(s, i), text)
    ensures Match(s, i, text).Ok? ==> Match(s, i, text).value == SkipSpaces(s, i) + |text|
    ensures Match(s, i, text).Err? ==> Match(s, i, text).error == IllegalArgument(Expecting(text), SkipSpaces(s, i))
  {
  }

  /** `readNumber()`: the digit run after the blanks, read by `Integer.parseInt`. */
  function ReadNumberAt(s: string, i: nat): (r: Result<(Int32, nat), Error>)
    requires i <= |s|
    ensures r.Ok? ==> i < r.value.1 <= |s|
  {
    var k := SkipSpaces(s, i);
    var e := RunEnd(s, k, Digits);
    match ParseInt(s[k..e])
    case None => Err(NumberFormat(s[k..e]))
    case Some(n) => Ok((n, e))
  }

  lemma AllDigitsRun(s: string, k: nat)
    requires k <= |s|
    ensures AllDigits(s[k..RunEnd(s, k, Digits)])
  {
    var e := RunEnd(s, k, Digits);
    RunEndSpec(s, k, Digits);
    forall j | 0 <= j < e - k ensures IsDigit(s[k..e][j]) {
      assert s[k..e][j] == s[k + j];
    }
  }

  /**
   * What `readNumber()` reads: the value of the longest digit run after the
   * blanks, when that run is not empty and its value fits in an `int`;
   * otherwise `Integer.parseInt` refuses the run.
   */
  lemma ReadNumberValue(s: string, i: nat)
    requires i <= |s|
    ensures var k := SkipSpaces(s, i);
            var e := RunEnd(s, k, Digits);
            var r := ReadNumberAt(s, i);
            AllDigits(s[k..e]) &&
            (r.Ok? <==> k < e && DigitsValue(s[k..e]) <= INT_MAX) &&
            (r.Ok? ==> r.value == (DigitsValue(s[k..e]), e)) &&
            (r.Err? ==> r.error == NumberFormat(s[k..e]))
  {
    AllDigitsRun(s, SkipSpaces(s, i));
  }

  /** `readColor()`. */
  function ReadColorAt(s: string, i: nat): (r: Result<(Color, nat), Error>)
    requires i <= |s|
    ensures r.Ok? ==> i < r.value.1 <= |s| && |r.value.0.code| == 7
  {
    var k := SkipSpaces(s, i);
    if k + 7 > |s| then Err(IllegalArgument(ExpectingColor, k)) else Ok((Color(s[k..k + 7]), k + 7))
  }

  /**
   * `readColor()` takes the seven characters after the blanks, or raises
   * "expecting color" when fewer are left.
   */
  lemma ReadColorSpec(s: string, i: nat)
    requires i <= |s|
    ensures var k := SkipSpaces(s, i);
            var r := ReadColorAt(s, i);
            (r.Ok? <==> k + 7 <= |s|) &&
            (r.Ok? ==> r.value == (Color(s[k..k + 7]), k + 7)) &&
            (r.Err? ==> r.error == IllegalArgument(ExpectingColor, k))
  {
  }

  /** `readVariable()`: no blanks are skipped before the name. */
  function ReadVariableAt(s: string, i: nat): (r: Result<(string, nat), Error>)
    requires i <= |s|
    ensures r.Ok? ==> i < r.value.1 <= |s| && r.value.1 - i == |r.value.0|
  {
    if i == |s| then Err(IndexOutOfBounds(i))
    else if !IsLetter(s[i]) then Err(IllegalArgument(IllegalVariable, i))
    else
      var e := RunEnd(s, i, NameChars);
      Ok((s[i..e], e))
  }

  /**
   * `readVariable()` needs a letter at the cursor: at the end of the input
   * `charAt` throws, at another character the error "Illegal variabl" is
   * raised. From a letter it reads the whole run of letters and digits.
   */
  lemma ReadVariableSpec(s: string, i: nat)
    requires i <= |s|
    ensures var r := ReadVariableAt(s, i);
            (r.Ok? <==> i < |s| && IsLetter(s[i])) &&
            (r.Ok? ==> var (name, e) := r.value;
                       IsName(name) && StartsWithAt(s, i, name) && (e == |s| || !IsLetterOrDigit(s[e]))) &&
            (i == |s| ==> r == Err(IndexOutOfBounds(i))) &&
            (i < |s| && !IsLetter(s[i]) ==> r == Err(IllegalArgument(IllegalVariable, i)))
  {
    if i < |s| && IsLetter(s[i]) {
      var e := RunEnd(s, i, NameChars);
      RunEndSpec(s, i, NameChars);
      assert s[i..e][0] == s[i];
      assert forall k :: 0 <= k < e - i ==> s[i..e][k] == s[i + k];
    }
  }

  /** `evaluateVariableExpression()`. */
  function VariableExpr(s: string, env: Environment, k: nat): (r: Result<(Shape, nat), Error>)
    requires k <= |s|
    ensures r.Ok? ==> k < r.value.1 <= |s|
  {
    match ReadVariableAt(s, k)
    case Err(e) => Err(e)
    case Ok((name, e)) => if name in env then Ok((env[name], e)) else Err(IllegalArgument(UndefinedVariable, k))
  }

  /**
   * A variable expression is the shape bound to the name; an unbound name
   * raises "undefined variable" with the cursor put back at the start of the
   * name.
   */
  lemma VariableExprSpec(s: string, env: Environment, k: nat)
    requires k <= |s|
    ensures var v := ReadVariableAt(s, k);
            var r := VariableExpr(s, env, k);
            (r.Ok? <==> v.Ok? && v.value.0 in env) &&
            (r.Ok? ==> r.value == (env[v.value.0], v.value.1)) &&
            (v.Ok? && v.value.0 !in env ==> r == Err(IllegalArgument(UndefinedVariable, k))) &&
            (v.Err? ==> r == Err(v.error))
  {
  }

  /**
   * The numbers of `evaluateRectangleExpression()`: `readNumber()`, and
   * before each further number `match(",")`. The source writes its four
   * reads out one after another; this reads them in the same order and
   * stops at the same first failure.
   */
  function NumbersAt(s: string, i: nat, count: nat): (r: Result<(seq<Int32>, nat), Error>)
    requires i <= |s| && count > 0
    ensures r.Ok? ==> i < r.value.1 <= |s| && |r.value.0| == count
    decreases count
  {
    match ReadNumberAt(s, i)
    case Err(e) => Err(e)
    case Ok((n, j)) =>
      if count == 1 then Ok(([n], j))
      else
        match Match(s, j, ",")
        case Err(e) => Err(e)
        case Ok(b) =>
          match NumbersAt(s, b, count - 1)
          case Err(e) => Err(e)
          case Ok((rest, end)) => Ok(([n] + rest, end))
  }

  /** `evaluateRectangleExpression()`: '[' x ',' y ',' width ',' height ']'. */
  function RectangleExpr(s: string, k: nat): (r: Result<(Shape, nat), Error>)
    requires k <= |s|
    ensures r.Ok? ==> k < r.value.1 <= |s| && r.value.0.Rectangle?
  {
    match Match(s, k, "[")
    case Err(e) => Err(e)
    case Ok(a) =>
      match NumbersAt(s, a, 4)
      case Err(e) => Err(e)
      case Ok((ns, j)) =>
        match Match(s, j, "]")
        case Err(e) => Err(e)
        case Ok(end) => Ok((Rectangle(ns[0], ns[1], ns[2], ns[3]), end))
  }

  /** A number read is a run of digits, so it is never negative. */
  lemma ReadNumberNonNegative(s: string, i: nat)
    requires i <= |s|
    ensures ReadNumberAt(s, i).Ok? ==> ReadNumberAt(s, i).value.0 >= 0
  {
    ReadNumberValue(s, i);
  }

  /** Every number of a run read by `NumbersAt` is non-negative. */
  lemma {:induction false} NumbersNonNegative(s: string, i: nat, count: nat)
    requires i <= |s| && count > 0
    ensures NumbersAt(s, i, count).Ok? ==> forall n :: n in NumbersAt(s, i, count).value.0 ==> n >= 0
    decreases count
  {
    ReadNumberNonNegative(s, i);
    match ReadNumberAt(s, i)
    case Err(_) =>
    case Ok((n, j)) =>
      if count > 1 && Match(s, j, ",").Ok? {
        NumbersNonNegative(s, Match(s, j, ",").value, count - 1);
      }
  }

  /** The four numbers of a rectangle read from text are never negative. */
  lemma RectangleNonNegative(s: string, k: nat)
    requires k <= |s|
    ensures RectangleExpr(s, k).Ok? ==>
              var b := RectangleExpr(s, k).value.0;
              0 <= b.x && 0 <= b.y && 0 <= b.width && 0 <= b.height
  {
    if Match(s, k, "[").Ok? {
      var a := Match(s, k, "[").value;
      NumbersNonNegative(s, a, 4);
      if NumbersAt(s, a, 4).Ok? {
        var ns := NumbersAt(s, a, 4).value.0;
        assert ns[0] in ns && ns[1] in ns && ns[2] in ns && ns[3] in ns;
      }
    }
  }

  /**
   * `evaluateShapeExpression()`: an operand, and then, when an operator
   * follows, the operator and a whole further expression as the right
   * operand. Operators therefore have no precedence and group to the right.
   */
  function ShapeExpr(s: string, env: Environment, i: nat): (r: Result<(Shape, nat), Error>)
    requires i <= |s|
    ensures r.Ok? ==> i < r.value.1 <= |s|
    decreases |s| - i, 2
  {
    var k := SkipSpaces(s, i);
    if k == |s| then Err(IndexOutOfBounds(k))
    else
      match Operand(s, env, k)
      case Err(e) => Err(e)
      case Ok((first, j)) =>
        var m := SkipSpaces(s, j);
        if m < |s| && IsOperator(s[m]) then
          match ShapeExpr(s, env, m + 1)
          case Err(e) => Err(e)
          case Ok((second, end)) => Ok((CompoundShape(first, second, s[m]), end))
        else
          Ok((first, m))
  }

  /** A shape expression stops at the end of the input or before a character that is neither blank nor an operator. */
  lemma {:induction false} ShapeExprStops(s: string, env: Environment, i: nat)
    requires i <= |s|
    ensures var r := ShapeExpr(s, env, i);
            r.Ok? ==> r.value.1 == |s| || (!IsBlank(s[r.value.1]) && !IsOperator(s[r.value.1]))
    decreases |s| - i
  {
    hide Operand, Bracketed, RectangleExpr, VariableExpr, Match;
    var k := SkipSpaces(s, i);
    if k < |s| && Operand(s, env, k).Ok? {
      var first := Operand(s, env, k).value;
      var m := SkipSpaces(s, first.1);
      SkipSpacesSpec(s, first.1);
      if m < |s| && IsOperator(s[m]) {
        ShapeExprStops(s, env, m + 1);
      }
    }
  }

  /**
   * The choice on the lookahead character in `evaluateShapeExpression()`:
   * '(' opens a bracketed expression, '[' a rectangle, a letter a
   * variable; anything else is "unknown operator".
   */
  function Operand(s: string, env: Environment, k: nat): (r: Result<(Shape, nat), Error>)
    requires k < |s|
    ensures r.Ok? ==> k < r.value.1 <= |s|
    ensures !(s[k] == '(' || s[k] == '[' || IsLetter(s[k])) ==> r == Err(IllegalArgument(UnknownOperator, k))
    decreases |s| - k, 1
  {
    if s[k] == '(' then Bracketed(s, env, k)
    else if s[k] == '[' then RectangleExpr(s, k)
    else if IsLetter(s[k]) then VariableExpr(s, env, k)
    else Err(IllegalArgument(UnknownOperator, k))
  }

  /** `evaluateBracketedExpression()`: '(' expression ')'. */
  function Bracketed(s: string, env: Environment, k: nat): (r: Result<(Shape, nat), Error>)
    requires k <= |s|
    ensures r.Ok? ==> k < r.value.1 <= |s|
    decreases |s| - k, 0
  {
    match Match(s, k, "(")
    case Err(e) => Err(e)
    case Ok(a) =>
      match ShapeExpr(s, env, a)
      case Err(e) => Err(e)
      case Ok((inner, j)) =>
        match Match(s, j, ")")
        case Err(e) => Err(e)
        case Ok(b) => Ok((inner, b))
  }
}
