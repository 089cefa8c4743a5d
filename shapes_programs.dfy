/**
 * Shape programs as syntax trees, their text, and what they mean.
 *
 * `Print` writes a program the way the interpreter's own documentation
 * lays one out ("x = [0,0,10,10]", "fill x #000000", one command a line);
 * `Eval` and `Exec` say what the program means without any text. The
 * lemmas prove that reading the printed text gives that meaning: every
 * well-formed expression is read back whole, operators group to the right,
 * and a whole printed program runs to the canvas `Exec` describes.
 */
module ShapePrograms {
  import opened Wrappers
  import opened JavaLang
  import opened ShapeParser
  import opened ShapeCommands

  /** A number a rectangle can be written with: the digits of a non-negative `int`. */
  type Number = n: int | 0 <= n <= INT_MAX

  /** A shape expression as written. */
  datatype Expr =
    | Rect(x: Number, y: Number, width: Number, height: Number)
    | Var(name: string)
    | Paren(inner: Expr)
    | Op(left: Expr, operator: char, right: Expr)

  /**
   * An expression the grammar can produce over `env`: bound names, and operator expressions whose left operand is not
   * itself an operator expression (the parser never builds one; such a left
   * operand must be bracketed).
   */
  predicate WellFormed(e: Expr, env: Environment)
  {
    match e
    case Rect(_, _, _, _) => true
    case Var(name) => IsName(name) && name in env
    case Paren(inner) => WellFormed(inner, env)
    case Op(left, operator, right) => !left.Op? && IsOperator(operator) && WellFormed(left, env) && WellFormed(right, env)
  }

  /** Numbers written in decimal and separated by commas. */
  function NumbersText(ns: seq<Number>): string
    requires |ns| > 0
    decreases |ns|
  {
    if |ns| == 1 then NatToString(ns[0]) else NatToString(ns[0]) + "," + NumbersText(ns[1..])
  }

  function Print(e: Expr): string
  {
    match e
    case Rect(x, y, width, height) => "[" + NumbersText([x, y, width, height]) + "]"
    case Var(name) => name
    case Paren(inner) => "(" + Print(inner) + ")"
    case Op(left, operator, right) => Print(left) + [operator] + Print(right)
  }

  /** The shape an expression stands for: brackets group, operators build compound shapes. */
  function Eval(e: Expr, env: Environment): Shape
    requires WellFormed(e, env)
  {
    match e
    case Rect(x, y, width, height) => Rectangle(x, y, width, height)
    case Var(name) => env[name]
    case Paren(inner) => Eval(inner, env)
    case Op(left, operator, right) => CompoundShape(Eval(left, env), Eval(right, env), operator)
  }

  /** A printed expression is not empty and starts with '[', '(' or a letter. */
  lemma {:induction false} PrintStart(e: Expr, env: Environment)
    requires WellFormed(e, env)
    ensures |Print(e)| > 0
    ensures Print(e)[0] == '[' || Print(e)[0] == '(' || IsLetter(Print(e)[0])
  {
    match e
    case Rect(_, _, _, _) =>
    case Var(_) =>
    case Paren(_) =>
    case Op(left, operator, right) =>
      PrintStart(left, env);
      assert Print(e)[0] == Print(left)[0];
  }

  lemma StartsWithSplit(s: string, k: nat, a: string, b: string)
    requires StartsWithAt(s, k, a + b)
    ensures StartsWithAt(s, k, a) && StartsWithAt(s, k + |a|, b)
  {
    assert s[k..k + |a|] == s[k..k + |a + b|][..|a|];
    assert s[k + |a|..k + |a| + |b|] == s[k..k + |a + b|][|a|..];
  }

  lemma StartsWithChar(s: string, k: nat, text: string, j: nat)
    requires StartsWithAt(s, k, text) && j < |text|
    ensures s[k + j] == text[j]
  {
    assert s[k..k + |text|][j] == s[k + j];
  }

  /** A loop over a run of `p` characters stops right after the run. */
  lemma RunOver(s: string, i: nat, text: string, kind: CharClass)
    requires StartsWithAt(s, i, text)
    requires forall j :: 0 <= j < |text| ==> InClass(text[j], kind)
    requires i + |text| == |s| || !InClass(s[i + |text|], kind)
    ensures RunEnd(s, i, kind) == i + |text|
  {
    RunEndSpec(s, i, kind);
    forall j | i <= j < i + |text| ensures InClass(s[j], kind) {
      StartsWithChar(s, i, text, j - i);
    }
  }

  /** The cursor does not move over a character that is not blank. */
  lemma NoBlanksAt(s: string, i: nat)
    requires i < |s| && !IsBlank(s[i])
    ensures SkipSpaces(s, i) == i
  {
  }

  /** A printed number is read back when a non-digit follows it. */
  lemma NumberPrinted(s: string, j: nat, n: nat)
    requires n <= INT_MAX
    requires StartsWithAt(s, j, NatToString(n))
    requires j + |NatToString(n)| < |s| && !IsDigit(s[j + |NatToString(n)|])
    ensures ReadNumberAt(s, j) == Ok((n, j + |NatToString(n)|))
  {
    var digits := NatToString(n);
    NatToStringValue(n);
    StartsWithChar(s, j, digits, 0);
    NoBlanksAt(s, j);
    RunOver(s, j, digits, Digits);
    assert s[j..j + |digits|] == digits;
    assert ParseInt(digits) == Some(n);
  }

  /** A one-character token that is not blank is matched where it stands. */
  lemma TokenPrinted(s: string, j: nat, token: string)
    requires |token| == 1 && !IsBlank(token[0]) && StartsWithAt(s, j, token)
    ensures Match(s, j, token) == Ok(j + 1)
  {
    StartsWithChar(s, j, token, 0);
    NoBlanksAt(s, j);
  }

  /** A character that is not blank is matched where it stands. */
  lemma CharToken(s: string, j: nat, c: char)
    requires j < |s| && s[j] == c && !IsBlank(c)
    ensures Match(s, j, [c]) == Ok(j + 1)
  {
    TokenPrinted(s, j, [c]);
  }

  /** `NumbersAt` when the first number, the comma and the rest are each read. */
  lemma NumbersSteps(s: string, i: nat, count: nat, n: Int32, j: nat, b: nat, rest: seq<Int32>, end: nat)
    requires i <= |s| && count > 1
    requires ReadNumberAt(s, i) == Ok((n, j)) && Match(s, j, ",") == Ok(b)
    requires NumbersAt(s, b, count - 1) == Ok((rest, end))
    ensures NumbersAt(s, i, count) == Ok(([n] + rest, end))
  {
    hide ShapeExpr, Operand, Bracketed, RectangleExpr, VariableExpr, ReadNumberAt, ReadColorAt, ReadVariableAt, Match, SkipSpaces, RunEnd;
  }

  /** Where the parts of printed numbers lie. */
  lemma NumbersLayout(s: string, i: nat, ns: seq<Number>) returns (j: nat)
    requires |ns| > 1 && StartsWithAt(s, i, NumbersText(ns))
    ensures j == i + |NatToString(ns[0])| && j < |s| && s[j] == ','
    ensures StartsWithAt(s, i, NatToString(ns[0])) && StartsWithAt(s, j + 1, NumbersText(ns[1..]))
    ensures i + |NumbersText(ns)| == j + 1 + |NumbersText(ns[1..])|
  {
    StartsWithSplit(s, i, NatToString(ns[0]) + ",", NumbersText(ns[1..]));
    StartsWithSplit(s, i, NatToString(ns[0]), ",");
    j := i + |NatToString(ns[0])|;
    StartsWithChar(s, j, ",", 0);
  }

  /** Printed numbers, followed by something that is not a digit, are read back. */
  lemma {:induction false} NumbersPrinted(s: string, i: nat, ns: seq<Number>, after: nat)
    requires |ns| > 0
    requires StartsWithAt(s, i, NumbersText(ns)) && after == i + |NumbersText(ns)|
    requires after < |s| && !IsDigit(s[after])
    ensures NumbersAt(s, i, |ns|) == Ok((ns, after))
    decreases |ns|
  {
    hide ShapeExpr, Operand, Bracketed, RectangleExpr, VariableExpr, NumbersAt, ReadNumberAt, ReadColorAt, ReadVariableAt, Match, SkipSpaces, RunEnd;
    if |ns| == 1 {
      LastNumberPrinted(s, i, ns, after);
    } else {
      var j := NumbersLayout(s, i, ns);
      assert NumbersAt(s, j + 1, |ns| - 1) == Ok((ns[1..], after)) by {
        NumbersPrinted(s, j + 1, ns[1..], after);
      }
      NextNumberPrinted(s, i, ns, j, after);
    }
  }

  /** The last of the printed numbers is read back. */
  lemma LastNumberPrinted(s: string, i: nat, ns: seq<Number>, after: nat)
    requires |ns| == 1
    requires StartsWithAt(s, i, NumbersText(ns)) && after == i + |NumbersText(ns)|
    requires after < |s| && !IsDigit(s[after])
    ensures NumbersAt(s, i, |ns|) == Ok((ns, after))
  {
    assert NumbersText(ns) == NatToString(ns[0]);
    NumberPrinted(s, i, ns[0]);
    assert [ns[0]] == ns;
  }

  /** A printed number and a comma, followed by numbers that are read back, are read back with them. */
  lemma NextNumberPrinted(s: string, i: nat, ns: seq<Number>, j: nat, after: nat)
    requires |ns| > 1
    requires j == i + |NatToString(ns[0])| && j < |s| && s[j] == ','
    requires StartsWithAt(s, i, NatToString(ns[0]))
    requires NumbersAt(s, j + 1, |ns| - 1) == Ok((ns[1..], after))
    ensures NumbersAt(s, i, |ns|) == Ok((ns, after))
  {
    hide ShapeExpr, Operand, Bracketed, RectangleExpr, VariableExpr, NumbersAt, ReadNumberAt, ReadColorAt, ReadVariableAt, Match, SkipSpaces, RunEnd;
    NumberPrinted(s, i, ns[0]);
    CharToken(s, j, ',');
    NumbersSteps(s, i, |ns|, ns[0], j, j + 1, ns[1..], after);
    assert [ns[0]] + ns[1..] == ns;
  }

  /** `evaluateRectangleExpression` when '[', the numbers and ']' are each read. */
  lemma RectangleSteps(s: string, k: nat, ns: seq<Int32>, close: nat)
    requires k < |s| && close < |s| && |ns| == 4
    requires Match(s, k, "[") == Ok(k + 1) && NumbersAt(s, k + 1, 4) == Ok((ns, close))
    requires Match(s, close, "]") == Ok(close + 1)
    ensures RectangleExpr(s, k) == Ok((Rectangle(ns[0], ns[1], ns[2], ns[3]), close + 1))
  {
    hide ShapeExpr, Operand, Bracketed, VariableExpr, NumbersAt, ReadNumberAt, ReadColorAt, ReadVariableAt, Match, SkipSpaces, RunEnd;
  }

  /** Where the parts of a printed rectangle lie. */
  lemma RectangleLayout(s: string, k: nat, ns: seq<Number>) returns (close: nat)
    requires |ns| == 4 && StartsWithAt(s, k, "[" + NumbersText(ns) + "]")
    ensures close == k + 1 + |NumbersText(ns)| && close < |s|
    ensures k + |"[" + NumbersText(ns) + "]"| == close + 1
    ensures s[k] == '[' && StartsWithAt(s, k + 1, NumbersText(ns)) && s[close] == ']'
  {
    StartsWithSplit(s, k, "[" + NumbersText(ns), "]");
    StartsWithSplit(s, k, "[", NumbersText(ns));
    StartsWithChar(s, k, "[", 0);
    close := k + 1 + |NumbersText(ns)|;
    StartsWithChar(s, close, "]", 0);
  }

  /** A printed rectangle is read back as that rectangle. */
  lemma RectanglePrinted(s: string, k: nat, x: Number, y: Number, width: Number, height: Number) returns (end: nat)
    requires StartsWithAt(s, k, Print(Rect(x, y, width, height)))
    ensures end == k + |Print(Rect(x, y, width, height))|
    ensures RectangleExpr(s, k) == Ok((Rectangle(x, y, width, height), end))
  {
    hide ShapeExpr, Operand, Bracketed, RectangleExpr, VariableExpr, NumbersAt, ReadNumberAt, ReadColorAt, ReadVariableAt, Match, SkipSpaces, RunEnd;
    var ns := [x, y, width, height];
    var close := RectangleLayout(s, k, ns);
    CharToken(s, k, '[');
    NumbersPrinted(s, k + 1, ns, close);
    CharToken(s, close, ']');
    RectangleSteps(s, k, ns, close);
    end := close + 1;
  }

  /** After an expression: the name (if one ends it) stops, and no operator follows the blanks. */
  predicate ExprEnds(s: string, j: nat)
  {
    j <= |s| &&
    (j == |s| || !IsLetterOrDigit(s[j])) &&
    (SkipSpaces(s, j) == |s| || !IsOperator(s[SkipSpaces(s, j)]))
  }

  /** A character that closes an expression: not part of a name, not blank, not an operator. */
  lemma ExprEndsAt(s: string, j: nat)
    requires j < |s| && !IsLetterOrDigit(s[j]) && !IsBlank(s[j]) && !IsOperator(s[j])
    ensures ExprEnds(s, j) && SkipSpaces(s, j) == j
  {
    NoBlanksAt(s, j);
  }

  /** A printed expression starts with '[', '(' or a letter, so no blank is skipped before it. */
  lemma FirstNotBlank(e: Expr, env: Environment, s: string, k: nat)
    requires WellFormed(e, env) && StartsWithAt(s, k, Print(e))
    ensures k < |s| && (s[k] == '[' || s[k] == '(' || IsLetter(s[k]))
    ensures SkipSpaces(s, k) == k
  {
    PrintStart(e, env);
    StartsWithChar(s, k, Print(e), 0);
    NoBlanksAt(s, k);
  }

  /** `evaluateShapeExpression` when no operator follows the first operand. */
  lemma ShapeExprLast(s: string, env: Environment, i: nat, k: nat, v: Shape, vEnd: nat, m: nat)
    requires i <= |s| && k == SkipSpaces(s, i) && k < |s|
    requires Operand(s, env, k) == Ok((v, vEnd)) && m == SkipSpaces(s, vEnd)
    requires m == |s| || !IsOperator(s[m])
    ensures ShapeExpr(s, env, i) == Ok((v, m))
  {
    hide Operand, Bracketed, RectangleExpr, VariableExpr, NumbersAt, ReadNumberAt, ReadColorAt, ReadVariableAt, Match, SkipSpaces, RunEnd;
  }

  /** `evaluateShapeExpression` when an operator follows the first operand. */
  lemma ShapeExprOperator(s: string, env: Environment, i: nat, k: nat, v: Shape, vEnd: nat, m: nat, w: Shape, wEnd: nat)
    requires i <= |s| && k == SkipSpaces(s, i) && k < |s|
    requires Operand(s, env, k) == Ok((v, vEnd)) && m == SkipSpaces(s, vEnd)
    requires m < |s| && IsOperator(s[m])
    requires ShapeExpr(s, env, m + 1) == Ok((w, wEnd))
    ensures ShapeExpr(s, env, i) == Ok((CompoundShape(v, w, s[m]), wEnd))
  {
    hide Operand, Bracketed, RectangleExpr, VariableExpr, NumbersAt, ReadNumberAt, ReadColorAt, ReadVariableAt, Match, SkipSpaces, RunEnd;
  }

  /** `evaluateBracketedExpression` over '(' expression ')'. */
  lemma BracketedSteps(s: string, env: Environment, k: nat, inner: Shape, innerEnd: nat)
    requires k < |s| && s[k] == '('
    requires ShapeExpr(s, env, k + 1) == Ok((inner, innerEnd))
    requires innerEnd < |s| && s[innerEnd] == ')'
    ensures Operand(s, env, k) == Ok((inner, innerEnd + 1))
  {
    hide ShapeExpr, RectangleExpr, VariableExpr, NumbersAt, ReadNumberAt, ReadColorAt, ReadVariableAt, Match, SkipSpaces, RunEnd;
    CharToken(s, k, '(');
    CharToken(s, innerEnd, ')');
  }

  /** `evaluateRectangleExpression` is chosen at a '['. */
  lemma RectangleChosen(s: string, env: Environment, k: nat, r: Shape, e: nat)
    requires k < |s| && s[k] == '[' && RectangleExpr(s, k) == Ok((r, e))
    ensures Operand(s, env, k) == Ok((r, e))
  {
    hide ShapeExpr, Bracketed, RectangleExpr, VariableExpr, NumbersAt, ReadNumberAt, ReadColorAt, ReadVariableAt, Match, SkipSpaces, RunEnd;
  }

  /** `evaluateVariableExpression` over a bound name. */
  lemma VariableSteps(s: string, env: Environment, k: nat, name: string)
    requires IsName(name) && name in env && StartsWithAt(s, k, name)
    requires k + |name| == |s| || !IsLetterOrDigit(s[k + |name|])
    ensures Operand(s, env, k) == Ok((env[name], k + |name|))
  {
    hide ShapeExpr, Bracketed, RectangleExpr, NumbersAt, ReadNumberAt, ReadColorAt, ReadVariableAt, Match, SkipSpaces, RunEnd;
    StartsWithChar(s, k, name, 0);
    NameRead(s, k, name);
  }

  /** `readVariable()` over a name that stands at the cursor. */
  lemma NameRead(s: string, k: nat, name: string)
    requires IsName(name) && StartsWithAt(s, k, name)
    requires k + |name| == |s| || !IsLetterOrDigit(s[k + |name|])
    ensures ReadVariableAt(s, k) == Ok((name, k + |name|))
  {
    StartsWithChar(s, k, name, 0);
    RunOver(s, k, name, NameChars);
    assert s[k..k + |name|] == name;
  }

  /** Where the parts of a printed operator expression lie. */
  lemma OpLayout(s: string, k: nat, left: Expr, operator: char, right: Expr) returns (m: nat, after: nat)
    requires StartsWithAt(s, k, Print(Op(left, operator, right)))
    ensures m == k + |Print(left)| && m < |s| && after == m + 1 + |Print(right)|
    ensures after == k + |Print(Op(left, operator, right))|
    ensures StartsWithAt(s, k, Print(left)) && s[m] == operator && StartsWithAt(s, m + 1, Print(right))
  {
    assert Print(Op(left, operator, right)) == Print(left) + [operator] + Print(right);
    hide StartsWithAt, Print;
    StartsWithSplit(s, k, Print(left) + [operator], Print(right));
    StartsWithSplit(s, k, Print(left), [operator]);
    m := k + |Print(left)|;
    after := m + 1 + |Print(right)|;
    StartsWithChar(s, m, [operator], 0);
  }

  /** Where the parts of a printed bracketed expression lie. */
  lemma ParenLayout(s: string, k: nat, inner: Expr) returns (close: nat)
    requires StartsWithAt(s, k, Print(Paren(inner)))
    ensures close == k + 1 + |Print(inner)| && close < |s|
    ensures k + |Print(Paren(inner))| == close + 1
    ensures s[k] == '(' && StartsWithAt(s, k + 1, Print(inner)) && s[close] == ')'
  {
    StartsWithSplit(s, k, "(" + Print(inner), ")");
    StartsWithSplit(s, k, "(", Print(inner));
    StartsWithChar(s, k, "(", 0);
    close := k + 1 + |Print(inner)|;
    StartsWithChar(s, close, ")", 0);
  }

  /**
   * A printed well-formed expression, after any blanks, is read back as the
   * shape it stands for, and the cursor ends past it and the blanks after it.
   */
  lemma {:induction false} ParsePrinted(e: Expr, env: Environment, s: string, i: nat, k: nat) returns (j: nat)
    requires WellFormed(e, env) && i <= |s| && k == SkipSpaces(s, i)
    requires StartsWithAt(s, k, Print(e)) && ExprEnds(s, k + |Print(e)|)
    ensures j == SkipSpaces(s, k + |Print(e)|)
    ensures ShapeExpr(s, env, i) == Ok((Eval(e, env), j))
    decreases e, 2
  {
    hide ShapeExpr, Operand, Bracketed, RectangleExpr, VariableExpr, NumbersAt, ReadNumberAt, ReadColorAt, ReadVariableAt, Match, SkipSpaces, RunEnd;
    match e
    case Op(left, operator, right) =>
      var m, after := OpLayout(s, k, left, operator, right);
      j := OperationPrinted(left, operator, right, env, s, i, k, m, after);
    case _ =>
      var after := k + |Print(e)|;
      FirstNotBlank(e, env, s, k);
      OperandPrinted(e, env, s, k, after);
      j := SkipSpaces(s, after);
      ShapeExprLast(s, env, i, k, Eval(e, env), after, j);
  }

  /** The operator case of `ParsePrinted`: the left operand, the operator, then the rest. */
  lemma {:induction false} OperationPrinted(left: Expr, operator: char, right: Expr, env: Environment, s: string,
                                            i: nat, k: nat, m: nat, after: nat)
    returns (j: nat)
    requires WellFormed(left, env) && WellFormed(right, env) && !left.Op? && IsOperator(operator)
    requires i <= |s| && k == SkipSpaces(s, i)
    requires m == k + |Print(left)| && after == m + 1 + |Print(right)|
    requires StartsWithAt(s, k, Print(left)) && m < |s| && s[m] == operator
    requires StartsWithAt(s, m + 1, Print(right)) && ExprEnds(s, after)
    ensures j == SkipSpaces(s, after)
    ensures ShapeExpr(s, env, i) == Ok((CompoundShape(Eval(left, env), Eval(right, env), operator), j))
    decreases Op(left, operator, right), 1
  {
    hide ShapeExpr, Operand, Bracketed, RectangleExpr, VariableExpr, NumbersAt, ReadNumberAt, ReadColorAt, ReadVariableAt, Match, SkipSpaces, RunEnd;
    FirstNotBlank(left, env, s, k);
    OperandPrinted(left, env, s, k, m);
    j := RightPrinted(right, env, s, m, after);
    ShapeExprOperator(s, env, i, k, Eval(left, env), m, m, Eval(right, env), j);
  }

  /** What follows the operator of a printed operator expression is read back. */
  lemma {:induction false} RightPrinted(right: Expr, env: Environment, s: string, m: nat, after: nat) returns (j: nat)
    requires WellFormed(right, env) && m < |s| && IsOperator(s[m])
    requires after == m + 1 + |Print(right)| && StartsWithAt(s, m + 1, Print(right)) && ExprEnds(s, after)
    ensures SkipSpaces(s, m) == m
    ensures j == SkipSpaces(s, after)
    ensures ShapeExpr(s, env, m + 1) == Ok((Eval(right, env), j))
    decreases right, 3
  {
    hide ShapeExpr, Operand, Bracketed, RectangleExpr, VariableExpr, NumbersAt, ReadNumberAt, ReadColorAt, ReadVariableAt, Match, SkipSpaces, RunEnd;
    NoBlanksAt(s, m);
    FirstNotBlank(right, env, s, m + 1);
    j := ParsePrinted(right, env, s, m + 1, m + 1);
  }

  /** A printed operand (not an operator expression) is read back by the lookahead dispatch. */
  lemma {:induction false} OperandPrinted(e: Expr, env: Environment, s: string, k: nat, after: nat)
    requires WellFormed(e, env) && !e.Op?
    requires StartsWithAt(s, k, Print(e)) && after == k + |Print(e)|
    requires after == |s| || !IsLetterOrDigit(s[after])
    ensures k < |s|
    ensures Operand(s, env, k) == Ok((Eval(e, env), after))
    decreases e, 1
  {
    hide ShapeExpr, Operand, Bracketed, RectangleExpr, VariableExpr, NumbersAt, ReadNumberAt, ReadColorAt, ReadVariableAt, Match, SkipSpaces, RunEnd;
    if e.Rect? {
      RectOperandPrinted(e, env, s, k, after);
    } else if e.Var? {
      VarOperandPrinted(e, env, s, k, after);
    } else {
      ParenOperandPrinted(e, env, s, k, after);
    }
  }

  lemma RectOperandPrinted(e: Expr, env: Environment, s: string, k: nat, after: nat)
    requires e.Rect? && WellFormed(e, env)
    requires StartsWithAt(s, k, Print(e)) && after == k + |Print(e)|
    ensures k < |s|
    ensures Operand(s, env, k) == Ok((Eval(e, env), after))
  {
    hide ShapeExpr, Operand, Bracketed, RectangleExpr, VariableExpr, NumbersAt, ReadNumberAt, ReadColorAt, ReadVariableAt, Match, SkipSpaces, RunEnd;
    var end := RectanglePrinted(s, k, e.x, e.y, e.width, e.height);
    RectangleChosen(s, env, k, Rectangle(e.x, e.y, e.width, e.height), end);
  }

  lemma VarOperandPrinted(e: Expr, env: Environment, s: string, k: nat, after: nat)
    requires e.Var? && WellFormed(e, env)
    requires StartsWithAt(s, k, Print(e)) && after == k + |Print(e)|
    requires after == |s| || !IsLetterOrDigit(s[after])
    ensures k < |s|
    ensures Operand(s, env, k) == Ok((Eval(e, env), after))
  {
    hide ShapeExpr, Operand, Bracketed, RectangleExpr, VariableExpr, NumbersAt, ReadNumberAt, ReadColorAt, ReadVariableAt, Match, SkipSpaces, RunEnd;
    StartsWithChar(s, k, e.name, 0);
    VariableSteps(s, env, k, e.name);
  }

  lemma {:induction false} ParenOperandPrinted(e: Expr, env: Environment, s: string, k: nat, after: nat)
    requires e.Paren? && WellFormed(e, env)
    requires StartsWithAt(s, k, Print(e)) && after == k + |Print(e)|
    ensures k < |s|
    ensures Operand(s, env, k) == Ok((Eval(e, env), after))
    decreases e, 0
  {
    hide ShapeExpr, Operand, Bracketed, RectangleExpr, VariableExpr, NumbersAt, ReadNumberAt, ReadColorAt, ReadVariableAt, Match, SkipSpaces, RunEnd;
    var close := ParenLayout(s, k, e.inner);
    ParenPrinted(e.inner, env, s, k, close);
  }

  /** A printed bracketed expression is read back as the expression inside. */
  lemma {:induction false} ParenPrinted(inner: Expr, env: Environment, s: string, k: nat, close: nat)
    requires WellFormed(inner, env) && k < |s| && s[k] == '('
    requires StartsWithAt(s, k + 1, Print(inner)) && close == k + 1 + |Print(inner)|
    requires close < |s| && s[close] == ')'
    ensures Operand(s, env, k) == Ok((Eval(inner, env), close + 1))
    decreases inner, 3
  {
    hide ShapeExpr, Operand, Bracketed, RectangleExpr, VariableExpr, NumbersAt, ReadNumberAt, ReadColorAt, ReadVariableAt, Match, SkipSpaces, RunEnd;
    FirstNotBlank(inner, env, s, k + 1);
    ExprEndsAt(s, close);
    var innerEnd := ParsePrinted(inner, env, s, k + 1, k + 1);
    BracketedSteps(s, env, k, Eval(inner, env), innerEnd);
  }

  /** The text of `x+y-z`, as an operator expression whose right operand is `y-z`. */
  lemma GroupRightText(x: string, first: char, y: string, second: char, z: string)
    ensures Print(Op(Var(x), first, Op(Var(y), second, Var(z)))) == x + [first] + y + [second] + z
  {
    assert Print(Op(Var(y), second, Var(z))) == y + [second] + z;
    assert x + [first] + y + [second] + z == x + [first] + (y + [second] + z);
  }

  /** What `x+y-z` means when it is read with `y-z` as the right operand. */
  lemma GroupRightMeaning(env: Environment, x: string, first: char, y: string, second: char, z: string)
    requires IsName(x) && IsName(y) && IsName(z) && x in env && y in env && z in env
    requires IsOperator(first) && IsOperator(second)
    ensures WellFormed(Op(Var(x), first, Op(Var(y), second, Var(z))), env)
    ensures Eval(Op(Var(x), first, Op(Var(y), second, Var(z))), env) ==
              CompoundShape(env[x], CompoundShape(env[y], env[z], second), first)
  {
    hide IsName, IsOperator;
    assert WellFormed(Var(y), env) && WellFormed(Var(z), env);
    assert WellFormed(Op(Var(y), second, Var(z)), env);
    assert Eval(Op(Var(y), second, Var(z)), env) == CompoundShape(env[y], env[z], second);
  }

  /** A whole text starts at 0, and nothing follows it. */
  lemma WholeText(s: string)
    ensures StartsWithAt(s, 0, s) && ExprEnds(s, |s|)
  {
    assert s[0..|s|] == s;
  }

  /** The whole printed text of a well-formed expression is read back as its meaning. */
  lemma ExpressionPrinted(e: Expr, env: Environment, s: string)
    requires WellFormed(e, env) && Print(e) == s
    ensures ShapeExpr(s, env, 0) == Ok((Eval(e, env), |s|))
  {
    hide ShapeExpr, Operand, Bracketed, RectangleExpr, VariableExpr, NumbersAt, ReadNumberAt, ReadColorAt, ReadVariableAt, Match, SkipSpaces, RunEnd;
    WholeText(s);
    FirstNotBlank(e, env, s, 0);
    var j := ParsePrinted(e, env, s, 0, 0);
  }

  /**
   * Operators have no precedence and group to the right: `x+y-z` is read as
   * `x + (y - z)`.
   */
  lemma OperatorsGroupRight(env: Environment, x: string, y: string, z: string, first: char, second: char, s: string)
    requires IsName(x) && IsName(y) && IsName(z) && x in env && y in env && z in env
    requires IsOperator(first) && IsOperator(second) && s == x + [first] + y + [second] + z
    ensures ShapeExpr(s, env, 0) == Ok((CompoundShape(env[x], CompoundShape(env[y], env[z], second), first), |s|))
  {
    hide *;
    GroupRightText(x, first, y, second, z);
    GroupRightMeaning(env, x, first, y, second, z);
    ExpressionPrinted(Op(Var(x), first, Op(Var(y), second, Var(z))), env, s);
  }

  /** A command as written. */
  datatype Command =
    | FillCommand(shape: Expr, color: string)
    | DrawCommand(shape: Expr, color: string)
    | AssignCommand(name: string, value: Expr)

  /** The text of a color: '#' and six more characters. */
  predicate IsColorText(color: string)
  {
    |color| == 7 && color[0] == '#'
  }

  predicate CommandWellFormed(c: Command, env: Environment)
  {
    match c
    case FillCommand(shape, color) => WellFormed(shape, env) && IsColorText(color)
    case DrawCommand(shape, color) => WellFormed(shape, env) && IsColorText(color)
    case AssignCommand(name, value) => IsName(name) && name != "fill" && name != "draw" && WellFormed(value, env)
  }

  /** A "fill" or "draw" line: the word, a blank, the shape, a blank, the color. */
  function PaintText(word: string, shape: Expr, color: string): string
  {
    word + " " + Print(shape) + " " + color + "\n"
  }

  /** An assignment line: the name, " = ", the shape. */
  function AssignText(name: string, value: Expr): string
  {
    name + " = " + Print(value) + "\n"
  }

  function PrintCommand(c: Command): string
  {
    match c
    case FillCommand(shape, color) => PaintText("fill", shape, color)
    case DrawCommand(shape, color) => PaintText("draw", shape, color)
    case AssignCommand(name, value) => AssignText(name, value)
  }

  function EffectOf(c: Command, env: Environment): Effect
    requires CommandWellFormed(c, env)
  {
    match c
    case FillCommand(shape, color) => Fill(Eval(shape, env), Color(color))
    case DrawCommand(shape, color) => Draw(Eval(shape, env), Color(color))
    case AssignCommand(name, value) => Assign(name, Eval(value, env))
  }

  /** What comes after a command: the end of the text or the next command's first letter. */
  predicate CommandEnds(s: string, j: nat)
  {
    j == |s| || (j < |s| && IsLetter(s[j]))
  }

  /** One blank, then something that is not blank: the cursor moves past the blank only. */
  lemma OneBlank(s: string, j: nat)
    requires j < |s| && IsBlank(s[j]) && (j + 1 == |s| || !IsBlank(s[j + 1]))
    ensures SkipSpaces(s, j) == j + 1
  {
    if j + 1 < |s| {
      NoBlanksAt(s, j + 1);
    }
  }

  /** The line break that ends a command is skipped, up to the next command. */
  lemma LineEnd(s: string, j: nat)
    requires j < |s| && s[j] == '\n' && CommandEnds(s, j + 1)
    ensures SkipSpaces(s, j) == j + 1
  {
    OneBlank(s, j);
  }

  /** The first word of a command, followed by a blank, is read where it stands. */
  lemma WordAt(s: string, i: nat, word: string)
    requires IsName(word) && StartsWithAt(s, i, word)
    requires i + |word| < |s| && IsBlank(s[i + |word|])
    ensures SkipSpaces(s, i) == i
    ensures ReadVariableAt(s, i) == Ok((word, i + |word|))
  {
    StartsWithChar(s, i, word, 0);
    NoBlanksAt(s, i);
    NameRead(s, i, word);
  }

  /** `readColor()` over the seven characters of a printed color. */
  lemma ColorRead(s: string, c: nat, color: string)
    requires IsColorText(color) && StartsWithAt(s, c, color)
    ensures ReadColorAt(s, c) == Ok((Color(color), c + 7))
  {
    StartsWithChar(s, c, color, 0);
    NoBlanksAt(s, c);
  }

  /** `ShapeAndColor` when the shape expression and the color are each read. */
  lemma ShapeAndColorSteps(s: string, env: Environment, b: nat, v: Shape, vEnd: nat, c: Color, cEnd: nat)
    requires b <= |s| && ShapeExpr(s, env, b) == Ok((v, vEnd)) && ReadColorAt(s, vEnd) == Ok((c, cEnd))
    ensures ShapeAndColor(s, env, b) == Ok((v, c, cEnd))
  {
    hide ShapeExpr, Operand, Bracketed, RectangleExpr, VariableExpr, NumbersAt, ReadNumberAt, ReadColorAt, ReadVariableAt, Match, SkipSpaces, RunEnd, CommandOf, ProgramOf;
  }

  /** A printed shape, one blank and a printed color are read back. */
  lemma ShapeThenColor(shape: Expr, env: Environment, s: string, b: nat, close: nat, color: string)
    requires WellFormed(shape, env) && IsColorText(color)
    requires StartsWithAt(s, b, Print(shape)) && close == b + |Print(shape)|
    requires close < |s| && s[close] == ' ' && StartsWithAt(s, close + 1, color)
    ensures ShapeAndColor(s, env, b) == Ok((Eval(shape, env), Color(color), close + 8))
  {
    hide ShapeExpr, Operand, Bracketed, RectangleExpr, VariableExpr, NumbersAt, ReadNumberAt, ReadColorAt, ReadVariableAt, Match, SkipSpaces, RunEnd, ShapeAndColor, CommandOf, ProgramOf;
    FirstNotBlank(shape, env, s, b);
    StartsWithChar(s, close + 1, color, 0);
    OneBlank(s, close);
    var vEnd := ParsePrinted(shape, env, s, b, b);
    ColorRead(s, close + 1, color);
    ShapeAndColorSteps(s, env, b, Eval(shape, env), vEnd, Color(color), close + 8);
  }

  /** `evaluateNextCommand` for "fill" and "draw" when each of its reads succeeds. */
  lemma PaintSteps(s: string, env: Environment, i: nat, k: nat, word: string, wEnd: nat, b: nat,
                   v: Shape, c: Color, cEnd: nat, end: nat)
    requires i <= |s| && k == SkipSpaces(s, i) && (word == "fill" || word == "draw")
    requires ReadVariableAt(s, k) == Ok((word, wEnd)) && b == SkipSpaces(s, wEnd)
    requires ShapeAndColor(s, env, b) == Ok((v, c, cEnd)) && end == SkipSpaces(s, cEnd)
    ensures CommandOf(s, env, i) == Ok((if word == "fill" then Fill(v, c) else Draw(v, c), end))
  {
    hide ShapeExpr, Operand, Bracketed, RectangleExpr, VariableExpr, NumbersAt, ReadNumberAt, ReadColorAt, ReadVariableAt, Match, SkipSpaces, RunEnd, ShapeAndColor, ProgramOf;
  }

  /** `evaluateNextCommand` for an assignment when each of its reads succeeds. */
  lemma AssignSteps(s: string, env: Environment, i: nat, k: nat, name: string, wEnd: nat, b: nat,
                    eq: nat, v: Shape, vEnd: nat, end: nat)
    requires i <= |s| && k == SkipSpaces(s, i) && name != "fill" && name != "draw"
    requires ReadVariableAt(s, k) == Ok((name, wEnd)) && b == SkipSpaces(s, wEnd)
    requires Match(s, b, "=") == Ok(eq) && ShapeExpr(s, env, eq) == Ok((v, vEnd)) && end == SkipSpaces(s, vEnd)
    ensures CommandOf(s, env, i) == Ok((Assign(name, v), end))
  {
    hide ShapeExpr, Operand, Bracketed, RectangleExpr, VariableExpr, NumbersAt, ReadNumberAt, ReadColorAt, ReadVariableAt, Match, SkipSpaces, RunEnd, ShapeAndColor, ProgramOf;
  }

  /** Where the parts of a printed "fill" or "draw" command lie. */
  lemma PaintLayout(s: string, i: nat, word: string, shape: Expr, color: string)
    requires |word| == 4 && |color| == 7 && StartsWithAt(s, i, PaintText(word, shape, color))
    ensures i + 13 + |Print(shape)| < |s|
    ensures StartsWithAt(s, i, word) && s[i + 4] == ' ' && StartsWithAt(s, i + 5, Print(shape))
    ensures s[i + 5 + |Print(shape)|] == ' ' && StartsWithAt(s, i + 6 + |Print(shape)|, color)
    ensures s[i + 13 + |Print(shape)|] == '\n'
    ensures |PaintText(word, shape, color)| == 14 + |Print(shape)|
  {
    hide StartsWithAt, Print;
    var p := Print(shape);
    StartsWithSplit(s, i, word + " " + p + " " + color, "\n");
    StartsWithSplit(s, i, word + " " + p + " ", color);
    StartsWithSplit(s, i, word + " " + p, " ");
    StartsWithSplit(s, i, word + " ", p);
    StartsWithSplit(s, i, word, " ");
    StartsWithChar(s, i + 4, " ", 0);
    StartsWithChar(s, i + 5 + |p|, " ", 0);
    StartsWithChar(s, i + 13 + |p|, "\n", 0);
  }

  /** A printed "fill" or "draw" command is read back: the shape, then the color. */
  lemma PaintPrinted(word: string, shape: Expr, color: string, env: Environment, s: string, i: nat)
    requires word == "fill" || word == "draw"
    requires WellFormed(shape, env) && IsColorText(color)
    requires StartsWithAt(s, i, PaintText(word, shape, color))
    requires CommandEnds(s, i + |PaintText(word, shape, color)|)
    ensures var v, c := Eval(shape, env), Color(color);
            CommandOf(s, env, i) == Ok((if word == "fill" then Fill(v, c) else Draw(v, c), i + |PaintText(word, shape, color)|))
  {
    hide ShapeExpr, Operand, Bracketed, RectangleExpr, VariableExpr, NumbersAt, ReadNumberAt, ReadColorAt, ReadVariableAt, Match, SkipSpaces, RunEnd, ShapeAndColor, CommandOf, ProgramOf, Print, Eval, WellFormed, PaintText, StartsWithAt, ExprEnds;
    PaintLayout(s, i, word, shape, color);
    WordAt(s, i, word);
    var b := i + 5;
    FirstNotBlank(shape, env, s, b);
    OneBlank(s, i + 4);
    var close := b + |Print(shape)|;
    ShapeThenColor(shape, env, s, b, close, color);
    LineEnd(s, close + 8);
    PaintSteps(s, env, i, i, word, i + 4, b, Eval(shape, env), Color(color), close + 8, close + 9);
  }

  /** Where the parts of a printed assignment lie. */
  lemma AssignLayout(s: string, i: nat, name: string, value: Expr)
    requires StartsWithAt(s, i, AssignText(name, value))
    ensures i + |name| + 3 + |Print(value)| < |s|
    ensures StartsWithAt(s, i, name) && s[i + |name|] == ' ' && s[i + |name| + 1] == '=' && s[i + |name| + 2] == ' '
    ensures StartsWithAt(s, i + |name| + 3, Print(value)) && s[i + |name| + 3 + |Print(value)|] == '\n'
    ensures |AssignText(name, value)| == |name| + 4 + |Print(value)|
  {
    hide StartsWithAt, Print;
    var p := Print(value);
    StartsWithSplit(s, i, name + " = " + p, "\n");
    StartsWithSplit(s, i, name + " = ", p);
    StartsWithSplit(s, i, name, " = ");
    StartsWithChar(s, i + |name|, " = ", 0);
    StartsWithChar(s, i + |name|, " = ", 1);
    StartsWithChar(s, i + |name|, " = ", 2);
    StartsWithChar(s, i + |name| + 3 + |p|, "\n", 0);
  }

  /** One blank, then a printed shape that ends its line, is read back up to the next command. */
  lemma ValuePrinted(value: Expr, env: Environment, s: string, eq: nat, close: nat)
    requires WellFormed(value, env) && eq < |s| && s[eq] == ' '
    requires StartsWithAt(s, eq + 1, Print(value)) && close == eq + 1 + |Print(value)|
    requires close < |s| && s[close] == '\n' && CommandEnds(s, close + 1)
    ensures ShapeExpr(s, env, eq) == Ok((Eval(value, env), close + 1))
    ensures SkipSpaces(s, close + 1) == close + 1
  {
    hide ShapeExpr, Operand, Bracketed, RectangleExpr, VariableExpr, NumbersAt, ReadNumberAt, ReadColorAt, ReadVariableAt, Match, SkipSpaces, RunEnd, ShapeAndColor, CommandOf, ProgramOf;
    FirstNotBlank(value, env, s, eq + 1);
    OneBlank(s, eq);
    LineEnd(s, close);
    var vEnd := ParsePrinted(value, env, s, eq, eq + 1);
    if close + 1 < |s| {
      NoBlanksAt(s, close + 1);
    }
  }

  /** A printed assignment is read back: the name, '=', then the shape. */
  lemma AssignPrinted(name: string, value: Expr, env: Environment, s: string, i: nat)
    requires IsName(name) && name != "fill" && name != "draw" && WellFormed(value, env)
    requires StartsWithAt(s, i, AssignText(name, value))
    requires CommandEnds(s, i + |AssignText(name, value)|)
    ensures CommandOf(s, env, i) == Ok((Assign(name, Eval(value, env)), i + |AssignText(name, value)|))
  {
    hide ShapeExpr, Operand, Bracketed, RectangleExpr, VariableExpr, NumbersAt, ReadNumberAt, ReadColorAt, ReadVariableAt, Match, SkipSpaces, RunEnd, ShapeAndColor, CommandOf, ProgramOf, Print, Eval, WellFormed, AssignText, StartsWithAt, ExprEnds;
    var n := |name|;
    AssignLayout(s, i, name, value);
    WordAt(s, i, name);
    OneBlank(s, i + n);
    CharToken(s, i + n + 1, '=');
    var close := i + n + 3 + |Print(value)|;
    ValuePrinted(value, env, s, i + n + 2, close);
    AssignSteps(s, env, i, i, name, i + n, i + n + 1, i + n + 2, Eval(value, env), close + 1, close + 1);
  }

  /** A printed well-formed command is read back as its effect, up to the next command. */
  lemma CommandPrinted(c: Command, env: Environment, s: string, i: nat)
    requires CommandWellFormed(c, env)
    requires StartsWithAt(s, i, PrintCommand(c)) && CommandEnds(s, i + |PrintCommand(c)|)
    ensures CommandOf(s, env, i) == Ok((EffectOf(c, env), i + |PrintCommand(c)|))
  {
    hide ShapeExpr, Operand, Bracketed, RectangleExpr, VariableExpr, NumbersAt, ReadNumberAt, ReadColorAt, ReadVariableAt, Match, SkipSpaces, RunEnd, ShapeAndColor, CommandOf, ProgramOf;
    match c
    case FillCommand(shape, color) =>
      PaintPrinted("fill", shape, color, env, s, i);
    case DrawCommand(shape, color) =>
      PaintPrinted("draw", shape, color, env, s, i);
    case AssignCommand(name, value) =>
      AssignPrinted(name, value, env, s, i);
  }

  function PrintProgram(cs: seq<Command>): string
  {
    if cs == [] then "" else PrintCommand(cs[0]) + PrintProgram(cs[1..])
  }

  /** Every command is well formed over the variables assigned before it. */
  predicate ProgramWellFormed(cs: seq<Command>, env: Environment)
  {
    cs == [] || (CommandWellFormed(cs[0], env) && ProgramWellFormed(cs[1..], Bind(EffectOf(cs[0], env), env)))
  }

  /** What a program draws, command by command, without any text. */
  function Exec(cs: seq<Command>, env: Environment, canvas: seq<Pixel>, ops: ShapeOps): seq<Pixel>
    requires ProgramWellFormed(cs, env)
  {
    if cs == [] then canvas
    else
      var effect := EffectOf(cs[0], env);
      Exec(cs[1..], Bind(effect, env), canvas + Painted(effect, ops), ops)
  }

  /** A printed program that is not empty starts with a letter. */
  lemma ProgramStart(cs: seq<Command>, env: Environment)
    requires cs != [] && ProgramWellFormed(cs, env)
    ensures |PrintProgram(cs)| > 0 && IsLetter(PrintProgram(cs)[0])
  {
    assert PrintProgram(cs)[0] == PrintCommand(cs[0])[0];
  }

  /** `run()` stops at the end of the input. */
  lemma ProgramDone(s: string, env: Environment, canvas: seq<Pixel>, ops: ShapeOps)
    ensures ProgramOf(s, env, canvas, |s|, ops) == Ok(canvas)
  {
    hide ShapeExpr, Operand, Bracketed, RectangleExpr, VariableExpr, NumbersAt, ReadNumberAt, ReadColorAt, ReadVariableAt, Match, SkipSpaces, RunEnd, ShapeAndColor, CommandOf;
  }

  /** `run()` after one command has been read. */
  lemma ProgramSteps(s: string, env: Environment, canvas: seq<Pixel>, i: nat, ops: ShapeOps, effect: Effect, j: nat)
    requires i < |s| && CommandOf(s, env, i) == Ok((effect, j))
    ensures ProgramOf(s, env, canvas, i, ops) == ProgramOf(s, Bind(effect, env), canvas + Painted(effect, ops), j, ops)
  {
    hide ShapeExpr, Operand, Bracketed, RectangleExpr, VariableExpr, NumbersAt, ReadNumberAt, ReadColorAt, ReadVariableAt, Match, SkipSpaces, RunEnd, ShapeAndColor, CommandOf;
  }

  /** The printed text of a well-formed program, from its first command, runs to what `Exec` describes. */
  lemma {:induction false} ProgramPrinted(cs: seq<Command>, env: Environment, canvas: seq<Pixel>, ops: ShapeOps, s: string, i: nat)
    requires ProgramWellFormed(cs, env)
    requires StartsWithAt(s, i, PrintProgram(cs)) && i + |PrintProgram(cs)| == |s|
    ensures ProgramOf(s, env, canvas, i, ops) == Ok(Exec(cs, env, canvas, ops))
    decreases |cs|
  {
    hide ShapeExpr, Operand, Bracketed, RectangleExpr, VariableExpr, NumbersAt, ReadNumberAt, ReadColorAt, ReadVariableAt, Match, SkipSpaces, RunEnd, ShapeAndColor, CommandOf, ProgramOf, PrintCommand, EffectOf, Print, Eval, WellFormed, CommandWellFormed, Bind, Painted;
    if cs == [] {
      ProgramDone(s, env, canvas, ops);
    } else {
      var c := cs[0];
      var effect := EffectOf(c, env);
      var rest := PrintProgram(cs[1..]);
      StartsWithSplit(s, i, PrintCommand(c), rest);
      var j := i + |PrintCommand(c)|;
      if cs[1..] != [] {
        ProgramStart(cs[1..], Bind(effect, env));
        StartsWithChar(s, j, rest, 0);
      }
      CommandPrinted(c, env, s, i);
      ProgramSteps(s, env, canvas, i, ops, effect, j);
      ProgramPrinted(cs[1..], Bind(effect, env), canvas + Painted(effect, ops), ops, s, j);
    }
  }

  /**
   * Running the printed text of a well-formed program, from the start with no
   * variables and an empty canvas, draws what the program means.
   */
  lemma RunPrinted(cs: seq<Command>, ops: ShapeOps)
    requires ProgramWellFormed(cs, map[])
    ensures ProgramOf(PrintProgram(cs), map[], [], 0, ops) == Ok(Exec(cs, map[], [], ops))
  {
    hide ShapeExpr, Operand, Bracketed, RectangleExpr, VariableExpr, NumbersAt, ReadNumberAt, ReadColorAt, ReadVariableAt, Match, SkipSpaces, RunEnd, ShapeAndColor, CommandOf, ProgramOf;
    var s := PrintProgram(cs);
    assert s[0..|s|] == s;
    ProgramPrinted(cs, map[], [], ops, s, 0);
  }
}
