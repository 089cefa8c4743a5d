/**
 * Java's `String.split` with a one-character separator that is not a
 * regular-expression metacharacter (here ',' and ':'): cut at every
 * occurrence, then drop trailing empty pieces; a string with no occurrence
 * is returned whole.
 */
module JavaSplit {

  /** The index of the first `c` in `s`, or `|s|` when there is none. */
  function IndexOf(s: string, c: char): (k: nat)
    ensures k <= |s|
    ensures k < |s| ==> s[k] == c
    ensures forall j :: 0 <= j < k ==> s[j] != c
    ensures k == |s| <==> c !in s
  {
    if s == [] || s[0] == c then 0 else 1 + IndexOf(s[1..], c)
  }

  /** Every piece between occurrences of `c`, empty ones included. */
  function SplitAll(s: string, c: char): (pieces: seq<string>)
    ensures |pieces| >= 1
    ensures forall k :: 0 <= k < |pieces| ==> c !in pieces[k]
    decreases |s|
  {
    var k := IndexOf(s, c);
    if k == |s| then [s] else [s[..k]] + SplitAll(s[k + 1..], c)
  }

  /** The pieces glued back together with `c` between them. */
  function Join(pieces: seq<string>, c: char): string
    requires |pieces| >= 1
  {
    if |pieces| == 1 then pieces[0] else pieces[0] + [c] + Join(pieces[1..], c)
  }

  /** Cutting at every `c` loses nothing: joining the pieces gives back the text. */
  lemma {:induction false} JoinSplitAll(s: string, c: char)
    ensures Join(SplitAll(s, c), c) == s
    decreases |s|
  {
    hide IndexOf;
    var k := IndexOf(s, c);
    if k < |s| {
      var rest := SplitAll(s[k + 1..], c);
      var pieces := [s[..k]] + rest;
      assert SplitAll(s, c) == pieces;
      assert pieces[1..] == rest;
      JoinSplitAll(s[k + 1..], c);
      assert Join(pieces, c) == s[..k] + [c] + s[k + 1..];
      assert s == s[..k] + [c] + s[k + 1..];
    }
  }

  /** And joining pieces that do not contain `c` and cutting again gives back the pieces. */
  lemma {:induction false} SplitAllJoin(pieces: seq<string>, c: char)
    requires |pieces| >= 1
    requires forall k :: 0 <= k < |pieces| ==> c !in pieces[k]
    ensures SplitAll(Join(pieces, c), c) == pieces
  {
    if |pieces| > 1 {
      SplitAllCons(pieces[0], c, Join(pieces[1..], c));
      SplitAllJoin(pieces[1..], c);
      assert pieces == [pieces[0]] + pieces[1..];
    }
  }

  lemma SplitAllCons(p: string, c: char, rest: string)
    requires c !in p
    ensures SplitAll(p + [c] + rest, c) == [p] + SplitAll(rest, c)
  {
    var s := p + [c] + rest;
    FirstIndexAfter(p, c, rest);
    assert s[..|p|] == p;
    assert s[|p| + 1..] == rest;
  }

  lemma FirstIndexAfter(p: string, c: char, rest: string)
    requires c !in p
    ensures IndexOf(p + [c] + rest, c) == |p|
  {
    var s := p + [c] + rest;
    assert s[|p|] == c;
    assert forall j :: 0 <= j < |p| ==> s[j] == p[j] && s[j] != c;
  }

  /** Drop the empty pieces at the end. */
  function DropTrailingEmpty(pieces: seq<string>): (r: seq<string>)
    ensures |r| <= |pieces| && r == pieces[..|r|]
    ensures r != [] ==> r[|r| - 1] != ""
    ensures forall k :: |r| <= k < |pieces| ==> pieces[k] == ""
  {
    if pieces == [] || pieces[|pieces| - 1] != "" then pieces
    else DropTrailingEmpty(pieces[..|pieces| - 1])
  }

  /** `s.split(c)`. */
  function Split(s: string, c: char): (r: seq<string>)
    ensures c !in s ==> r == [s]
    ensures c in s ==> r == DropTrailingEmpty(SplitAll(s, c))
  {
    if c !in s then [s] else DropTrailingEmpty(SplitAll(s, c))
  }

  /** `pieces` followed by `n` empty pieces. */
  function PadEmpty(pieces: seq<string>, n: nat): (r: seq<string>)
    ensures |r| == |pieces| + n && r[..|pieces|] == pieces
    ensures forall k :: |pieces| <= k < |r| ==> r[k] == ""
  {
    pieces + seq(n, _ => "")
  }

  /**
   * `split` loses only the empty pieces it drops at the end: padding its
   * result with that many empty pieces and joining gives back the text.
   */
  lemma {:induction false} SplitRoundTrip(s: string, c: char)
    ensures exists n: nat :: |Split(s, c)| + n >= 1 && Join(PadEmpty(Split(s, c), n), c) == s
  {
    if c !in s {
      assert PadEmpty(Split(s, c), 0) == [s];
    } else {
      var pieces := SplitAll(s, c);
      var r := Split(s, c);
      var n := |pieces| - |r|;
      assert PadEmpty(r, n) == pieces;
      JoinSplitAll(s, c);
    }
  }

  /** The first piece of a split is the text before the first separator. */
  lemma FirstPiece(s: string, c: char)
    ensures SplitAll(s, c)[0] == s[..IndexOf(s, c)]
  {
  }

  /** After the first separator, the pieces are those of the rest of the text. */
  lemma LaterPieces(s: string, c: char)
    requires c in s
    ensures var k := IndexOf(s, c);
      k < |s| && SplitAll(s, c)[1..] == SplitAll(s[k + 1..], c)
  {
  }
}

/**
 * The reader of a database text file
 * (implementingDatabase/io/DatabaseFileReader.java): a schema line such as
 * `id:int*,name:str`, then one row per line.  DatabaseImpl is not part of
 * this model; `read` here returns the three things it hands to it.
 */
module DatabaseReader {
  import opened Wrappers
  import opened JavaLang
  import opened JavaSplit

  datatype RowType = IntegerType | StringType

  datatype ColumnType = ColumnType(name: string, rowType: RowType)

  datatype Item = IntItem(value: Int32) | StrItem(text: string)

  /** The exceptions the reader lets escape. */
  datatype ReadError =
    | IllegalArgument(message: string)   // wrong number of items in a row
    | NumberFormat(text: string)         // Integer.parseInt refused an item
    | IndexOutOfBounds                   // a schema column without a type part
    | DuplicateKey                       // DuplicateKeyException
    | InvalidRow                         // InvalidRowException: no key column
    | NoSuchElement                      // no schema line at all

  datatype Database = Database(schema: seq<ColumnType>, keyField: nat, rows: seq<seq<Item>>)

  predicate StartsWith(s: string, prefix: string)
  {
    |prefix| <= |s| && s[..|prefix|] == prefix
  }

  /** Prefix a successful result; pass an error through. */
  function Then<T>(prefix: seq<T>, r: Result<seq<T>, ReadError>): Result<seq<T>, ReadError>
  {
    match r
    case Ok(rest) => Ok(prefix + rest)
    case Err(e) => Err(e)
  }

  lemma ThenNothing<T>(r: Result<seq<T>, ReadError>)
    ensures Then([], r) == r
  {
    if r.Ok? {
      assert [] + r.value == r.value;
    }
  }

  lemma ThenThen<T>(a: seq<T>, b: seq<T>, r: Result<seq<T>, ReadError>)
    ensures Then(a, Then(b, r)) == Then(a + b, r)
  {
    if r.Ok? {
      assert a + (b + r.value) == (a + b) + r.value;
    }
  }

  // ---------------------------------------------------------------- schema

  /** One schema column `name:type`: the name is the first ':' piece, and the type is Integer when the second starts with "int". */
  function ColumnOf(column: string): Result<ColumnType, ReadError>
  {
    var items := Split(column, ':');
    if |items| < 2 then Err(IndexOutOfBounds)
    else Ok(ColumnType(items[0], if StartsWith(items[1], "int") then IntegerType else StringType))
  }

  /** The columns in order, or the error of the first bad one. */
  function ColumnsOf(columns: seq<string>): Result<seq<ColumnType>, ReadError>
  {
    if columns == [] then Ok([])
    else
      var first :- ColumnOf(columns[0]);
      Then([first], ColumnsOf(columns[1..]))
  }

  function SchemaOf(schemaLine: string): Result<seq<ColumnType>, ReadError>
  {
    ColumnsOf(Split(schemaLine, ','))
  }

  /** One column per comma-separated entry, each parsed by `ColumnOf`, in order. */
  lemma {:induction false} SchemaHasOneColumnPerEntry(columns: seq<string>)
    requires ColumnsOf(columns).Ok?
    ensures |ColumnsOf(columns).value| == |columns|
    ensures forall k :: 0 <= k < |columns| ==>
      ColumnOf(columns[k]).Ok? && ColumnsOf(columns).value[k] == ColumnOf(columns[k]).value
  {
    if columns != [] {
      SchemaHasOneColumnPerEntry(columns[1..]);
      forall k | 0 < k < |columns| ensures columns[1..][k - 1] == columns[k] { }
    }
  }

  /**
   * A column is named by the text before its first ':', and has type Integer
   * exactly when the text after that ':' starts with "int" (so "int*" counts).
   */
  lemma ColumnNameAndType(column: string)
    requires ColumnOf(column).Ok?
    ensures var k := IndexOf(column, ':');
      k < |column| &&
      ColumnOf(column).value.name == column[..k] &&
      (ColumnOf(column).value.rowType == IntegerType <==> StartsWith(column[k + 1..], "int"))
  {
    hide SplitAll, DropTrailingEmpty, IndexOf;
    var items := Split(column, ':');
    assert |items| >= 2;
    SplitFirstTwo(column, ':');
    var rest := column[IndexOf(column, ':') + 1..];
    FirstPiece(rest, ':');
    assert items[1] == rest[..IndexOf(rest, ':')];
    StartsWithBeforeSeparator(rest, IndexOf(rest, ':'), ':');
    assert ColumnOf(column).value == ColumnType(items[0], if StartsWith(items[1], "int") then IntegerType else StringType);
  }

  /** With at least two pieces, the first is the text before the first separator and the second the first piece after it. */
  lemma SplitFirstTwo(s: string, c: char)
    requires |Split(s, c)| >= 2
    ensures var k := IndexOf(s, c);
      k < |s| && Split(s, c)[0] == s[..k] && Split(s, c)[1] == SplitAll(s[k + 1..], c)[0]
  {
    var all := SplitAll(s, c);
    assert c in s;
    assert Split(s, c) == all[..|Split(s, c)|];
    FirstPiece(s, c);
    LaterPieces(s, c);
    assert all[1] == all[1..][0];
  }

  /** "int" holds no ':', so cutting a text at a ':' does not change whether it starts with "int". */
  lemma StartsWithBeforeSeparator(rest: string, j: nat, c: char)
    requires j <= |rest| && (j < |rest| ==> rest[j] == c) && c !in "int"
    ensures StartsWith(rest[..j], "int") <==> StartsWith(rest, "int")
  {
    if j >= 3 {
      assert rest[..j][..3] == rest[..3];
    } else if j < |rest| {
      assert "int"[j] in "int";
      assert rest[j] != "int"[j];
    }
  }

  /** `parseSchema(schemaLine)`: fills the schema array one column at a time. */
  method ParseSchema(schemaLine: string) returns (r: Result<seq<ColumnType>, ReadError>)
    ensures r == SchemaOf(schemaLine)
  {
    var columns := Split(schemaLine, ',');
    var schema: seq<ColumnType> := [];
    var i := 0;
    ThenNothing(ColumnsOf(columns));
    while i != |columns|
      invariant 0 <= i <= |columns|
      invariant ColumnsOf(columns) == Then(schema, ColumnsOf(columns[i..]))
    {
      var items := Split(columns[i], ':');
      assert columns[i..][0] == columns[i] && columns[i..][1..] == columns[i + 1..];
      if |items| < 2 {
        return Err(IndexOutOfBounds);
      }
      var name := items[0];
      var rowType := if StartsWith(items[1], "int") then IntegerType else StringType;
      ThenThen(schema, [ColumnType(name, rowType)], ColumnsOf(columns[i + 1..]));
      schema := schema + [ColumnType(name, rowType)];
      i := i + 1;
    }
    assert columns[i..] == [] && schema + [] == schema;
    return Ok(schema);
  }

  // ------------------------------------------------------------------- key

  predicate EndsWithStar(column: string)
  {
    |column| > 0 && column[|column| - 1] == '*'
  }

  /** Every index in `ks` is that of a column ending with '*'. */
  predicate OnlyStars(columns: seq<string>, ks: seq<nat>)
  {
    forall j :: 0 <= j < |ks| ==> ks[j] < |columns| && EndsWithStar(columns[ks[j]])
  }

  predicate Increasing(ks: seq<nat>)
  {
    forall a, b :: 0 <= a < b < |ks| ==> ks[a] < ks[b]
  }

  /** The indices of the columns that end with '*', in increasing order. */
  function StarIndices(columns: seq<string>): (ks: seq<nat>)
    ensures OnlyStars(columns, ks) && Increasing(ks)
  {
    if columns == [] then []
    else
      var n := |columns| - 1;
      var earlier := StarIndices(columns[..n]);
      if EndsWithStar(columns[n]) then earlier + [n] else earlier
  }

  /** No star column is missed. */
  lemma {:induction false} StarIndicesComplete(columns: seq<string>, i: nat)
    requires i < |columns| && EndsWithStar(columns[i])
    ensures i in StarIndices(columns)
  {
    hide OnlyStars, Increasing;
    var n := |columns| - 1;
    if i < n {
      StarIndicesComplete(columns[..n], i);
    }
  }

  /**
   * What `findKeyField` decides from the star columns, as written: no star
   * column is an InvalidRowException; one is the key; a second one throws
   * DuplicateKeyException unless the first was at index 0 (the guard is
   * `keyField <= 0`), in which case the second silently becomes the key and
   * only a third one throws.
   */
  function KeyFieldOf(stars: seq<nat>): Result<nat, ReadError>
  {
    if |stars| == 0 then Err(InvalidRow)
    else if |stars| == 1 then Ok(stars[0])
    else if |stars| == 2 && stars[0] == 0 then Ok(stars[1])
    else Err(DuplicateKey)
  }

  /** A star column at index 0 is replaced by a later one instead of being reported as a duplicate. */
  lemma KeyAtIndexZeroIsReplaced()
    ensures KeyFieldOf(StarIndices(["id:int*", "name:str*"])) == Ok(1)
  {
    hide OnlyStars, Increasing;
    var one := ["id:int*", "name:str*"];
    StarIndicesOfPrefix(one, 0);
    StarIndicesOfPrefix(one, 1);
    assert one[..0] == [] && one[..2] == one;
    assert EndsWithStar(one[0]) && EndsWithStar(one[1]);
  }

  /** A star column at a later index is reported as a duplicate. */
  lemma KeyAtLaterIndexIsDuplicate()
    ensures KeyFieldOf(StarIndices(["a:int", "id:int*", "name:str*"])) == Err(DuplicateKey)
  {
    hide OnlyStars, Increasing;
    var two := ["a:int", "id:int*", "name:str*"];
    assert !EndsWithStar(two[0]) && EndsWithStar(two[1]) && EndsWithStar(two[2]);
    StarsAtOneAndTwo(two);
  }

  lemma StarsAtOneAndTwo(columns: seq<string>)
    requires |columns| == 3 && !EndsWithStar(columns[0]) && EndsWithStar(columns[1]) && EndsWithStar(columns[2])
    ensures StarIndices(columns) == [1, 2]
  {
    hide OnlyStars, Increasing;
    var c0, c1, c2 := columns[0], columns[1], columns[2];
    assert columns == [] + [c0] + [c1] + [c2];
    hide EndsWithStar;
    StarIndicesSnoc([], c0);
    StarIndicesSnoc([c0], c1);
    assert [c0] + [c1] == [] + [c0] + [c1];
    StarIndicesSnoc([c0, c1], c2);
    assert [c0, c1] + [c2] == columns;
  }

  /** One more column: its index joins the stars when it ends with '*'. */
  lemma StarIndicesSnoc(columns: seq<string>, column: string)
    ensures StarIndices(columns + [column]) ==
      StarIndices(columns) + (if EndsWithStar(column) then [|columns|] else [])
  {
    hide OnlyStars, Increasing;
    assert (columns + [column])[..|columns|] == columns;
  }

  lemma StarIndicesOfPrefix(columns: seq<string>, i: nat)
    requires i < |columns|
    ensures StarIndices(columns[..i + 1]) ==
      StarIndices(columns[..i]) + (if EndsWithStar(columns[i]) then [i] else [])
  {
    hide OnlyStars, Increasing;
    assert columns[..i + 1][..i] == columns[..i];
  }

  lemma {:induction false} StarIndicesPrefixMonotone(columns: seq<string>, i: nat)
    requires i <= |columns|
    ensures var before := StarIndices(columns[..i]);
      |before| <= |StarIndices(columns)| && before == StarIndices(columns)[..|before|]
    decreases |columns| - i
  {
    hide OnlyStars, Increasing;
    hide StarIndices;
    if i < |columns| {
      StarIndicesOfPrefix(columns, i);
      StarIndicesPrefixMonotone(columns, i + 1);
      var before, next, all := StarIndices(columns[..i]), StarIndices(columns[..i + 1]), StarIndices(columns);
      assert before == next[..|before|];
      assert all[..|before|] == all[..|next|][..|before|];
    } else {
      assert columns[..i] == columns;
    }
  }

  /** Whether the stars seen so far already make `findKeyField` throw. */
  predicate TooManyKeys(stars: seq<nat>)
  {
    |stars| >= 3 || (|stars| >= 2 && stars[0] > 0)
  }

  /** Once the stars seen so far make it throw, the stars of the whole schema do too. */
  lemma DuplicateIsFinal(columns: seq<string>, i: nat)
    requires i <= |columns| && TooManyKeys(StarIndices(columns[..i]))
    ensures KeyFieldOf(StarIndices(columns)) == Err(DuplicateKey)
  {
    hide OnlyStars, Increasing;
    StarIndicesPrefixMonotone(columns, i);
    var before := StarIndices(columns[..i]);
    var all := StarIndices(columns);
    assert all[0] == before[0];
  }

  /** `keyField` after the stars `seen`: the last of them, or -1. */
  function LastOr(seen: seq<nat>): int
  {
    if seen == [] then -1 else seen[|seen| - 1]
  }

  /** One column of `findKeyField`'s loop: with a star at `i`, the guard `keyField <= 0` passes exactly when the stars do not yet throw. */
  lemma KeyStep(seen: seq<nat>, i: nat)
    requires !TooManyKeys(seen)
    requires forall j :: 0 <= j < |seen| ==> seen[j] < i
    requires forall a, b :: 0 <= a < b < |seen| ==> seen[a] < seen[b]
    ensures LastOr(seen) <= 0 <==> !TooManyKeys(seen + [i])
    ensures KeyFieldOf(seen) == if seen == [] then Err(InvalidRow) else Ok(LastOr(seen) as nat)
  {
  }

  /** One column of `findKeyField`'s loop, in terms of the stars seen before it. */
  lemma FindKeyFieldStep(columns: seq<string>, i: nat, seen: seq<nat>)
    requires i < |columns| && seen == StarIndices(columns[..i]) && !TooManyKeys(seen)
    ensures StarIndices(columns[..i + 1]) == seen + (if EndsWithStar(columns[i]) then [i] else [])
    ensures EndsWithStar(columns[i]) && LastOr(seen) > 0 ==> KeyFieldOf(StarIndices(columns)) == Err(DuplicateKey)
    ensures EndsWithStar(columns[i]) && LastOr(seen) <= 0 ==> !TooManyKeys(seen + [i]) && LastOr(seen + [i]) == i
  {
    StarIndicesOfPrefix(columns, i);
    KeyStep(seen, i);
    if EndsWithStar(columns[i]) && LastOr(seen) > 0 {
      DuplicateIsFinal(columns, i + 1);
    }
  }

  /** After the loop: the key is the last star seen, and no star at all is an invalid row. */
  lemma FindKeyFieldEnd(columns: seq<string>, seen: seq<nat>)
    requires seen == StarIndices(columns) && !TooManyKeys(seen)
    ensures LastOr(seen) >= 0 <==> seen != []
    ensures KeyFieldOf(seen) == if seen == [] then Err(InvalidRow) else Ok(LastOr(seen) as nat)
  {
    KeyStep(seen, |columns|);
  }

  /** `findKeyField(schemaLine)`: one pass over the columns, updating `keyField`. */
  method FindKeyField(schemaLine: string) returns (r: Result<nat, ReadError>)
    ensures r == KeyFieldOf(StarIndices(Split(schemaLine, ',')))
  {
    hide Split, SplitAll, DropTrailingEmpty, IndexOf, EndsWithStar, KeyFieldOf;
    var columns := Split(schemaLine, ',');
    var keyField := -1;
    var i := 0;
    ghost var seen: seq<nat> := [];
    assert columns[..0] == [];
    hide StarIndices, TooManyKeys, LastOr;
    while i < |columns|
      invariant 0 <= i <= |columns|
      invariant seen == StarIndices(columns[..i])
      invariant !TooManyKeys(seen) && keyField == LastOr(seen)
    {
      FindKeyFieldStep(columns, i, seen);
      if EndsWithStar(columns[i]) {
        if keyField <= 0 {
          keyField := i;
        } else {
          return Err(DuplicateKey);
        }
        seen := seen + [i];
      }
      i := i + 1;
    }
    assert columns[..i] == columns;
    FindKeyFieldEnd(columns, seen);
    if keyField >= 0 {
      return Ok(keyField);
    } else {
      return Err(InvalidRow);
    }
  }

  // ------------------------------------------------------------------- rows

  /** One row item: Integer columns go through `Integer.parseInt`, String columns are kept verbatim. */
  function ItemOf(text: string, rowType: RowType): Result<Item, ReadError>
  {
    match rowType
    case IntegerType =>
      (match ParseInt(text)
       case Some(v) => Ok(IntItem(v))
       case None => Err(NumberFormat(text)))
    case StringType => Ok(StrItem(text))
  }

  function ItemsOf(texts: seq<string>, schema: seq<ColumnType>): Result<seq<Item>, ReadError>
    requires |texts| == |schema|
  {
    if texts == [] then Ok([])
    else
      var first :- ItemOf(texts[0], schema[0].rowType);
      Then([first], ItemsOf(texts[1..], schema[1..]))
  }

  /** A data line: as many comma-separated items as the schema has columns, each parsed by its column's type. */
  function RowOf(dataLine: string, schema: seq<ColumnType>): Result<seq<Item>, ReadError>
  {
    var texts := Split(dataLine, ',');
    if |texts| != |schema| then Err(IllegalArgument("incorrect number of items: " + dataLine))
    else ItemsOf(texts, schema)
  }

  /** A parsed row keeps every item at its position, parsed by the type of the column at that position. */
  lemma {:induction false} RowKeepsPositions(texts: seq<string>, schema: seq<ColumnType>)
    requires |texts| == |schema| && ItemsOf(texts, schema).Ok?
    ensures |ItemsOf(texts, schema).value| == |schema|
    ensures forall k :: 0 <= k < |schema| ==>
      ItemOf(texts[k], schema[k].rowType) == Ok(ItemsOf(texts, schema).value[k])
  {
    if texts != [] {
      RowKeepsPositions(texts[1..], schema[1..]);
      forall k | 0 < k < |schema| ensures texts[1..][k - 1] == texts[k] && schema[1..][k - 1] == schema[k] { }
    }
  }

  /** `parseRowItems(dataLine, schema)`: checks the item count, then fills the items array. */
  method ParseRowItems(dataLine: string, schema: seq<ColumnType>) returns (r: Result<seq<Item>, ReadError>)
    ensures r == RowOf(dataLine, schema)
  {
    var dataItems := Split(dataLine, ',');
    if |dataItems| != |schema| {
      return Err(IllegalArgument("incorrect number of items: " + dataLine));
    }
    var items: seq<Item> := [];
    var i := 0;
    ThenNothing(ItemsOf(dataItems, schema));
    while i != |schema|
      invariant 0 <= i <= |schema|
      invariant ItemsOf(dataItems, schema) == Then(items, ItemsOf(dataItems[i..], schema[i..]))
    {
      assert dataItems[i..][0] == dataItems[i] && schema[i..][0] == schema[i];
      assert dataItems[i..][1..] == dataItems[i + 1..] && schema[i..][1..] == schema[i + 1..];
      var item;
      if schema[i].rowType == IntegerType {
        var parsed := ParseInt(dataItems[i]);
        if parsed.None? {
          return Err(NumberFormat(dataItems[i]));
        }
        item := IntItem(parsed.value);
      } else {
        item := StrItem(dataItems[i]);
      }
      ThenThen(items, [item], ItemsOf(dataItems[i + 1..], schema[i + 1..]));
      items := items + [item];
      i := i + 1;
    }
    assert dataItems[i..] == [] && items + [] == items;
    return Ok(items);
  }

  // ---------------------------------------------------------------- scanner

  /**
   * `Character.isWhitespace`, the separators `Scanner.hasNext` skips: the
   * Unicode space, line and paragraph separators other than the non-breaking
   * spaces U+00A0, U+2007 and U+202F, and the controls '\t' to '\r' and
   * U+001C to U+001F (the Unicode 6.3 and later tables).
   */
  predicate IsWhitespace(c: char)
  {
    var n := c as int;
    n == 0x20 || 0x09 <= n <= 0x0D || 0x1C <= n <= 0x1F || n == 0x1680 ||
    0x2000 <= n <= 0x2006 || 0x2008 <= n <= 0x200A || n == 0x2028 || n == 0x2029 ||
    n == 0x205F || n == 0x3000
  }

  /** `Scanner.hasNext()`: some character that is not whitespace is left. */
  predicate HasToken(rest: string)
  {
    exists k :: 0 <= k < |rest| && !IsWhitespace(rest[k])
  }

  /** The line terminators `Scanner.nextLine` stops at: '\n', '\r', U+0085, U+2028 and U+2029. */
  predicate IsLineBreak(c: char)
  {
    c == '\n' || c == '\r' || c as int == 0x85 || c as int == 0x2028 || c as int == 0x2029
  }

  /** The index of the first line terminator in `s`, or `|s|` when there is none. */
  function LineEnd(s: string): (k: nat)
    ensures k <= |s|
    ensures k < |s| ==> IsLineBreak(s[k])
    ensures forall j :: 0 <= j < k ==> !IsLineBreak(s[j])
  {
    if s == [] || IsLineBreak(s[0]) then 0 else 1 + LineEnd(s[1..])
  }

  /** The length of the terminator at `k`: "\r\n" is one terminator of two characters. */
  function BreakLength(s: string, k: nat): (n: nat)
    requires k < |s|
    ensures 1 <= n && k + n <= |s|
  {
    if s[k] == '\r' && k + 1 < |s| && s[k + 1] == '\n' then 2 else 1
  }

  /**
   * `Scanner.nextLine()` on a non-empty remainder: the text up to the first
   * line terminator, and what follows that terminator.
   */
  function NextLineOf(rest: string): (r: (string, string))
    requires rest != []
    ensures |r.1| < |rest|
    ensures forall j :: 0 <= j < |r.0| ==> !IsLineBreak(r.0[j])
  {
    var k := LineEnd(rest);
    (rest[..k], if k < |rest| then rest[k + BreakLength(rest, k)..] else [])
  }

  /** A line without terminators, then a terminator: the line is read and the terminator dropped. */
  lemma NextLineOfBreak(line: string, sep: string, rest: string)
    requires NoLineBreak(line) && IsTerminator(sep)
    requires sep == "\r" ==> rest == [] || rest[0] != '\n'
    ensures NextLineOf(line + sep + rest) == (line, rest)
  {
    var text := line + sep + rest;
    TerminatorAt(line, sep, rest);
    hide IsLineBreak, IsTerminator;
    assert forall j :: 0 <= j < |line| ==> text[j] == line[j];
    LineEndAt(text, |line|);
    assert text[..|line|] == line;
    assert text[|line| + |sep|..] == rest;
  }

  /** The terminator right after the line is one break, as long as `sep`. */
  lemma TerminatorAt(line: string, sep: string, rest: string)
    requires IsTerminator(sep)
    requires sep == "\r" ==> rest == [] || rest[0] != '\n'
    ensures var text := line + sep + rest;
      |line| < |text| && IsLineBreak(text[|line|]) && BreakLength(text, |line|) == |sep|
  {
    var text := line + sep + rest;
    assert text[|line|] == sep[0];
    if sep == "\r\n" {
      assert text[|line| + 1] == '\n';
    } else if |line| + 1 < |text| {
      assert text[|line| + 1] == rest[0];
    }
  }

  lemma LineEndAt(s: string, k: nat)
    requires k < |s| && IsLineBreak(s[k])
    requires forall j :: 0 <= j < k ==> !IsLineBreak(s[j])
    ensures LineEnd(s) == k
  {
    var e := LineEnd(s);
    assert !(e < k) && !(k < e);
  }

  /** The rows of the remaining text: one per line, while a token is left. */
  function RowsOf(rest: string, schema: seq<ColumnType>): Result<seq<seq<Item>>, ReadError>
    decreases |rest|
  {
    if !HasToken(rest) then Ok([])
    else
      var (line, after) := NextLineOf(rest);
      var row :- RowOf(line, schema);
      Then([row], RowsOf(after, schema))
  }

  /** `read()` on a whole text: the first line is the schema (and names the key), every later line a row. */
  function ReadOf(text: string): Result<Database, ReadError>
  {
    if text == [] then Err(NoSuchElement)
    else
      var (schemaLine, rest) := NextLineOf(text);
      var schema :- SchemaOf(schemaLine);
      var keyField :- KeyFieldOf(StarIndices(Split(schemaLine, ',')));
      var rows :- RowsOf(rest, schema);
      Ok(Database(schema, keyField, rows))
  }

  /** Each line's row, in order, or the first line's error. */
  function ParseRows(lines: seq<string>, schema: seq<ColumnType>): Result<seq<seq<Item>>, ReadError>
  {
    if lines == [] then Ok([])
    else
      var row :- RowOf(lines[0], schema);
      Then([row], ParseRows(lines[1..], schema))
  }

  /** No line terminator anywhere in `s`. */
  predicate NoLineBreak(s: string)
  {
    forall j :: 0 <= j < |s| ==> !IsLineBreak(s[j])
  }

  /** A terminator as a file may hold it: "\r\n", or one terminator character. */
  predicate IsTerminator(sep: string)
  {
    sep == "\r\n" || (|sep| == 1 && IsLineBreak(sep[0]))
  }

  /** Lines with `sep` after each one but the last. */
  function JoinLines(lines: seq<string>, sep: string): string
    requires |lines| >= 1
  {
    if |lines| == 1 then lines[0] else lines[0] + sep + JoinLines(lines[1..], sep)
  }

  /** A line holding something other than whitespace, and no line break. */
  predicate IsDataLine(line: string)
  {
    NoLineBreak(line) && HasToken(line)
  }

  /**
   * A line followed by a terminator gives its row, then the rows of what
   * follows, as long as some data is left in the line or after it. A lone
   * '\r' before a '\n' would make one "\r\n", so that case is excluded.
   */
  lemma RowsOfLine(line: string, sep: string, rest: string, schema: seq<ColumnType>)
    requires NoLineBreak(line) && IsTerminator(sep)
    requires HasToken(line) || HasToken(rest)
    requires sep == "\r" ==> rest == [] || rest[0] != '\n'
    ensures RowsOf(line + sep + rest, schema) ==
      (var row :- RowOf(line, schema); Then([row], RowsOf(rest, schema)))
  {
    var text := line + sep + rest;
    if HasToken(line) {
      var k :| 0 <= k < |line| && !IsWhitespace(line[k]);
      assert text[k] == line[k];
    } else {
      var k :| 0 <= k < |rest| && !IsWhitespace(rest[k]);
      assert text[|line| + |sep| + k] == rest[k];
    }
    NextLineOfBreak(line, sep, rest);
  }

  /** A data line at the very end gives its row and nothing more. */
  lemma RowsOfLastLine(line: string, schema: seq<ColumnType>)
    requires IsDataLine(line)
    ensures RowsOf(line, schema) == (var row :- RowOf(line, schema); Ok([row]))
  {
    hide IsWhitespace, IsLineBreak, RowOf;
    var k :| 0 <= k < |line| && !IsWhitespace(line[k]);
    assert LineEnd(line) == |line|;
    assert line[..|line|] == line;
    assert !HasToken([]);
    var row := RowOf(line, schema);
    if row.Ok? {
      assert [row.value] + [] == [row.value];
    }
  }

  /**
   * Lines joined by one kind of terminator ("\n", "\r\n", "\r", ...),
   * the last of which holds data, are read as exactly one row each, in
   * order; a blank line before the last one is a row too.
   */
  lemma {:induction false} EachLineIsOneRow(lines: seq<string>, sep: string, schema: seq<ColumnType>)
    requires |lines| >= 1 && IsTerminator(sep)
    requires forall k :: 0 <= k < |lines| ==> NoLineBreak(lines[k])
    requires HasToken(lines[|lines| - 1])
    ensures RowsOf(JoinLines(lines, sep), schema) == ParseRows(lines, schema)
  {
    if |lines| == 1 {
      RowsOfLastLine(lines[0], schema);
      assert ParseRows(lines[1..], schema) == Ok([]);
      var row := RowOf(lines[0], schema);
      if row.Ok? {
        assert [row.value] + [] == [row.value];
      }
    } else {
      var rest := JoinLines(lines[1..], sep);
      JoinedHasToken(lines[1..], sep);
      StartsWithFirstLine(lines[1..], sep);
      RowsOfLine(lines[0], sep, rest, schema);
      EachLineIsOneRow(lines[1..], sep, schema);
    }
  }

  /** Joined lines hold data when the last one does. */
  lemma {:induction false} JoinedHasToken(lines: seq<string>, sep: string)
    requires |lines| >= 1 && HasToken(lines[|lines| - 1])
    ensures HasToken(JoinLines(lines, sep))
  {
    if |lines| > 1 {
      JoinedHasToken(lines[1..], sep);
      var rest := JoinLines(lines[1..], sep);
      var k :| 0 <= k < |rest| && !IsWhitespace(rest[k]);
      var text := JoinLines(lines, sep);
      assert text == lines[0] + sep + rest;
      assert text[|lines[0]| + |sep| + k] == rest[k];
    }
  }

  /**
   * Joined lines never begin with the '\n' that would merge with a lone
   * '\r' before them: they begin with the first line's character, or with
   * a terminator when the first line is empty.
   */
  lemma StartsWithFirstLine(lines: seq<string>, sep: string)
    requires |lines| >= 1 && NoLineBreak(lines[0]) && IsTerminator(sep)
    ensures sep == "\r" ==> JoinLines(lines, sep) == [] || JoinLines(lines, sep)[0] != '\n'
  {
    if lines[0] != [] {
      assert JoinLines(lines, sep)[0] == lines[0][0];
    } else if |lines| > 1 {
      assert JoinLines(lines, sep)[0] == sep[0];
    }
  }

  /**
   * A whole file: the schema line, then lines ended by one kind of
   * terminator, the last of which holds data; each line after the schema
   * becomes one row, in order.
   */
  lemma ReadSchemaThenRows(schemaLine: string, sep: string, lines: seq<string>)
    requires NoLineBreak(schemaLine) && IsTerminator(sep)
    requires |lines| >= 1 && forall k :: 0 <= k < |lines| ==> NoLineBreak(lines[k])
    requires HasToken(lines[|lines| - 1])
    ensures ReadOf(schemaLine + sep + JoinLines(lines, sep)) ==
      (var schema :- SchemaOf(schemaLine);
       var keyField :- KeyFieldOf(StarIndices(Split(schemaLine, ',')));
       var rows :- ParseRows(lines, schema);
       Ok(Database(schema, keyField, rows)))
  {
    StartsWithFirstLine(lines, sep);
    NextLineOfBreak(schemaLine, sep, JoinLines(lines, sep));
    var schema := SchemaOf(schemaLine);
    if schema.Ok? {
      EachLineIsOneRow(lines, sep, schema.value);
    }
  }

  /** A file written with Windows line ends: "\r\n" ends the schema line like '\n' does. */
  lemma CrLfFile()
    ensures ReadOf("id:int*\r\n1") == ReadOf("id:int*\n1")
  {
    assert "id:int*\r\n1" == "id:int*" + "\r\n" + JoinLines(["1"], "\r\n");
    assert "id:int*\n1" == "id:int*" + "\n" + JoinLines(["1"], "\n");
    assert IsDataLine("1") by {
      assert !IsWhitespace("1"[0]);
    }
    ReadSchemaThenRows("id:int*", "\r\n", ["1"]);
    ReadSchemaThenRows("id:int*", "\n", ["1"]);
  }

  /** Parsed rows are as many as the lines, each the parse of its line. */
  lemma {:induction false} ParseRowsPositions(lines: seq<string>, schema: seq<ColumnType>)
    requires ParseRows(lines, schema).Ok?
    ensures |ParseRows(lines, schema).value| == |lines|
    ensures forall k :: 0 <= k < |lines| ==> RowOf(lines[k], schema) == Ok(ParseRows(lines, schema).value[k])
  {
    hide RowOf;
    if lines != [] {
      var rows := ParseRows(lines, schema).value;
      var rest := ParseRows(lines[1..], schema);
      assert RowOf(lines[0], schema).Ok? && rest.Ok?;
      assert rows == [RowOf(lines[0], schema).value] + rest.value;
      ParseRowsPositions(lines[1..], schema);
      forall k | 0 <= k < |lines| ensures RowOf(lines[k], schema) == Ok(rows[k]) {
        if k > 0 {
          assert lines[1..][k - 1] == lines[k] && rows[k] == rest.value[k - 1];
        }
      }
    }
  }

  class DatabaseFileReader {
    const text: string
    /** How far the `Scanner` has read. */
    var position: nat

    ghost predicate Valid()
      reads this
    {
      position <= |text|
    }

    constructor (str: string)
      ensures Valid() && text == str && position == 0
    {
      text := str;
      position := 0;
    }

    /** `input.hasNext()`. */
    function HasNext(): bool
      reads this
      requires Valid()
    {
      HasToken(text[position..])
    }

    /** `input.nextLine()`: NoSuchElementException when nothing is left. */
    method NextLine() returns (r: Result<string, ReadError>)
      requires Valid()
      modifies this
      ensures Valid()
      ensures old(position) == |text| ==> r == Err(NoSuchElement) && position == old(position)
      ensures old(position) < |text| ==>
        var (line, after) := NextLineOf(old(text[position..]));
        r == Ok(line) && text[position..] == after
    {
      if position == |text| {
        return Err(NoSuchElement);
      }
      var rest := text[position..];
      var k := LineEnd(rest);
      r := Ok(rest[..k]);
      if k < |rest| {
        var n := BreakLength(rest, k);
        position := position + k + n;
        assert text[position..] == rest[k + n..];
      } else {
        position := |text|;
      }
    }

    /** The loop of `read()`: one row per line while `input.hasNext()`. */
    method ReadRows(schema: seq<ColumnType>) returns (r: Result<seq<seq<Item>>, ReadError>)
      requires Valid()
      modifies this
      ensures Valid()
      ensures r == RowsOf(old(text[position..]), schema)
    {
      ghost var start := text[position..];
      var rows: seq<seq<Item>> := [];
      ThenNothing(RowsOf(start, schema));
      while HasNext()
        invariant Valid()
        invariant RowsOf(start, schema) == Then(rows, RowsOf(text[position..], schema))
        decreases |text| - position
      {
        var dataLine := NextLine();
        var row := ParseRowItems(dataLine.value, schema);
        if row.Err? {
          return Err(row.error);
        }
        ThenThen(rows, [row.value], RowsOf(text[position..], schema));
        rows := rows + [row.value];
      }
      assert rows + [] == rows;
      return Ok(rows);
    }

    /** `read()`: schema line, key field, then the rows. */
    method Read() returns (r: Result<Database, ReadError>)
      requires Valid() && position == 0
      modifies this
      ensures r == ReadOf(text)
    {
      assert text[position..] == text;
      var schemaLine := NextLine();
      if schemaLine.Err? {
        return Err(schemaLine.error);
      }
      var schema := ParseSchema(schemaLine.value);
      if schema.Err? {
        return Err(schema.error);
      }
      var keyField := FindKeyField(schemaLine.value);
      if keyField.Err? {
        return Err(keyField.error);
      }
      var rows := ReadRows(schema.value);
      if rows.Err? {
        return Err(rows.error);
      }
      return Ok(Database(schema.value, keyField.value, rows.value));
    }
  }
}
