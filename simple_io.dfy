/** SimpleIO: the pure parts of the file helpers — matrix transposition, output path
    resolution and the CSV text layout of a matrix given as a list of columns. */
module SimpleIO {
  import opened JavaLang
  import opened Text

  /** The number of rows of a matrix given as a list of columns: the first column's length,
      or 0 when there are no columns. */
  function Rows(m: seq<seq<real>>): nat
  {
    if |m| > 0 then |m[0]| else 0
  }

  /** Every column is at least as long as the first, so reading row i of column j never
      goes past the end of a column. Longer columns are read only up to Rows(m). */
  predicate CoversRows(m: seq<seq<real>>)
  {
    forall j | 0 <= j < |m| :: |m[j]| >= Rows(m)
  }

  /** Every column has exactly Rows(m) entries. */
  predicate Rectangular(m: seq<seq<real>>)
  {
    forall j | 0 <= j < |m| :: |m[j]| == Rows(m)
  }

  /** The transpose: Rows(m) lists of |m| entries, entry [i][j] being m[j][i]. */
  function Transposed(m: seq<seq<real>>): (t: seq<seq<real>>)
    requires CoversRows(m)
    ensures |t| == Rows(m)
    ensures forall i | 0 <= i < |t| :: |t[i]| == |m|
    ensures forall i, j | 0 <= i < |t| && 0 <= j < |m| :: t[i][j] == m[j][i]
  {
    seq(Rows(m), i requires 0 <= i < Rows(m) => seq(|m|, j requires 0 <= j < |m| => m[j][i]))
  }

  /** `transposeMatrix(in)`: builds the transpose column by column without touching the
      input. A column shorter than the first throws IndexOutOfBoundsException. */
  method TransposeMatrix(input: seq<seq<real>>) returns (res: Result<seq<seq<real>>>)
    ensures CoversRows(input) ==> res == Ok(Transposed(input))
    ensures !CoversRows(input) ==> res == Err(IndexOutOfBounds)
  {
    var inCols := |input|;
    var inRows := Rows(input);
    var out: seq<seq<real>> := [];
    for i := 0 to inRows
      invariant |out| == i
      invariant forall j | 0 <= j < inCols :: |input[j]| >= i
      invariant forall k, j | 0 <= k < i && 0 <= j < inCols :: |out[k]| == inCols && out[k][j] == input[j][k]
    {
      var newCol: seq<real> := [];
      for j := 0 to inCols
        invariant |newCol| == j
        invariant forall l | 0 <= l < j :: |input[l]| > i && newCol[l] == input[l][i]
      {
        if |input[j]| <= i {
          return Err(IndexOutOfBounds);
        }
        newCol := newCol + [input[j][i]];
      }
      out := out + [newCol];
    }
    assert forall k | 0 <= k < inRows :: out[k] == Transposed(input)[k];
    assert out == Transposed(input);
    return Ok(out);
  }

  /** Transposing twice gives back a rectangular matrix with at least one row. */
  lemma TransposeTwice(m: seq<seq<real>>)
    requires Rectangular(m) && Rows(m) > 0
    ensures CoversRows(Transposed(m)) && Transposed(Transposed(m)) == m
  {
    var t := Transposed(m);
    assert Rows(t) == |m|;
    var tt := Transposed(t);
    assert |tt| == |m|;
    forall j | 0 <= j < |m|
      ensures tt[j] == m[j]
    {
      assert |tt[j]| == |t| == |m[j]|;
    }
  }

  /** With no columns, or only empty ones, there is nothing to transpose. */
  lemma TransposeNoRows(m: seq<seq<real>>)
    requires Rows(m) == 0
    ensures CoversRows(m) && Transposed(m) == []
  {
  }

  /** Columns longer than the first are cut to its length: the transpose only sees the first
      Rows(m) entries of each. */
  lemma TransposeTruncates(m: seq<seq<real>>)
    requires CoversRows(m)
    ensures var cut := seq(|m|, j requires 0 <= j < |m| => m[j][..Rows(m)]);
            Rectangular(cut) && CoversRows(cut) && Transposed(cut) == Transposed(m)
  {
    var cut := seq(|m|, j requires 0 <= j < |m| => m[j][..Rows(m)]);
    assert Rows(cut) == Rows(m);
    forall i | 0 <= i < Rows(m)
      ensures Transposed(cut)[i] == Transposed(m)[i]
    {
      assert forall j | 0 <= j < |m| :: cut[j][i] == m[j][i];
    }
  }

  /** `getOutputPath(fileName)`: the name itself when absolute paths are configured
      (USE_ABSOLUTE_PATHS, false by default) or when it already starts with '/'; otherwise the
      working directory (the `user.dir` property, a parameter here) + "/output/" + name. */
  function OutputPath(fileName: string, useAbsolutePaths: bool, userDir: string): (path: string)
    ensures useAbsolutePaths || (|fileName| > 0 && fileName[0] == '/') ==> path == fileName
    ensures !useAbsolutePaths && !(|fileName| > 0 && fileName[0] == '/') ==>
      path == userDir + "/output/" + fileName
  {
    if useAbsolutePaths then fileName
    else if |fileName| > 0 && fileName[0] == '/' then fileName
    else userDir + "/output/" + fileName
  }

  /** The resolved path always ends with the file name. */
  lemma OutputPathEndsWithName(fileName: string, useAbsolutePaths: bool, userDir: string)
    ensures var path := OutputPath(fileName, useAbsolutePaths, userDir);
            |path| >= |fileName| && path[|path| - |fileName|..] == fileName
  {
  }

  /** With an absolute working directory, resolving a resolved path changes nothing. */
  lemma OutputPathIdempotent(fileName: string, useAbsolutePaths: bool, userDir: string)
    requires |userDir| > 0 && userDir[0] == '/'
    ensures var path := OutputPath(fileName, useAbsolutePaths, userDir);
            OutputPath(path, useAbsolutePaths, userDir) == path
  {
    var path := OutputPath(fileName, useAbsolutePaths, userDir);
    if !useAbsolutePaths && !(|fileName| > 0 && fileName[0] == '/') {
      assert path[0] == userDir[0];
    }
  }

  /** The header line: titles joined by "," then a newline, or nothing when there are no
      titles (a null array). */
  function Header(titles: Option<seq<string>>): string
  {
    if titles.Some? then Join(titles.value, ",") + "\n" else ""
  }

  /** Every column has more than i entries, so row i can be read. */
  predicate HasRow(m: seq<seq<real>>, i: nat)
  {
    forall j | 0 <= j < |m| :: |m[j]| > i
  }

  /** The formatted cells of row i, one per column. */
  function Cells(m: seq<seq<real>>, i: nat, fmt: real -> string): (cells: seq<string>)
    requires HasRow(m, i)
    ensures |cells| == |m|
  {
    seq(|m|, j requires 0 <= j < |m| => fmt(m[j][i]))
  }

  /** Row i: its cells joined by ",", then a newline. */
  function Line(m: seq<seq<real>>, i: nat, fmt: real -> string): string
    requires HasRow(m, i)
  {
    Join(Cells(m, i, fmt), ",") + "\n"
  }

  /** Rows 0 .. hi - 1, one line each. */
  function Lines(m: seq<seq<real>>, hi: nat, fmt: real -> string): string
    requires forall j | 0 <= j < |m| :: |m[j]| >= hi
  {
    if hi == 0 then "" else Lines(m, hi - 1, fmt) + Line(m, hi - 1, fmt)
  }

  /** The whole text: the header and then one line per row. */
  function Saved(m: seq<seq<real>>, titles: Option<seq<string>>, fmt: real -> string): string
    requires CoversRows(m)
  {
    Header(titles) + Lines(m, Rows(m), fmt)
  }

  /** What the comma-separated loops have written after the parts done of total: each part
      followed by a comma, except the last of all. */
  function Partial(done: seq<string>, total: nat): string
    decreases |done|
  {
    if |done| == 0 then ""
    else
      var k := |done| - 1;
      Partial(done[..k], total) + (done[k] + (if k != total - 1 then "," else ""))
  }

  /** Writing one more part appends it and its separator. */
  lemma PartialStep(done: seq<string>, x: string, total: nat)
    ensures Partial(done, total) + (x + (if |done| != total - 1 then "," else "")) == Partial(done + [x], total)
  {
    assert (done + [x])[..|done|] == done;
  }

  /** Once every part is written, the text is the parts joined by commas; before that it is
      the parts joined and a trailing comma. */
  lemma {:induction false} PartialJoin(done: seq<string>, total: nat)
    requires |done| <= total
    ensures |done| == total ==> Partial(done, total) == Join(done, ",")
    ensures 0 < |done| < total ==> Partial(done, total) == Join(done, ",") + ","
    decreases |done|
  {
    if |done| > 1 {
      PartialJoin(done[..|done| - 1], total);
    }
  }

  /** The header loop of `saveToString`: each title followed by a comma except the last, then
      a newline. */
  method WriteHeader(t: seq<string>) returns (sb: string)
    ensures sb == Header(Some(t))
  {
    sb := "";
    for i := 0 to |t|
      invariant sb == Partial(t[..i], |t|)
    {
      PartialStep(t[..i], t[i], |t|);
      assert t[..i] + [t[i]] == t[..i + 1];
      var sep := if i != |t| - 1 then "," else "";
      sb := sb + (t[i] + sep);
    }
    assert t[..|t|] == t;
    PartialJoin(t, |t|);
    sb := sb + "\n";
  }

  /** The row loop of `saveToString` for row i: each column's cell followed by a comma except
      the last, then a newline; a column without row i throws IndexOutOfBoundsException. */
  method WriteLine(m: seq<seq<real>>, i: nat, fmt: real -> string) returns (res: Result<string>)
    ensures HasRow(m, i) ==> res == Ok(Line(m, i, fmt))
    ensures !HasRow(m, i) ==> res == Err(IndexOutOfBounds)
  {
    var cols := |m|;
    var sb := "";
    ghost var done: seq<string> := [];
    for j := 0 to cols
      invariant |done| == j
      invariant forall l | 0 <= l < j :: |m[l]| > i && done[l] == fmt(m[l][i])
      invariant sb == Partial(done, cols)
    {
      if |m[j]| <= i {
        return Err(IndexOutOfBounds);
      }
      var cell := fmt(m[j][i]);
      var sep := if j != cols - 1 then "," else "";
      PartialStep(done, cell, cols);
      sb := sb + (cell + sep);
      done := done + [cell];
    }
    assert done == Cells(m, i, fmt);
    PartialJoin(done, cols);
    return Ok(sb + "\n");
  }

  /** `saveToString(doubles, columnTitles)`: writes the header (when there are titles) and then
      row by row every column's cell, comma separated. The cell format `%.9f` is the
      parameter fmt. A column shorter than the first throws IndexOutOfBoundsException. */
  method SaveToString(m: seq<seq<real>>, titles: Option<seq<string>>, fmt: real -> string)
    returns (res: Result<string>)
    ensures CoversRows(m) ==> res == Ok(Saved(m, titles, fmt))
    ensures !CoversRows(m) ==> res == Err(IndexOutOfBounds)
  {
    var sb: string := "";
    if titles.Some? {
      sb := WriteHeader(titles.value);
    }
    var rows := Rows(m);
    for i := 0 to rows
      invariant forall j | 0 <= j < |m| :: |m[j]| >= i
      invariant sb == Header(titles) + Lines(m, i, fmt)
    {
      var line := WriteLine(m, i, fmt);
      if line.Err? {
        return Err(IndexOutOfBounds);
      }
      sb := sb + line.value;
    }
    return Ok(sb);
  }

  /** With no newline in any title or formatted cell, the text has one newline for the header
      (when there are titles) and one per row. */
  lemma NewlineCount(m: seq<seq<real>>, titles: Option<seq<string>>, fmt: real -> string)
    requires CoversRows(m)
    requires titles.Some? ==> forall k | 0 <= k < |titles.value| :: Count(titles.value[k], '\n') == 0
    requires forall x: real :: Count(fmt(x), '\n') == 0
    ensures Count(Saved(m, titles, fmt), '\n') == (if titles.Some? then 1 else 0) + Rows(m)
  {
    CountAppend(Header(titles), Lines(m, Rows(m), fmt), '\n');
    if titles.Some? {
      JoinNoChar(titles.value, ',', '\n');
      CountAppend(Join(titles.value, ","), "\n", '\n');
      assert Count("\n", '\n') == 1 by { assert "\n"[..0] == ""; }
    }
    LinesNewlines(m, Rows(m), fmt);
  }

  lemma {:induction false} LinesNewlines(m: seq<seq<real>>, hi: nat, fmt: real -> string)
    requires forall j | 0 <= j < |m| :: |m[j]| >= hi
    requires forall x: real :: Count(fmt(x), '\n') == 0
    ensures Count(Lines(m, hi, fmt), '\n') == hi
    decreases hi
  {
    if hi > 0 {
      LinesNewlines(m, hi - 1, fmt);
      LineNewline(m, hi - 1, fmt);
      CountAppend(Lines(m, hi - 1, fmt), Line(m, hi - 1, fmt), '\n');
    }
  }

  /** A row's line holds one newline, its last character. */
  lemma {:induction false} LineNewline(m: seq<seq<real>>, i: nat, fmt: real -> string)
    requires HasRow(m, i)
    requires forall x: real :: Count(fmt(x), '\n') == 0
    ensures Count(Line(m, i, fmt), '\n') == 1
  {
    var cells := Cells(m, i, fmt);
    forall k | 0 <= k < |cells|
      ensures Count(cells[k], '\n') == 0
    {
      var x := m[k][i];
      assert cells[k] == fmt(x);
    }
    JoinNoChar(cells, ',', '\n');
    CountAppend(Join(cells, ","), "\n", '\n');
    assert Count("\n", '\n') == 1 by { assert "\n"[..0] == ""; }
  }

  /** Joining parts free of c with a separator other than c gives a text free of c. */
  lemma {:induction false} JoinNoChar(parts: seq<string>, sep: char, c: char)
    requires sep != c
    requires forall k | 0 <= k < |parts| :: Count(parts[k], c) == 0
    ensures Count(Join(parts, [sep]), c) == 0
    decreases |parts|
  {
    if |parts| > 1 {
      var init := parts[..|parts| - 1];
      JoinNoChar(init, sep, c);
      CountAppend(Join(init, [sep]), [sep], c);
      CountAppend(Join(init, [sep]) + [sep], parts[|parts| - 1], c);
      assert Count([sep], c) == 0 by { assert [sep][..0] == []; }
    }
  }

  /** With no comma in any formatted cell, each row line holds one comma fewer than there
      are columns. */
  lemma LineCommas(m: seq<seq<real>>, i: nat, fmt: real -> string)
    requires HasRow(m, i) && |m| > 0
    requires forall x: real :: Count(fmt(x), ',') == 0
    ensures Count(Line(m, i, fmt), ',') == |m| - 1
  {
    var cells := Cells(m, i, fmt);
    forall k | 0 <= k < |cells|
      ensures Count(cells[k], ',') == 0
    {
      var x := m[k][i];
      assert Count(fmt(x), ',') == 0;
      assert cells[k] == fmt(x);
    }
    JoinCount(cells, ',');
    CountAppend(Join(cells, ","), "\n", ',');
    assert Count("\n", ',') == 0 by { assert "\n"[..0] == ""; }
  }
}
