/** The reply of one Rserve evaluation call and the three tests RServerEvaluator runs on it.
    The evaluated code is wrapped in `withVisible(try({...}, silent=TRUE))`, so a reply is a
    list whose element 0 is the value (or a `try-error`) and whose element 1 is the
    visibility flag. */
module RReply {
  import opened Wrappers

  /** The REXP values the tests distinguish. A list's `at(i)` is null out of range, and the
      source also checks list elements for null, so elements are optional. A `try-error` is
      a character vector with that class; only its first string (the message) is read. */
  datatype RValue =
    | RNull
    | RList(names: Option<seq<string>>, items: seq<Option<RValue>>)
    | RStrings(strings: seq<string>)
    | RInts(ints: seq<int>)
    | RTryError(message: string)

  /** The two conversions the REngine client and the serializer perform on a column, which
      the model leaves open: `asStrings()` (None where it throws REXPMismatchException) and
      `objSerializer.convertType` applied to the column's Java class name. */
  datatype Coercions = Coercions(asStrings: RValue -> Option<seq<string>>, typeName: RValue -> string)

  /** RList.at(i): null when `i` is out of range. */
  function At(items: seq<Option<RValue>>, i: nat): (r: Option<RValue>)
    ensures r.Some? ==> i < |items| && r == items[i]
    ensures i < |items| ==> r == items[i]
  {
    if i < |items| then items[i] else None
  }

  /** The reply `withVisible` builds for a value and its visibility. */
  function WithVisible(value: RValue, visible: bool): RValue {
    RList(Some(["value", "visible"]), [Some(value), Some(RInts([if visible then 1 else 0]))])
  }

  /** The prefix R puts before the message of an error caught by `try`. */
  const ErrorPrefix: string := "Error in try({ : "

  predicate StartsWith(s: string, p: string) {
    |p| <= |s| && s[..|p|] == p
  }

  /** The message of the `try-error` in element 0 of the reply, if there is one. */
  function TryErrorOf(reply: RValue): Option<string> {
    if reply.RList? && At(reply.items, 0).Some? && At(reply.items, 0).value.RTryError? then
      Some(At(reply.items, 0).value.message)
    else None
  }

  /** What isError does: no error (returns false, sink untouched), an error with the
      message it writes to the sink, or the StringIndexOutOfBoundsException thrown by
      `substring(0, 17)` on a message shorter than the prefix, which isError does not catch. */
  datatype ErrorCheck = NotAnError | ErrorMessage(message: string) | PrefixCheckThrows

  /** isError: a `try-error` in element 0 is an error whose message loses the prefix when
      it starts with it. Every other shape is caught as a mismatch or null and is no error. */
  function IsError(reply: RValue): (r: ErrorCheck)
    ensures r != NotAnError <==> TryErrorOf(reply).Some?
    ensures r == PrefixCheckThrows <==> TryErrorOf(reply).Some? && |TryErrorOf(reply).value| < |ErrorPrefix|
    ensures r.ErrorMessage? ==>
              TryErrorOf(reply) == Some(ErrorPrefix + r.message) ||
              (TryErrorOf(reply) == Some(r.message) && !StartsWith(r.message, ErrorPrefix))
  {
    if !reply.RList? then NotAnError
    else match At(reply.items, 0)
      case Some(RTryError(msg)) =>
        if |msg| < |ErrorPrefix| then PrefixCheckThrows
        else if msg[..|ErrorPrefix|] == ErrorPrefix then
          assert msg == ErrorPrefix + msg[|ErrorPrefix|..];
          ErrorMessage(msg[|ErrorPrefix|..])
        else ErrorMessage(msg)
      case _ => NotAnError
  }

  /** The prefix R adds is removed again: an error caught with message `m` is reported as `m`. */
  lemma {:induction false} IsErrorStripsPrefix(m: string, visible: bool)
    ensures IsError(WithVisible(RTryError(ErrorPrefix + m), visible)) == ErrorMessage(m)
  {
    var msg := ErrorPrefix + m;
    assert msg[..|ErrorPrefix|] == ErrorPrefix;
    assert msg[|ErrorPrefix|..] == m;
  }

  /** A message of at least 17 characters without the prefix is passed through unchanged. */
  lemma IsErrorKeepsUnprefixed(msg: string, visible: bool)
    requires |msg| >= |ErrorPrefix| && !StartsWith(msg, ErrorPrefix)
    ensures IsError(WithVisible(RTryError(msg), visible)) == ErrorMessage(msg)
  {
  }

  /** A message shorter than the prefix makes isError throw. */
  lemma IsErrorShortMessageThrows(msg: string, visible: bool)
    requires |msg| < |ErrorPrefix|
    ensures IsError(WithVisible(RTryError(msg), visible)) == PrefixCheckThrows
  {
  }

  /** isVisible: element 1 is an integer vector of exactly one non-zero entry. */
  function IsVisible(reply: RValue): (r: bool)
    ensures r ==> reply.RList? && |reply.items| >= 2
  {
    reply.RList? &&
    match At(reply.items, 1)
    case Some(RInts(flags)) => |flags| == 1 && flags[0] != 0
    case _ => false
  }

  /** isVisible reads back the flag withVisible wrote. */
  lemma IsVisibleRoundTrip(value: RValue, visible: bool)
    ensures IsVisible(WithVisible(value, visible)) == visible
  {
  }

  /** A flag that is not a one-element integer vector, or a missing second element, is
      read as invisible. */
  lemma IsVisibleMismatch(names: Option<seq<string>>, items: seq<Option<RValue>>)
    requires |items| < 2 || items[1].None? || !items[1].value.RInts? || |items[1].value.ints| != 1
    ensures !IsVisible(RList(names, items))
  {
  }

  /** The TableDisplay isDataFrame builds: rows, column names and one type name per column. */
  datatype Table = Table(rows: seq<seq<string>>, columnNames: seq<string>, types: seq<string>)

  /** Every column is present and `asStrings()` accepts it. */
  predicate Coercible(items: seq<Option<RValue>>, co: Coercions) {
    forall i :: 0 <= i < |items| ==> items[i].Some? && co.asStrings(items[i].value).Some?
  }

  function Columns(items: seq<Option<RValue>>, co: Coercions): (cols: seq<seq<string>>)
    requires Coercible(items, co)
    ensures |cols| == |items|
  {
    seq(|items|, i requires 0 <= i < |items| => co.asStrings(items[i].value).value)
  }

  function TypeNames(items: seq<Option<RValue>>, co: Coercions): (types: seq<string>)
    requires Coercible(items, co)
    ensures |types| == |items|
  {
    seq(|items|, i requires 0 <= i < |items| => co.typeName(items[i].value))
  }

  /** The length check as the source runs it: inside the row loop, so only when the first
      column has at least one row. */
  predicate LengthsAccepted(cols: seq<seq<string>>)
    requires |cols| > 0
  {
    |cols[0]| == 0 || forall i :: 0 <= i < |cols| ==> |cols[i]| == |cols[0]|
  }

  /** Row `j` lists entry `j` of every column, in column order; there are as many rows as
      the first column has entries. */
  function Rows(cols: seq<seq<string>>): (rows: seq<seq<string>>)
    requires |cols| > 0 && LengthsAccepted(cols)
    ensures |rows| == |cols[0]|
  {
    seq(|cols[0]|, j requires 0 <= j < |cols[0]| =>
      seq(|cols|, i requires 0 <= i < |cols| => cols[i][j]))
  }

  /** isDataFrame as a function of the reply: element 0 must be a named list of at least one
      column, every column present and convertible to strings, and the lengths accepted. */
  function DataFrameOf(reply: RValue, co: Coercions): Option<Table> {
    if !reply.RList? then None
    else match At(reply.items, 0)
      case Some(RList(Some(names), items)) =>
        if Coercible(items, co) && |items| >= 1 && LengthsAccepted(Columns(items, co)) then
          Some(Table(Rows(Columns(items, co)), names, TypeNames(items, co)))
        else None
      case _ => None
  }

  /** isDataFrame: collects the columns as string arrays and the type names, then builds
      the rows one at a time, checking each column's length against the first column's
      while it copies that column's entry. */
  method IsDataFrame(reply: RValue, co: Coercions) returns (r: Option<Table>)
    ensures r == DataFrameOf(reply, co)
  {
    if !reply.RList? {
      return None;
    }
    var first := At(reply.items, 0);
    if first.None? || !first.value.RList? {
      return None;
    }
    var list := first.value;
    var cols := |list.items|;
    if list.names.None? {
      return None;
    }
    var names := list.names.value;
    var vectors := new seq<string>[cols];
    var classes: seq<string> := [];
    var i := 0;
    while i < cols
      invariant 0 <= i <= cols
      invariant Coercible(list.items[..i], co)
      invariant vectors[..i] == Columns(list.items[..i], co)
      invariant classes == TypeNames(list.items[..i], co)
    {
      if list.items[i].None? {
        assert !Coercible(list.items, co);
        return None;
      }
      var o := list.items[i].value;
      classes := classes + [co.typeName(o)];
      var strings := co.asStrings(o);
      if strings.None? {
        assert !Coercible(list.items, co);
        return None;
      }
      vectors[i] := strings.value;
      i := i + 1;
      assert list.items[..i] == list.items[..i - 1] + [list.items[i - 1]];
    }
    assert list.items[..cols] == list.items;
    var columns := vectors[..];
    assert columns == Columns(list.items, co);
    if vectors.Length < 1 {
      return None;
    }
    var values: seq<seq<string>> := [];
    var j := 0;
    while j < |vectors[0]|
      invariant 0 <= j <= |vectors[0]|
      invariant vectors[..] == columns
      invariant |values| == j
      invariant j > 0 ==> forall k :: 0 <= k < cols ==> |columns[k]| == |columns[0]|
      invariant forall jj :: 0 <= jj < j ==> |values[jj]| == cols
      invariant forall jj, k :: 0 <= jj < j && 0 <= k < cols ==> jj < |columns[k]| && values[jj][k] == columns[k][jj]
    {
      var row: seq<string> := [];
      var k := 0;
      while k < cols
        invariant 0 <= k <= cols
        invariant forall kk :: 0 <= kk < k ==> |columns[kk]| == |columns[0]|
        invariant |row| == k
        invariant forall kk :: 0 <= kk < k ==> row[kk] == columns[kk][j]
      {
        if |vectors[k]| != |vectors[0]| {
          assert !LengthsAccepted(columns);
          return None;
        }
        row := row + [vectors[k][j]];
        k := k + 1;
      }
      values := values + [row];
      j := j + 1;
    }
    assert LengthsAccepted(columns);
    assert |values| == |columns[0]| by {
      assert vectors[0] == columns[0];
    }
    forall jj | 0 <= jj < |values|
      ensures values[jj] == Rows(columns)[jj]
    {
    }
    assert values == Rows(columns);
    return Some(Table(values, names, classes));
  }

  /** The table holds the columns it was built from: reading column `i` back out of the
      rows gives the `i`-th string vector, in order. */
  lemma {:induction false} RowsTranspose(cols: seq<seq<string>>)
    requires |cols| > 0 && LengthsAccepted(cols)
    ensures var rows := Rows(cols);
            forall j :: 0 <= j < |rows| ==> |rows[j]| == |cols|
    ensures |cols[0]| > 0 ==>
              forall i :: 0 <= i < |cols| ==> seq(|Rows(cols)|, j requires 0 <= j < |Rows(cols)| => Rows(cols)[j][i]) == cols[i]
  {
    var rows := Rows(cols);
    if |cols[0]| > 0 {
      forall i | 0 <= i < |cols|
        ensures seq(|rows|, j requires 0 <= j < |rows| => rows[j][i]) == cols[i]
      {
        assert |cols[i]| == |cols[0]|;
      }
    }
  }

  /** A named list of N present, convertible columns of a common length M becomes a table
      of M rows of N entries with the list's names and one type name per column. */
  lemma DataFrameShape(names: seq<string>, items: seq<Option<RValue>>, co: Coercions, visible: bool, m: nat)
    requires |items| >= 1 && Coercible(items, co)
    requires forall i :: 0 <= i < |items| ==> |Columns(items, co)[i]| == m
    ensures var t := DataFrameOf(WithVisible(RList(Some(names), items), visible), co);
            t.Some? && |t.value.rows| == m && t.value.columnNames == names &&
            |t.value.types| == |items| &&
            forall j, i :: 0 <= j < m && 0 <= i < |items| ==> t.value.rows[j][i] == Columns(items, co)[i][j]
  {
    assert |Columns(items, co)[0]| == m;
  }

  /** A null name vector, a missing column, a column asStrings rejects, or no column at all
      is no data frame. */
  lemma DataFrameRejects(names: Option<seq<string>>, items: seq<Option<RValue>>, co: Coercions, visible: bool)
    requires names.None? || !Coercible(items, co) || |items| == 0
    ensures DataFrameOf(WithVisible(RList(names, items), visible), co).None?
  {
  }

  /** As written, column lengths are compared only while copying row 0 onwards, so an empty
      first column admits columns of any length, and the table is empty. */
  lemma DataFrameEmptyFirstColumn(names: seq<string>, items: seq<Option<RValue>>, co: Coercions, visible: bool)
    requires |items| >= 1 && Coercible(items, co) && |Columns(items, co)[0]| == 0
    ensures DataFrameOf(WithVisible(RList(Some(names), items), visible), co) ==
            Some(Table([], names, TypeNames(items, co)))
  {
  }

  /** When the first column is not empty, a column of another length rejects the reply. */
  lemma DataFrameLengthMismatch(names: seq<string>, items: seq<Option<RValue>>, co: Coercions, visible: bool, i: nat)
    requires Coercible(items, co) && i < |items|
    requires |Columns(items, co)[0]| > 0 && |Columns(items, co)[i]| != |Columns(items, co)[0]|
    ensures DataFrameOf(WithVisible(RList(Some(names), items), visible), co).None?
  {
  }
}
