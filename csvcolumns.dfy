/** `csv2dict`, `csv2list` and `list_projection` of dougerino.py: one or two
    columns of the lines of a CSV file, picked by position. The lines are
    those `readlines()` returns, line breaks included; cells are split on
    plain commas. */
module CsvColumns {
  import opened Values
  import opened Strings
  import opened Sorting
  import opened Dicts

  /** The lines after the header line, when there is one. */
  function Body(lines: seq<string>, header: bool): (body: seq<string>)
    ensures header && lines != [] ==> body == lines[1..]
    ensures !header || lines == [] ==> body == lines
  {
    if header && lines != [] then lines[1..] else lines
  }

  /** Line `i` joins the body unless it is the header line. */
  lemma BodyStep(lines: seq<string>, i: nat, header: bool)
    requires i < |lines|
    ensures Body(lines[..i + 1], header) ==
      if header && i == 0 then Body(lines[..i], header) else Body(lines[..i], header) + [lines[i]]
  {
    if header && i > 0 {
      assert lines[..i + 1][1..] == lines[..i][1..] + [lines[i]];
    }
  }

  /** `line.split(',')[column].strip()`, lower-cased when `lower`. */
  function CellOf(line: string, column: int, lower: bool): (r: Result<string>)
    ensures r.Ok? <==> -|Split(line, ',')| <= column < |Split(line, ',')|
    ensures r.Err? ==> r.error == IndexError
  {
    match At(Split(line, ','), column)
    case Err(e) => Err(e)
    case Ok(cell) => Ok(if lower then Lower(Strip(cell)) else Strip(cell))
  }

  // ---------------------------------------------------------------- csv2list

  /** `CellOf` with the column fixed, as the loop over the lines applies it. */
  function ColumnReader(column: int, lower: bool): string -> Result<string>
  {
    line => CellOf(line, column, lower)
  }

  /** The list `csv2list` builds before sorting: one value per body line. */
  function ColumnValues(lines: seq<string>, column: int, lower: bool, header: bool): Result<seq<string>>
  {
    Collect(ColumnReader(column, lower), Body(lines, header))
  }

  /** The column values exist exactly when every body line has the column,
      and then value `i` is the cell of body line `i`. */
  lemma ColumnValuesMeaning(lines: seq<string>, column: int, lower: bool, header: bool)
    ensures var body := Body(lines, header);
      var vals := ColumnValues(lines, column, lower, header);
      && (vals.Ok? <==> forall i :: 0 <= i < |body| ==> CellOf(body[i], column, lower).Ok?)
      && (vals.Ok? ==>
            && |vals.value| == |body|
            && forall i :: 0 <= i < |body| ==> vals.value[i] == CellOf(body[i], column, lower).value)
      && (vals.Err? ==> vals.error == IndexError)
  {
    var f := ColumnReader(column, lower);
    var body := Body(lines, header);
    CollectMeaning(f, body);
    if Collect(f, body).Err? {
      var k :| 0 <= k < |body| && f(body[k]).Err? && Collect(f, body).error == f(body[k]).error;
    }
  }

  /** What `csv2list(filename, column, lower, header, dedupe)` returns for
      the lines of the file. The set of `sorted(list(set(values)))` is
      enumerated here in order of first appearance; `DedupeIgnoresSetOrder`
      shows that any order gives the same list. */
  function Csv2ListOf(lines: seq<string>, column: int, lower: bool, header: bool, dedupe: bool): Result<seq<string>>
  {
    match ColumnValues(lines, column, lower, header)
    case Err(e) => Err(e)
    case Ok(vals) => Ok(if dedupe then Sort(Distinct(vals)) else Sort(vals))
  }

  /** `csv2list` over the lines of the file. */
  method Csv2List(lines: seq<string>, column: int, lower: bool, header: bool, dedupe: bool)
    returns (r: Result<seq<string>>)
    ensures r == Csv2ListOf(lines, column, lower, header, dedupe)
  {
    var thelist: seq<string> := [];
    var firstline := true;
    for i := 0 to |lines|
      invariant header ==> (firstline <==> i == 0)
      invariant Collect(ColumnReader(column, lower), Body(lines[..i], header)) == Ok(thelist)
    {
      if firstline && header {
        BodyStep(lines, i, header);
        firstline := false;
        continue;  // skip over the header line
      }
      var listval := CellOf(lines[i], column, lower);
      if listval.Err? {
        BodyFails(ColumnReader(column, lower), lines, i, header);
        return Err(listval.error);
      }
      BodyGrows(ColumnReader(column, lower), lines, i, header);
      thelist := thelist + [listval.value];
    }
    assert lines[..|lines|] == lines;
    if dedupe {
      return Ok(Sort(Distinct(thelist)));
    } else {
      return Ok(Sort(thelist));
    }
  }

  /** A body line that fails makes the whole loop fail with its exception. */
  lemma BodyFails<B>(f: string -> Result<B>, lines: seq<string>, i: nat, header: bool)
    requires i < |lines| && !(header && i == 0)
    requires Collect(f, Body(lines[..i], header)).Ok? && f(lines[i]).Err?
    ensures Collect(f, Body(lines, header)) == Err(f(lines[i]).error)
  {
    BodyStep(lines, i, header);
    CollectSnocErr(f, Body(lines[..i], header), lines[i]);
    SplitAt(lines, i + 1);
    CollectErrAppend(f, Body(lines[..i + 1], header), lines[i + 1..]);
    BodyAppend(lines[..i + 1], lines[i + 1..], header);
  }

  /** A body line that succeeds adds its result at the end. */
  lemma BodyGrows<B>(f: string -> Result<B>, lines: seq<string>, i: nat, header: bool)
    requires i < |lines| && !(header && i == 0)
    requires Collect(f, Body(lines[..i], header)).Ok? && f(lines[i]).Ok?
    ensures Collect(f, Body(lines[..i + 1], header)) ==
      Ok(Collect(f, Body(lines[..i], header)).value + [f(lines[i]).value])
  {
    BodyStep(lines, i, header);
    CollectSnoc(f, Body(lines[..i], header), lines[i]);
  }

  /** More lines after some that include the header line only add to the
      body. */
  lemma BodyAppend(lines: seq<string>, more: seq<string>, header: bool)
    requires lines != []
    ensures Body(lines + more, header) == Body(lines, header) + more
  {
    if header {
      assert (lines + more)[1..] == lines[1..] + more;
    }
  }

  /** The list is sorted; with `dedupe` it holds each column value once and
      nothing else, without it holds every column value as often as it
      occurs. */
  lemma Csv2ListMeaning(lines: seq<string>, column: int, lower: bool, header: bool, dedupe: bool)
    ensures var r := Csv2ListOf(lines, column, lower, header, dedupe);
      var vals := ColumnValues(lines, column, lower, header);
      && (r.Ok? <==> vals.Ok?)
      && (r.Ok? ==> Sorted(r.value))
      && (r.Ok? && dedupe ==> NoDups(r.value) && forall x :: x in r.value <==> x in vals.value)
      && (r.Ok? && !dedupe ==> multiset(r.value) == multiset(vals.value))
  {
    var vals := ColumnValues(lines, column, lower, header);
    if vals.Ok? {
      var d := Distinct(vals.value);
      SortSorts(d);
      SortSorts(vals.value);
      PermutationNoDups(d, Sort(d));
      forall x
        ensures x in Sort(d) <==> x in vals.value
      {
        assert x in Sort(d) <==> x in multiset(Sort(d));
        assert x in d <==> x in multiset(d);
      }
    }
  }

  /** However the set of values is enumerated, sorting it gives the same
      list: the `dedupe` result does not depend on the set's order. */
  lemma DedupeIgnoresSetOrder(vals: seq<string>, enumeration: seq<string>)
    requires NoDups(enumeration)
    requires forall x :: x in enumeration <==> x in vals
    ensures Sort(enumeration) == Sort(Distinct(vals))
  {
    SortIgnoresEnumerationOrder(enumeration, Distinct(vals));
  }

  // ---------------------------------------------------------------- csv2dict

  /** The key and the value of one line: both cells stripped, the key
      lower-cased when `lower`. */
  function EntryOf(line: string, keyColumn: int, valColumn: int, lower: bool): (r: Result<(string, string)>)
    ensures r.Ok? <==> CellOf(line, keyColumn, lower).Ok? && CellOf(line, valColumn, false).Ok?
    ensures r.Ok? ==> r.value == (CellOf(line, keyColumn, lower).value, CellOf(line, valColumn, false).value)
  {
    match CellOf(line, keyColumn, lower)
    case Err(e) => Err(e)
    case Ok(k) =>
      match CellOf(line, valColumn, false)
      case Err(e) => Err(e)
      case Ok(v) => Ok((k, v))
  }

  /** `EntryOf` with the columns fixed, as the loop over the lines applies it. */
  function EntryReader(keyColumn: int, valColumn: int, lower: bool): string -> Result<(string, string)>
  {
    line => EntryOf(line, keyColumn, valColumn, lower)
  }

  /** The key/value pairs of the body lines, in order. */
  function Entries(lines: seq<string>, keyColumn: int, valColumn: int, lower: bool, header: bool)
    : Result<seq<(string, string)>>
  {
    Collect(EntryReader(keyColumn, valColumn, lower), Body(lines, header))
  }

  /** What `csv2dict(filename, key_column, val_column, lower, header)`
      returns for the lines of the file. */
  function Csv2DictOf(lines: seq<string>, keyColumn: int, valColumn: int, lower: bool, header: bool)
    : Result<Dict<string>>
  {
    match Entries(lines, keyColumn, valColumn, lower, header)
    case Err(e) => Err(e)
    case Ok(pairs) => Ok(PutAll(pairs))
  }

  /** `csv2dict` over the lines of the file. */
  method Csv2Dict(lines: seq<string>, keyColumn: int, valColumn: int, lower: bool, header: bool)
    returns (r: Result<Dict<string>>)
    ensures r == Csv2DictOf(lines, keyColumn, valColumn, lower, header)
  {
    ghost var pairs: seq<(string, string)> := [];
    var thedict: Dict<string> := Empty();
    var firstline := true;
    for i := 0 to |lines|
      invariant header ==> (firstline <==> i == 0)
      invariant Collect(EntryReader(keyColumn, valColumn, lower), Body(lines[..i], header)) == Ok(pairs)
      invariant thedict == PutAll(pairs)
    {
      if firstline && header {
        BodyStep(lines, i, header);
        firstline := false;
        continue;  // skip over the header line
      }
      var keyVal := CellOf(lines[i], keyColumn, false);
      var valVal := CellOf(lines[i], valColumn, false);
      if keyVal.Err? || valVal.Err? {
        DictFails(lines, i, keyColumn, valColumn, lower, header);
        return Err(IndexError);
      }
      var key := if lower then Lower(keyVal.value) else keyVal.value;
      DictGrows(lines, i, keyColumn, valColumn, lower, header, pairs, key, valVal.value);
      pairs := pairs + [(key, valVal.value)];
      thedict := Put(thedict, key, valVal.value);
    }
    assert lines[..|lines|] == lines;
    return Ok(thedict);
  }

  /** A body line with both columns adds its pair to the loop's list and
      its `d[k] = v` to the dictionary. */
  lemma DictGrows(lines: seq<string>, i: nat, keyColumn: int, valColumn: int, lower: bool, header: bool,
                  pairs: seq<(string, string)>, key: string, val: string)
    requires i < |lines| && !(header && i == 0)
    requires Collect(EntryReader(keyColumn, valColumn, lower), Body(lines[..i], header)) == Ok(pairs)
    requires CellOf(lines[i], keyColumn, false).Ok? && CellOf(lines[i], valColumn, false) == Ok(val)
    requires key == if lower then Lower(CellOf(lines[i], keyColumn, false).value) else CellOf(lines[i], keyColumn, false).value
    ensures Collect(EntryReader(keyColumn, valColumn, lower), Body(lines[..i + 1], header)) == Ok(pairs + [(key, val)])
    ensures PutAll(pairs + [(key, val)]) == Put(PutAll(pairs), key, val)
  {
    var f := EntryReader(keyColumn, valColumn, lower);
    LowerCell(lines[i], keyColumn);
    assert f(lines[i]) == Ok((key, val));
    BodyGrows(f, lines, i, header);
    PutAllSnoc(pairs, key, val);
  }

  /** A body line without one of the columns makes the whole loop fail. */
  lemma DictFails(lines: seq<string>, i: nat, keyColumn: int, valColumn: int, lower: bool, header: bool)
    requires i < |lines| && !(header && i == 0)
    requires Collect(EntryReader(keyColumn, valColumn, lower), Body(lines[..i], header)).Ok?
    requires CellOf(lines[i], keyColumn, false).Err? || CellOf(lines[i], valColumn, false).Err?
    ensures Collect(EntryReader(keyColumn, valColumn, lower), Body(lines, header)) == Err(IndexError)
  {
    var f := EntryReader(keyColumn, valColumn, lower);
    assert f(lines[i]).Err?;
    BodyFails(f, lines, i, header);
  }

  /** Lower-casing a stripped cell is the cell read with `lower`. */
  lemma LowerCell(line: string, column: int)
    requires CellOf(line, column, false).Ok?
    ensures CellOf(line, column, true) == Ok(Lower(CellOf(line, column, false).value))
  {
  }

  /** `csv2dict` fails, with an IndexError, exactly when some body line
      lacks the key column or the value column. */
  lemma Csv2DictFails(lines: seq<string>, keyColumn: int, valColumn: int, lower: bool, header: bool)
    ensures var r := Csv2DictOf(lines, keyColumn, valColumn, lower, header);
      var body := Body(lines, header);
      && (r.Ok? <==> forall i :: 0 <= i < |body| ==> EntryOf(body[i], keyColumn, valColumn, lower).Ok?)
      && (r.Err? ==> r.error == IndexError)
  {
    var f := EntryReader(keyColumn, valColumn, lower);
    var body := Body(lines, header);
    CollectMeaning(f, body);
    if Collect(f, body).Err? {
      var k :| 0 <= k < |body| && f(body[k]).Err? && Collect(f, body).error == f(body[k]).error;
      assert CellOf(body[k], keyColumn, lower).Err? || CellOf(body[k], valColumn, false).Err?;
    }
  }

  /** The keys of the dictionary are the keys of the body lines. */
  lemma Csv2DictKeys(lines: seq<string>, keyColumn: int, valColumn: int, lower: bool, header: bool)
    ensures var r := Csv2DictOf(lines, keyColumn, valColumn, lower, header);
      var body := Body(lines, header);
      r.Ok? ==> forall k :: k in r.value.values <==>
        exists i :: 0 <= i < |body| && CellOf(body[i], keyColumn, lower) == Ok(k)
  {
    var f := EntryReader(keyColumn, valColumn, lower);
    var body := Body(lines, header);
    CollectMeaning(f, body);
    var r := Csv2DictOf(lines, keyColumn, valColumn, lower, header);
    if Collect(f, body).Ok? {
      var pairs := Collect(f, body).value;
      PutAllKeys(pairs);
      forall k
        ensures k in r.value.values <==>
          exists i :: 0 <= i < |body| && CellOf(body[i], keyColumn, lower) == Ok(k)
      {
        if k in r.value.values {
          var i :| 0 <= i < |pairs| && KeysOf(pairs)[i] == k;
          assert CellOf(body[i], keyColumn, lower) == Ok(k);
        }
      }
    }
  }

  /** Each key holds the value of the last body line with that key. */
  lemma Csv2DictLastWins(lines: seq<string>, keyColumn: int, valColumn: int, lower: bool, header: bool)
    ensures var r := Csv2DictOf(lines, keyColumn, valColumn, lower, header);
      var body := Body(lines, header);
      r.Ok? ==> forall i ::
        (&& 0 <= i < |body| && LastWithKey(body, i, keyColumn, lower)
         && EntryOf(body[i], keyColumn, valColumn, lower).Ok?) ==>
        var e := EntryOf(body[i], keyColumn, valColumn, lower).value;
        e.0 in r.value.values && r.value.values[e.0] == e.1
  {
    var f := EntryReader(keyColumn, valColumn, lower);
    var body := Body(lines, header);
    CollectMeaning(f, body);
    var r := Csv2DictOf(lines, keyColumn, valColumn, lower, header);
    if Collect(f, body).Ok? {
      var pairs := Collect(f, body).value;
      forall i | 0 <= i < |body| && LastWithKey(body, i, keyColumn, lower) &&
        EntryOf(body[i], keyColumn, valColumn, lower).Ok?
        ensures var e := EntryOf(body[i], keyColumn, valColumn, lower).value;
          e.0 in r.value.values && r.value.values[e.0] == e.1
      {
        PutAllLookup(pairs, i);
      }
    }
  }

  /** No body line after line `i` has the key of line `i`. */
  predicate LastWithKey(body: seq<string>, i: nat, keyColumn: int, lower: bool)
    requires i < |body|
  {
    forall j :: i < j < |body| ==> CellOf(body[j], keyColumn, lower) != CellOf(body[i], keyColumn, lower)
  }

  // --------------------------------------------------------- list_projection

  /** `values[c]` as a function of the column `c`. */
  function Picker(values: seq<string>): int -> Result<string>
  {
    c => At(values, c)
  }

  /** What `list_projection(values, columns)` returns. */
  function ProjectionOf(values: seq<string>, columns: seq<int>): Result<string>
  {
    match Collect(Picker(values), columns)
    case Err(e) => Err(e)
    case Ok(picked) => Ok(Join(picked, ','))
  }

  /** `list_projection(values, columns)`. */
  method ListProjection(values: seq<string>, columns: seq<int>) returns (r: Result<string>)
    ensures r == ProjectionOf(values, columns)
  {
    var returned: seq<string> := [];
    for i := 0 to |columns|
      invariant Collect(Picker(values), columns[..i]) == Ok(returned)
    {
      var v := At(values, columns[i]);
      assert columns[..i + 1] == columns[..i] + [columns[i]];
      if v.Err? {
        CollectSnocErr(Picker(values), columns[..i], columns[i]);
        SplitAt(columns, i + 1);
        CollectErrAppend(Picker(values), columns[..i + 1], columns[i + 1..]);
        return Err(v.error);
      }
      CollectSnoc(Picker(values), columns[..i], columns[i]);
      returned := returned + [v.value];
    }
    assert columns[..|columns|] == columns;
    return Ok(Join(returned, ','));
  }

  /** The projection fails with an IndexError exactly when some column is
      out of range. Otherwise the line is the chosen values, in the order
      of the columns, joined by commas; when no value holds a comma,
      splitting the line on commas gives them back. */
  lemma ProjectionMeaning(values: seq<string>, columns: seq<int>)
    ensures ProjectionOf(values, columns).Ok? <==>
      forall i :: 0 <= i < |columns| ==> -|values| <= columns[i] < |values|
    ensures ProjectionOf(values, columns).Err? ==> ProjectionOf(values, columns).error == IndexError
    ensures (&& ProjectionOf(values, columns).Ok? && columns != []
             && forall j :: 0 <= j < |values| ==> ',' !in values[j]) ==>
      var cells := Split(ProjectionOf(values, columns).value, ',');
      && |cells| == |columns|
      && forall i :: 0 <= i < |columns| ==>
           cells[i] == values[if columns[i] < 0 then |values| + columns[i] else columns[i]]
    ensures (forall i :: 0 <= i < |columns| ==> -|values| <= columns[i] < |values|) ==>
      ProjectionOf(values, columns) ==
        Ok(Join(seq(|columns|, i requires 0 <= i < |columns| =>
                  values[if columns[i] < 0 then |values| + columns[i] else columns[i]]), ','))
  {
    var f := Picker(values);
    CollectMeaning(f, columns);
    if Collect(f, columns).Err? {
      var k :| 0 <= k < |columns| && f(columns[k]).Err? && Collect(f, columns).error == f(columns[k]).error;
    } else {
      var picked := Collect(f, columns).value;
      assert picked == seq(|columns|, i requires 0 <= i < |columns| =>
                             values[if columns[i] < 0 then |values| + columns[i] else columns[i]]);
      if columns != [] && forall j :: 0 <= j < |values| ==> ',' !in values[j] {
        forall i | 0 <= i < |picked|
          ensures ',' !in picked[i]
        {
          assert f(columns[i]).Ok?;
        }
        SplitJoin(picked, ',');
      }
    }
  }
}
