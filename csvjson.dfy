/** `csv2json` and `json2csv` of dougerino.py: CSV text to a list of JSON
    objects and a parsed JSON document back to CSV text. Both split and join
    on plain commas and newlines; quoting is not interpreted. */
module CsvJson {
  import opened Values
  import opened Strings
  import opened Sorting
  import opened Dicts

  /** What `csv2json` returns: `''` for empty input, otherwise the list of
      row dictionaries. */
  datatype Converted = NoData | Rows(rows: seq<JsonObject>)

  /** The field names: the cells of the first line when it is a header,
      otherwise `field0`, `field1`, ... one per cell of the first line. */
  function FieldNames(row1: string, header: bool): (names: seq<string>)
    ensures |names| == |Split(row1, ',')|
    ensures header ==> names == Split(row1, ',')
  {
    var cells := Split(row1, ',');
    if header then cells
    else seq(|cells|, i requires 0 <= i < |cells| => "field" + Decimal(i))
  }

  /** Without a header the made-up names are `field<i>` and all differ, so
      every cell of a row lands under a name of its own. */
  lemma GeneratedNamesDistinct(row1: string)
    ensures var names := FieldNames(row1, false);
      && (forall i :: 0 <= i < |names| ==> names[i] == "field" + Decimal(i))
      && NoDups(names)
  {
    var names := FieldNames(row1, false);
    forall i, j | 0 <= i < j < |names|
      ensures names[i] != names[j]
    {
      if names[i] == names[j] {
        assert names[i][5..] == Decimal(i);
        assert names[j][5..] == Decimal(j);
        DecimalInjective(i, j);
      }
    }
  }

  /** The lines that are not empty, in order. */
  function NonBlank(lines: seq<string>): (kept: seq<string>)
    ensures |kept| <= |lines|
    ensures forall i :: 0 <= i < |kept| ==> kept[i] != []
  {
    if lines == [] then []
    else
      var n := |lines| - 1;
      if lines[n] == [] then NonBlank(lines[..n]) else NonBlank(lines[..n]) + [lines[n]]
  }

  /** Blank lines are dropped and the others kept in order, wherever the
      text is cut. */
  lemma {:induction false} NonBlankAppend(a: seq<string>, b: seq<string>)
    ensures NonBlank(a + b) == NonBlank(a) + NonBlank(b)
    decreases |b|
  {
    if b == [] {
      assert a + b == a;
    } else {
      var n := |b| - 1;
      assert (a + b)[..|a| + n] == a + b[..n];
      NonBlankAppend(a, b[..n]);
    }
  }

  /** Lines none of which is blank are all kept. */
  lemma {:induction false} NonBlankKeepsAll(lines: seq<string>)
    requires forall i :: 0 <= i < |lines| ==> lines[i] != []
    ensures NonBlank(lines) == lines
    decreases |lines|
  {
    if lines != [] {
      var n := |lines| - 1;
      NonBlankKeepsAll(lines[..n]);
      assert lines[..n] + [lines[n]] == lines;
    }
  }

  /** The data lines: the non-blank lines, less the first of them when it
      is the header. */
  function DataRows(lines: seq<string>, header: bool): seq<string>
  {
    var kept := NonBlank(lines);
    if header && kept != [] then kept[1..] else kept
  }

  /** Once the header has gone by, further lines add their non-blank
      ones to the data. */
  lemma DataRowsAppend(a: seq<string>, b: seq<string>, header: bool)
    requires !header || NonBlank(a) != []
    ensures DataRows(a + b, header) == DataRows(a, header) + NonBlank(b)
  {
    NonBlankAppend(a, b);
    if header {
      assert (NonBlank(a) + NonBlank(b))[1..] == NonBlank(a)[1..] + NonBlank(b);
    }
  }

  /** One more line: a blank one or the header adds no data line, any
      other is the next data line. */
  lemma DataRowsStep(lines: seq<string>, i: nat, header: bool)
    requires i < |lines|
    ensures NonBlank(lines[..i + 1]) ==
      NonBlank(lines[..i]) + (if lines[i] == [] then [] else [lines[i]])
    ensures DataRows(lines[..i + 1], header) ==
      if lines[i] == [] || (header && NonBlank(lines[..i]) == []) then DataRows(lines[..i], header)
      else DataRows(lines[..i], header) + [lines[i]]
  {
    assert lines[..i + 1][..i] == lines[..i];
    if header && NonBlank(lines[..i]) != [] && lines[i] != [] {
      assert (NonBlank(lines[..i]) + [lines[i]])[1..] == NonBlank(lines[..i])[1..] + [lines[i]];
    }
  }

  /** Each name with the cell at the same position; cells past the last
      name are dropped. */
  function Zip(names: seq<string>, cells: seq<string>): (pairs: seq<(string, string)>)
    requires |names| <= |cells|
    ensures |pairs| == |names| && KeysOf(pairs) == names
    ensures forall i :: 0 <= i < |names| ==> pairs[i] == (names[i], cells[i])
  {
    seq(|names|, i requires 0 <= i < |names| => (names[i], cells[i]))
  }

  /** The dictionary of one data line: `names[i]` maps to cell `i`, a later
      equal name overwriting an earlier one; a line with fewer cells than
      names is an IndexError. */
  function RowDict(names: seq<string>, line: string): (r: Result<JsonObject>)
  {
    var cells := Split(line, ',');
    if |cells| < |names| then Err(IndexError) else Ok(PutAll(Zip(names, cells)))
  }

  /** `RowDict` with the names fixed, as the loop over the lines applies it. */
  function RowParser(names: seq<string>): string -> Result<JsonObject>
  {
    line => RowDict(names, line)
  }

  /** A data line with too few cells makes the whole text fail. */
  lemma ShortLineFails(names: seq<string>, lines: seq<string>, i: nat, header: bool)
    requires i < |lines| && RowDict(names, lines[i]).Err?
    requires DataRows(lines[..i + 1], header) == DataRows(lines[..i], header) + [lines[i]]
    requires !header || NonBlank(lines[..i + 1]) != []
    requires Collect(RowParser(names), DataRows(lines[..i], header)).Ok?
    ensures Collect(RowParser(names), DataRows(lines, header)) == Err(IndexError)
  {
    var f := RowParser(names);
    SplitAt(lines, i + 1);
    assert f(lines[i]).Err?;
    CollectSnocErr(f, DataRows(lines[..i], header), lines[i]);
    DataRowsAppend(lines[..i + 1], lines[i + 1..], header);
    CollectErrAppend(f, DataRows(lines[..i + 1], header), NonBlank(lines[i + 1..]));
  }

  /** What `csv2json(csvdata, header)` returns. */
  function Csv2JsonOf(csvdata: string, header: bool): (r: Result<Converted>)
    ensures csvdata == [] <==> r == Ok(NoData)
  {
    if csvdata == [] then Ok(NoData)
    else
      var lines := Split(csvdata, '\n');
      match Collect(RowParser(FieldNames(lines[0], header)), DataRows(lines, header))
      case Err(e) => Err(e)
      case Ok(ds) => Ok(Rows(ds))
  }

  /** The inner loop of `csv2json`: the dictionary of one data line, or the
      IndexError of `values[fieldno]` past the last cell. */
  method MakeRowDict(fldnames: seq<string>, row: string) returns (r: Result<JsonObject>)
    ensures r == RowDict(fldnames, row)
  {
    var values := Split(row, ',');
    var rowdict: JsonObject := Empty();
    for fieldno := 0 to |fldnames|
      invariant fieldno <= |values|
      invariant rowdict == PutAll(Zip(fldnames[..fieldno], values))
    {
      if fieldno >= |values| {
        return Err(IndexError);
      }
      assert Zip(fldnames[..fieldno + 1], values)[..fieldno] == Zip(fldnames[..fieldno], values);
      rowdict := Put(rowdict, fldnames[fieldno], values[fieldno]);
    }
    assert fldnames[..|fldnames|] == fldnames;
    return Ok(rowdict);
  }

  /** `csv2json(csvdata, header)`. */
  method Csv2Json(csvdata: string, header: bool) returns (result: Result<Converted>)
    ensures result == Csv2JsonOf(csvdata, header)
  {
    if csvdata == [] {
      return Ok(NoData);  // no CSV data found
    }
    var lines := Split(csvdata, '\n');
    var fldnames := FieldNames(lines[0], header);
    var jsondata: seq<JsonObject> := [];
    var firstline := true;
    for i := 0 to |lines|
      invariant firstline <==> !header || NonBlank(lines[..i]) == []
      invariant Collect(RowParser(fldnames), DataRows(lines[..i], header)) == Ok(jsondata)
    {
      var row := lines[i];
      DataRowsStep(lines, i, header);
      if row == [] {
        continue;  // skip blank lines
      }
      if firstline && header {
        firstline := false;
        continue;
      }
      var rowdict := MakeRowDict(fldnames, row);
      if rowdict.Err? {
        ShortLineFails(fldnames, lines, i, header);
        return Err(IndexError);
      }
      assert RowParser(fldnames)(row) == rowdict;
      CollectSnoc(RowParser(fldnames), DataRows(lines[..i], header), row);
      jsondata := jsondata + [rowdict.value];
    }
    assert lines[..|lines|] == lines;
    return Ok(Rows(jsondata));
  }

  /** Some line has fewer cells than there are names. */
  predicate HasShortLine(names: seq<string>, lines: seq<string>)
  {
    exists i :: 0 <= i < |lines| && |Split(lines[i], ',')| < |names|
  }

  /** `csv2json` on non-empty text fails exactly when a data line has fewer
      cells than there are field names; otherwise data line `i` becomes
      dictionary `i`, holding its cells under the field names. */
  lemma Csv2JsonRows(csvdata: string, header: bool)
    requires csvdata != []
    ensures var lines := Split(csvdata, '\n');
      var names := FieldNames(lines[0], header);
      var data := DataRows(lines, header);
      && (Csv2JsonOf(csvdata, header).Err? <==> HasShortLine(names, data))
      && (Csv2JsonOf(csvdata, header).Ok? ==>
          && Csv2JsonOf(csvdata, header).value.Rows?
          && |Csv2JsonOf(csvdata, header).value.rows| == |data|
          && forall i :: 0 <= i < |data| ==>
               Csv2JsonOf(csvdata, header).value.rows[i] == PutAll(Zip(names, Split(data[i], ','))))
  {
    var lines := Split(csvdata, '\n');
    var names := FieldNames(lines[0], header);
    var data := DataRows(lines, header);
    var f := RowParser(names);
    CollectMeaning(f, data);
    assert forall i :: 0 <= i < |data| ==> f(data[i]) == RowDict(names, data[i]);
  }

  /** `[row[f] for f in names]`: the row's values in the order of the
      names; a name the row lacks is a KeyError. The ensures state this
      rule itself; `Json2Csv` writes its rows with it and `WriteCsvText`
      states the whole text in its terms. */
  function Project(row: JsonObject, names: seq<string>): (r: Result<seq<string>>)
    ensures r.Ok? <==> forall i :: 0 <= i < |names| ==> names[i] in row.values
    ensures r.Ok? ==>
      |r.value| == |names| && forall i :: 0 <= i < |names| ==> r.value[i] == row.values[names[i]]
    ensures r.Err? ==> r.error == KeyError
  {
    if forall i :: 0 <= i < |names| ==> names[i] in row.values then
      Ok(seq(|names|, i requires 0 <= i < |names| => row.values[names[i]]))
    else Err(KeyError)
  }

  /** The CSV line of one object: its values in field order, joined by
      commas. */
  function CsvLine(names: seq<string>): JsonObject -> Result<string>
  {
    row => match Project(row, names)
           case Err(e) => Err(e)
           case Ok(values) => Ok(Join(values, ','))
  }

  /** Lines each followed by a newline. */
  function Terminated(lines: seq<string>): string
  {
    if lines == [] then [] else lines[0] + "\n" + Terminated(lines[1..])
  }

  /** Appending a line to the text appends it, newline and all. */
  lemma {:induction false} TerminatedSnoc(lines: seq<string>, line: string)
    ensures Terminated(lines + [line]) == Terminated(lines) + line + "\n"
    decreases |lines|
  {
    if lines != [] {
      assert (lines + [line])[1..] == lines[1..] + [line];
      TerminatedSnoc(lines[1..], line);
    } else {
      assert [line][1..] == [];
    }
  }

  /** Text made of newline-free lines splits back into them, with the
      empty piece after the final newline. */
  lemma {:induction false} SplitTerminated(lines: seq<string>)
    requires forall i :: 0 <= i < |lines| ==> '\n' !in lines[i]
    ensures Split(Terminated(lines), '\n') == lines + [[]]
    decreases |lines|
  {
    if lines != [] {
      SplitTerminated(lines[1..]);
      SplitAround(lines[0], Terminated(lines[1..]), '\n');
      SplitNoSep(lines[0], '\n');
      assert lines[0] + "\n" + Terminated(lines[1..]) == lines[0] + ['\n'] + Terminated(lines[1..]);
      assert lines == [lines[0]] + lines[1..];
    }
  }

  /** What `json2csv` returns for a parsed document: `''` for an empty one;
      otherwise, under the first object's keys in sorted order, the
      optional header line and one line per object, each ended by a
      newline; an object lacking one of the keys is a KeyError. */
  function Json2CsvOf(doc: seq<JsonObject>, header: bool): Result<string>
  {
    if doc == [] then Ok([])
    else
      var names := Sort(doc[0].keys);
      var head := if header then [Join(names, ',')] else [];
      match Collect(CsvLine(names), doc)
      case Err(e) => Err(e)
      case Ok(lines) => Ok(Terminated(head + lines))
  }

  /** `json2csv(jsondata, header)` on the document `json.loads` returned. */
  method Json2Csv(doc: seq<JsonObject>, header: bool) returns (result: Result<string>)
    ensures result == Json2CsvOf(doc, header)
  {
    if doc == [] {
      return Ok([]);  // no JSON data found
    }
    var fldnames := Sort(doc[0].keys);
    var csvdata := if header then Join(fldnames, ',') + "\n" else "";
    ghost var head := if header then [Join(fldnames, ',')] else [];
    ghost var f := CsvLine(fldnames);
    assert csvdata == Terminated(head + []);
    for i := 0 to |doc|
      invariant Collect(f, doc[..i]).Ok?
      invariant csvdata == Terminated(head + Collect(f, doc[..i]).value)
    {
      assert doc[..i + 1] == doc[..i] + [doc[i]];
      var values := Project(doc[i], fldnames);
      if values.Err? {
        assert f(doc[i]).Err?;
        CollectSnocErr(f, doc[..i], doc[i]);
        SplitAt(doc, i + 1);
        CollectErrAppend(f, doc[..i + 1], doc[i + 1..]);
        return Err(KeyError);
      }
      var line := Join(values.value, ',');
      assert f(doc[i]) == Ok(line);
      CollectSnoc(f, doc[..i], doc[i]);
      ghost var done := Collect(f, doc[..i]).value;
      assert head + (done + [line]) == (head + done) + [line];
      TerminatedSnoc(head + done, line);
      AppendAssociative(csvdata, line, "\n");
      csvdata := csvdata + (line + "\n");
    }
    assert doc[..|doc|] == doc;
    return Ok(csvdata);
  }

  /** A cell CSV can carry unchanged: not empty, and without a comma or a
      line break. */
  predicate PlainCell(s: string)
  {
    s != [] && ',' !in s && '\n' !in s
  }

  /** An object whose keys and values are all plain cells. */
  predicate PlainObject(o: JsonObject)
  {
    forall k :: k in o.values ==> PlainCell(k) && PlainCell(o.values[k])
  }

  /** The sorted keys of a well-formed object list each of its keys once. */
  lemma SortedKeys(o: JsonObject)
    requires Valid(o)
    ensures |Sort(o.keys)| == |o.keys|
    ensures NoDups(Sort(o.keys))
    ensures forall k :: k in Sort(o.keys) <==> k in o.values
  {
    var names := Sort(o.keys);
    SortSorts(o.keys);
    assert |names| == |multiset(names)| == |multiset(o.keys)| == |o.keys|;
    PermutationNoDups(o.keys, names);
    forall k
      ensures k in names <==> k in o.keys
    {
      assert k in names <==> k in multiset(names);
      assert k in o.keys <==> k in multiset(o.keys);
    }
  }

  /** Storing an object's values back under its own keys, in any order
      without repetitions, rebuilds the same mapping in that key order. */
  lemma PutAllRebuilds(o: JsonObject, names: seq<string>)
    requires Valid(o) && NoDups(names)
    requires forall k :: k in names <==> k in o.values
    ensures Project(o, names).Ok?
    ensures PutAll(Zip(names, Project(o, names).value)).values == o.values
    ensures PutAll(Zip(names, Project(o, names).value)).keys == names
  {
    var cells := Project(o, names).value;
    PutAllValues(names, cells, o.values);
    PutAllOrder(Zip(names, cells));
    DistinctNoDups(names);
  }

  /** Distinct names with the values a mapping has for them rebuild the
      mapping, when they are its keys. */
  lemma PutAllValues(names: seq<string>, cells: seq<string>, m: map<string, string>)
    requires NoDups(names) && |cells| == |names|
    requires forall k :: k in names <==> k in m
    requires forall i :: 0 <= i < |names| ==> cells[i] == m[names[i]]
    ensures PutAll(Zip(names, cells)).values == m
  {
    var pairs := Zip(names, cells);
    var d := PutAll(pairs);
    PutAllKeys(pairs);
    assert d.values.Keys == m.Keys;
    forall k | k in m
      ensures d.values[k] == m[k]
    {
      var j :| 0 <= j < |names| && names[j] == k;
      assert forall i :: j < i < |pairs| ==> pairs[i].0 != pairs[j].0;
      PutAllLookup(pairs, j);
    }
  }

  /** A line of plain cells, joined by commas, has no line break, is not
      blank, and splits back into its cells. */
  lemma PlainLine(cells: seq<string>)
    requires PlainLineOf(cells)
    ensures '\n' !in Join(cells, ',') && Join(cells, ',') != []
    ensures Split(Join(cells, ','), ',') == cells
  {
    JoinAvoids(cells, ',', '\n');
    SplitJoin(cells, ',');
    assert cells[0] != [];
    if |cells| > 1 {
      assert Join(cells, ',') == cells[0] + [','] + Join(cells[1..], ',');
    }
  }

  /** CSV text with a header line of `names` and one line per row of
      cells, each line ended by a newline. */
  function CsvText(names: seq<string>, rows: seq<seq<string>>): string
  {
    Terminated([Join(names, ',')] + seq(|rows|, i requires 0 <= i < |rows| => Join(rows[i], ',')))
  }

  /** The lines of CSV text made of plain cells: the header, then the
      rows, none blank; the empty piece after the last newline is not a
      line. */
  lemma CsvTextLines(names: seq<string>, rows: seq<seq<string>>)
    requires PlainLineOf(names)
    requires forall i :: 0 <= i < |rows| ==> PlainLineOf(rows[i])
    ensures var lines := Split(CsvText(names, rows), '\n');
      && lines[0] == Join(names, ',')
      && DataRows(lines, true) == seq(|rows|, i requires 0 <= i < |rows| => Join(rows[i], ','))
  {
    var h := Join(names, ',');
    var ls := seq(|rows|, i requires 0 <= i < |rows| => Join(rows[i], ','));
    var all := [h] + ls;
    PlainLine(names);
    forall i | 0 <= i < |all|
      ensures '\n' !in all[i] && all[i] != []
    {
      if i > 0 {
        PlainLine(rows[i - 1]);
      }
    }
    SplitTerminated(all);
    NonBlankKeepsAll(all);
    NonBlankAppend(all, [[]]);
    assert NonBlank([[]]) == [];
  }

  /** Reading well-formed CSV text with `csv2json` gives one dictionary per
      row, holding the row's cells under the header's names. */
  lemma ReadCsvText(names: seq<string>, rows: seq<seq<string>>)
    requires PlainLineOf(names)
    requires forall i :: 0 <= i < |rows| ==> PlainLineOf(rows[i]) && |rows[i]| == |names|
    ensures Csv2JsonOf(CsvText(names, rows), true) ==
      Ok(Rows(seq(|rows|, i requires 0 <= i < |rows| => PutAll(Zip(names, rows[i])))))
  {
    var text := CsvText(names, rows);
    var ls := seq(|rows|, i requires 0 <= i < |rows| => Join(rows[i], ','));
    assert text == Join(names, ',') + "\n" + Terminated(ls);
    CsvTextLines(names, rows);
    PlainLine(names);
    Csv2JsonRows(text, true);
    forall i | 0 <= i < |ls|
      ensures Split(ls[i], ',') == rows[i]
    {
      PlainLine(rows[i]);
    }
    var lines := Split(text, '\n');
    assert FieldNames(lines[0], true) == names;
    assert DataRows(lines, true) == ls;
    assert !HasShortLine(names, ls);
    var back := Csv2JsonOf(text, true).value.rows;
    var expected := seq(|rows|, i requires 0 <= i < |rows| => PutAll(Zip(names, rows[i])));
    assert |back| == |expected|;
    forall i | 0 <= i < |rows|
      ensures back[i] == expected[i]
    {
      assert back[i] == PutAll(Zip(names, Split(ls[i], ',')));
    }
    assert back == expected;
  }

  /** `json2csv` with a header writes the sorted keys of the first object
      and then each object's values in that order. */
  lemma WriteCsvText(doc: seq<JsonObject>)
    requires doc != [] && Valid(doc[0])
    requires forall i :: 0 <= i < |doc| ==> doc[i].values.Keys == doc[0].values.Keys
    ensures var names := Sort(doc[0].keys);
      && (forall i :: 0 <= i < |doc| ==> Project(doc[i], names).Ok?)
      && Json2CsvOf(doc, true) ==
           Ok(CsvText(names, seq(|doc|, i requires 0 <= i < |doc| => Project(doc[i], names).value)))
  {
    var names := Sort(doc[0].keys);
    SortedKeys(doc[0]);
    var f := CsvLine(names);
    var rows := seq(|doc|, i requires 0 <= i < |doc| => Project(doc[i], names).value);
    forall i | 0 <= i < |doc|
      ensures Project(doc[i], names).Ok?
      ensures f(doc[i]) == Ok(Join(rows[i], ','))
    {
      assert forall j :: 0 <= j < |names| ==> names[j] in doc[i].values;
    }
    CollectMeaning(f, doc);
    assert Collect(f, doc).value == seq(|rows|, i requires 0 <= i < |rows| => Join(rows[i], ','));
  }

  /** `csv2json(json2csv(doc))` gives the document back: for a non-empty
      list of objects that share their keys, with plain keys and values,
      every object comes back with the same values, its keys now in sorted
      order. */
  lemma Json2CsvRoundTrip(doc: seq<JsonObject>)
    requires doc != [] && doc[0].keys != []
    requires forall i :: 0 <= i < |doc| ==>
      Valid(doc[i]) && doc[i].values.Keys == doc[0].values.Keys && PlainObject(doc[i])
    ensures Json2CsvOf(doc, true).Ok?
    ensures var back := Csv2JsonOf(Json2CsvOf(doc, true).value, true);
      && back.Ok? && back.value.Rows? && |back.value.rows| == |doc|
      && forall i :: 0 <= i < |doc| ==>
           back.value.rows[i].values == doc[i].values && back.value.rows[i].keys == Sort(doc[0].keys)
  {
    var names := Sort(doc[0].keys);
    SortedKeys(doc[0]);
    WriteCsvText(doc);
    var rows := seq(|doc|, i requires 0 <= i < |doc| => Project(doc[i], names).value);
    forall j | 0 <= j < |names|
      ensures PlainCell(names[j])
    {
      assert names[j] in doc[0].values;
    }
    forall i | 0 <= i < |doc|
      ensures PlainLineOf(rows[i]) && |rows[i]| == |names|
      ensures PutAll(Zip(names, rows[i])).values == doc[i].values
      ensures PutAll(Zip(names, rows[i])).keys == names
    {
      PutAllRebuilds(doc[i], names);
      forall j | 0 <= j < |rows[i]|
        ensures PlainCell(rows[i][j])
      {
        assert names[j] in doc[i].values;
      }
    }
    ReadCsvText(names, rows);
  }

  /** The cells of a line are all plain and there is at least one. */
  predicate PlainLineOf(cells: seq<string>)
  {
    cells != [] && forall i :: 0 <= i < |cells| ==> PlainCell(cells[i])
  }
}
