/** `csv_count` of dougerino.py: how often each value occurs in one column
    of a CSV file. The header comes from the file's first line, split on
    plain commas; the records are the rows the CSV reader yields for the
    whole file, the header row first. */
module CsvCount {
  import opened Values
  import opened Strings
  import opened Sorting
  import opened Dicts

  /** The column argument: a position or a header name. */
  datatype Column = Position(index: int) | Named(name: string)

  /** The first header name equal to `name` ignoring case, if any. */
  function FirstMatch(colnames: seq<string>, name: string): (r: Option<nat>)
    ensures r.Some? ==> r.value < |colnames| && Lower(colnames[r.value]) == Lower(name)
    ensures r.Some? ==> forall j :: 0 <= j < r.value ==> Lower(colnames[j]) != Lower(name)
    ensures r.None? ==> forall j :: 0 <= j < |colnames| ==> Lower(colnames[j]) != Lower(name)
  {
    if colnames == [] then None
    else if Lower(colnames[0]) == Lower(name) then Some(0)
    else
      match FirstMatch(colnames[1..], name)
      case None => None
      case Some(i) => Some(i + 1)
  }

  /** The column of a name: its first case-insensitive match, or column 0
      when there is none. */
  function NamedColumn(colnames: seq<string>, name: string): nat
  {
    match FirstMatch(colnames, name)
    case None => 0
    case Some(i) => i
  }

  /** The search loop of `csv_count` for a named column. */
  method FindColumn(colnames: seq<string>, name: string) returns (colno: nat)
    ensures colno == NamedColumn(colnames, name)
  {
    colno := 0;  // default if not found in CSV header
    for fieldno := 0 to |colnames|
      invariant forall j :: 0 <= j < fieldno ==> Lower(colnames[j]) != Lower(name)
    {
      if Lower(colnames[fieldno]) == Lower(name) {
        colno := fieldno;
        return;
      }
    }
  }

  /** The column number the counting reads: a position must name a header
      cell (negative ones count from the end), else it is an IndexError. */
  function ColumnNumber(firstLine: string, column: Column): (r: Result<int>)
    ensures column.Position? ==>
      (r.Ok? <==> -|Split(Strip(firstLine), ',')| <= column.index < |Split(Strip(firstLine), ',')|)
    ensures column.Position? && r.Ok? ==> r.value == column.index
    ensures column.Named? ==> r == Ok(NamedColumn(Split(Strip(firstLine), ','), column.name))
    ensures r.Err? ==> r.error == IndexError
  {
    var colnames := Split(Strip(firstLine), ',');
    match column
    case Position(i) => (match At(colnames, i) case Err(e) => Err(e) case Ok(_) => Ok(i))
    case Named(name) => Ok(NamedColumn(colnames, name))
  }

  /** The records after the header row. */
  function DataRecords(records: seq<seq<string>>): seq<seq<string>>
  {
    if records == [] then [] else records[1..]
  }

  /** `values[colno]` as a function of the record. */
  function KeyReader(colno: int): seq<string> -> Result<string>
  {
    values => At(values, colno)
  }

  /** The counts of the keys, counted one after the other into an empty
      ordered dictionary. */
  function Tally(keys: seq<string>): (d: Dict<int>)
    ensures Valid(d)
  {
    if keys == [] then Empty()
    else
      var n := |keys| - 1;
      var d := Tally(keys[..n]);
      var key := keys[n];
      if key in d.values then Put(d, key, d.values[key] + 1) else Put(d, key, 1)
  }

  /** What `csv_count(csvfile, column)` returns. */
  function CsvCountOf(firstLine: string, records: seq<seq<string>>, column: Column): Result<Dict<int>>
  {
    match ColumnNumber(firstLine, column)
    case Err(e) => Err(e)
    case Ok(colno) =>
      match Collect(KeyReader(colno), DataRecords(records))
      case Err(e) => Err(e)
      case Ok(keys) => Ok(Tally(keys))
  }

  /** `csv_count` over the file's first line and its CSV records. */
  method Count(firstLine: string, records: seq<seq<string>>, column: Column) returns (r: Result<Dict<int>>)
    ensures r == CsvCountOf(firstLine, records, column)
  {
    var colnames := Split(Strip(firstLine), ',');
    var colno: int;
    match column {
      case Position(i) =>
        colno := i;
        var colname := At(colnames, colno);
        if colname.Err? {
          return Err(colname.error);
        }
      case Named(name) =>
        colno := FindColumn(colnames, name);
    }
    var data := DataRecords(records);  // skip header
    ghost var keys: seq<string> := [];
    var unique: Dict<int> := Empty();
    for i := 0 to |data|
      invariant Collect(KeyReader(colno), data[..i]) == Ok(keys)
      invariant unique == Tally(keys)
    {
      var key := At(data[i], colno);
      if key.Err? {
        CountFails(data, i, colno);
        return Err(key.error);
      }
      CountGrows(data, i, colno, keys);
      if key.value in unique.values {
        unique := Put(unique, key.value, unique.values[key.value] + 1);
      } else {
        unique := Put(unique, key.value, 1);
      }
      keys := keys + [key.value];
    }
    assert data[..|data|] == data;
    return Ok(unique);
  }

  /** A record with the column adds its key to the keys counted. */
  lemma CountGrows(data: seq<seq<string>>, i: nat, colno: int, keys: seq<string>)
    requires i < |data|
    requires Collect(KeyReader(colno), data[..i]) == Ok(keys) && At(data[i], colno).Ok?
    ensures var key := At(data[i], colno).value;
      && Collect(KeyReader(colno), data[..i + 1]) == Ok(keys + [key])
      && Tally(keys + [key]) ==
           if key in Tally(keys).values then Put(Tally(keys), key, Tally(keys).values[key] + 1)
           else Put(Tally(keys), key, 1)
  {
    CollectSnoc(KeyReader(colno), data[..i], data[i]);
    assert data[..i + 1] == data[..i] + [data[i]];
    assert (keys + [At(data[i], colno).value])[..|keys|] == keys;
  }

  /** A record without the column makes the whole count fail. */
  lemma CountFails(data: seq<seq<string>>, i: nat, colno: int)
    requires i < |data|
    requires Collect(KeyReader(colno), data[..i]).Ok? && At(data[i], colno).Err?
    ensures Collect(KeyReader(colno), data) == Err(IndexError)
  {
    var f := KeyReader(colno);
    CollectSnocErr(f, data[..i], data[i]);
    assert data[..i + 1] == data[..i] + [data[i]];
    SplitAt(data, i + 1);
    CollectErrAppend(f, data[..i + 1], data[i + 1..]);
  }

  /** The keys of the counts are the distinct keys in order of first
      appearance. */
  lemma {:induction false} TallyOrder(keys: seq<string>)
    ensures Tally(keys).keys == Distinct(keys)
    decreases |keys|
  {
    if keys != [] {
      var n := |keys| - 1;
      var d := Tally(keys[..n]);
      assert d.keys == Distinct(keys[..n]) by {
        TallyOrder(keys[..n]);
      }
      assert Distinct(keys) == if keys[n] in d.keys then d.keys else d.keys + [keys[n]];
      assert Tally(keys).keys == if keys[n] in d.keys then d.keys else d.keys + [keys[n]];
    }
  }

  /** Each key's count is the number of times it occurs, and only keys that
      occur are counted. */
  lemma {:induction false} TallyCounts(keys: seq<string>)
    ensures forall k :: k in Tally(keys).values <==> k in keys
    ensures forall k :: k in Tally(keys).values ==> Tally(keys).values[k] == multiset(keys)[k]
    decreases |keys|
  {
    if keys != [] {
      var n := |keys| - 1;
      TallyCounts(keys[..n]);
      assert keys[..n] + [keys[n]] == keys;
      assert multiset(keys) == multiset(keys[..n]) + multiset{keys[n]};
    }
  }

  /** The sum of the values of `ks` in `m`. */
  function SumOver(ks: seq<string>, m: map<string, int>): int
    requires forall k :: k in ks ==> k in m
  {
    if ks == [] then 0
    else
      var n := |ks| - 1;
      SumOver(ks[..n], m) + m[ks[n]]
  }

  /** The sum of all the counts. */
  function Total(d: Dict<int>): int
    requires Valid(d)
  {
    SumOver(d.keys, d.values)
  }

  /** A value for a key outside `ks` does not change their sum. */
  lemma {:induction false} SumOverOther(ks: seq<string>, m: map<string, int>, x: string, v: int)
    requires forall k :: k in ks ==> k in m
    requires x !in ks
    ensures SumOver(ks, m[x := v]) == SumOver(ks, m)
    decreases |ks|
  {
    if ks != [] {
      var n := |ks| - 1;
      assert ks[n] in ks;
      SumOverOther(ks[..n], m, x, v);
    }
  }

  /** Changing the value of one key of `ks`, listed once, changes their sum
      by the same amount. */
  lemma {:induction false} SumOverUpdate(ks: seq<string>, m: map<string, int>, x: string, v: int)
    requires forall k :: k in ks ==> k in m
    requires NoDups(ks) && x in ks
    ensures SumOver(ks, m[x := v]) == SumOver(ks, m) - m[x] + v
    decreases |ks|
  {
    var n := |ks| - 1;
    var init := ks[..n];
    assert forall k :: k in init ==> k in ks;
    if ks[n] == x {
      assert x !in init;
      SumOverOther(init, m, x, v);
    } else {
      assert x in init by {
        var j :| 0 <= j < |ks| && ks[j] == x;
        assert j < n && init[j] == x;
      }
      SumOverUpdate(init, m, x, v);
    }
  }

  /** Counting one more key raises the total by one. */
  lemma TotalStep(d: Dict<int>, key: string)
    requires Valid(d)
    ensures var d' := if key in d.values then Put(d, key, d.values[key] + 1) else Put(d, key, 1);
      Total(d') == Total(d) + 1
  {
    if key in d.values {
      SumOverUpdate(d.keys, d.values, key, d.values[key] + 1);
    } else {
      var d' := Put(d, key, 1);
      assert d'.keys[..|d.keys|] == d.keys;
      SumOverOther(d.keys, d.values, key, 1);
    }
  }

  /** The counts add up to the number of keys counted. */
  lemma {:induction false} TallyTotal(keys: seq<string>)
    ensures Total(Tally(keys)) == |keys|
    decreases |keys|
  {
    if keys != [] {
      var n := |keys| - 1;
      TallyTotal(keys[..n]);
      TotalStep(Tally(keys[..n]), keys[n]);
    }
  }

  /** The counts of a list of keys: the distinct keys in order of first
      appearance, each counted as often as it occurs and at least once, the
      counts adding up to the number of keys. */
  lemma TallyMeaning(keys: seq<string>)
    ensures Tally(keys).keys == Distinct(keys)
    ensures forall k :: k in Tally(keys).values ==> Tally(keys).values[k] == multiset(keys)[k] >= 1
    ensures Total(Tally(keys)) == |keys|
  {
    TallyOrder(keys);
    TallyCounts(keys);
    TallyTotal(keys);
  }

  /** Reading the column of every data record succeeds exactly when each
      record has the column, and gives the column's values in order; a
      record without it makes the reading an IndexError. */
  lemma ColumnKeys(data: seq<seq<string>>, colno: int)
    ensures Collect(KeyReader(colno), data).Ok? <==> forall i :: 0 <= i < |data| ==> At(data[i], colno).Ok?
    ensures Collect(KeyReader(colno), data).Err? ==> Collect(KeyReader(colno), data).error == IndexError
    ensures Collect(KeyReader(colno), data).Ok? ==>
      Collect(KeyReader(colno), data).value ==
        seq(|data|, i requires 0 <= i < |data| && At(data[i], colno).Ok? => At(data[i], colno).value)
  {
    var f := KeyReader(colno);
    CollectMeaning(f, data);
    if Collect(f, data).Err? {
      var k :| 0 <= k < |data| && f(data[k]).Err? && Collect(f, data).error == f(data[k]).error;
    }
  }

  /** `csv_count` fails exactly when the column is a position outside the
      header, or some data record lacks the column; then it is an
      IndexError. Otherwise the keys are the column's distinct values in
      order of first appearance, each counted as often as it occurs, every
      count at least one, and the counts add up to the number of data
      records. */
  lemma CsvCountMeaning(firstLine: string, records: seq<seq<string>>, column: Column)
    ensures var r := CsvCountOf(firstLine, records, column);
      var colno := ColumnNumber(firstLine, column);
      var data := DataRecords(records);
      && (r.Ok? <==> colno.Ok? && forall i :: 0 <= i < |data| ==> At(data[i], colno.value).Ok?)
      && (r.Err? ==> r.error == IndexError)
      && (r.Ok? ==>
            var keys := seq(|data|, i requires 0 <= i < |data| && At(data[i], colno.value).Ok? =>
                           At(data[i], colno.value).value);
            && r.value.keys == Distinct(keys)
            && (forall k :: k in r.value.values ==> r.value.values[k] == multiset(keys)[k] >= 1)
            && Total(r.value) == |data|)
  {
    var colno := ColumnNumber(firstLine, column);
    var data := DataRecords(records);
    if colno.Ok? {
      ColumnKeys(data, colno.value);
      var keys := Collect(KeyReader(colno.value), data);
      if keys.Ok? {
        TallyMeaning(keys.value);
      }
    }
  }
}
