/** `readCsv`: an MCP `fields.csv` or `methods.csv` file as a table from its
    first column to its second. The header line is read and thrown away; every
    later line is split on ',' and must have at least two pieces. */
module CsvReader {
  import opened Wrappers
  import opened JavaStrings
  import opened LinkedMaps
  import opened ReaderCommon

  /** A line `parts[1]` would run past: fewer than two comma pieces. */
  predicate MalformedCsvLine(line: string) {
    |Split(line, ',')| < 2
  }

  /** The entry a well-formed line puts: its first column to its second. */
  function ParseCsvLine(line: string): Option<Entry> {
    var parts := Split(line, ',');
    if |parts| < 2 then None else Some(Entry(parts[0], parts[1]))
  }

  /** No line of `rows` is malformed. */
  predicate WellFormedRows(rows: seq<string>) {
    rows == [] || (WellFormedRows(rows[..|rows| - 1]) && !MalformedCsvLine(rows[|rows| - 1]))
  }

  lemma {:induction false} WellFormedRowsAll(rows: seq<string>)
    ensures WellFormedRows(rows) <==> forall j :: 0 <= j < |rows| ==> !MalformedCsvLine(rows[j])
  {
    if rows != [] {
      var n := |rows| - 1;
      WellFormedRowsAll(rows[..n]);
      if WellFormedRows(rows) {
        forall j | 0 <= j < |rows|
          ensures !MalformedCsvLine(rows[j])
        {
          if j < n {
            assert rows[..n][j] == rows[j];
          }
        }
      }
      if forall j :: 0 <= j < |rows| ==> !MalformedCsvLine(rows[j]) {
        forall j | 0 <= j < n
          ensures !MalformedCsvLine(rows[..n][j])
        {
          assert rows[..n][j] == rows[j];
        }
      }
    }
  }

  /** The puts the loop performs for the lines after the header, in order. */
  function CsvEntries(rows: seq<string>): seq<Entry> {
    if rows == [] then []
    else
      var n := |rows| - 1;
      CsvEntries(rows[..n]) + (match ParseCsvLine(rows[n]) case None => [] case Some(e) => [e])
  }

  /** What `readCsv` returns or throws for the given lines. */
  function ReadCsvSpec(lines: seq<string>): Result<Table, ReadError> {
    if lines == [] then Failure(NoSuchElement)
    else if !WellFormedRows(lines[1..]) then Failure(ArrayIndexOutOfBounds)
    else Success(PutAll([], CsvEntries(lines[1..])))
  }

  method ReadCsv(lines: seq<string>) returns (r: Result<Table, ReadError>)
    ensures r == ReadCsvSpec(lines)
  {
    if lines == [] {
      return Failure(NoSuchElement);
    }
    var mappings: Table := [];
    var i := 1;
    while i < |lines|
      invariant 1 <= i <= |lines|
      invariant WellFormedRows(lines[1..i])
      invariant mappings == PutAll([], CsvEntries(lines[1..i]))
    {
      var parts := Split(lines[i], ',');
      if |parts| < 2 {
        CsvFailsAt(lines, i);
        return Failure(ArrayIndexOutOfBounds);
      }
      CsvStep(lines, i);
      PutAllSnoc([], CsvEntries(lines[1..i]), Entry(parts[0], parts[1]));
      mappings := Put(mappings, parts[0], parts[1]);
      i := i + 1;
    }
    assert lines[1..i] == lines[1..];
    return Success(mappings);
  }

  lemma CsvFailsAt(lines: seq<string>, i: nat)
    requires 1 <= i < |lines| && MalformedCsvLine(lines[i])
    ensures !WellFormedRows(lines[1..])
  {
    WellFormedRowsAll(lines[1..]);
    assert lines[1..][i - 1] == lines[i];
  }

  lemma CsvStep(lines: seq<string>, i: nat)
    requires 1 <= i < |lines| && !MalformedCsvLine(lines[i])
    ensures WellFormedRows(lines[1..i + 1]) == WellFormedRows(lines[1..i])
    ensures CsvEntries(lines[1..i + 1])
         == CsvEntries(lines[1..i]) + [Entry(Split(lines[i], ',')[0], Split(lines[i], ',')[1])]
  {
    assert lines[1..i + 1][..i - 1] == lines[1..i];
  }

  /** The header line plays no part in the result. */
  lemma CsvHeaderIgnored(h1: string, h2: string, rows: seq<string>)
    ensures ReadCsvSpec([h1] + rows) == ReadCsvSpec([h2] + rows)
  {
    assert ([h1] + rows)[1..] == rows && ([h2] + rows)[1..] == rows;
  }

  /** Reading fails exactly when there is no line at all, or when a line
      after the header has fewer than two comma pieces. */
  lemma CsvFailures(lines: seq<string>)
    ensures ReadCsvSpec(lines) == Failure(NoSuchElement) <==> lines == []
    ensures ReadCsvSpec(lines) == Failure(ArrayIndexOutOfBounds) <==>
      lines != [] && exists i :: 1 <= i < |lines| && MalformedCsvLine(lines[i])
  {
    if lines != [] {
      WellFormedRowsAll(lines[1..]);
      assert forall i :: 1 <= i < |lines| ==> lines[1..][i - 1] == lines[i];
    }
  }

  /** With every line well formed, the loop puts one entry per line. */
  lemma {:induction false} CsvEntriesPerLine(rows: seq<string>)
    requires WellFormedRows(rows)
    ensures |CsvEntries(rows)| == |rows|
    ensures forall i :: 0 <= i < |rows| ==> Some(CsvEntries(rows)[i]) == ParseCsvLine(rows[i])
  {
    if rows != [] {
      var n := |rows| - 1;
      CsvEntriesPerLine(rows[..n]);
      var e := ParseCsvLine(rows[n]).value;
      assert CsvEntries(rows) == CsvEntries(rows[..n]) + [e];
      forall i | 0 <= i < |rows|
        ensures Some(CsvEntries(rows)[i]) == ParseCsvLine(rows[i])
      {
        if i < n {
          assert rows[..n][i] == rows[i];
        }
      }
    }
  }

  /** The entries put for the lines after the header, one per line. */
  lemma CsvEntriesOfLines(lines: seq<string>)
    requires ReadCsvSpec(lines).Success?
    ensures |CsvEntries(lines[1..])| == |lines| - 1
    ensures forall i :: 1 <= i < |lines| ==> Some(CsvEntries(lines[1..])[i - 1]) == ParseCsvLine(lines[i])
    ensures MapOf(ReadCsvSpec(lines).value) == MapOf(CsvEntries(lines[1..]))
  {
    CsvEntriesPerLine(lines[1..]);
    forall i | 1 <= i < |lines|
      ensures Some(CsvEntries(lines[1..])[i - 1]) == ParseCsvLine(lines[i])
    {
      CsvEntryAt(lines, i);
    }
    CsvTableDenotes(lines);
  }

  /** A line's first column that no later line repeats is mapped to that
      line's second column: a repeated id keeps its last value. */
  lemma CsvLastWins(lines: seq<string>, i: nat, k: string, v: string)
    requires ReadCsvSpec(lines).Success?
    requires 1 <= i < |lines| && ParseCsvLine(lines[i]) == Some(Entry(k, v))
    requires forall j :: i < j < |lines| && ParseCsvLine(lines[j]).Some? ==> ParseCsvLine(lines[j]).value.key != k
    ensures k in MapOf(ReadCsvSpec(lines).value) && MapOf(ReadCsvSpec(lines).value)[k] == v
  {
    var es := CsvEntries(lines[1..]);
    CsvEntryAt(lines, i);
    CsvNoLaterKey(lines, i, k);
    LastWins(es, i - 1);
    CsvTableDenotes(lines);
  }

  lemma CsvNoLaterKey(lines: seq<string>, i: nat, k: string)
    requires ReadCsvSpec(lines).Success? && 1 <= i < |lines|
    requires forall j :: i < j < |lines| && ParseCsvLine(lines[j]).Some? ==> ParseCsvLine(lines[j]).value.key != k
    ensures |CsvEntries(lines[1..])| == |lines| - 1
    ensures forall j :: i - 1 < j < |lines| - 1 ==> CsvEntries(lines[1..])[j].key != k
  {
    CsvEntryAt(lines, i);
    forall j | i - 1 < j < |lines| - 1
      ensures CsvEntries(lines[1..])[j].key != k
    {
      CsvEntryAt(lines, j + 1);
      assert ParseCsvLine(lines[j + 1]).value.key != k;
    }
  }

  /** The table read denotes the dictionary of the puts. */
  lemma CsvTableDenotes(lines: seq<string>)
    requires ReadCsvSpec(lines).Success?
    ensures MapOf(ReadCsvSpec(lines).value) == MapOf(CsvEntries(lines[1..]))
  {
    var es := CsvEntries(lines[1..]);
    PutAllDenotes([], es);
    assert [] + es == es;
  }

  /** The entry put for line `i` of a file that reads cleanly. */
  lemma CsvEntryAt(lines: seq<string>, i: nat)
    requires ReadCsvSpec(lines).Success? && 1 <= i < |lines|
    ensures |CsvEntries(lines[1..])| == |lines| - 1
    ensures ParseCsvLine(lines[i]) == Some(CsvEntries(lines[1..])[i - 1])
  {
    var rows := lines[1..];
    CsvEntriesPerLine(rows);
    assert rows[i - 1] == lines[i];
  }

  /** The table's keys are the first columns of the lines after the header. */
  lemma CsvKeys(lines: seq<string>)
    requires ReadCsvSpec(lines).Success?
    ensures forall k :: k in MapOf(ReadCsvSpec(lines).value) <==>
      exists i, v :: 1 <= i < |lines| && ParseCsvLine(lines[i]) == Some(Entry(k, v))
  {
    forall k
      ensures k in MapOf(ReadCsvSpec(lines).value) <==>
        exists i, v :: 1 <= i < |lines| && ParseCsvLine(lines[i]) == Some(Entry(k, v))
    {
      if k in MapOf(ReadCsvSpec(lines).value) {
        CsvKeyHasLine(lines, k);
      }
      if exists i, v :: 1 <= i < |lines| && ParseCsvLine(lines[i]) == Some(Entry(k, v)) {
        var i, v :| 1 <= i < |lines| && ParseCsvLine(lines[i]) == Some(Entry(k, v));
        CsvLineHasKey(lines, i);
      }
    }
  }

  lemma CsvKeyHasLine(lines: seq<string>, k: string)
    requires ReadCsvSpec(lines).Success? && k in MapOf(ReadCsvSpec(lines).value)
    ensures exists i, v :: 1 <= i < |lines| && ParseCsvLine(lines[i]) == Some(Entry(k, v))
  {
    CsvEntriesOfLines(lines);
    var es := CsvEntries(lines[1..]);
    MapOfKeys(es);
    var j :| 0 <= j < |es| && es[j].key == k;
    CsvEntryAt(lines, j + 1);
    assert ParseCsvLine(lines[j + 1]) == Some(Entry(k, es[j].value));
  }

  lemma CsvLineHasKey(lines: seq<string>, i: nat)
    requires ReadCsvSpec(lines).Success? && 1 <= i < |lines| && ParseCsvLine(lines[i]).Some?
    ensures ParseCsvLine(lines[i]).value.key in MapOf(ReadCsvSpec(lines).value)
  {
    CsvEntriesOfLines(lines);
    var es := CsvEntries(lines[1..]);
    MapOfKeys(es);
    CsvEntryAt(lines, i);
    assert es[i - 1].key == ParseCsvLine(lines[i]).value.key;
  }

  /** The table read is a LinkedHashMap: no id stands twice, however often
      the file repeats it. */
  lemma CsvDistinct(lines: seq<string>)
    requires ReadCsvSpec(lines).Success?
    ensures DistinctKeys(ReadCsvSpec(lines).value)
  {
    PutAllDenotes([], CsvEntries(lines[1..]));
  }

  /** A header and two lines for the same id `a`: the table holds one entry,
      with the second line's name. */
  lemma CsvRepeatedId(h: string, a: string, b: string, c: string, lines: seq<string>)
    requires ',' !in a && ',' !in b && ',' !in c && b != "" && c != ""
    requires lines == [h, a + "," + b, a + "," + c]
    ensures ReadCsvSpec(lines) == Success([Entry(a, c)])
  {
    var rows := lines[1..];
    assert ParseCsvLine(rows[0]) == Some(Entry(a, b)) by {
      SplitPair(a, b, ',');
    }
    assert ParseCsvLine(rows[1]) == Some(Entry(a, c)) by {
      SplitPair(a, c, ',');
    }
    TwoRows(rows);
    assert PutAll([], [Entry(a, b), Entry(a, c)]) == [Entry(a, c)] by {
      assert [Entry(a, b), Entry(a, c)][..1] == [Entry(a, b)];
      assert [Entry(a, b)][..0] == [];
      assert PutAll([], [Entry(a, b)]) == [Entry(a, b)];
      assert KeyIndex([Entry(a, b)], a) == Some(0);
    }
  }

  // Kept apart from CsvRepeatedId, whose solver query it makes small.
  lemma TwoRows(rows: seq<string>)
    requires |rows| == 2 && ParseCsvLine(rows[0]).Some? && ParseCsvLine(rows[1]).Some?
    ensures WellFormedRows(rows)
    ensures CsvEntries(rows) == [ParseCsvLine(rows[0]).value, ParseCsvLine(rows[1]).value]
  {
    var first := rows[..1];
    assert first[..0] == [] && first[0] == rows[0];
    assert WellFormedRows(first) && CsvEntries(first) == [ParseCsvLine(rows[0]).value] by {
      assert !MalformedCsvLine(rows[0]);
    }
    assert !MalformedCsvLine(rows[1]);
  }
}
