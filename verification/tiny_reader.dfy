/** `readTiny`: a Fabric Tiny (v1) file. The header line, split on tabs,
    names a namespace per column after its first; `from` and `to` pick two of
    them. Every later line is split on tabs and read by its first piece:
    `CLASS` puts a class, `FIELD` and `METHOD` a member keyed by owner, name
    (and descriptor), valued by the owner's class as mapped so far; any other
    first piece is ignored. Method values are finally rewritten against the
    class table. */
module TinyReader {
  import opened Wrappers
  import opened JavaStrings
  import opened LinkedMaps
  import opened MappingAlgebra
  import opened ReaderCommon

  // The header

  /** `columns` after the header loop over `header[1..]`: each namespace to
      its index among the namespace columns, a repeated name to its last. */
  function ColumnsOf(header: seq<string>): map<string, nat> {
    if |header| <= 1 then map[]
    else ColumnsOf(header[..|header| - 1])[header[|header| - 1] := |header| - 2]
  }

  /** The namespaces are exactly the header's pieces after the first. */
  lemma {:induction false} ColumnsOfKeys(header: seq<string>)
    ensures forall k :: k in ColumnsOf(header) <==> exists i :: 1 <= i < |header| && header[i] == k
  {
    if |header| > 1 {
      var n := |header| - 1;
      ColumnsOfKeys(header[..n]);
      assert forall i :: 1 <= i < n ==> header[..n][i] == header[i];
    }
  }

  /** A namespace no later piece repeats sits at its own index less one. */
  lemma {:induction false} ColumnsOfIndex(header: seq<string>, i: nat)
    requires 1 <= i < |header|
    requires forall j :: i < j < |header| ==> header[j] != header[i]
    ensures header[i] in ColumnsOf(header) && ColumnsOf(header)[header[i]] == i - 1
  {
    var n := |header| - 1;
    if i < n {
      assert header[..n][i] == header[i];
      ColumnsOfIndex(header[..n], i);
    }
  }

  // The rows

  /** A row one of whose reads `line[...]` runs past its end. */
  predicate MalformedRow(row: seq<string>, fromColumn: nat, toColumn: nat) {
    || row == []
    || (row[0] == "CLASS" && (fromColumn + 1 >= |row| || toColumn + 1 >= |row|))
    || ((row[0] == "FIELD" || row[0] == "METHOD") && (fromColumn + 3 >= |row| || toColumn + 3 >= |row|))
  }

  /** The loop's tables. */
  datatype TinyState = TinyState(classes: Table, fields: Table, methods: Table)

  const TinyStart := TinyState([], [], [])

  /** One pass of the loop over a row; a member's value is owned by the
      owner's class as mapped so far, "null" when there is none yet. */
  function TinyStep(st: TinyState, row: seq<string>, fromColumn: nat, toColumn: nat): Result<TinyState, ReadError> {
    if row == [] then Failure(ArrayIndexOutOfBounds)
    else if row[0] == "CLASS" then
      if fromColumn + 1 >= |row| || toColumn + 1 >= |row| then Failure(ArrayIndexOutOfBounds)
      else Success(st.(classes := Put(st.classes, row[fromColumn + 1], row[toColumn + 1])))
    else if row[0] == "FIELD" then
      if fromColumn + 3 >= |row| || toColumn + 3 >= |row| then Failure(ArrayIndexOutOfBounds)
      else Success(st.(fields := Put(st.fields, row[1] + ":" + row[fromColumn + 3],
                                     NullText(Get(st.classes, row[1])) + ":" + row[toColumn + 3])))
    else if row[0] == "METHOD" then
      if fromColumn + 3 >= |row| || toColumn + 3 >= |row| then Failure(ArrayIndexOutOfBounds)
      else Success(st.(methods := Put(st.methods, row[1] + ":" + row[fromColumn + 3] + row[2],
                                      NullText(Get(st.classes, row[1])) + ":" + row[toColumn + 3] + row[2])))
    else Success(st)
  }

  /** The loop over the lines after the header, stopping at the first exception. */
  function TinyScan(rows: seq<string>, fromColumn: nat, toColumn: nat): Result<TinyState, ReadError> {
    if rows == [] then Success(TinyStart)
    else
      match TinyScan(rows[..|rows| - 1], fromColumn, toColumn)
      case Failure(e) => Failure(e)
      case Success(st) => TinyStep(st, Split(rows[|rows| - 1], '\t'), fromColumn, toColumn)
  }

  /** What `readTiny` returns or throws for the given lines. */
  function ReadTinySpec(lines: seq<string>, from: string, to: string): Result<Mappings, ReadError> {
    if lines == [] then Failure(NoSuchElement)
    else
      var columns := ColumnsOf(Split(lines[0], '\t'));
      if from !in columns || to !in columns then Failure(NullPointer)
      else
        match TinyScan(lines[1..], columns[from], columns[to])
        case Failure(e) => Failure(e)
        case Success(st) => Success(Mappings(st.classes, st.fields, RemapValues(st.methods, MapOf(st.classes))))
  }

  /** The header loop: every namespace after the first piece is put with
      its position among the namespaces, a later repeat overwriting. */
  method HeaderColumns(header: seq<string>) returns (columns: map<string, nat>)
    ensures columns == ColumnsOf(header)
  {
    columns := map[];
    if |header| <= 1 {
      return;
    }
    var i := 1;
    while i < |header|
      invariant 1 <= i <= |header|
      invariant columns == ColumnsOf(header[..i])
    {
      assert header[..i + 1][..i] == header[..i];
      columns := columns[header[i] := i - 1];
      i := i + 1;
    }
    assert header[..i] == header;
  }

  method ReadTiny(lines: seq<string>, from: string, to: string) returns (r: Result<Mappings, ReadError>)
    ensures r == ReadTinySpec(lines, from, to)
  {
    if lines == [] {
      return Failure(NoSuchElement);
    }
    var columns := HeaderColumns(Split(lines[0], '\t'));
    if from !in columns || to !in columns {
      return Failure(NullPointer);
    }
    var fromColumn := columns[from];
    var toColumn := columns[to];

    var scanned := ScanRows(lines[1..], fromColumn, toColumn);
    match scanned
    case Failure(e) => return Failure(e);
    case Success(st) =>
      var remapped := RemapMethodValues(st.methods, st.classes);
      return Success(Mappings(st.classes, st.fields, remapped));
  }

  /** The loop over the lines after the header. */
  method ScanRows(rows: seq<string>, fromColumn: nat, toColumn: nat) returns (r: Result<TinyState, ReadError>)
    ensures r == TinyScan(rows, fromColumn, toColumn)
  {
    var classes: Table := [];
    var fields: Table := [];
    var methods: Table := [];
    var i := 0;
    while i < |rows|
      invariant 0 <= i <= |rows|
      invariant TinyScan(rows[..i], fromColumn, toColumn) == Success(TinyState(classes, fields, methods))
    {
      TinyScanNext(rows, i, fromColumn, toColumn);
      var line := Split(rows[i], '\t');
      if line == [] {
        TinyFailsAt(rows, i, fromColumn, toColumn);
        return Failure(ArrayIndexOutOfBounds);
      }
      if line[0] == "CLASS" {
        if fromColumn + 1 >= |line| || toColumn + 1 >= |line| {
          TinyFailsAt(rows, i, fromColumn, toColumn);
          return Failure(ArrayIndexOutOfBounds);
        }
        classes := Put(classes, line[fromColumn + 1], line[toColumn + 1]);
      } else if line[0] == "FIELD" {
        if fromColumn + 3 >= |line| || toColumn + 3 >= |line| {
          TinyFailsAt(rows, i, fromColumn, toColumn);
          return Failure(ArrayIndexOutOfBounds);
        }
        fields := Put(fields, line[1] + ":" + line[fromColumn + 3],
                      NullText(Get(classes, line[1])) + ":" + line[toColumn + 3]);
      } else if line[0] == "METHOD" {
        if fromColumn + 3 >= |line| || toColumn + 3 >= |line| {
          TinyFailsAt(rows, i, fromColumn, toColumn);
          return Failure(ArrayIndexOutOfBounds);
        }
        methods := Put(methods, line[1] + ":" + line[fromColumn + 3] + line[2],
                       NullText(Get(classes, line[1])) + ":" + line[toColumn + 3] + line[2]);
      }
      i := i + 1;
    }
    assert rows[..i] == rows;
    return Success(TinyState(classes, fields, methods));
  }

  /** The loop's next pass. */
  lemma TinyScanNext(rows: seq<string>, i: nat, fromColumn: nat, toColumn: nat)
    requires i < |rows| && TinyScan(rows[..i], fromColumn, toColumn).Success?
    ensures TinyScan(rows[..i + 1], fromColumn, toColumn)
         == TinyStep(TinyScan(rows[..i], fromColumn, toColumn).value, Split(rows[i], '\t'), fromColumn, toColumn)
  {
    assert rows[..i + 1][..i] == rows[..i];
  }

  /** A malformed row after a clean prefix ends the whole read. */
  lemma TinyFailsAt(rows: seq<string>, i: nat, fromColumn: nat, toColumn: nat)
    requires i < |rows| && TinyScan(rows[..i], fromColumn, toColumn).Success?
    requires MalformedRow(Split(rows[i], '\t'), fromColumn, toColumn)
    ensures TinyScan(rows, fromColumn, toColumn) == Failure(ArrayIndexOutOfBounds)
  {
    TinyScanNext(rows, i, fromColumn, toColumn);
    TinyStepFails(TinyScan(rows[..i], fromColumn, toColumn).value, Split(rows[i], '\t'), fromColumn, toColumn);
    TinyFailureSticks(rows, i + 1, fromColumn, toColumn);
  }

  /** Once the loop has thrown, reading more lines changes nothing. */
  lemma {:induction false} TinyFailureSticks(rows: seq<string>, j: nat, fromColumn: nat, toColumn: nat)
    requires j <= |rows| && TinyScan(rows[..j], fromColumn, toColumn).Failure?
    ensures TinyScan(rows, fromColumn, toColumn) == TinyScan(rows[..j], fromColumn, toColumn)
  {
    if j < |rows| {
      var n := |rows| - 1;
      assert rows[..n][..j] == rows[..j];
      TinyFailureSticks(rows[..n], j, fromColumn, toColumn);
    } else {
      assert rows[..j] == rows;
    }
  }

  /** A row throws exactly when it is malformed, and then always an
      ArrayIndexOutOfBounds. */
  lemma TinyStepFails(st: TinyState, row: seq<string>, fromColumn: nat, toColumn: nat)
    ensures TinyStep(st, row, fromColumn, toColumn).Failure? <==> MalformedRow(row, fromColumn, toColumn)
    ensures TinyStep(st, row, fromColumn, toColumn).Failure? ==>
      TinyStep(st, row, fromColumn, toColumn).error == ArrayIndexOutOfBounds
  {
  }

  /** The loop throws exactly when some row is malformed. */
  lemma {:induction false} TinyScanFails(rows: seq<string>, fromColumn: nat, toColumn: nat)
    ensures TinyScan(rows, fromColumn, toColumn).Success? <==>
      forall i :: 0 <= i < |rows| ==> !MalformedRow(Split(rows[i], '\t'), fromColumn, toColumn)
    ensures TinyScan(rows, fromColumn, toColumn).Failure? ==>
      TinyScan(rows, fromColumn, toColumn).error == ArrayIndexOutOfBounds
  {
    if rows != [] {
      var n := |rows| - 1;
      TinyScanFails(rows[..n], fromColumn, toColumn);
      assert forall i :: 0 <= i < n ==> rows[..n][i] == rows[i];
      if TinyScan(rows[..n], fromColumn, toColumn).Success? {
        TinyStepFails(TinyScan(rows[..n], fromColumn, toColumn).value, Split(rows[n], '\t'), fromColumn, toColumn);
      }
    }
  }

  /** `readTiny` throws NoSuchElement exactly on empty input, NullPointer
      exactly when `from` or `to` is not a namespace of the header, and
      ArrayIndexOutOfBounds exactly when, both being there, some later line
      is malformed. */
  lemma TinyFailures(lines: seq<string>, from: string, to: string)
    ensures ReadTinySpec(lines, from, to) == Failure(NoSuchElement) <==> lines == []
    ensures lines != [] ==>
      var header := Split(lines[0], '\t');
      (ReadTinySpec(lines, from, to) == Failure(NullPointer) <==>
        !(exists i :: 1 <= i < |header| && header[i] == from) || !(exists i :: 1 <= i < |header| && header[i] == to))
    ensures lines != [] ==>
      var columns := ColumnsOf(Split(lines[0], '\t'));
      (ReadTinySpec(lines, from, to) == Failure(ArrayIndexOutOfBounds) <==>
        from in columns && to in columns &&
        exists i :: 1 <= i < |lines| && MalformedRow(Split(lines[i], '\t'), columns[from], columns[to]))
  {
    if lines != [] {
      var columns := ColumnsOf(Split(lines[0], '\t'));
      ColumnsOfKeys(Split(lines[0], '\t'));
      if from in columns && to in columns {
        TinyScanFails(lines[1..], columns[from], columns[to]);
        assert forall i :: 1 <= i < |lines| ==> lines[1..][i - 1] == lines[i];
      }
    }
  }

  /** Reading one more row is one more pass of the loop. */
  lemma TinyScanSnoc(rows: seq<string>, l: string, fromColumn: nat, toColumn: nat)
    requires TinyScan(rows, fromColumn, toColumn).Success?
    ensures TinyScan(rows + [l], fromColumn, toColumn)
         == TinyStep(TinyScan(rows, fromColumn, toColumn).value, Split(l, '\t'), fromColumn, toColumn)
  {
    assert (rows + [l])[..|rows|] == rows;
  }

  /** The tables the loop builds are LinkedHashMaps. */
  lemma {:induction false} TinyStateDistinct(rows: seq<string>, fromColumn: nat, toColumn: nat)
    requires TinyScan(rows, fromColumn, toColumn).Success?
    ensures var st := TinyScan(rows, fromColumn, toColumn).value;
      DistinctKeys(st.classes) && DistinctKeys(st.fields) && DistinctKeys(st.methods)
  {
    if rows != [] {
      var n := |rows| - 1;
      assert rows == rows[..n] + [rows[n]];
      TinyStateDistinct(rows[..n], fromColumn, toColumn);
      TinyScanSnoc(rows[..n], rows[n], fromColumn, toColumn);
      var st := TinyScan(rows[..n], fromColumn, toColumn).value;
      var row := Split(rows[n], '\t');
      if row != [] && row[0] == "CLASS" && fromColumn + 1 < |row| && toColumn + 1 < |row| {
        PutDenotes(st.classes, row[fromColumn + 1], row[toColumn + 1]);
      } else if row != [] && row[0] == "FIELD" && fromColumn + 3 < |row| && toColumn + 3 < |row| {
        PutDenotes(st.fields, row[1] + ":" + row[fromColumn + 3], NullText(Get(st.classes, row[1])) + ":" + row[toColumn + 3]);
      } else if row != [] && row[0] == "METHOD" && fromColumn + 3 < |row| && toColumn + 3 < |row| {
        PutDenotes(st.methods, row[1] + ":" + row[fromColumn + 3] + row[2],
                   NullText(Get(st.classes, row[1])) + ":" + row[toColumn + 3] + row[2]);
      }
    }
  }

  /** The owner text a member row writes: the owner's class as mapped so far,
      or "null". */
  function OwnerText(classes: map<string, string>, owner: string): string {
    if owner in classes then classes[owner] else "null"
  }

  lemma GetOwnerText(t: Table, owner: string)
    ensures NullText(Get(t, owner)) == OwnerText(MapOf(t), owner)
  {
  }

  /** A well-formed `CLASS` row maps its `from` name to its `to` name. */
  lemma TinyClassRowPuts(rows: seq<string>, l: string, fromColumn: nat, toColumn: nat)
    requires TinyScan(rows, fromColumn, toColumn).Success?
    requires var row := Split(l, '\t');
      row != [] && row[0] == "CLASS" && !MalformedRow(row, fromColumn, toColumn)
    ensures TinyScan(rows + [l], fromColumn, toColumn).Success?
    ensures var row := Split(l, '\t');
      var st := TinyScan(rows, fromColumn, toColumn).value;
      var st' := TinyScan(rows + [l], fromColumn, toColumn).value;
      && MapOf(st'.classes) == MapOf(st.classes)[row[fromColumn + 1] := row[toColumn + 1]]
      && st'.fields == st.fields && st'.methods == st.methods
  {
    TinyScanSnoc(rows, l, fromColumn, toColumn);
    TinyStateDistinct(rows, fromColumn, toColumn);
    var row := Split(l, '\t');
    PutDenotes(TinyScan(rows, fromColumn, toColumn).value.classes, row[fromColumn + 1], row[toColumn + 1]);
  }

  /** A well-formed `FIELD` row maps `owner:from-name` to the owner's class
      as mapped so far (or "null") `:to-name`. */
  lemma TinyFieldRowPuts(rows: seq<string>, l: string, fromColumn: nat, toColumn: nat)
    requires TinyScan(rows, fromColumn, toColumn).Success?
    requires var row := Split(l, '\t');
      row != [] && row[0] == "FIELD" && !MalformedRow(row, fromColumn, toColumn)
    ensures TinyScan(rows + [l], fromColumn, toColumn).Success?
    ensures var row := Split(l, '\t');
      var st := TinyScan(rows, fromColumn, toColumn).value;
      var st' := TinyScan(rows + [l], fromColumn, toColumn).value;
      && MapOf(st'.fields) == MapOf(st.fields)[row[1] + ":" + row[fromColumn + 3] :=
                                               OwnerText(MapOf(st.classes), row[1]) + ":" + row[toColumn + 3]]
      && st'.classes == st.classes && st'.methods == st.methods
  {
    TinyScanSnoc(rows, l, fromColumn, toColumn);
    TinyStateDistinct(rows, fromColumn, toColumn);
    var row := Split(l, '\t');
    var st := TinyScan(rows, fromColumn, toColumn).value;
    GetOwnerText(st.classes, row[1]);
    PutDenotes(st.fields, row[1] + ":" + row[fromColumn + 3], OwnerText(MapOf(st.classes), row[1]) + ":" + row[toColumn + 3]);
  }

  /** A well-formed `METHOD` row maps `owner:from-name descriptor` to the
      owner's class as mapped so far (or "null") `:to-name descriptor`,
      before the final rewrite of the descriptor. */
  lemma TinyMethodRowPuts(rows: seq<string>, l: string, fromColumn: nat, toColumn: nat)
    requires TinyScan(rows, fromColumn, toColumn).Success?
    requires var row := Split(l, '\t');
      row != [] && row[0] == "METHOD" && !MalformedRow(row, fromColumn, toColumn)
    ensures TinyScan(rows + [l], fromColumn, toColumn).Success?
    ensures var row := Split(l, '\t');
      var st := TinyScan(rows, fromColumn, toColumn).value;
      var st' := TinyScan(rows + [l], fromColumn, toColumn).value;
      && MapOf(st'.methods) == MapOf(st.methods)[row[1] + ":" + row[fromColumn + 3] + row[2] :=
                                                 OwnerText(MapOf(st.classes), row[1]) + ":" + row[toColumn + 3] + row[2]]
      && st'.classes == st.classes && st'.fields == st.fields
  {
    TinyScanSnoc(rows, l, fromColumn, toColumn);
    TinyStateDistinct(rows, fromColumn, toColumn);
    var row := Split(l, '\t');
    var st := TinyScan(rows, fromColumn, toColumn).value;
    GetOwnerText(st.classes, row[1]);
    PutDenotes(st.methods, row[1] + ":" + row[fromColumn + 3] + row[2],
               OwnerText(MapOf(st.classes), row[1]) + ":" + row[toColumn + 3] + row[2]);
  }

  /** A line whose first piece is none of the three tags changes nothing. */
  lemma TinyOtherTagSkipped(lines: seq<string>, l: string, from: string, to: string)
    requires lines != []
    requires var row := Split(l, '\t'); row != [] && row[0] != "CLASS" && row[0] != "FIELD" && row[0] != "METHOD"
    ensures ReadTinySpec(lines + [l], from, to) == ReadTinySpec(lines, from, to)
  {
    assert (lines + [l])[0] == lines[0];
    assert (lines + [l])[1..] == lines[1..] + [l];
    assert (lines[1..] + [l])[..|lines[1..]|] == lines[1..];
  }

  /** A header with namespaces `from` and `to` gives `from` column 0 and
      `to` column 1. */
  lemma TinyHeader(h0: string, from: string, to: string)
    requires from != to
    ensures ColumnsOf([h0, from, to]) == map[from := 0, to := 1]
  {
    var h := [h0, from, to];
    assert h[..2][..1] == [h0] && h[..2] == [h0, from];
    assert ColumnsOf([h0, from]) == map[from := 0];
    assert ColumnsOf(h) == map[from := 0][to := 1];
  }

  /** A file with one class `a` named `b` in the target namespace, which
      holds one field and one method: members are keyed by the source names
      and valued by the target names under the class's target name. */
  lemma TinyOneClass(lines: seq<string>, h0: string, from: string, to: string, a: string, b: string,
                     fd: string, f: string, g: string, md: string, m: string, n: string)
    requires |lines| == 4 && from != to
    requires Split(lines[0], '\t') == [h0, from, to]
    requires Split(lines[1], '\t') == ["CLASS", a, b]
    requires Split(lines[2], '\t') == ["FIELD", a, fd, f, g]
    requires Split(lines[3], '\t') == ["METHOD", a, md, m, n]
    ensures ReadTinySpec(lines, from, to).Success?
    ensures var r := ReadTinySpec(lines, from, to).value;
      && MapOf(r.classes) == map[a := b]
      && MapOf(r.fields) == map[a + ":" + f := b + ":" + g]
      && r.methods == RemapValues([Entry(a + ":" + m + md, b + ":" + n + md)], map[a := b])
  {
    var st := TinyState([Entry(a, b)], [Entry(a + ":" + f, b + ":" + g)], [Entry(a + ":" + m + md, b + ":" + n + md)]);
    TinyHeader(h0, from, to);
    assert TinyScan(lines[1..], 0, 1) == Success(st) by {
      TinyOneClassRows(lines[1..], a, b, fd, f, g, md, m, n);
    }
    ReadTinyScans(lines, from, to, 0, 1, st);
    assert MapOf(st.classes) == map[a := b];
    assert MapOf(st.fields) == map[a + ":" + f := b + ":" + g];
  }

  /** A header naming both namespaces, then a clean loop over the rest. */
  lemma ReadTinyScans(lines: seq<string>, from: string, to: string, fromColumn: nat, toColumn: nat, st: TinyState)
    requires lines != [] && from != to
    requires ColumnsOf(Split(lines[0], '\t')) == map[from := fromColumn, to := toColumn]
    requires TinyScan(lines[1..], fromColumn, toColumn) == Success(st)
    ensures ReadTinySpec(lines, from, to) == Success(Mappings(st.classes, st.fields, RemapValues(st.methods, MapOf(st.classes))))
  {
    var columns := ColumnsOf(Split(lines[0], '\t'));
    assert from in columns && to in columns;
    assert columns[from] == fromColumn && columns[to] == toColumn;
  }

  lemma TinyOneClassRows(rows: seq<string>, a: string, b: string,
                         fd: string, f: string, g: string, md: string, m: string, n: string)
    requires |rows| == 3
    requires Split(rows[0], '\t') == ["CLASS", a, b]
    requires Split(rows[1], '\t') == ["FIELD", a, fd, f, g]
    requires Split(rows[2], '\t') == ["METHOD", a, md, m, n]
    ensures TinyScan(rows, 0, 1)
         == Success(TinyState([Entry(a, b)], [Entry(a + ":" + f, b + ":" + g)], [Entry(a + ":" + m + md, b + ":" + n + md)]))
  {
    ThreeElements(rows);
    ThreeRows(rows[0], rows[1], rows[2], a, b, fd, f, g, md, m, n);
  }

  // Kept apart from TinyOneClassRows, whose solver query it makes small.
  lemma ThreeElements(rows: seq<string>)
    requires |rows| == 3
    ensures rows == [rows[0], rows[1], rows[2]]
  {
  }

  lemma ThreeRows(r0: string, r1: string, r2: string, a: string, b: string,
                  fd: string, f: string, g: string, md: string, m: string, n: string)
    requires Split(r0, '\t') == ["CLASS", a, b]
    requires Split(r1, '\t') == ["FIELD", a, fd, f, g]
    requires Split(r2, '\t') == ["METHOD", a, md, m, n]
    ensures TinyScan([r0, r1, r2], 0, 1)
         == Success(TinyState([Entry(a, b)], [Entry(a + ":" + f, b + ":" + g)], [Entry(a + ":" + m + md, b + ":" + n + md)]))
  {
    var fe := Entry(a + ":" + f, b + ":" + g);
    var me := Entry(a + ":" + m + md, b + ":" + n + md);
    assert TinyScan([r0], 0, 1) == Success(TinyState([Entry(a, b)], [], [])) by {
      assert [r0] == [] + [r0];
      TinyScanSnoc([], r0, 0, 1);
      assert Put([], a, b) == [Entry(a, b)];
    }
    assert TinyScan([r0, r1], 0, 1) == Success(TinyState([Entry(a, b)], [fe], [])) by {
      assert [r0, r1] == [r0] + [r1];
      TinyScanSnoc([r0], r1, 0, 1);
      assert Get([Entry(a, b)], a) == Some(b);
      assert Put([], fe.key, fe.value) == [fe];
    }
    assert [r0, r1, r2] == [r0, r1] + [r2];
    TinyScanSnoc([r0, r1], r2, 0, 1);
    assert Get([Entry(a, b)], a) == Some(b);
    assert Put([], me.key, me.value) == [me];
  }
}
