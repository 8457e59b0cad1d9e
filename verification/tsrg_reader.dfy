/** `readTsrg`: a Forge TSRG file. A line not starting with a tab is a class
    line `A B`: it maps class A to B and makes (A, B) the current class. A line
    starting with a tab is a member of the current class: `f g` a field,
    `m d n` a method with descriptor d; any other token count is skipped. SRG
    member names go through the MCP rename tables `fieldNames` and
    `methodNames`. Method values are finally rewritten against the class
    table. */
module TsrgReader {
  import opened Wrappers
  import opened JavaStrings
  import opened LinkedMaps
  import opened MappingAlgebra
  import opened ReaderCommon
  import opened DescriptorTypes

  /** A class line `parts[1]` would run past. */
  predicate MalformedClassLine(line: string) {
    !StartsWithTab(line) && |Split(line, ' ')| < 2
  }

  /** The class a well-formed class line declares. */
  function ClassLine(line: string): Option<Entry> {
    if StartsWithTab(line) then None
    else
      var parts := Split(line, ' ');
      if |parts| < 2 then None else Some(Entry(parts[0], parts[1]))
  }

  /** The field a member line with two tokens puts, keyed and valued through
      the current class (the text "null" before any class line). */
  function FieldLine(line: string, currentA: Option<string>, currentB: Option<string>,
                     fieldNames: map<string, string>): Option<Entry>
  {
    if !StartsWithTab(line) then None
    else
      var parts := Split(line[1..], ' ');
      if |parts| != 2 then None
      else Some(Entry(NullText(currentA) + ":" + parts[0],
                      NullText(currentB) + ":" + GetOrDefault(fieldNames, parts[1], parts[1])))
  }

  /** The method a member line with three tokens puts, before its descriptor
      is rewritten. */
  function MethodLine(line: string, currentA: Option<string>, currentB: Option<string>,
                      methodNames: map<string, string>): Option<Entry>
  {
    if !StartsWithTab(line) then None
    else
      var parts := Split(line[1..], ' ');
      if |parts| != 3 then None
      else Some(Entry(NullText(currentA) + ":" + parts[0] + parts[1],
                      NullText(currentB) + ":" + GetOrDefault(methodNames, parts[2], parts[2]) + parts[1]))
  }

  function Opt(o: Option<Entry>): seq<Entry> {
    match o
    case None => []
    case Some(e) => [e]
  }

  /** No class line of `lines` is malformed. */
  predicate WellFormedTsrg(lines: seq<string>) {
    lines == [] || (WellFormedTsrg(lines[..|lines| - 1]) && !MalformedClassLine(lines[|lines| - 1]))
  }

  /** `currentClassA` after `lines`. */
  function CurrentA(lines: seq<string>): Option<string> {
    if lines == [] then None
    else
      match ClassLine(lines[|lines| - 1])
      case Some(e) => Some(e.key)
      case None => CurrentA(lines[..|lines| - 1])
  }

  /** `currentClassB` after `lines`. */
  function CurrentB(lines: seq<string>): Option<string> {
    if lines == [] then None
    else
      match ClassLine(lines[|lines| - 1])
      case Some(e) => Some(e.value)
      case None => CurrentB(lines[..|lines| - 1])
  }

  /** The puts into `classes`, in order. */
  function TsrgClasses(lines: seq<string>): seq<Entry> {
    if lines == [] then []
    else TsrgClasses(lines[..|lines| - 1]) + Opt(ClassLine(lines[|lines| - 1]))
  }

  /** The puts into `fields`, in order. */
  function TsrgFields(lines: seq<string>, fieldNames: map<string, string>): seq<Entry> {
    if lines == [] then []
    else
      var n := |lines| - 1;
      TsrgFields(lines[..n], fieldNames) + Opt(FieldLine(lines[n], CurrentA(lines[..n]), CurrentB(lines[..n]), fieldNames))
  }

  /** The puts into `methods`, in order. */
  function TsrgMethods(lines: seq<string>, methodNames: map<string, string>): seq<Entry> {
    if lines == [] then []
    else
      var n := |lines| - 1;
      TsrgMethods(lines[..n], methodNames) + Opt(MethodLine(lines[n], CurrentA(lines[..n]), CurrentB(lines[..n]), methodNames))
  }

  /** The loop's variables: the three tables and the current class. */
  datatype TsrgState = TsrgState(classes: Table, fields: Table, methods: Table,
                                 currentClassA: Option<string>, currentClassB: Option<string>)

  const TsrgStart := TsrgState([], [], [], None, None)

  /** One pass of the loop over `line`. */
  function TsrgStep(st: TsrgState, line: string, fieldNames: map<string, string>, methodNames: map<string, string>): Result<TsrgState, ReadError> {
    if !StartsWithTab(line) then
      var parts := Split(line, ' ');
      if |parts| < 2 then Failure(ArrayIndexOutOfBounds)
      else Success(st.(classes := Put(st.classes, parts[0], parts[1]),
                       currentClassA := Some(parts[0]), currentClassB := Some(parts[1])))
    else
      var parts := Split(line[1..], ' ');
      if |parts| == 2 then
        Success(st.(fields := Put(st.fields, NullText(st.currentClassA) + ":" + parts[0],
                                  NullText(st.currentClassB) + ":" + GetOrDefault(fieldNames, parts[1], parts[1]))))
      else if |parts| == 3 then
        Success(st.(methods := Put(st.methods, NullText(st.currentClassA) + ":" + parts[0] + parts[1],
                                   NullText(st.currentClassB) + ":" + GetOrDefault(methodNames, parts[2], parts[2]) + parts[1])))
      else Success(st)
  }

  /** The loop over `lines`, stopping at the first exception. */
  function TsrgScan(lines: seq<string>, fieldNames: map<string, string>, methodNames: map<string, string>): Result<TsrgState, ReadError> {
    if lines == [] then Success(TsrgStart)
    else
      match TsrgScan(lines[..|lines| - 1], fieldNames, methodNames)
      case Failure(e) => Failure(e)
      case Success(st) => TsrgStep(st, lines[|lines| - 1], fieldNames, methodNames)
  }

  /** What `readTsrg` returns or throws for the given lines: the loop, then
      the copy of the class and field tables and the rewrite of the method
      values against the class table. */
  function ReadTsrgSpec(lines: seq<string>, fieldNames: map<string, string>, methodNames: map<string, string>): Result<Mappings, ReadError> {
    match TsrgScan(lines, fieldNames, methodNames)
    case Failure(e) => Failure(e)
    case Success(st) => Success(Mappings(st.classes, st.fields, RemapValues(st.methods, MapOf(st.classes))))
  }

  method ReadTsrg(lines: seq<string>, fieldNames: map<string, string>, methodNames: map<string, string>)
    returns (r: Result<Mappings, ReadError>)
    ensures r == ReadTsrgSpec(lines, fieldNames, methodNames)
  {
    var scanned := ScanLines(lines, fieldNames, methodNames);
    match scanned
    case Failure(e) => return Failure(e);
    case Success(st) =>
      var remapped := RemapMethodValues(st.methods, st.classes);
      return Success(Mappings(st.classes, st.fields, remapped));
  }

  /** The loop over the lines. */
  method ScanLines(lines: seq<string>, fieldNames: map<string, string>, methodNames: map<string, string>)
    returns (r: Result<TsrgState, ReadError>)
    ensures r == TsrgScan(lines, fieldNames, methodNames)
  {
    var classes: Table := [];
    var fields: Table := [];
    var methods: Table := [];
    var currentClassA: Option<string> := None;
    var currentClassB: Option<string> := None;
    var i := 0;
    while i < |lines|
      invariant 0 <= i <= |lines|
      invariant TsrgScan(lines[..i], fieldNames, methodNames)
             == Success(TsrgState(classes, fields, methods, currentClassA, currentClassB))
    {
      TsrgScanNext(lines, i, fieldNames, methodNames);
      ghost var st := TsrgState(classes, fields, methods, currentClassA, currentClassB);
      var line := lines[i];
      if !StartsWithTab(line) {
        var parts := Split(line, ' ');
        if |parts| < 2 {
          TsrgFailureSticks(lines, i + 1, fieldNames, methodNames);
          return Failure(ArrayIndexOutOfBounds);
        }
        ClassLineStep(st, line, fieldNames, methodNames);
        classes := Put(classes, parts[0], parts[1]);
        currentClassA := Some(parts[0]);
        currentClassB := Some(parts[1]);
      } else {
        MemberLineStep(st, line, fieldNames, methodNames);
        line := line[1..];
        var parts := Split(line, ' ');
        if |parts| == 2 {
          fields := Put(fields, NullText(currentClassA) + ":" + parts[0],
                        NullText(currentClassB) + ":" + GetOrDefault(fieldNames, parts[1], parts[1]));
        } else if |parts| == 3 {
          methods := Put(methods, NullText(currentClassA) + ":" + parts[0] + parts[1],
                         NullText(currentClassB) + ":" + GetOrDefault(methodNames, parts[2], parts[2]) + parts[1]);
        }
      }
      i := i + 1;
    }
    assert lines[..i] == lines;
    return Success(TsrgState(classes, fields, methods, currentClassA, currentClassB));
  }

  /** A class line with two tokens or more: its pass of the loop. */
  lemma ClassLineStep(st: TsrgState, line: string, fieldNames: map<string, string>, methodNames: map<string, string>)
    requires !StartsWithTab(line) && |Split(line, ' ')| >= 2
    ensures var parts := Split(line, ' ');
      TsrgStep(st, line, fieldNames, methodNames)
      == Success(TsrgState(Put(st.classes, parts[0], parts[1]), st.fields, st.methods, Some(parts[0]), Some(parts[1])))
  {
  }

  /** A member line: its pass of the loop, by token count. */
  lemma MemberLineStep(st: TsrgState, line: string, fieldNames: map<string, string>, methodNames: map<string, string>)
    requires StartsWithTab(line)
    ensures var parts := Split(line[1..], ' ');
      TsrgStep(st, line, fieldNames, methodNames)
      == if |parts| == 2 then
           Success(st.(fields := Put(st.fields, NullText(st.currentClassA) + ":" + parts[0],
                                     NullText(st.currentClassB) + ":" + GetOrDefault(fieldNames, parts[1], parts[1]))))
         else if |parts| == 3 then
           Success(st.(methods := Put(st.methods, NullText(st.currentClassA) + ":" + parts[0] + parts[1],
                                      NullText(st.currentClassB) + ":" + GetOrDefault(methodNames, parts[2], parts[2]) + parts[1])))
         else Success(st)
  {
  }

  lemma TsrgScanNext(lines: seq<string>, i: nat, fieldNames: map<string, string>, methodNames: map<string, string>)
    requires i < |lines| && TsrgScan(lines[..i], fieldNames, methodNames).Success?
    ensures TsrgScan(lines[..i + 1], fieldNames, methodNames)
         == TsrgStep(TsrgScan(lines[..i], fieldNames, methodNames).value, lines[i], fieldNames, methodNames)
  {
    assert lines[..i + 1][..i] == lines[..i];
  }

  /** Once the loop has thrown, reading more lines changes nothing. */
  lemma {:induction false} TsrgFailureSticks(lines: seq<string>, j: nat, fieldNames: map<string, string>, methodNames: map<string, string>)
    requires j <= |lines| && TsrgScan(lines[..j], fieldNames, methodNames).Failure?
    ensures TsrgScan(lines, fieldNames, methodNames) == TsrgScan(lines[..j], fieldNames, methodNames)
  {
    if j < |lines| {
      var n := |lines| - 1;
      assert lines[..n][..j] == lines[..j];
      TsrgFailureSticks(lines[..n], j, fieldNames, methodNames);
    } else {
      assert lines[..j] == lines;
    }
  }

  /** Reading fails exactly when some class line has fewer than two tokens. */
  lemma {:induction false} TsrgFailures(lines: seq<string>)
    ensures WellFormedTsrg(lines) <==> forall i :: 0 <= i < |lines| ==> !MalformedClassLine(lines[i])
  {
    if lines != [] {
      var n := |lines| - 1;
      TsrgFailures(lines[..n]);
      assert forall i :: 0 <= i < n ==> lines[..n][i] == lines[i];
    }
  }

  /** The loop's variables as the table-by-table description gives them. */
  function TsrgTables(lines: seq<string>, fieldNames: map<string, string>, methodNames: map<string, string>): TsrgState {
    TsrgState(PutAll([], TsrgClasses(lines)), PutAll([], TsrgFields(lines, fieldNames)),
              PutAll([], TsrgMethods(lines, methodNames)), CurrentA(lines), CurrentB(lines))
  }

  /** The loop, table by table: it throws (an ArrayIndexOutOfBounds) exactly
      when a class line is malformed; otherwise each table holds the puts of
      its own kind of line in order, and the current class is that of the
      last class line. */
  lemma {:induction false} TsrgScanTables(lines: seq<string>, fieldNames: map<string, string>, methodNames: map<string, string>)
    ensures TsrgScan(lines, fieldNames, methodNames).Success? <==> WellFormedTsrg(lines)
    ensures TsrgScan(lines, fieldNames, methodNames).Failure? ==>
      TsrgScan(lines, fieldNames, methodNames).error == ArrayIndexOutOfBounds
    ensures WellFormedTsrg(lines) ==>
      TsrgScan(lines, fieldNames, methodNames).value == TsrgTables(lines, fieldNames, methodNames)
  {
    if lines != [] {
      var n := |lines| - 1;
      TsrgScanTables(lines[..n], fieldNames, methodNames);
      if WellFormedTsrg(lines[..n]) {
        if StartsWithTab(lines[n]) {
          TsrgMemberLineStep(lines, fieldNames, methodNames);
        } else {
          TsrgClassLineStep(lines, fieldNames, methodNames);
        }
      }
    }
  }

  lemma TsrgClassLineStep(lines: seq<string>, fieldNames: map<string, string>, methodNames: map<string, string>)
    requires lines != [] && !StartsWithTab(lines[|lines| - 1])
    requires TsrgScan(lines[..|lines| - 1], fieldNames, methodNames)
          == Success(TsrgTables(lines[..|lines| - 1], fieldNames, methodNames))
    requires WellFormedTsrg(lines[..|lines| - 1])
    ensures TsrgScan(lines, fieldNames, methodNames).Success? <==> WellFormedTsrg(lines)
    ensures TsrgScan(lines, fieldNames, methodNames).Failure? ==>
      TsrgScan(lines, fieldNames, methodNames).error == ArrayIndexOutOfBounds
    ensures WellFormedTsrg(lines) ==>
      TsrgScan(lines, fieldNames, methodNames).value == TsrgTables(lines, fieldNames, methodNames)
  {
    var n := |lines| - 1;
    var prefix := lines[..n];
    var st := TsrgTables(prefix, fieldNames, methodNames);
    assert TsrgScan(lines, fieldNames, methodNames) == TsrgStep(st, lines[n], fieldNames, methodNames);
    var parts := Split(lines[n], ' ');
    if |parts| >= 2 {
      var e := Entry(parts[0], parts[1]);
      var next := st.(classes := Put(st.classes, parts[0], parts[1]),
                      currentClassA := Some(parts[0]), currentClassB := Some(parts[1]));
      assert TsrgStep(st, lines[n], fieldNames, methodNames) == Success(next);
      assert next.classes == PutAll([], TsrgClasses(lines)) by {
        assert TsrgClasses(lines) == TsrgClasses(prefix) + [e];
        PutAllSnoc([], TsrgClasses(prefix), e);
      }
      MembersAfterClassLine(lines, fieldNames, methodNames);
      assert next.currentClassA == CurrentA(lines) && next.currentClassB == CurrentB(lines);
    }
  }

  lemma TsrgMemberLineStep(lines: seq<string>, fieldNames: map<string, string>, methodNames: map<string, string>)
    requires lines != [] && StartsWithTab(lines[|lines| - 1])
    requires TsrgScan(lines[..|lines| - 1], fieldNames, methodNames)
          == Success(TsrgTables(lines[..|lines| - 1], fieldNames, methodNames))
    requires WellFormedTsrg(lines[..|lines| - 1])
    ensures WellFormedTsrg(lines)
    ensures TsrgScan(lines, fieldNames, methodNames) == Success(TsrgTables(lines, fieldNames, methodNames))
  {
    var n := |lines| - 1;
    var prefix := lines[..n];
    var st := TsrgTables(prefix, fieldNames, methodNames);
    assert TsrgScan(lines, fieldNames, methodNames) == TsrgStep(st, lines[n], fieldNames, methodNames);
    MemberStepTables(st, lines[n], fieldNames, methodNames, TsrgFields(prefix, fieldNames), TsrgMethods(prefix, methodNames));
    ClassesAfterMemberLine(lines);
    MembersAfterMemberLine(lines, fieldNames, methodNames);
  }

  /** A member line extends the field or method puts by the line's entry. */
  lemma MemberStepTables(st: TsrgState, line: string, fieldNames: map<string, string>, methodNames: map<string, string>,
                         fs: seq<Entry>, ms: seq<Entry>)
    requires StartsWithTab(line) && st.fields == PutAll([], fs) && st.methods == PutAll([], ms)
    ensures TsrgStep(st, line, fieldNames, methodNames)
         == Success(st.(fields := PutAll([], fs + Opt(FieldLine(line, st.currentClassA, st.currentClassB, fieldNames))),
                        methods := PutAll([], ms + Opt(MethodLine(line, st.currentClassA, st.currentClassB, methodNames)))))
  {
    PutOpt(fs, FieldLine(line, st.currentClassA, st.currentClassB, fieldNames));
    PutOpt(ms, MethodLine(line, st.currentClassA, st.currentClassB, methodNames));
  }

  lemma MembersAfterMemberLine(lines: seq<string>, fieldNames: map<string, string>, methodNames: map<string, string>)
    requires lines != [] && StartsWithTab(lines[|lines| - 1])
    ensures var n := |lines| - 1;
      && TsrgFields(lines, fieldNames)
         == TsrgFields(lines[..n], fieldNames) + Opt(FieldLine(lines[n], CurrentA(lines[..n]), CurrentB(lines[..n]), fieldNames))
      && TsrgMethods(lines, methodNames)
         == TsrgMethods(lines[..n], methodNames) + Opt(MethodLine(lines[n], CurrentA(lines[..n]), CurrentB(lines[..n]), methodNames))
      && CurrentA(lines) == CurrentA(lines[..n]) && CurrentB(lines) == CurrentB(lines[..n])
  {
  }

  lemma MembersAfterClassLine(lines: seq<string>, fieldNames: map<string, string>, methodNames: map<string, string>)
    requires lines != [] && !StartsWithTab(lines[|lines| - 1])
    ensures TsrgFields(lines, fieldNames) == TsrgFields(lines[..|lines| - 1], fieldNames)
    ensures TsrgMethods(lines, methodNames) == TsrgMethods(lines[..|lines| - 1], methodNames)
  {
    var n := |lines| - 1;
    assert FieldLine(lines[n], CurrentA(lines[..n]), CurrentB(lines[..n]), fieldNames).None?;
    assert MethodLine(lines[n], CurrentA(lines[..n]), CurrentB(lines[..n]), methodNames).None?;
    assert TsrgFields(lines[..n], fieldNames) + [] == TsrgFields(lines[..n], fieldNames);
    assert TsrgMethods(lines[..n], methodNames) + [] == TsrgMethods(lines[..n], methodNames);
  }

  lemma ClassesAfterMemberLine(lines: seq<string>)
    requires lines != [] && StartsWithTab(lines[|lines| - 1])
    ensures TsrgClasses(lines) == TsrgClasses(lines[..|lines| - 1])
  {
    var n := |lines| - 1;
    assert ClassLine(lines[n]).None?;
    assert TsrgClasses(lines[..n]) + [] == TsrgClasses(lines[..n]);
  }

  /** Puts `o`'s entry, if any, and nothing otherwise. */
  lemma PutOpt(es: seq<Entry>, o: Option<Entry>)
    ensures PutAll([], es + Opt(o)) == (match o case None => PutAll([], es) case Some(e) => Put(PutAll([], es), e.key, e.value))
  {
    match o
    case None => assert es + [] == es;
    case Some(e) => PutAllSnoc([], es, e);
  }

  /** The tables the loop builds are LinkedHashMaps. */
  lemma TsrgStateDistinct(lines: seq<string>, fieldNames: map<string, string>, methodNames: map<string, string>)
    requires TsrgScan(lines, fieldNames, methodNames).Success?
    ensures var st := TsrgScan(lines, fieldNames, methodNames).value;
      DistinctKeys(st.classes) && DistinctKeys(st.fields) && DistinctKeys(st.methods)
  {
    TsrgScanTables(lines, fieldNames, methodNames);
    PutAllDenotes([], TsrgClasses(lines));
    PutAllDenotes([], TsrgFields(lines, fieldNames));
    PutAllDenotes([], TsrgMethods(lines, methodNames));
  }

  /** Reading one more line is one more pass of the loop. */
  lemma TsrgScanSnoc(lines: seq<string>, l: string, fieldNames: map<string, string>, methodNames: map<string, string>)
    requires TsrgScan(lines, fieldNames, methodNames).Success?
    ensures TsrgScan(lines + [l], fieldNames, methodNames)
         == TsrgStep(TsrgScan(lines, fieldNames, methodNames).value, l, fieldNames, methodNames)
  {
    assert (lines + [l])[..|lines|] == lines;
  }

  /** A member line with neither two nor three tokens changes nothing. */
  lemma TsrgSkipsOtherCounts(lines: seq<string>, l: string, fieldNames: map<string, string>, methodNames: map<string, string>)
    requires StartsWithTab(l) && |Split(l[1..], ' ')| != 2 && |Split(l[1..], ' ')| != 3
    ensures ReadTsrgSpec(lines + [l], fieldNames, methodNames) == ReadTsrgSpec(lines, fieldNames, methodNames)
  {
    assert (lines + [l])[..|lines|] == lines;
  }

  /** A class line `a b` maps a to b and leaves the member tables alone. */
  lemma TsrgClassLinePuts(lines: seq<string>, l: string, a: string, b: string,
                          fieldNames: map<string, string>, methodNames: map<string, string>)
    requires TsrgScan(lines, fieldNames, methodNames).Success?
    requires !StartsWithTab(l) && |Split(l, ' ')| >= 2 && Split(l, ' ')[0] == a && Split(l, ' ')[1] == b
    ensures TsrgScan(lines + [l], fieldNames, methodNames).Success?
    ensures var st := TsrgScan(lines, fieldNames, methodNames).value;
      var st' := TsrgScan(lines + [l], fieldNames, methodNames).value;
      && MapOf(st'.classes) == MapOf(st.classes)[a := b]
      && st'.fields == st.fields && st'.methods == st.methods
      && st'.currentClassA == Some(a) && st'.currentClassB == Some(b)
  {
    TsrgScanSnoc(lines, l, fieldNames, methodNames);
    TsrgStateDistinct(lines, fieldNames, methodNames);
    var st := TsrgScan(lines, fieldNames, methodNames).value;
    PutDenotes(st.classes, a, b);
  }

  /** A member line `f g` maps `A:f` to `B:` and the MCP name of g (g itself
      when the rename table lacks it), A and B being the current class, or
      the text "null" before any class line. */
  lemma TsrgFieldLinePuts(lines: seq<string>, l: string, f: string, g: string,
                          fieldNames: map<string, string>, methodNames: map<string, string>)
    requires TsrgScan(lines, fieldNames, methodNames).Success?
    requires StartsWithTab(l) && Split(l[1..], ' ') == [f, g]
    ensures TsrgScan(lines + [l], fieldNames, methodNames).Success?
    ensures var st := TsrgScan(lines, fieldNames, methodNames).value;
      var st' := TsrgScan(lines + [l], fieldNames, methodNames).value;
      && MapOf(st'.fields) == MapOf(st.fields)[NullText(CurrentA(lines)) + ":" + f :=
                                               NullText(CurrentB(lines)) + ":" + GetOrDefault(fieldNames, g, g)]
      && st'.classes == st.classes && st'.methods == st.methods
  {
    TsrgScanSnoc(lines, l, fieldNames, methodNames);
    TsrgStateDistinct(lines, fieldNames, methodNames);
    TsrgScanTables(lines, fieldNames, methodNames);
    var st := TsrgScan(lines, fieldNames, methodNames).value;
    PutDenotes(st.fields, NullText(CurrentA(lines)) + ":" + f, NullText(CurrentB(lines)) + ":" + GetOrDefault(fieldNames, g, g));
  }

  /** A member line `m d n` maps `A:m` + d to `B:` + the MCP name of n + d,
      before the final rewrite of the descriptor. */
  lemma TsrgMethodLinePuts(lines: seq<string>, l: string, m: string, d: string, n: string,
                           fieldNames: map<string, string>, methodNames: map<string, string>)
    requires TsrgScan(lines, fieldNames, methodNames).Success?
    requires StartsWithTab(l) && Split(l[1..], ' ') == [m, d, n]
    ensures TsrgScan(lines + [l], fieldNames, methodNames).Success?
    ensures var st := TsrgScan(lines, fieldNames, methodNames).value;
      var st' := TsrgScan(lines + [l], fieldNames, methodNames).value;
      && MapOf(st'.methods) == MapOf(st.methods)[NullText(CurrentA(lines)) + ":" + m + d :=
                                                 NullText(CurrentB(lines)) + ":" + GetOrDefault(methodNames, n, n) + d]
      && st'.classes == st.classes && st'.fields == st.fields
  {
    TsrgScanSnoc(lines, l, fieldNames, methodNames);
    TsrgStateDistinct(lines, fieldNames, methodNames);
    TsrgScanTables(lines, fieldNames, methodNames);
    var st := TsrgScan(lines, fieldNames, methodNames).value;
    PutDenotes(st.methods, NullText(CurrentA(lines)) + ":" + m + d,
               NullText(CurrentB(lines)) + ":" + GetOrDefault(methodNames, n, n) + d);
  }

  /** A file of one class `a b` with one field `f g` and one method `m d n`:
      the keys carry the SRG names, the values the new ones. */
  lemma TsrgOneClass(a: string, b: string, f: string, g: string, m: string, d: string, n: string,
                     lines: seq<string>, fieldNames: map<string, string>, methodNames: map<string, string>)
    requires ' ' !in a && ' ' !in b && ' ' !in f && ' ' !in g && ' ' !in m && ' ' !in d && ' ' !in n
    requires b != "" && g != "" && n != "" && '\t' !in a
    requires lines == [a + " " + b, "\t" + f + " " + g, "\t" + m + " " + d + " " + n]
    ensures ReadTsrgSpec(lines, fieldNames, methodNames).Success?
    ensures var r := ReadTsrgSpec(lines, fieldNames, methodNames).value;
      && MapOf(r.classes) == map[a := b]
      && MapOf(r.fields) == map[a + ":" + f := b + ":" + GetOrDefault(fieldNames, g, g)]
      && r.methods == RemapValues([Entry(a + ":" + m + d, b + ":" + GetOrDefault(methodNames, n, n) + d)], map[a := b])
  {
    var l0, l1, l2 := lines[0], lines[1], lines[2];
    OneClassLines(a, b, f, g, m, d, n, l0, l1, l2);
    var fv := b + ":" + GetOrDefault(fieldNames, g, g);
    var mk, mv := a + ":" + m + d, b + ":" + GetOrDefault(methodNames, n, n) + d;
    var st := TsrgState([Entry(a, b)], [Entry(a + ":" + f, fv)], [Entry(mk, mv)], Some(a), Some(b));
    assert TsrgScan(lines, fieldNames, methodNames) == Success(st) by {
      OneClassScan(a, b, f, g, m, d, n, l0, l1, l2, fieldNames, methodNames);
      assert lines == [l0, l1, l2];
    }
    assert MapOf(st.classes) == map[a := b];
    assert MapOf(st.fields) == map[a + ":" + f := fv];
  }

  /** The three steps of the loop over that file, one line at a time. */
  lemma OneClassScan(a: string, b: string, f: string, g: string, m: string, d: string, n: string,
                     l0: string, l1: string, l2: string, fieldNames: map<string, string>, methodNames: map<string, string>)
    requires !StartsWithTab(l0) && Split(l0, ' ') == [a, b]
    requires StartsWithTab(l1) && Split(l1[1..], ' ') == [f, g]
    requires StartsWithTab(l2) && Split(l2[1..], ' ') == [m, d, n]
    ensures TsrgScan([l0, l1, l2], fieldNames, methodNames)
         == Success(TsrgState([Entry(a, b)], [Entry(a + ":" + f, b + ":" + GetOrDefault(fieldNames, g, g))],
                              [Entry(a + ":" + m + d, b + ":" + GetOrDefault(methodNames, n, n) + d)], Some(a), Some(b)))
  {
    var fv := b + ":" + GetOrDefault(fieldNames, g, g);
    var mk, mv := a + ":" + m + d, b + ":" + GetOrDefault(methodNames, n, n) + d;
    var s1 := TsrgState([Entry(a, b)], [], [], Some(a), Some(b));
    var s2 := s1.(fields := [Entry(a + ":" + f, fv)]);
    assert TsrgScan([l0], fieldNames, methodNames) == Success(s1) by {
      assert [l0] == [] + [l0];
      TsrgScanSnoc([], l0, fieldNames, methodNames);
      ClassLineStep(TsrgStart, l0, fieldNames, methodNames);
      assert Put([], a, b) == [Entry(a, b)];
    }
    assert TsrgScan([l0, l1], fieldNames, methodNames) == Success(s2) by {
      assert [l0, l1] == [l0] + [l1];
      TsrgScanSnoc([l0], l1, fieldNames, methodNames);
      MemberLineStep(s1, l1, fieldNames, methodNames);
      assert Put([], a + ":" + f, fv) == [Entry(a + ":" + f, fv)];
    }
    assert [l0, l1, l2] == [l0, l1] + [l2];
    TsrgScanSnoc([l0, l1], l2, fieldNames, methodNames);
    MemberLineStep(s2, l2, fieldNames, methodNames);
    assert Put([], mk, mv) == [Entry(mk, mv)];
  }

  lemma OneClassLines(a: string, b: string, f: string, g: string, m: string, d: string, n: string,
                      l0: string, l1: string, l2: string)
    requires ' ' !in a && ' ' !in b && ' ' !in f && ' ' !in g && ' ' !in m && ' ' !in d && ' ' !in n
    requires b != "" && g != "" && n != "" && '\t' !in a
    requires l0 == a + " " + b && l1 == "\t" + f + " " + g && l2 == "\t" + m + " " + d + " " + n
    ensures !StartsWithTab(l0) && Split(l0, ' ') == [a, b]
    ensures StartsWithTab(l1) && Split(l1[1..], ' ') == [f, g]
    ensures StartsWithTab(l2) && Split(l2[1..], ' ') == [m, d, n]
  {
    assert !StartsWithTab(l0) && Split(l0, ' ') == [a, b] by {
      assert l0 == a + [' '] + b;
      SplitPair(a, b, ' ');
      if a != "" {
        assert l0[0] == a[0];
      } else {
        assert l0[0] == ' ';
      }
    }
    assert StartsWithTab(l1) && Split(l1[1..], ' ') == [f, g] by {
      assert l1[1..] == f + [' '] + g;
      SplitPair(f, g, ' ');
    }
    assert StartsWithTab(l2) && Split(l2[1..], ' ') == [m, d, n] by {
      assert l2[1..] == m + [' '] + d + [' '] + n;
      SplitTriple(m, d, n, ' ');
    }
  }

  /** In that file, a method descriptor whose class names hold no 'L', ';'
      or ' ' has class a renamed to b and nothing else. */
  lemma TsrgOneClassRenamed(a: string, b: string, f: string, g: string, m: string, desc: MethodDescriptor, n: string,
                            lines: seq<string>, fieldNames: map<string, string>, methodNames: map<string, string>)
    requires ' ' !in a && ' ' !in b && ' ' !in f && ' ' !in g && ' ' !in m && ' ' !in MethodText(desc) && ' ' !in n
    requires b != "" && g != "" && n != "" && '\t' !in a
    requires PlainMethod(desc)
    requires '(' !in b + ":" + GetOrDefault(methodNames, n, n) && ';' !in b + ":" + GetOrDefault(methodNames, n, n)
    requires lines == [a + " " + b, "\t" + f + " " + g, "\t" + m + " " + MethodText(desc) + " " + n]
    ensures ReadTsrgSpec(lines, fieldNames, methodNames).Success?
    ensures ReadTsrgSpec(lines, fieldNames, methodNames).value.methods
         == [Entry(a + ":" + m + MethodText(desc),
                   b + ":" + GetOrDefault(methodNames, n, n) + MethodText(RenameMethod(desc, map[a := b])))]
  {
    var d := MethodText(desc);
    TsrgOneClass(a, b, f, g, m, d, n, lines, fieldNames, methodNames);
    var t := [Entry(a + ":" + m + d, b + ":" + GetOrDefault(methodNames, n, n) + d)];
    RemapValuesRenamesClasses(t, map[a := b], 0, b + ":" + GetOrDefault(methodNames, n, n), desc);
  }

  /** A member line before any class line is keyed and valued under "null". */
  lemma TsrgFieldBeforeClass(l: string, f: string, g: string, fieldNames: map<string, string>, methodNames: map<string, string>)
    requires StartsWithTab(l) && Split(l[1..], ' ') == [f, g]
    ensures ReadTsrgSpec([l], fieldNames, methodNames).Success?
    ensures MapOf(ReadTsrgSpec([l], fieldNames, methodNames).value.fields)
         == map["null:" + f := "null:" + GetOrDefault(fieldNames, g, g)]
  {
    assert [l] == [] + [l];
    TsrgFieldLinePuts([], l, f, g, fieldNames, methodNames);
    assert TsrgScan([], fieldNames, methodNames) == Success(TsrgStart);
    assert MapOf(TsrgStart.fields) == map[];
    assert NullText(CurrentA([])) == "null" && NullText(CurrentB([])) == "null";
    assert "null" + ":" == "null:";
    assert ReadTsrgSpec([l], fieldNames, methodNames).value.fields == TsrgScan([l], fieldNames, methodNames).value.fields;
  }
}
