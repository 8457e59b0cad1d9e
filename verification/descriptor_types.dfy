/** Method descriptors as section 4.3.3 of the Java Virtual Machine
    Specification defines them, with field types from section 4.3.2, and what
    `remapMethodDescriptor` does to their text: it renames every object type
    through the class table, provided that no class name holds an 'L' or a ';'. */
module DescriptorTypes {
  import opened LinkedMaps
  import opened JavaStrings
  import opened Descriptors

  /** FieldType: BaseType | ObjectType | ArrayType. */
  datatype FieldType =
    | BaseType(code: char)
    | ObjectType(className: string)
    | ArrayType(component: FieldType)

  /** ReturnDescriptor: FieldType | VoidDescriptor. */
  datatype ReturnDescriptor = VoidDescriptor | FieldReturn(fieldType: FieldType)

  /** MethodDescriptor: ( {ParameterDescriptor} ) ReturnDescriptor. */
  datatype MethodDescriptor = MethodDescriptor(parameters: seq<FieldType>, result: ReturnDescriptor)

  predicate IsBaseTypeCode(c: char) {
    c in "BCDFIJSZ"
  }

  /** A field type the scanner reads whole: valid base codes, and class names
      with neither 'L' nor ';' in them. */
  predicate PlainField(t: FieldType) {
    match t
    case BaseType(c) => IsBaseTypeCode(c)
    case ObjectType(n) => 'L' !in n && ';' !in n
    case ArrayType(e) => PlainField(e)
  }

  predicate PlainReturn(r: ReturnDescriptor) {
    r.FieldReturn? ==> PlainField(r.fieldType)
  }

  predicate PlainMethod(d: MethodDescriptor) {
    && (forall i :: 0 <= i < |d.parameters| ==> PlainField(d.parameters[i]))
    && PlainReturn(d.result)
  }

  function FieldText(t: FieldType): string {
    match t
    case BaseType(c) => [c]
    case ObjectType(n) => "L" + n + ";"
    case ArrayType(e) => "[" + FieldText(e)
  }

  function ParametersText(ps: seq<FieldType>): string {
    if ps == [] then "" else FieldText(ps[0]) + ParametersText(ps[1..])
  }

  function ReturnText(r: ReturnDescriptor): string {
    match r
    case VoidDescriptor => "V"
    case FieldReturn(t) => FieldText(t)
  }

  function MethodText(d: MethodDescriptor): string {
    "(" + ParametersText(d.parameters) + ")" + ReturnText(d.result)
  }

  /** Renames the class of every object type through `cm`, leaving a class
      that `cm` does not hold as it is. */
  function RenameField(t: FieldType, cm: map<string, string>): FieldType {
    match t
    case BaseType(c) => t
    case ObjectType(n) => ObjectType(GetOrDefault(cm, n, n))
    case ArrayType(e) => ArrayType(RenameField(e, cm))
  }

  function RenameParameters(ps: seq<FieldType>, cm: map<string, string>): (r: seq<FieldType>)
    ensures |r| == |ps|
  {
    if ps == [] then [] else [RenameField(ps[0], cm)] + RenameParameters(ps[1..], cm)
  }

  function RenameReturn(r: ReturnDescriptor, cm: map<string, string>): ReturnDescriptor {
    match r
    case VoidDescriptor => r
    case FieldReturn(t) => FieldReturn(RenameField(t, cm))
  }

  function RenameMethod(d: MethodDescriptor, cm: map<string, string>): MethodDescriptor {
    MethodDescriptor(RenameParameters(d.parameters, cm), RenameReturn(d.result, cm))
  }

  /** The last class name the scanner has looked up after reading `t`. */
  function LastClassName(t: FieldType, last: string): string {
    match t
    case BaseType(_) => last
    case ObjectType(n) => n
    case ArrayType(e) => LastClassName(e, last)
  }

  function LastClassNameIn(ps: seq<FieldType>, last: string): string {
    if ps == [] then last else LastClassNameIn(ps[1..], LastClassName(ps[0], last))
  }

  // One step of the scanner after the '('

  lemma AfterParenOther(c: char, rest: string, cm: map<string, string>, last: string)
    requires c != 'L' && c != ';'
    ensures AfterParen([c] + rest, cm, last) == [c] + AfterParen(rest, cm, last)
  {
    assert ([c] + rest)[0] == c && ([c] + rest)[1..] == rest;
  }

  lemma AfterParenL(rest: string, cm: map<string, string>, last: string)
    ensures AfterParen("L" + rest, cm, last) == "L" + ClassToken("", rest, cm)
  {
    assert ("L" + rest)[0] == 'L' && ("L" + rest)[1..] == rest;
  }

  lemma AfterParenSemicolon(rest: string, cm: map<string, string>, last: string)
    ensures AfterParen(";" + rest, cm, last) == GetOrDefault(cm, last, last) + ";" + AfterParen(rest, cm, last)
  {
    assert (";" + rest)[0] == ';' && (";" + rest)[1..] == rest;
  }

  /** A class token runs to its first ';' and looks up what follows its last 'L'. */
  lemma ClassTokenAt(name: string, rest: string, cm: map<string, string>)
    requires ';' !in name
    ensures ClassToken("", name + ";" + rest, cm)
         == GetOrDefault(cm, AfterLastL(name), AfterLastL(name)) + ";" + AfterParen(rest, cm, AfterLastL(name))
  {
    var tail := name + ";" + rest;
    assert tail[..|name|] == name && tail[|name|] == ';' && tail[|name| + 1..] == rest;
    IndexOfAt(tail, ';', |name|);
    assert "" + tail[..|name|] == name;
  }

  lemma RemapObjectType(n: string, rest: string, cm: map<string, string>, last: string)
    requires 'L' !in n && ';' !in n
    ensures AfterParen("L" + n + ";" + rest, cm, last)
         == "L" + GetOrDefault(cm, n, n) + ";" + AfterParen(rest, cm, n)
  {
    ObjectToken(n, n, rest, cm, last);
    assert AfterLastL(n) == n;
  }

  /** An 'L', a name with no ';' and a ';': the token looks up what follows
      the name's last 'L'. */
  lemma ObjectToken(name: string, n: string, rest: string, cm: map<string, string>, last: string)
    requires ';' !in name && n == AfterLastL(name)
    ensures AfterParen("L" + name + ";" + rest, cm, last)
         == "L" + GetOrDefault(cm, n, n) + ";" + AfterParen(rest, cm, n)
  {
    TokenShape(name, rest);
    AfterParenL(name + ";" + rest, cm, last);
    ClassTokenAt(name, rest, cm);
    ConcatAssoc("L", GetOrDefault(cm, n, n) + ";", AfterParen(rest, cm, n));
  }

  // The two sequence facts below are stated apart so that the proofs using
  // them do not put every concatenation of a token in one solver query.
  lemma TokenShape(name: string, rest: string)
    ensures "L" + name + ";" + rest == "L" + (name + ";" + rest)
  {
  }

  lemma ConcatAssoc(a: string, b: string, c: string)
    ensures a + (b + c) == a + b + c
  {
  }

  lemma {:induction false} RemapField(t: FieldType, rest: string, cm: map<string, string>, last: string)
    requires PlainField(t)
    ensures AfterParen(FieldText(t) + rest, cm, last)
         == FieldText(RenameField(t, cm)) + AfterParen(rest, cm, LastClassName(t, last))
  {
    match t
    case BaseType(c) =>
      AfterParenOther(c, rest, cm, last);
    case ObjectType(n) =>
      RemapObjectType(n, rest, cm, last);
    case ArrayType(e) =>
      assert FieldText(t) + rest == ['['] + (FieldText(e) + rest);
      AfterParenOther('[', FieldText(e) + rest, cm, last);
      RemapField(e, rest, cm, last);
      assert FieldText(RenameField(t, cm)) + AfterParen(rest, cm, LastClassName(t, last))
          == ['['] + (FieldText(RenameField(e, cm)) + AfterParen(rest, cm, LastClassName(e, last)));
  }

  lemma {:induction false} RemapParameters(ps: seq<FieldType>, rest: string, cm: map<string, string>, last: string)
    requires forall i :: 0 <= i < |ps| ==> PlainField(ps[i])
    ensures AfterParen(ParametersText(ps) + rest, cm, last)
         == ParametersText(RenameParameters(ps, cm)) + AfterParen(rest, cm, LastClassNameIn(ps, last))
  {
    if ps == [] {
      assert ParametersText(ps) + rest == rest;
    } else {
      var after := LastClassName(ps[0], last);
      var rp := RenameParameters(ps, cm);
      var tail := AfterParen(rest, cm, LastClassNameIn(ps[1..], after));
      calc {
        AfterParen(ParametersText(ps) + rest, cm, last);
        { assert ParametersText(ps) + rest == FieldText(ps[0]) + (ParametersText(ps[1..]) + rest); }
        AfterParen(FieldText(ps[0]) + (ParametersText(ps[1..]) + rest), cm, last);
        { RemapField(ps[0], ParametersText(ps[1..]) + rest, cm, last); }
        FieldText(RenameField(ps[0], cm)) + AfterParen(ParametersText(ps[1..]) + rest, cm, after);
        { RemapParameters(ps[1..], rest, cm, after); }
        FieldText(RenameField(ps[0], cm)) + (ParametersText(RenameParameters(ps[1..], cm)) + tail);
        { assert rp[0] == RenameField(ps[0], cm) && rp[1..] == RenameParameters(ps[1..], cm); }
        ParametersText(rp) + tail;
      }
    }
  }

  /** Before the first '(' the scanner copies every character but ';'. */
  lemma {:induction false} RemapCopiesName(name: string, rest: string, cm: map<string, string>)
    requires '(' !in name && ';' !in name
    ensures Remap(name + rest, cm) == name + Remap(rest, cm)
  {
    if name != [] {
      assert (name + rest)[1..] == name[1..] + rest;
      RemapCopiesName(name[1..], rest, cm);
    } else {
      assert name + rest == rest;
    }
  }

  /** A ';' before the first '(' is not part of any class token: the
      scanner writes the lookup of the empty name (the empty string when the
      class table lacks it) in front of it and carries on copying. */
  lemma RemapSemicolonBeforeParen(name: string, rest: string, cm: map<string, string>)
    requires '(' !in name && ';' !in name
    ensures Remap(name + ";" + rest, cm) == name + GetOrDefault(cm, "", "") + ";" + Remap(rest, cm)
  {
    assert name + ";" + rest == name + (";" + rest);
    RemapCopiesName(name, ";" + rest, cm);
    assert (";" + rest)[1..] == rest;
  }

  /** For a member name followed by a method descriptor whose class names hold
      no 'L' and no ';', `remapMethodDescriptor` keeps the name, the
      parentheses, the base types and the array markers, and replaces every
      class name by its entry in the class table (a class the table does not
      hold stays as it is). */
  lemma RemapRenamesClasses(name: string, d: MethodDescriptor, cm: map<string, string>)
    requires '(' !in name && ';' !in name
    requires PlainMethod(d)
    ensures Remap(name + MethodText(d), cm) == name + MethodText(RenameMethod(d, cm))
  {
    var e := RenameMethod(d, cm);
    var body := ParametersText(d.parameters) + (")" + ReturnText(d.result));
    var renamedBody := ParametersText(e.parameters) + (")" + ReturnText(e.result));
    assert MethodText(d) == "(" + body;
    assert MethodText(e) == "(" + renamedBody;
    RemapBody(d, cm);
    RemapNameThenParen(name, body, renamedBody, cm);
  }

  lemma RemapNameThenParen(name: string, body: string, renamedBody: string, cm: map<string, string>)
    requires '(' !in name && ';' !in name
    requires AfterParen(body, cm, "") == renamedBody
    ensures Remap(name + ("(" + body), cm) == name + ("(" + renamedBody)
  {
    RemapCopiesName(name, "(" + body, cm);
    assert ("(" + body)[1..] == body;
  }

  lemma RemapBody(d: MethodDescriptor, cm: map<string, string>)
    requires PlainMethod(d)
    ensures AfterParen(ParametersText(d.parameters) + (")" + ReturnText(d.result)), cm, "")
         == ParametersText(RenameParameters(d.parameters, cm)) + (")" + ReturnText(RenameReturn(d.result, cm)))
  {
    var ret := ReturnText(d.result);
    var last := LastClassNameIn(d.parameters, "");
    RemapParameters(d.parameters, ")" + ret, cm, "");
    assert AfterParen(")" + ret, cm, last) == ")" + AfterParen(ret, cm, last) by {
      assert (")" + ret)[1..] == ret;
    }
    RemapReturn(d.result, cm, last);
  }

  lemma RemapReturn(r: ReturnDescriptor, cm: map<string, string>, last: string)
    requires PlainReturn(r)
    ensures AfterParen(ReturnText(r), cm, last) == ReturnText(RenameReturn(r, cm))
  {
    match r
    case VoidDescriptor =>
      assert "V"[1..] == "";
    case FieldReturn(t) =>
      RemapField(t, "", cm, last);
      assert FieldText(t) + "" == FieldText(t);
      assert FieldText(RenameField(t, cm)) + "" == FieldText(RenameField(t, cm));
  }

  /** Renaming leaves a descriptor without object types as it is. */
  lemma {:induction false} RenameKeepsBaseTypes(ps: seq<FieldType>, cm: map<string, string>)
    requires forall i :: 0 <= i < |ps| ==> ps[i].BaseType?
    ensures RenameParameters(ps, cm) == ps
  {
    if ps != [] {
      RenameKeepsBaseTypes(ps[1..], cm);
    }
  }

  /** "(IJF)V" comes back unchanged whatever the class table. */
  lemma BaseTypesUnchanged(cm: map<string, string>)
    ensures Remap("(IJF)V", cm) == "(IJF)V"
  {
    var d := MethodDescriptor([BaseType('I'), BaseType('J'), BaseType('F')], VoidDescriptor);
    assert MethodText(d) == "(IJF)V";
    RenameKeepsBaseTypes(d.parameters, cm);
    RemapRenamesClasses("", d, cm);
    assert "" + MethodText(d) == MethodText(d);
  }

  /** A class name holding an 'L' loses everything up to its last 'L': the
      scanner restarts the name there, yet keeps the 'L' it has already
      emitted. */
  lemma ClassNameCutAtLastL(a: string, n: string, rest: string, cm: map<string, string>, last: string)
    requires ';' !in a && 'L' !in n && ';' !in n
    ensures AfterParen("L" + a + "L" + n + ";" + rest, cm, last)
         == "L" + GetOrDefault(cm, n, n) + ";" + AfterParen(rest, cm, n)
  {
    var name := a + ['L'] + n;
    assert "L" + a + "L" + n == "L" + name;
    AfterLastLClears(a, n);
    ObjectToken(name, n, rest, cm, last);
  }

  /** A parameter class `a` + "L" + `n` comes out as the entry of n alone:
      "(Ljava/util/List;)V" gives "(List;)V" when the table does not hold
      "ist", the 'L' of "List" restarting the name. */
  lemma ClassNameLosesPrefix(a: string, n: string, cm: map<string, string>)
    requires ';' !in a && 'L' !in n && ';' !in n
    ensures Remap("(L" + a + "L" + n + ";)V", cm) == "(L" + GetOrDefault(cm, n, n) + ";)V"
  {
    var body := "L" + a + "L" + n + ";" + ")V";
    var renamed := "L" + GetOrDefault(cm, n, n) + ";" + ")V";
    assert "(L" + a + "L" + n + ";)V" == "(" + body;
    assert "(L" + GetOrDefault(cm, n, n) + ";)V" == "(" + renamed;
    RemapParen(body, cm);
    PrefixBody(a, n, cm);
  }

  lemma PrefixBody(a: string, n: string, cm: map<string, string>)
    requires ';' !in a && 'L' !in n && ';' !in n
    ensures AfterParen("L" + a + "L" + n + ";" + ")V", cm, "") == "L" + GetOrDefault(cm, n, n) + ";" + ")V"
  {
    ClassNameCutAtLastL(a, n, ")V", cm, "");
    ClosingParenVoid(cm, n);
  }

  lemma ClosingParenVoid(cm: map<string, string>, last: string)
    ensures AfterParen(")V", cm, last) == ")V"
  {
    AfterParenOther(')', "V", cm, last);
    AfterParenOther('V', "", cm, last);
    assert ")V" == [')'] + "V" && "V" == ['V'] + "";
  }

  /** From a leading '(' on, the scanner is in its descriptor state. */
  lemma RemapParen(body: string, cm: map<string, string>)
    ensures Remap("(" + body, cm) == "(" + AfterParen(body, cm, "")
  {
    assert ("(" + body)[0] == '(' && ("(" + body)[1..] == body;
  }

  /** A class name with no closing ';' is dropped, and so is all that follows
      its 'L'. */
  lemma UnterminatedClassDropped(n: string, cm: map<string, string>, last: string)
    requires ';' !in n
    ensures AfterParen("L" + n, cm, last) == "L"
  {
    assert ("L" + n)[1..] == n;
    assert IndexOf(n, ';').None? by {
      IndexOfFirst(n, ';');
    }
  }

  /** A ';' outside a class name emits again the last class name looked up:
      "(La/B;;)V" gives "(Lx/Y;x/Y;)V" when a/B is renamed x/Y. */
  lemma StraySemicolonRepeatsName(n: string, cm: map<string, string>)
    requires 'L' !in n && ';' !in n
    ensures Remap("(L" + n + ";;)V", cm) == "(L" + GetOrDefault(cm, n, n) + ";" + GetOrDefault(cm, n, n) + ";)V"
  {
    var g := GetOrDefault(cm, n, n);
    var body := "L" + n + ";" + ";)V";
    var renamed := "L" + g + ";" + (g + ";" + ")V");
    assert "(L" + n + ";;)V" == "(" + body;
    assert "(L" + g + ";" + g + ";)V" == "(" + renamed;
    RemapParen(body, cm);
    StrayBody(n, cm);
  }

  lemma StrayBody(n: string, cm: map<string, string>)
    requires 'L' !in n && ';' !in n
    ensures AfterParen("L" + n + ";" + ";)V", cm, "")
         == "L" + GetOrDefault(cm, n, n) + ";" + (GetOrDefault(cm, n, n) + ";" + ")V")
  {
    RemapObjectType(n, ";)V", cm, "");
    assert ";)V" == ";" + ")V";
    AfterParenSemicolon(")V", cm, n);
    ClosingParenVoid(cm, n);
  }
}
