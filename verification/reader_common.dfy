/** What the three readers share: the Java exceptions they can end in, and
    the last step of each, which rewrites every method value's descriptor
    against the finished class table: every method key is put again, in
    order, with its value passed through `remapMethodDescriptor`. */
module ReaderCommon {
  import opened LinkedMaps
  import opened Descriptors
  import opened DescriptorTypes

  /** The exceptions a reader ends in, by kind. */
  datatype ReadError =
    | NoSuchElement          // `Scanner.nextLine` with no line left
    | NullPointer            // unboxing the Integer of a namespace the header lacks
    | ArrayIndexOutOfBounds  // a split line with too few pieces

  /** The puts the final `forEach` performs, in order. */
  function RemapEntries(t: Table, cm: map<string, string>): (r: seq<Entry>)
    ensures |r| == |t|
  {
    seq(|t|, i requires 0 <= i < |t| => Entry(t[i].key, Remap(t[i].value, cm)))
  }

  /** The method table handed out: every value's descriptor rewritten. */
  function RemapValues(t: Table, cm: map<string, string>): (r: Table)
    ensures DistinctKeys(r)
  {
    PutAllDenotes([], RemapEntries(t, cm));
    PutAll([], RemapEntries(t, cm))
  }

  /** The final `forEach` over the method table. */
  method RemapMethodValues(methods: Table, classes: Table) returns (r: Table)
    ensures r == RemapValues(methods, MapOf(classes))
  {
    var cm := MapOf(classes);
    r := [];
    var i := 0;
    while i < |methods|
      invariant 0 <= i <= |methods|
      invariant r == PutAll([], RemapEntries(methods[..i], cm))
    {
      var d := RemapMethodDescriptor(methods[i].value, cm);
      assert RemapEntries(methods[..i + 1], cm) == RemapEntries(methods[..i], cm) + [Entry(methods[i].key, d)];
      PutAllSnoc([], RemapEntries(methods[..i], cm), Entry(methods[i].key, d));
      r := Put(r, methods[i].key, d);
      i := i + 1;
    }
    assert methods[..i] == methods;
  }

  /** On a LinkedHashMap the rewrite keeps every key where it stands and
      rewrites its value alone. */
  lemma RemapValuesInPlace(t: Table, cm: map<string, string>)
    requires DistinctKeys(t)
    ensures |RemapValues(t, cm)| == |t|
    ensures forall i :: 0 <= i < |t| ==>
      RemapValues(t, cm)[i] == Entry(t[i].key, Remap(t[i].value, cm))
  {
    var es := RemapEntries(t, cm);
    assert DistinctKeys([] + es) by {
      SameKeysDistinct(t, es);
      assert [] + es == es;
    }
    PutAllFresh([], es);
    assert RemapValues(t, cm) == es by {
      assert [] + es == es;
    }
  }

  /** A method value of the form `name` + descriptor, whose name holds no '('
      and no ';' and whose class names hold no 'L' and no ';', has every class
      of its descriptor renamed through the class table, and nothing else. */
  lemma RemapValuesRenamesClasses(t: Table, cm: map<string, string>, i: nat, name: string, d: MethodDescriptor)
    requires DistinctKeys(t) && i < |t|
    requires t[i].value == name + MethodText(d)
    requires '(' !in name && ';' !in name && PlainMethod(d)
    ensures |RemapValues(t, cm)| == |t|
    ensures RemapValues(t, cm)[i] == Entry(t[i].key, name + MethodText(RenameMethod(d, cm)))
  {
    RemapValuesInPlace(t, cm);
    RemapRenamesClasses(name, d, cm);
  }
}
