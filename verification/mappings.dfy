/** The `Mappings` record of Devoldefy: three LinkedHashMaps from names to
    names (classes, fields keyed `owner:name`, methods keyed
    `owner:name(descriptor)`), and the two operations on it, `chain` and
    `invert`. Both only read their inputs and fill a fresh record, so they are
    functions here: each table is the fold of `put` over the entries the
    source's `forEach` visits, in insertion order. */
module MappingAlgebra {
  import opened LinkedMaps

  datatype Mappings = Mappings(classes: Table, fields: Table, methods: Table)

  /** Three LinkedHashMaps: no table repeats a key. */
  predicate Valid(m: Mappings) {
    DistinctKeys(m.classes) && DistinctKeys(m.fields) && DistinctKeys(m.methods)
  }

  /** No table maps two keys to the same name. */
  predicate Injective(m: Mappings) {
    DistinctValues(m.classes) && DistinctValues(m.fields) && DistinctValues(m.methods)
  }

  /** A freshly made record: three empty tables. */
  const Empty := Mappings([], [], [])

  /** The puts `chain` performs, in the receiver's order: each key with its
      value looked up in the other table, or the value itself when the other
      table lacks it. */
  function ChainEntries(t: Table, other: Table): (r: seq<Entry>)
    ensures |r| == |t|
  {
    seq(|t|, i requires 0 <= i < |t| => Entry(t[i].key, GetOrDefault(MapOf(other), t[i].value, t[i].value)))
  }

  function ChainTable(t: Table, other: Table): (r: Table)
    ensures DistinctKeys(r)
  {
    PutAllDenotes([], ChainEntries(t, other));
    PutAll([], ChainEntries(t, other))
  }

  /** The dictionary `chain` denotes: the receiver's keys, each sent to its
      value's image under `other`, or to its value when `other` lacks it. */
  function ChainMap(m: map<string, string>, other: map<string, string>): map<string, string> {
    map k | k in m :: GetOrDefault(other, m[k], m[k])
  }

  /** `Mappings.chain`: all three tables independently. */
  function Chain(m: Mappings, other: Mappings): (r: Mappings)
    ensures Valid(r)
  {
    Mappings(ChainTable(m.classes, other.classes),
             ChainTable(m.fields, other.fields),
             ChainTable(m.methods, other.methods))
  }

  /** The puts `invert` performs, in order: each value as a key, with the
      key it came from as its value. */
  function SwapEntries(t: Table): (r: seq<Entry>)
    ensures |r| == |t|
  {
    seq(|t|, i requires 0 <= i < |t| => Entry(t[i].value, t[i].key))
  }

  function InvertTable(t: Table): (r: Table)
    ensures DistinctKeys(r)
  {
    PutAllDenotes([], SwapEntries(t));
    PutAll([], SwapEntries(t))
  }

  /** `Mappings.invert`: all three tables independently. */
  function Invert(m: Mappings): (r: Mappings)
    ensures Valid(r)
  {
    Mappings(InvertTable(m.classes), InvertTable(m.fields), InvertTable(m.methods))
  }

  /** `srg.invert().chain(yarn)`: from the names of one mapping set to the
      names of the other, through the obfuscated names both start from. */
  function Compose(srg: Mappings, yarn: Mappings): (r: Mappings)
    ensures Valid(r)
  {
    Chain(Invert(srg), yarn)
  }

  // chain

  /** When the receiver is a LinkedHashMap, the result has exactly its keys,
      in the same order, and each value is the old value's image under
      `other`, or the old value itself when `other` lacks it. */
  lemma ChainKeepsKeys(t: Table, other: Table)
    requires DistinctKeys(t)
    ensures |ChainTable(t, other)| == |t|
    ensures forall i :: 0 <= i < |t| ==> ChainTable(t, other)[i].key == t[i].key
    ensures forall i :: 0 <= i < |t| && t[i].value in MapOf(other) ==>
      ChainTable(t, other)[i].value == MapOf(other)[t[i].value]
    ensures forall i :: 0 <= i < |t| && t[i].value !in MapOf(other) ==>
      ChainTable(t, other)[i].value == t[i].value
  {
    ChainTableIsEntries(t, other);
  }

  lemma ChainTableIsEntries(t: Table, other: Table)
    requires DistinctKeys(t)
    ensures ChainTable(t, other) == ChainEntries(t, other)
  {
    var es := ChainEntries(t, other);
    assert DistinctKeys([] + es) by {
      SameKeysDistinct(t, es);
      assert [] + es == es;
    }
    PutAllFresh([], es);
    assert [] + es == es;
  }

  /** Whatever the tables, the dictionary of `chain` is ChainMap of the
      dictionaries. */
  lemma ChainDenotes(t: Table, other: Table)
    ensures MapOf(ChainTable(t, other)) == ChainMap(MapOf(t), MapOf(other))
  {
    var es := ChainEntries(t, other);
    PutAllDenotes([], es);
    assert [] + es == es;
    ChainEntriesDenote(t, other);
  }

  lemma {:induction false} ChainEntriesDenote(t: Table, other: Table)
    ensures MapOf(ChainEntries(t, other)) == ChainMap(MapOf(t), MapOf(other))
  {
    var o := MapOf(other);
    if t != [] {
      var n := |t| - 1;
      var es := ChainEntries(t, other);
      assert es[..n] == ChainEntries(t[..n], other);
      ChainEntriesDenote(t[..n], other);
      var k, v := t[n].key, t[n].value;
      assert ChainMap(MapOf(t[..n])[k := v], o) == ChainMap(MapOf(t[..n]), o)[k := GetOrDefault(o, v, v)];
    }
  }

  /** `chain` is not associative: a value the middle mapping lacks passes
      it unchanged, so chaining first and then renaming by a third mapping
      renames it, while chaining with the chained pair does not. */
  lemma ChainNotAssociative(k: string, v: string, w: string)
    requires v != w
    ensures var a, b, c := [Entry(k, v)], [], [Entry(v, w)];
      MapOf(ChainTable(ChainTable(a, b), c)) != MapOf(ChainTable(a, ChainTable(b, c)))
  {
    var a: Table, b: Table, c: Table := [Entry(k, v)], [], [Entry(v, w)];
    assert a[..0] == [] && c[..0] == [];
    assert MapOf(a) == map[k := v] && MapOf(b) == map[] && MapOf(c) == map[v := w];
    ChainDenotes(a, b);
    ChainDenotes(ChainTable(a, b), c);
    ChainDenotes(b, c);
    ChainDenotes(a, ChainTable(b, c));
    assert ChainMap(map[k := v], map[]) == map[k := v];
    assert ChainMap(map[], map[v := w]) == map[];
    assert MapOf(ChainTable(ChainTable(a, b), c))[k] == w;
    assert MapOf(ChainTable(a, ChainTable(b, c)))[k] == v;
  }

  /** Chaining `a` with `b` and then `c` agrees with chaining `a` with `b`
      chained with `c` exactly when every value of `a` that `b` lacks is
      either lacked by `c` or sent to itself by it. */
  predicate ChainAssociates(a: map<string, string>, b: map<string, string>, c: map<string, string>) {
    forall k :: k in a && a[k] !in b && a[k] in c ==> c[a[k]] == a[k]
  }

  lemma ChainAssociative(a: Table, b: Table, c: Table)
    ensures MapOf(ChainTable(ChainTable(a, b), c)) == MapOf(ChainTable(a, ChainTable(b, c)))
        <==> ChainAssociates(MapOf(a), MapOf(b), MapOf(c))
  {
    ChainDenotes(a, b);
    ChainDenotes(ChainTable(a, b), c);
    ChainDenotes(b, c);
    ChainDenotes(a, ChainTable(b, c));
    var ma, mb, mc := MapOf(a), MapOf(b), MapOf(c);
    if ChainAssociates(ma, mb, mc) {
      ChainMapAssociative(ma, mb, mc);
    } else {
      ChainMapNotAssociative(ma, mb, mc);
    }
  }

  lemma ChainMapAssociative(a: map<string, string>, b: map<string, string>, c: map<string, string>)
    requires ChainAssociates(a, b, c)
    ensures ChainMap(ChainMap(a, b), c) == ChainMap(a, ChainMap(b, c))
  {
    var left, right := ChainMap(ChainMap(a, b), c), ChainMap(a, ChainMap(b, c));
    forall k | k in a
      ensures left[k] == right[k]
    {
      if a[k] in b {
        assert right[k] == ChainMap(b, c)[a[k]];
      }
    }
  }

  lemma ChainMapNotAssociative(a: map<string, string>, b: map<string, string>, c: map<string, string>)
    requires !ChainAssociates(a, b, c)
    ensures ChainMap(ChainMap(a, b), c) != ChainMap(a, ChainMap(b, c))
  {
    var k :| k in a && a[k] !in b && a[k] in c && c[a[k]] != a[k];
    assert ChainMap(ChainMap(a, b), c)[k] == c[a[k]];
    assert ChainMap(a, ChainMap(b, c))[k] == a[k];
  }

  /** Chaining with an empty mapping changes nothing. */
  lemma ChainEmptyIdentity(m: Mappings)
    requires Valid(m)
    ensures Chain(m, Empty) == m
  {
    ChainTableEmpty(m.classes);
    ChainTableEmpty(m.fields);
    ChainTableEmpty(m.methods);
  }

  lemma ChainTableEmpty(t: Table)
    requires DistinctKeys(t)
    ensures ChainTable(t, []) == t
  {
    ChainKeepsKeys(t, []);
    var r := ChainTable(t, []);
    assert forall i :: 0 <= i < |t| ==> r[i] == t[i];
  }

  // invert

  /** The keys of the inverted table are the values of the table. */
  lemma InvertKeys(t: Table)
    ensures forall k :: k in MapOf(InvertTable(t)) <==> exists i :: 0 <= i < |t| && t[i].value == k
  {
    var sw := SwapEntries(t);
    PutAllDenotes([], sw);
    assert [] + sw == sw;
    assert MapOf(InvertTable(t)) == MapOf(sw);
    MapOfKeys(sw);
    forall k
      ensures k in MapOf(sw) <==> exists i :: 0 <= i < |t| && t[i].value == k
    {
      if k in MapOf(sw) {
        var i :| 0 <= i < |sw| && sw[i].key == k;
        assert t[i].value == k;
      }
      if exists i :: 0 <= i < |t| && t[i].value == k {
        var i :| 0 <= i < |t| && t[i].value == k;
        assert sw[i].key == k;
      }
    }
  }

  /** An entry whose value no later entry repeats is what the inverted table
      maps that value to: the last write wins. */
  lemma InvertLastWins(t: Table, i: nat)
    requires i < |t|
    requires forall j :: i < j < |t| ==> t[j].value != t[i].value
    ensures t[i].value in MapOf(InvertTable(t)) && MapOf(InvertTable(t))[t[i].value] == t[i].key
  {
    var sw := SwapEntries(t);
    PutAllDenotes([], sw);
    assert [] + sw == sw;
    LastWins(sw, i);
  }

  /** Puts `a→x`, `b→y`, `a→y` leave `a` first, so when the table is
      inverted `b` is the last writer of `y` and wins. */
  lemma ReputDecidesInvert(a: string, b: string, x: string, y: string)
    requires a != b
    ensures var t := PutAll([], [Entry(a, x), Entry(b, y), Entry(a, y)]);
      t == [Entry(a, y), Entry(b, y)] && MapOf(InvertTable(t)) == map[y := b]
  {
    ReputTable(a, b, x, y);
    var t := [Entry(a, y), Entry(b, y)];
    InvertLastWins(t, 1);
    InvertKeys(t);
  }

  // The puts of the example above, kept apart to keep each query small.
  lemma ReputTable(a: string, b: string, x: string, y: string)
    requires a != b
    ensures PutAll([], [Entry(a, x), Entry(b, y), Entry(a, y)]) == [Entry(a, y), Entry(b, y)]
  {
    var es := [Entry(a, x), Entry(b, y), Entry(a, y)];
    assert es[..2][..1] == [Entry(a, x)] && es[..2][..1][..0] == [];
    assert PutAll([], es[..2]) == [Entry(a, x), Entry(b, y)] by {
      assert PutAll([], es[..2][..1]) == [Entry(a, x)];
      assert KeyIndex([Entry(a, x)], b).None?;
    }
    assert KeyIndex([Entry(a, x), Entry(b, y)], a).Some? && KeyIndex([Entry(a, x), Entry(b, y)], a).value == 0;
  }

  /** With distinct values, inverting swaps every entry in place. */
  lemma InvertSwaps(t: Table)
    requires DistinctValues(t)
    ensures InvertTable(t) == SwapEntries(t)
  {
    var sw := SwapEntries(t);
    assert DistinctKeys([] + sw) by {
      forall i, j | 0 <= i < j < |sw|
        ensures sw[i].key != sw[j].key
      {
        assert sw[i].key == t[i].value && sw[j].key == t[j].value;
      }
      assert [] + sw == sw;
    }
    PutAllFresh([], sw);
    assert [] + sw == sw;
  }

  /** A LinkedHashMap with distinct values comes back from two inversions as
      it was, entry order included. */
  lemma InvertTwice(t: Table)
    requires DistinctKeys(t) && DistinctValues(t)
    ensures InvertTable(InvertTable(t)) == t
  {
    InvertSwaps(t);
    var sw := SwapEntries(t);
    assert DistinctValues(sw);
    InvertSwaps(sw);
    assert SwapEntries(sw) == t;
  }

  /** `invert(invert(m)) == m` when no table repeats a value. */
  lemma InvertInvolutive(m: Mappings)
    requires Valid(m) && Injective(m)
    ensures Invert(Invert(m)) == m
  {
    InvertTwice(m.classes);
    InvertTwice(m.fields);
    InvertTwice(m.methods);
  }

  // srg.invert().chain(yarn)

  /** The composed table's keys are the SRG names, and an SRG name that one
      obfuscated name alone carries is sent to that name's Yarn name, or to
      the obfuscated name itself when Yarn lacks it. */
  lemma ComposeTable(srg: Table, yarn: Table, i: nat)
    requires i < |srg|
    requires forall j :: i < j < |srg| ==> srg[j].value != srg[i].value
    ensures forall k :: k in MapOf(ChainTable(InvertTable(srg), yarn)) <==> exists j :: 0 <= j < |srg| && srg[j].value == k
    ensures srg[i].value in MapOf(ChainTable(InvertTable(srg), yarn))
    ensures MapOf(ChainTable(InvertTable(srg), yarn))[srg[i].value]
         == GetOrDefault(MapOf(yarn), srg[i].key, srg[i].key)
  {
    ChainDenotes(InvertTable(srg), yarn);
    InvertKeys(srg);
    InvertLastWins(srg, i);
  }

  /** One class the SRG names `net/minecraft/A` and Yarn `net/minecraft/B`,
      and one the SRG names `net/minecraft/C` that Yarn does not hold. */
  lemma ComposeExample(srg: Table, yarn: Table)
    requires srg == [Entry("a", "net/minecraft/A"), Entry("c", "net/minecraft/C")]
    requires yarn == [Entry("a", "net/minecraft/B")]
    ensures MapOf(Compose(Mappings(srg, [], []), Mappings(yarn, [], [])).classes)
         == map["net/minecraft/A" := "net/minecraft/B", "net/minecraft/C" := "c"]
  {
    var m := MapOf(ChainTable(InvertTable(srg), yarn));
    assert "net/minecraft/A" in m && m["net/minecraft/A"] == "net/minecraft/B" by {
      assert MapOf(yarn) == map["a" := "net/minecraft/B"];
      ComposeTable(srg, yarn, 0);
    }
    assert "net/minecraft/C" in m && m["net/minecraft/C"] == "c" by {
      assert MapOf(yarn) == map["a" := "net/minecraft/B"];
      ComposeTable(srg, yarn, 1);
    }
    assert m.Keys == {"net/minecraft/A", "net/minecraft/C"} by {
      ComposeTable(srg, yarn, 1);
      forall k | k in m
        ensures k == "net/minecraft/A" || k == "net/minecraft/C"
      {
        var j :| 0 <= j < |srg| && srg[j].value == k;
      }
    }
  }
}
