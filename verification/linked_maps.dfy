/** The String-to-String LinkedHashMap every table of the remapping core is.
    A table is its entries in first-insertion order: `Put` on a key that is
    already present replaces the value where the key stands, `Put` on a new key
    appends. `MapOf` is the dictionary a sequence of entries denotes, a later
    entry for a key overriding an earlier one. */
module LinkedMaps {
  import opened Wrappers

  datatype Entry = Entry(key: string, value: string)

  type Table = seq<Entry>

  /** What every LinkedHashMap satisfies: no key stands twice. */
  predicate DistinctKeys(t: seq<Entry>) {
    forall i, j :: 0 <= i < j < |t| ==> t[i].key != t[j].key
  }

  /** No value stands twice: the table is injective. */
  predicate DistinctValues(t: seq<Entry>) {
    forall i, j :: 0 <= i < j < |t| ==> t[i].value != t[j].value
  }

  function MapOf(t: seq<Entry>): map<string, string> {
    if t == [] then map[] else MapOf(t[..|t| - 1])[t[|t| - 1].key := t[|t| - 1].value]
  }

  /** The dictionary's keys are exactly the keys of the entries. */
  lemma {:induction false} MapOfKeys(t: seq<Entry>)
    ensures forall i :: 0 <= i < |t| ==> t[i].key in MapOf(t)
    ensures forall k :: k in MapOf(t) ==> exists i :: 0 <= i < |t| && t[i].key == k
  {
    if t != [] {
      var n := |t| - 1;
      MapOfKeys(t[..n]);
      assert forall i :: 0 <= i < n ==> t[..n][i] == t[i];
    }
  }

  /** `Map.getOrDefault(k, d)` */
  function GetOrDefault(m: map<string, string>, k: string, d: string): string {
    if k in m then m[k] else d
  }

  /** `Map.get(k)`, None standing for null. */
  function Get(t: Table, k: string): (r: Option<string>)
    ensures r.Some? <==> exists i :: 0 <= i < |t| && t[i].key == k
    ensures r.Some? ==> k in MapOf(t) && r.value == MapOf(t)[k]
  {
    MapOfKeys(t);
    if k in MapOf(t) then Some(MapOf(t)[k]) else None
  }

  /** Where `k` stands in `t`, if anywhere. */
  function KeyIndex(t: Table, k: string): (r: Option<nat>)
    ensures r.None? ==> forall i :: 0 <= i < |t| ==> t[i].key != k
    ensures r.Some? ==> r.value < |t| && t[r.value].key == k
  {
    if t == [] then None
    else if t[0].key == k then Some(0)
    else
      match KeyIndex(t[1..], k)
      case None => None
      case Some(j) => Some(j + 1)
  }

  /** `LinkedHashMap.put(k, v)`: same position for a key already present. */
  function Put(t: Table, k: string, v: string): (r: Table)
    ensures |r| == |t| || r == t + [Entry(k, v)]
  {
    match KeyIndex(t, k)
    case None => t + [Entry(k, v)]
    case Some(i) => t[i := Entry(k, v)]
  }

  /** Re-putting a key leaves every entry where it stands and changes only
      that key's value; putting a new key appends it. */
  lemma PutInPlace(t: Table, k: string, v: string)
    requires DistinctKeys(t)
    ensures KeyIndex(t, k).Some? ==> |Put(t, k, v)| == |t|
    ensures KeyIndex(t, k).Some? ==>
      forall j :: 0 <= j < |t| ==> Put(t, k, v)[j] == if t[j].key == k then Entry(k, v) else t[j]
    ensures KeyIndex(t, k).None? ==> Put(t, k, v) == t + [Entry(k, v)]
  {
  }

  /** A put keeps a LinkedHashMap's keys distinct and sets the key's value in
      its dictionary, leaving every other key as it was. */
  lemma PutDenotes(t: Table, k: string, v: string)
    requires DistinctKeys(t)
    ensures DistinctKeys(Put(t, k, v)) && MapOf(Put(t, k, v)) == MapOf(t)[k := v]
  {
    match KeyIndex(t, k)
    case None =>
      assert (t + [Entry(k, v)])[..|t|] == t;
    case Some(i) =>
      MapOfReplace(t, i, v);
  }

  /** Replacing the value of a key in place changes only that key's value. */
  lemma {:induction false} MapOfReplace(t: Table, i: nat, v: string)
    requires i < |t|
    ensures DistinctKeys(t) ==> MapOf(t[i := Entry(t[i].key, v)]) == MapOf(t)[t[i].key := v]
  {
    var n := |t| - 1;
    var u := t[i := Entry(t[i].key, v)];
    if !DistinctKeys(t) {
    } else if i == n {
      assert u[..n] == t[..n];
    } else {
      MapOfReplace(t[..n], i, v);
      assert u[..n] == t[..n][i := Entry(t[i].key, v)];
      assert t[i].key != t[n].key;
    }
  }

  /** Puts every entry of `es` into `t`, in order, as a `forEach(put)` or a
      loop of puts does. */
  function PutAll(t: Table, es: seq<Entry>): Table {
    if es == [] then t
    else
      var n := |es| - 1;
      Put(PutAll(t, es[..n]), es[n].key, es[n].value)
  }

  /** Putting a sequence of entries into a LinkedHashMap keeps its keys
      distinct, and its dictionary is that of the old entries followed by the
      new ones: a later put of a key wins. */
  lemma {:induction false} PutAllDenotes(t: Table, es: seq<Entry>)
    requires DistinctKeys(t)
    ensures DistinctKeys(PutAll(t, es)) && MapOf(PutAll(t, es)) == MapOf(t + es)
  {
    if es == [] {
      assert t + es == t;
    } else {
      var n := |es| - 1;
      var front := PutAll(t, es[..n]);
      PutAllDenotes(t, es[..n]);
      PutDenotes(front, es[n].key, es[n].value);
      MapOfSnoc(t, es);
    }
  }

  /** The last of the entries overrides its key's value. */
  lemma MapOfSnoc(t: seq<Entry>, es: seq<Entry>)
    requires es != []
    ensures MapOf(t + es) == MapOf(t + es[..|es| - 1])[es[|es| - 1].key := es[|es| - 1].value]
  {
    var u := t + es;
    assert u[..|u| - 1] == t + es[..|es| - 1];
  }

  /** One more entry is one more put. */
  lemma PutAllSnoc(t: Table, es: seq<Entry>, e: Entry)
    ensures PutAll(t, es + [e]) == Put(PutAll(t, es), e.key, e.value)
  {
    assert (es + [e])[..|es|] == es;
  }

  /** Entries with the keys of a LinkedHashMap, in its order, have distinct keys. */
  lemma SameKeysDistinct(t: Table, es: seq<Entry>)
    requires DistinctKeys(t) && |es| == |t|
    requires forall i :: 0 <= i < |t| ==> es[i].key == t[i].key
    ensures DistinctKeys(es)
  {
    forall i, j | 0 <= i < j < |es|
      ensures es[i].key != es[j].key
    {
      assert es[i].key == t[i].key && es[j].key == t[j].key;
    }
  }

  /** Putting entries whose keys are all new appends them in order. */
  lemma {:induction false} PutAllFresh(t: Table, es: seq<Entry>)
    requires DistinctKeys(t + es)
    ensures PutAll(t, es) == t + es
  {
    if es != [] {
      var n := |es| - 1;
      var u := t + es;
      var front := t + es[..n];
      assert front == u[..|u| - 1];
      DistinctKeysPrefix(u);
      PutAllFresh(t, es[..n]);
      assert KeyIndex(front, es[n].key).None? by {
        forall i | 0 <= i < |front|
          ensures front[i].key != es[n].key
        {
          assert front[i] == u[i];
        }
      }
      assert u == front + [es[n]];
    }
  }

  lemma DistinctKeysPrefix(u: seq<Entry>)
    requires DistinctKeys(u) && u != []
    ensures DistinctKeys(u[..|u| - 1])
    ensures forall i :: 0 <= i < |u| - 1 ==> u[i].key != u[|u| - 1].key
  {
    var n := |u| - 1;
    forall i, j | 0 <= i < j < n
      ensures u[..n][i].key != u[..n][j].key
    {
      assert u[..n][i] == u[i] && u[..n][j] == u[j];
    }
  }

  /** The dictionary takes, for each key, the value of its last entry. */
  lemma {:induction false} LastWins(t: seq<Entry>, i: nat)
    requires i < |t|
    requires forall j :: i < j < |t| ==> t[j].key != t[i].key
    ensures t[i].key in MapOf(t) && MapOf(t)[t[i].key] == t[i].value
  {
    var n := |t| - 1;
    if i < n {
      LastWins(t[..n], i);
    }
  }
}
