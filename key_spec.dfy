/**
 * Expansion of a "key specification" (the argument of `get` and `remove`) into
 * the keys it names, each with the default value `get` falls back on.
 */
module KeySpec {
  import opened Wrappers
  import opened KeyOrder
  import opened Json

  /** A selected key and, when the specification supplied one, its default. */
  type KeyDefault = (string, Option<Json>)

  /** The string elements of an array, in array order, without defaults. */
  function StringItems(items: seq<Json>): (r: seq<KeyDefault>)
    ensures |r| <= |items|
    ensures forall p :: p in r ==> p.1 == None && Str(p.0) in items
    ensures forall s :: Str(s) in items ==> (s, None) in r
  {
    if items == [] then []
    else
      var rest := StringItems(items[1..]);
      assert forall x :: x in items <==> x == items[0] || x in items[1..];
      if items[0].Str? then [(items[0].s, None)] + rest else rest
  }

  /** The pairs `(k, Some(fields[k]))` for the keys `ks`, in that order. */
  function DefaultsFor(fields: JsonMap, ks: seq<string>): (r: seq<KeyDefault>)
    requires forall k :: k in ks ==> k in fields
    ensures |r| == |ks|
    ensures forall i :: 0 <= i < |ks| ==> r[i] == (ks[i], Some(fields[ks[i]]))
  {
    if ks == [] then [] else [(ks[0], Some(fields[ks[0]]))] + DefaultsFor(fields, ks[1..])
  }

  lemma DefaultsForPairs(fields: JsonMap, ks: seq<string>)
    requires forall k :: k in ks ==> k in fields
    ensures forall i :: 0 <= i < |ks| ==>
      DefaultsFor(fields, ks)[i].0 in fields && DefaultsFor(fields, ks)[i].1 == Some(fields[DefaultsFor(fields, ks)[i].0])
  {
    var r := DefaultsFor(fields, ks);
    forall i | 0 <= i < |ks| ensures r[i].0 in fields && r[i].1 == Some(fields[r[i].0]) {
      assert r[i] == (ks[i], Some(fields[ks[i]]));
      assert ks[i] in ks;
    }
  }

  lemma DefaultsForDistinct(fields: JsonMap, ks: seq<string>)
    requires forall k :: k in ks ==> k in fields
    requires forall i, j :: 0 <= i < j < |ks| ==> ks[i] != ks[j]
    ensures forall i, j :: 0 <= i < j < |ks| ==> DefaultsFor(fields, ks)[i].0 != DefaultsFor(fields, ks)[j].0
  {
    var r := DefaultsFor(fields, ks);
    forall i, j | 0 <= i < j < |ks| ensures r[i].0 != r[j].0 {
      assert r[i].0 == ks[i] && r[j].0 == ks[j];
    }
  }

  lemma DefaultsForCovers(fields: JsonMap, ks: seq<string>)
    requires forall k :: k in ks <==> k in fields
    ensures forall k :: k in fields ==> (k, Some(fields[k])) in DefaultsFor(fields, ks)
  {
    var r := DefaultsFor(fields, ks);
    forall k | k in fields ensures (k, Some(fields[k])) in r {
      var i :| 0 <= i < |ks| && ks[i] == k;
      assert r[i] == (k, Some(fields[k]));
    }
  }

  /** One pair per member of an object, the member's value being the default. */
  function ObjectDefaults(fields: JsonMap): (r: seq<KeyDefault>)
    ensures |r| == |fields|
    ensures forall i :: 0 <= i < |r| ==> r[i].0 in fields && r[i].1 == Some(fields[r[i].0])
    ensures forall i, j :: 0 <= i < j < |r| ==> r[i].0 != r[j].0
    ensures forall k :: k in fields ==> (k, Some(fields[k])) in r
  {
    var ks := SortedKeys(fields.Keys);
    DefaultsForPairs(fields, ks);
    DefaultsForDistinct(fields, ks);
    DefaultsForCovers(fields, ks);
    DefaultsFor(fields, ks)
  }

  /**
   * `get_keys`: a string names one key, an array names its string elements
   * (others are skipped; duplicates and order are kept), an object names its
   * members with their values as defaults, and anything else names nothing.
   */
  function GetKeys(keys: Json): (r: seq<KeyDefault>)
    ensures keys.Str? ==> r == [(keys.s, None)]
    ensures keys.Arr? ==>
      (forall p :: p in r ==> p.1 == None && Str(p.0) in keys.items) &&
      (forall s :: Str(s) in keys.items ==> (s, None) in r)
    ensures keys.Obj? ==>
      |r| == |keys.fields| &&
      (forall i :: 0 <= i < |r| ==> r[i].0 in keys.fields && r[i].1 == Some(keys.fields[r[i].0])) &&
      (forall i, j :: 0 <= i < j < |r| ==> r[i].0 != r[j].0) &&
      (forall k :: k in keys.fields ==> (k, Some(keys.fields[k])) in r)
    ensures !keys.Str? && !keys.Arr? && !keys.Obj? ==> r == []
  {
    match keys
    case Str(s) => [(s, None)]
    case Arr(items) => StringItems(items)
    case Obj(fields) => ObjectDefaults(fields)
    case _ => []
  }

  /** The keys of a list of selected keys. */
  function Names(pairs: seq<KeyDefault>): set<string>
  {
    set p | p in pairs :: p.0
  }

  /** The keys a specification names, defaults aside. */
  function KeySet(keys: Json): set<string>
  {
    Names(GetKeys(keys))
  }

  /** The array case keeps array order and does not remove duplicates. */
  lemma {:induction false} StringItemsAppend(a: seq<Json>, b: seq<Json>)
    ensures StringItems(a + b) == StringItems(a) + StringItems(b)
  {
    if a == [] {
      assert a + b == b;
    } else {
      assert (a + b)[1..] == a[1..] + b;
      StringItemsAppend(a[1..], b);
    }
  }

  /** An array of strings names exactly its elements, position by position. */
  lemma {:induction false} StringItemsAllStrings(items: seq<Json>)
    requires forall i :: 0 <= i < |items| ==> items[i].Str?
    ensures |StringItems(items)| == |items|
    ensures forall i :: 0 <= i < |items| ==> StringItems(items)[i] == (items[i].s, None)
  {
    if items != [] {
      StringItemsAllStrings(items[1..]);
    }
  }

  lemma KeySetOfArray(items: seq<Json>)
    ensures KeySet(Arr(items)) == set x | x in items && x.Str? :: x.s
  {
    forall k | Str(k) in items ensures k in KeySet(Arr(items)) {
      assert (k, None) in GetKeys(Arr(items));
    }
  }

  lemma PairsNameFields(pairs: seq<KeyDefault>, fields: JsonMap)
    requires forall i :: 0 <= i < |pairs| ==> pairs[i].0 in fields
    requires forall k :: k in fields ==> (k, Some(fields[k])) in pairs
    ensures Names(pairs) == fields.Keys
  {
    forall k | k in fields ensures k in Names(pairs) {
      assert (k, Some(fields[k])) in pairs;
    }
    forall p | p in pairs ensures p.0 in fields {
      var i :| 0 <= i < |pairs| && pairs[i] == p;
    }
  }

  lemma KeySetOfObject(fields: JsonMap)
    ensures KeySet(Obj(fields)) == fields.Keys
  {
    PairsNameFields(GetKeys(Obj(fields)), fields);
  }

  /** Which keys each shape of specification names. */
  lemma KeySetShapes(keys: Json)
    ensures keys.Str? ==> KeySet(keys) == {keys.s}
    ensures keys.Arr? ==> KeySet(keys) == set x | x in keys.items && x.Str? :: x.s
    ensures keys.Obj? ==> KeySet(keys) == keys.fields.Keys
    ensures !keys.Str? && !keys.Arr? && !keys.Obj? ==> KeySet(keys) == {}
  {
    match keys
    case Str(s) => assert GetKeys(keys)[0] == (s, None);
    case Arr(items) => KeySetOfArray(items);
    case Obj(fields) => KeySetOfObject(fields);
    case _ =>
  }
}
