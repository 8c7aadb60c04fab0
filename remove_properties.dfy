/**
 * What `remove` promises: exactly the named keys that are stored are reported,
 * each with its old value, and the record is written back without them only
 * when at least one was there.
 */
module RemoveProperties {
  import opened Wrappers
  import opened Json
  import opened KeySpec
  import opened Api
  import opened GetProperties

  lemma RemovalsStep(existing: JsonMap, changes: Changes, k: string, names: set<string>)
    requires k in existing
    ensures (existing - {k}) - names == existing - (names + {k})
    ensures changes[k := Change(Some(existing[k]), None)] + Removals(existing - {k}, names)
         == changes + Removals(existing, names + {k})
  {
  }

  lemma RemovalsSkip(existing: JsonMap, k: string, names: set<string>)
    requires k !in existing
    ensures existing - names == existing - (names + {k})
    ensures Removals(existing, names) == Removals(existing, names + {k})
  {
  }

  /** `remove`'s loop takes out every named key and reports each one that was stored, once. */
  lemma {:induction false} RemoveLoopRemoves(existing: JsonMap, changes: Changes, pairs: seq<KeyDefault>)
    ensures RemoveLoop(existing, changes, pairs)
         == (existing - Names(pairs), changes + Removals(existing, Names(pairs)))
    decreases |pairs|
  {
    if pairs == [] {
      assert Names(pairs) == {};
      assert existing - Names(pairs) == existing;
      assert changes + Removals(existing, Names(pairs)) == changes;
    } else {
      var k := pairs[0].0;
      NamesTail(pairs);
      if k in existing {
        RemoveLoopRemoves(existing - {k}, changes[k := Change(Some(existing[k]), None)], pairs[1..]);
        RemovalsStep(existing, changes, k, Names(pairs[1..]));
      } else {
        RemoveLoopRemoves(existing, changes, pairs[1..]);
        RemovalsSkip(existing, k, Names(pairs[1..]));
      }
    }
  }

  lemma RemoveLoopFromEmpty(existing: JsonMap, keys: Json)
    ensures RemoveLoop(existing, map[], GetKeys(keys))
         == (existing - KeySet(keys), Removals(existing, KeySet(keys)))
  {
    var pairs := GetKeys(keys);
    RemoveLoopRemoves(existing, map[], pairs);
    assert Names(pairs) == KeySet(keys);
    assert map[] + Removals(existing, KeySet(keys)) == Removals(existing, KeySet(keys));
  }

  /**
   * `remove` on a stored object: nothing named is stored and the record is left
   * alone, or the rest is saved (subject to the total quota) and each removed
   * key is reported with its old value.
   */
  lemma RemoveOutcome(stored: Option<JsonMap>, keys: Json)
    ensures stored.None? ==> RemoveSpec(stored, keys) == Ok(Mutation(Untouched, map[]))
    ensures stored.Some? ==>
      var existing := stored.value;
      var gone := Removals(existing, KeySet(keys));
      RemoveSpec(stored, keys)
        == if gone == map[] then Ok(Mutation(Untouched, map[]))
           else if TotalFits(existing - KeySet(keys)) then Ok(Mutation(Written(existing - KeySet(keys)), gone))
           else Err(TotalBytes)
  {
    if stored.Some? {
      RemoveLoopFromEmpty(stored.value, keys);
    }
  }

  /** A key is reported by `remove` exactly when it is named and stored; its old value is the stored one. */
  lemma RemoveReportsStoredKeys(existing: JsonMap, keys: Json, k: string)
    requires RemoveSpec(Some(existing), keys).Ok?
    ensures var changes := RemoveSpec(Some(existing), keys).value.changes;
      && (k in changes <==> k in existing && k in KeySet(keys))
      && (k in changes ==> changes[k] == Change(Some(existing[k]), None))
  {
    RemoveOutcome(Some(existing), keys);
  }

  /** Taking members out of an object that is within the total quota keeps it within. */
  lemma RemoveWithinQuotaSucceeds(existing: JsonMap, keys: Json)
    requires TotalFits(existing)
    ensures RemoveSpec(Some(existing), keys).Ok?
  {
    RemoveOutcome(Some(existing), keys);
    SerLenSubObject(existing - KeySet(keys), existing);
  }

  /** Removing a key that is not stored reports nothing and leaves the record alone. */
  lemma RemoveMissingKey(stored: Option<JsonMap>, k: string)
    requires stored.Some? ==> k !in stored.value
    ensures RemoveSpec(stored, Str(k)) == Ok(Mutation(Untouched, map[]))
  {
    RemoveOutcome(stored, Str(k));
    KeySetShapes(Str(k));
  }

  /** A `null` key specification names nothing, so `remove(null)` removes nothing. */
  lemma RemoveNullRemovesNothing(stored: Option<JsonMap>)
    ensures RemoveSpec(stored, Null) == Ok(Mutation(Untouched, map[]))
  {
    RemoveOutcome(stored, Null);
    KeySetShapes(Null);
  }

  /** Removing the last stored key writes back an empty object rather than deleting the record. */
  lemma RemoveLastKeyLeavesEmptyObject(k: string, v: Json)
    ensures RemoveSpec(Some(map[k := v]), Str(k))
         == Ok(Mutation(Written(map[]), map[k := Change(Some(v), None)]))
  {
    RemoveOutcome(Some(map[k := v]), Str(k));
    KeySetShapes(Str(k));
    assert map[k := v] - {k} == map[];
    assert Removals(map[k := v], {k}) == map[k := Change(Some(v), None)];
  }
}
