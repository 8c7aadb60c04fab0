/**
 * The storage operations as `api.rs` performs them: each loads the record of
 * one extension from the `moz_extension_data` table, works through its keys
 * one at a time, and writes the record back (or deletes it). Each method is
 * proved to do what the corresponding function of `Api` describes, and to
 * keep every record of the table within the quotas.
 *
 * The methods compute only with what `Api` defines. `SetProperties` and
 * `TableProperties` are imported for their proofs: the invariant
 * `TableWithinQuota` and the lemmas that each operation keeps it, the key set
 * `Named` of a loop's invariant, and the outcome of `set`'s loop.
 */
module Store {
  import opened Wrappers
  import opened KeyOrder
  import opened Json
  import opened KeySpec
  import opened Api
  import opened SetProperties
  import opened TableProperties

  /** One turn of `set`'s loop, on the keys still to do. */
  lemma SetLoopTurn(current: JsonMap, changes: Changes, incoming: JsonMap, keys: seq<string>, i: nat)
    requires i < |keys| && forall k :: k in keys ==> k in incoming
    ensures var k, v := keys[i], incoming[keys[i]];
      var rest := current - {k};
      SetLoop(current, changes, incoming, keys[i..])
        == if |rest| >= MAX_ITEMS then Err(MaxItems)
           else if Utf8Bytes(k) + SerLen(v) >= QUOTA_BYTES_PER_ITEM then Err(ItemBytes)
           else SetLoop(rest[k := v], changes[k := Change(Lookup(current, k), Some(v))], incoming, keys[i + 1..])
  {
    assert keys[i..][0] == keys[i] && keys[i..][1..] == keys[i + 1..];
  }

  /** What `set` reports and leaves in the table, in terms of the outcome of its loop. */
  lemma SetCommitted(records: Records, guid: string, val: Json)
    ensures var loop := SetLoop(Base(Load(records, guid)), map[], Incoming(val), SortedKeys(Incoming(val).Keys));
      && Reported(SetSpec(Load(records, guid), val))
           == (if loop.Err? then Err(loop.error) else if !TotalFits(loop.value.0) then Err(TotalBytes) else Ok(loop.value.1))
      && Applied(records, guid, SetSpec(Load(records, guid), val))
           == (if loop.Ok? && TotalFits(loop.value.0) then records[guid := Obj(loop.value.0)] else records)
  {
    SetSpecByLoop(Load(records, guid), val);
  }

  /** How `remove` on a stored object ends once its loop has run. */
  lemma RemoveSpecByLoop(existing: JsonMap, keys: Json)
    ensures var loop := RemoveLoop(existing, map[], GetKeys(keys));
      RemoveSpec(Some(existing), keys)
        == if loop.1 == map[] then Ok(Mutation(Untouched, map[]))
           else if TotalFits(loop.0) then Ok(Mutation(Written(loop.0), loop.1))
           else Err(TotalBytes)
  {
  }

  /** `remove` without a stored object reports nothing and leaves the table alone. */
  lemma RemoveWithoutRecord(records: Records, guid: string, keys: Json)
    requires Load(records, guid).None?
    ensures Reported(RemoveSpec(Load(records, guid), keys)) == Ok(map[])
    ensures Applied(records, guid, RemoveSpec(Load(records, guid), keys)) == records
  {
  }

  /** What `remove` on a stored object reports and leaves in the table, in terms of the outcome of its loop. */
  lemma RemoveCommitted(records: Records, guid: string, keys: Json, existing: JsonMap)
    ensures var loop := RemoveLoop(existing, map[], GetKeys(keys));
      && Reported(RemoveSpec(Some(existing), keys))
           == (if loop.1 != map[] && !TotalFits(loop.0) then Err(TotalBytes) else Ok(loop.1))
      && Applied(records, guid, RemoveSpec(Some(existing), keys))
           == (if loop.1 != map[] && TotalFits(loop.0) then records[guid := Obj(loop.0)] else records)
  {
    RemoveSpecByLoop(existing, keys);
  }

  /** What `clear` reports and leaves in the table. */
  lemma ClearCommitted(records: Records, guid: string)
    ensures Load(records, guid).None? ==>
      && ClearSpec(Load(records, guid)).changes == map[]
      && Commit(records, guid, ClearSpec(Load(records, guid)).effect) == records
    ensures Load(records, guid).Some? ==>
      && ClearSpec(Load(records, guid)).changes == Removals(Load(records, guid).value, Load(records, guid).value.Keys)
      && Commit(records, guid, ClearSpec(Load(records, guid)).effect) == records - {guid}
  {
  }

  /** Reporting one more stored key as removed. */
  lemma RemovalsGrow(existing: JsonMap, keys: seq<string>, i: nat)
    requires i < |keys| && keys[i] in existing
    ensures Named(keys[..i + 1]) == Named(keys[..i]) + {keys[i]}
    ensures Removals(existing, Named(keys[..i]))[keys[i] := Change(Some(existing[keys[i]]), None)]
         == Removals(existing, Named(keys[..i + 1]))
  {
    assert keys[..i + 1] == keys[..i] + [keys[i]];
  }

  /**
   * The loop of `set`: for each incoming key in turn, take its old entry out
   * of `current`, refuse if the other keys already fill `MAX_ITEMS` or the
   * member is too big, otherwise put the new value in and record the change.
   */
  method MergeMembers(current: JsonMap, incoming: JsonMap, keys: seq<string>)
    returns (r: Result<(JsonMap, Changes), QuotaReason>)
    requires forall k :: k in keys ==> k in incoming
    ensures r == SetLoop(current, map[], incoming, keys)
  {
    var merged := current;
    var changes: Changes := map[];
    assert keys[0..] == keys;
    for i := 0 to |keys|
      invariant SetLoop(merged, changes, incoming, keys[i..]) == SetLoop(current, map[], incoming, keys)
    {
      var k := keys[i];
      var v := incoming[k];
      SetLoopTurn(merged, changes, incoming, keys, i);
      var oldValue := Lookup(merged, k);
      merged := merged - {k};
      if |merged| >= MAX_ITEMS {
        return Err(MaxItems);
      }
      if Utf8Bytes(k) + SerLen(v) >= QUOTA_BYTES_PER_ITEM {
        return Err(ItemBytes);
      }
      merged := merged[k := v];
      changes := changes[k := Change(oldValue, Some(v))];
    }
    assert keys[|keys|..] == [];
    return Ok((merged, changes));
  }

  /**
   * The loop of `remove`: take each named key out of `existing` and record
   * its old value; a key that is not there (or was already taken) is skipped.
   */
  method RemoveMembers(existing: JsonMap, keysAndDefaults: seq<KeyDefault>)
    returns (remaining: JsonMap, changes: Changes)
    ensures (remaining, changes) == RemoveLoop(existing, map[], keysAndDefaults)
  {
    remaining := existing;
    changes := map[];
    assert keysAndDefaults[0..] == keysAndDefaults;
    for i := 0 to |keysAndDefaults|
      invariant RemoveLoop(remaining, changes, keysAndDefaults[i..]) == RemoveLoop(existing, map[], keysAndDefaults)
    {
      var key := keysAndDefaults[i].0;
      assert keysAndDefaults[i..][1..] == keysAndDefaults[i + 1..];
      if key in remaining {
        changes := changes[key := Change(Some(remaining[key]), None)];
        remaining := remaining - {key};
      }
    }
    assert keysAndDefaults[|keysAndDefaults|..] == [];
  }

  /** The loop of `clear`: every member of `existing`, reported as removed with its old value. */
  method ClearMembers(existing: JsonMap) returns (changes: Changes)
    ensures changes == Removals(existing, existing.Keys)
  {
    var keys := SortedKeys(existing.Keys);
    changes := map[];
    for i := 0 to |keys|
      invariant changes == Removals(existing, Named(keys[..i]))
    {
      RemovalsGrow(existing, keys, i);
      changes := changes[keys[i] := Change(Some(existing[keys[i]]), None)];
    }
    assert keys[..|keys|] == keys;
    assert Named(keys) == existing.Keys;
  }

  /** The `moz_extension_data` table behind one storage connection. */
  class StorageArea {
    /** Extension id to the JSON value its record holds. */
    var records: Records

    ghost predicate Valid()
      reads this
    {
      TableWithinQuota(records)
    }

    /** An empty table. */
    constructor ()
      ensures records == map[]
      ensures Valid()
    {
      records := map[];
    }

    /** `save_to_db`: store `obj` as the record of `guid`, unless it is over the total quota. */
    method SaveToDb(guid: string, obj: JsonMap) returns (res: Result<(), QuotaReason>)
      modifies this
      ensures res.Ok? <==> TotalFits(obj)
      ensures res.Err? ==> res.error == TotalBytes
      ensures records == if res.Ok? then old(records)[guid := Obj(obj)] else old(records)
    {
      if SerLen(Obj(obj)) > QUOTA_BYTES {
        return Err(TotalBytes);
      }
      records := records[guid := Obj(obj)];
      return Ok(());
    }

    /** `remove_from_db`: delete the record of `guid`. */
    method RemoveFromDb(guid: string)
      modifies this
      ensures records == old(records) - {guid}
    {
      records := records - {guid};
    }

    /** `set`: merge the members of `val` into the record of `guid`. */
    method Set(guid: string, val: Json) returns (res: Result<Changes, QuotaReason>)
      modifies this
      ensures res == Reported(SetSpec(old(Load(records, guid)), val))
      ensures records == Applied(old(records), guid, SetSpec(old(Load(records, guid)), val))
      ensures old(Valid()) ==> Valid()
    {
      SetCommitted(records, guid, val);
      var valMap := Incoming(val);
      var current := Base(Load(records, guid));
      var merged := MergeMembers(current, valMap, SortedKeys(valMap.Keys));
      if merged.Err? {
        return Err(merged.error);
      }
      var saved := SaveToDb(guid, merged.value.0);
      if saved.Err? {
        return Err(saved.error);
      }
      if TableWithinQuota(old(records)) {
        SetKeepsTableWithinQuota(old(records), guid, val);
      }
      return Ok(merged.value.1);
    }

    /** `get`: the members of the record of `guid` that `keys` selects, with defaults filled in. */
    method Get(guid: string, keys: Json) returns (r: Json)
      ensures r == Obj(GetSpec(Load(records, guid), keys))
    {
      var maybeExisting := Load(records, guid);
      if maybeExisting.None? {
        return Obj(map[]);
      }
      var existing := maybeExisting.value;
      if keys == Null {
        return Obj(existing);
      }
      var keysAndDefaults := GetKeys(keys);
      var result: JsonMap := map[];
      for i := 0 to |keysAndDefaults|
        invariant GetLoop(existing, result, keysAndDefaults[i..])
               == GetLoop(maybeExisting.value, map[], keysAndDefaults)
      {
        var (key, maybeDefault) := keysAndDefaults[i];
        assert keysAndDefaults[i..][1..] == keysAndDefaults[i + 1..];
        if key in existing {
          result := result[key := existing[key]];
          existing := existing - {key};
        } else if maybeDefault.Some? {
          result := result[key := maybeDefault.value];
        }
      }
      return Obj(result);
    }

    /** `remove`: take the keys `keys` names out of the record of `guid`. */
    method Remove(guid: string, keys: Json) returns (res: Result<Changes, QuotaReason>)
      modifies this
      ensures res == Reported(RemoveSpec(old(Load(records, guid)), keys))
      ensures records == Applied(old(records), guid, RemoveSpec(old(Load(records, guid)), keys))
      ensures old(Valid()) ==> Valid() && res.Ok?
    {
      if TableWithinQuota(records) {
        RemoveKeepsTableWithinQuota(records, guid, keys);
      }
      var maybeExisting := Load(records, guid);
      if maybeExisting.None? {
        RemoveWithoutRecord(records, guid, keys);
        return Ok(map[]);
      }
      RemoveCommitted(records, guid, keys, maybeExisting.value);
      var remaining, result := RemoveMembers(maybeExisting.value, GetKeys(keys));
      if result != map[] {
        var saved := SaveToDb(guid, remaining);
        if saved.Err? {
          return Err(saved.error);
        }
      }
      return Ok(result);
    }

    /** `clear`: report every member of the record of `guid` as removed, then delete the record. */
    method Clear(guid: string) returns (changes: Changes)
      modifies this
      ensures changes == ClearSpec(old(Load(records, guid))).changes
      ensures records == Commit(old(records), guid, ClearSpec(old(Load(records, guid))).effect)
      ensures old(Valid()) ==> Valid()
    {
      ClearCommitted(records, guid);
      if TableWithinQuota(records) {
        ClearKeepsTableWithinQuota(records, guid);
      }
      var maybeExisting := Load(records, guid);
      if maybeExisting.None? {
        return map[];
      }
      changes := ClearMembers(maybeExisting.value);
      RemoveFromDb(guid);
    }
  }
}
