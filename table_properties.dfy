/**
 * Properties of the table across operations: what one extension's record looks
 * like after another operation on it, and the quota invariant that `set`,
 * `remove` and `clear` keep for every record they write.
 */
module TableProperties {
  import opened Wrappers
  import opened Json
  import opened KeySpec
  import opened Api
  import opened SetProperties
  import opened GetProperties
  import opened RemoveProperties

  /** The three quotas, as an object written by `set` or `remove` keeps them. */
  predicate WithinQuota(obj: JsonMap)
  {
    |obj| <= MAX_ITEMS && ItemsFit(obj) && TotalFits(obj)
  }

  /** A loaded record (if any) within the quotas. */
  predicate StoredWithinQuota(stored: Option<JsonMap>)
  {
    stored.Some? ==> WithinQuota(stored.value)
  }

  /** Every object record of the table within the quotas. */
  predicate TableWithinQuota(records: Records)
  {
    forall g :: g in records && records[g].Obj? ==> WithinQuota(records[g].fields)
  }

  /** Writing an object within the quotas, or deleting a record, keeps the whole table within them. */
  lemma CommitKeepsQuota(records: Records, guid: string, effect: Effect)
    requires TableWithinQuota(records)
    requires effect.Written? ==> WithinQuota(effect.obj)
    ensures TableWithinQuota(Commit(records, guid, effect))
  {
  }

  lemma MergedItemsFit(existing: JsonMap, incoming: JsonMap)
    requires ItemsFit(existing) && ItemsFit(incoming)
    ensures ItemsFit(existing + incoming)
  {
    forall k | k in existing + incoming ensures ItemFits(k, (existing + incoming)[k]) {
      if k !in incoming {
        assert k in existing;
      }
    }
  }

  /** What a successful `set` writes is within the quotas when the record it started from was. */
  lemma SetResultWithinQuota(stored: Option<JsonMap>, val: Json)
    requires StoredWithinQuota(stored)
    requires SetSpec(stored, val).Ok?
    ensures SetSpec(stored, val).value.effect.Written?
    ensures WithinQuota(SetSpec(stored, val).value.effect.obj)
  {
    SetOutcome(stored, val);
    SetKeepsItemCount(stored, val);
    MergedItemsFit(Base(stored), Incoming(val));
  }

  /**
   * On a record within the quotas `remove` never fails, never deletes the
   * record, and what it writes stays within the quotas.
   */
  lemma RemoveResultWithinQuota(stored: Option<JsonMap>, keys: Json)
    requires StoredWithinQuota(stored)
    ensures RemoveSpec(stored, keys).Ok?
    ensures !RemoveSpec(stored, keys).value.effect.Deleted?
    ensures RemoveSpec(stored, keys).value.effect.Written? ==> WithinQuota(RemoveSpec(stored, keys).value.effect.obj)
  {
    RemoveOutcome(stored, keys);
    if stored.Some? {
      var existing := stored.value;
      var rest := existing - KeySet(keys);
      RemoveWithinQuotaSucceeds(existing, keys);
      SubsetCard(rest.Keys, existing.Keys);
    }
  }

  /** `set` keeps every record of the table within the quotas. */
  lemma SetKeepsTableWithinQuota(records: Records, guid: string, val: Json)
    requires TableWithinQuota(records)
    ensures TableWithinQuota(Applied(records, guid, SetSpec(Load(records, guid), val)))
  {
    var outcome := SetSpec(Load(records, guid), val);
    if outcome.Ok? {
      SetResultWithinQuota(Load(records, guid), val);
      CommitKeepsQuota(records, guid, outcome.value.effect);
    }
  }

  /** `remove` keeps every record of the table within the quotas, and never fails on such a table. */
  lemma RemoveKeepsTableWithinQuota(records: Records, guid: string, keys: Json)
    requires TableWithinQuota(records)
    ensures RemoveSpec(Load(records, guid), keys).Ok?
    ensures TableWithinQuota(Applied(records, guid, RemoveSpec(Load(records, guid), keys)))
  {
    RemoveResultWithinQuota(Load(records, guid), keys);
    CommitKeepsQuota(records, guid, RemoveSpec(Load(records, guid), keys).value.effect);
  }

  /** `clear` keeps every record of the table within the quotas. */
  lemma ClearKeepsTableWithinQuota(records: Records, guid: string)
    requires TableWithinQuota(records)
    ensures TableWithinQuota(Commit(records, guid, ClearSpec(Load(records, guid)).effect))
  {
    CommitKeepsQuota(records, guid, ClearSpec(Load(records, guid)).effect);
  }

  /** An operation on one extension's record leaves every other extension's record as it was. */
  lemma OtherExtensionsUntouched(records: Records, guid: string, other: string, outcome: Result<Mutation, QuotaReason>)
    requires other != guid
    ensures Applied(records, guid, outcome) - {guid} == records - {guid}
    ensures Load(Applied(records, guid, outcome), other) == Load(records, other)
  {
    if outcome.Ok? {
      match outcome.value.effect
      case Untouched =>
      case Written(obj) =>
        assert records[guid := Obj(obj)] - {guid} == records - {guid};
      case Deleted =>
        assert (records - {guid}) - {guid} == records - {guid};
    }
  }

  /** After `clear` every query of that extension reads `{}`. */
  lemma ClearThenGetIsEmpty(records: Records, guid: string, keys: Json)
    ensures var cleared := Commit(records, guid, ClearSpec(Load(records, guid)).effect);
      GetSpec(Load(cleared, guid), keys) == map[]
  {
    var cleared := Commit(records, guid, ClearSpec(Load(records, guid)).effect);
    assert Load(cleared, guid) == None;
    GetWholeOrNothing(None, keys);
  }

  /** After `clear` a `set` starts from an empty object: it behaves as on an extension with no record. */
  lemma SetAfterClearStartsEmpty(records: Records, guid: string, val: Json)
    ensures var cleared := Commit(records, guid, ClearSpec(Load(records, guid)).effect);
      SetSpec(Load(cleared, guid), val) == SetSpec(None, val)
  {
    var cleared := Commit(records, guid, ClearSpec(Load(records, guid)).effect);
    assert Load(cleared, guid) == None;
  }

  /** `clear` reports every stored member with its old value, and nothing else. */
  lemma ClearReportsEveryKey(stored: Option<JsonMap>, k: string)
    ensures var changes := ClearSpec(stored).changes;
      && (k in changes <==> stored.Some? && k in stored.value)
      && (k in changes ==> changes[k] == Change(Some(stored.value[k]), None))
  {
  }

  /** After a successful `set`, reading everything gives the old object with the new members merged over it. */
  lemma SetThenGetAll(records: Records, guid: string, val: Json)
    requires SetSpec(Load(records, guid), val).Ok?
    ensures var written := Applied(records, guid, SetSpec(Load(records, guid), val));
      GetSpec(Load(written, guid), Null) == Base(Load(records, guid)) + Incoming(val)
  {
    SetOutcome(Load(records, guid), val);
  }

  /** After a successful `set`, reading one of the keys it set gives the value it set. */
  lemma SetThenGetKey(records: Records, guid: string, val: Json, k: string)
    requires SetSpec(Load(records, guid), val).Ok?
    requires k in Incoming(val)
    ensures var written := Applied(records, guid, SetSpec(Load(records, guid), val));
      GetSpec(Load(written, guid), Str(k)) == map[k := Incoming(val)[k]]
  {
    SetThenGetAll(records, guid, val);
    var written := Applied(records, guid, SetSpec(Load(records, guid), val));
    GetMatchesSelection(Load(written, guid), Str(k));
  }

  /** After a successful `remove` of a key, reading that key gives `{}`. */
  lemma RemoveThenGetKey(records: Records, guid: string, k: string)
    requires RemoveSpec(Load(records, guid), Str(k)).Ok?
    ensures var written := Applied(records, guid, RemoveSpec(Load(records, guid), Str(k)));
      GetSpec(Load(written, guid), Str(k)) == map[]
  {
    var stored := Load(records, guid);
    var written := Applied(records, guid, RemoveSpec(stored, Str(k)));
    RemoveOutcome(stored, Str(k));
    KeySetShapes(Str(k));
    GetMatchesSelection(Load(written, guid), Str(k));
    if stored.Some? && k in stored.value {
      assert k in Removals(stored.value, {k});
    }
  }

  /** A record that does not hold an object reads as `{}` and is left alone by `clear`. */
  lemma NonObjectRecordReadsEmpty(records: Records, guid: string, keys: Json)
    requires guid in records && !records[guid].Obj?
    ensures GetSpec(Load(records, guid), keys) == map[]
    ensures ClearSpec(Load(records, guid)) == Mutation(Untouched, map[])
  {
  }

  /** A successful `set` on an extension with no record writes an object of just the new members. */
  lemma SetWithoutRecord(val: Json)
    requires SetSpec(None, val).Ok?
    ensures SetSpec(None, val).value.effect == Written(Incoming(val))
  {
    SetOutcome(None, val);
    EmptyUnion(Incoming(val));
  }

  /** A successful `set` replaces a record that does not hold an object by an object of just the new members. */
  lemma SetReplacesNonObject(records: Records, guid: string, val: Json)
    requires guid in records && !records[guid].Obj?
    requires SetSpec(Load(records, guid), val).Ok?
    ensures Applied(records, guid, SetSpec(Load(records, guid), val))[guid] == Obj(Incoming(val))
  {
    assert Load(records, guid) == None;
    SetWithoutRecord(val);
  }
}
