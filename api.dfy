/**
 * The storage operations of `api.rs` as functions of the loaded record: what
 * each returns and what it does to the record. The class in `store.dfy` runs
 * the same steps imperatively and is proved to agree with these functions.
 */
module Api {
  import opened Wrappers
  import opened KeyOrder
  import opened Json
  import opened KeySpec

  /** Most bytes the serialised object of one extension may take. */
  const QUOTA_BYTES: nat := 102400
  /** A key's bytes plus its serialised value's bytes must stay below this. */
  const QUOTA_BYTES_PER_ITEM: nat := 8192
  /** Most keys one extension may store. */
  const MAX_ITEMS: nat := 512

  datatype QuotaReason = TotalBytes | ItemBytes | MaxItems

  /**
   * `StorageValueChange`: `None` means the field is absent, which is not the
   * same as a JSON null.
   */
  datatype Change = Change(oldValue: Option<Json>, newValue: Option<Json>)

  /** `StorageChanges`: the touched keys and their changes. */
  type Changes = map<string, Change>

  /** What an operation does to the record of its extension. */
  datatype Effect = Untouched | Written(obj: JsonMap) | Deleted

  datatype Mutation = Mutation(effect: Effect, changes: Changes)

  /** The `moz_extension_data` table: extension id to the JSON its record holds. */
  type Records = map<string, Json>

  /** `get_from_db`: a record that does not hold a JSON object counts as no record. */
  function Load(records: Records, guid: string): Option<JsonMap>
  {
    if guid in records && records[guid].Obj? then Some(records[guid].fields) else None
  }

  /** The table after an operation's effect on the record of `guid`. */
  function Commit(records: Records, guid: string, effect: Effect): Records
  {
    match effect
    case Untouched => records
    case Written(obj) => records[guid := Obj(obj)]
    case Deleted => records - {guid}
  }

  function Lookup(m: JsonMap, k: string): Option<Json>
  {
    if k in m then Some(m[k]) else None
  }

  /** The object `set` starts from: the stored one, or an empty one. */
  function Base(stored: Option<JsonMap>): JsonMap
  {
    stored.GetOr(map[])
  }

  /** The members `set` merges: a value that is not an object counts as `{}`. */
  function Incoming(val: Json): JsonMap
  {
    if val.Obj? then val.fields else map[]
  }

  predicate ItemFits(k: string, v: Json)
  {
    Utf8Bytes(k) + SerLen(v) < QUOTA_BYTES_PER_ITEM
  }

  predicate TotalFits(obj: JsonMap)
  {
    SerLen(Obj(obj)) <= QUOTA_BYTES
  }

  /** `save_to_db`: refuse an object whose serialisation is over the total quota. */
  function SaveCheck(obj: JsonMap): Result<Effect, QuotaReason>
  {
    if SerLen(Obj(obj)) > QUOTA_BYTES then Err(TotalBytes) else Ok(Written(obj))
  }

  /**
   * The loop of `set` over the incoming keys still to do: take the key's old
   * entry out, check the item count and the item size, put the new value in
   * and record the change.
   */
  function SetLoop(current: JsonMap, changes: Changes, incoming: JsonMap, keys: seq<string>)
    : Result<(JsonMap, Changes), QuotaReason>
    requires forall k :: k in keys ==> k in incoming
    decreases |keys|
  {
    if keys == [] then Ok((current, changes))
    else
      var k := keys[0];
      var v := incoming[k];
      var rest := current - {k};
      if |rest| >= MAX_ITEMS then Err(MaxItems)
      else if Utf8Bytes(k) + SerLen(v) >= QUOTA_BYTES_PER_ITEM then Err(ItemBytes)
      else SetLoop(rest[k := v], changes[k := Change(Lookup(current, k), Some(v))], incoming, keys[1..])
  }

  /** `set`: merge the members of `val` into the stored object. */
  function SetSpec(stored: Option<JsonMap>, val: Json): Result<Mutation, QuotaReason>
  {
    var incoming := Incoming(val);
    match SetLoop(Base(stored), map[], incoming, SortedKeys(incoming.Keys))
    case Err(e) => Err(e)
    case Ok((merged, changes)) =>
      match SaveCheck(merged)
      case Err(e) => Err(e)
      case Ok(effect) => Ok(Mutation(effect, changes))
  }

  /**
   * The loop of `get` over the selected keys still to do: a stored value is
   * moved into the result, otherwise a supplied default is put there.
   */
  function GetLoop(existing: JsonMap, result: JsonMap, pairs: seq<KeyDefault>): JsonMap
    decreases |pairs|
  {
    if pairs == [] then result
    else
      var (k, d) := pairs[0];
      if k in existing then GetLoop(existing - {k}, result[k := existing[k]], pairs[1..])
      else if d.Some? then GetLoop(existing, result[k := d.value], pairs[1..])
      else GetLoop(existing, result, pairs[1..])
  }

  /** `get`: the object returned for a key specification. */
  function GetSpec(stored: Option<JsonMap>, keys: Json): JsonMap
  {
    match stored
    case None => map[]
    case Some(existing) =>
      if keys == Null then existing else GetLoop(existing, map[], GetKeys(keys))
  }

  /** The loop of `remove` over the selected keys still to do. */
  function RemoveLoop(existing: JsonMap, changes: Changes, pairs: seq<KeyDefault>): (JsonMap, Changes)
    decreases |pairs|
  {
    if pairs == [] then (existing, changes)
    else
      var k := pairs[0].0;
      if k in existing then
        RemoveLoop(existing - {k}, changes[k := Change(Some(existing[k]), None)], pairs[1..])
      else RemoveLoop(existing, changes, pairs[1..])
  }

  /** `remove`: drop the selected keys; write the record back only if one was there. */
  function RemoveSpec(stored: Option<JsonMap>, keys: Json): Result<Mutation, QuotaReason>
  {
    match stored
    case None => Ok(Mutation(Untouched, map[]))
    case Some(existing) =>
      var (remaining, changes) := RemoveLoop(existing, map[], GetKeys(keys));
      if changes == map[] then Ok(Mutation(Untouched, changes))
      else
        match SaveCheck(remaining)
        case Err(e) => Err(e)
        case Ok(effect) => Ok(Mutation(effect, changes))
  }

  /** The change reported for each key of `keys` that `existing` holds, as it is taken out. */
  function Removals(existing: JsonMap, keys: set<string>): Changes
  {
    map k | k in existing && k in keys :: Change(Some(existing[k]), None)
  }

  /** `clear`: report every stored key as removed and delete the record. */
  function ClearSpec(stored: Option<JsonMap>): Mutation
  {
    match stored
    case None => Mutation(Untouched, map[])
    case Some(existing) => Mutation(Deleted, Removals(existing, existing.Keys))
  }

  /** What a mutating operation returns to its caller. */
  function Reported(outcome: Result<Mutation, QuotaReason>): Result<Changes, QuotaReason>
  {
    match outcome
    case Ok(m) => Ok(m.changes)
    case Err(e) => Err(e)
  }

  /** The table after a mutating operation: a refused one leaves it as it was. */
  function Applied(records: Records, guid: string, outcome: Result<Mutation, QuotaReason>): Records
  {
    match outcome
    case Ok(m) => Commit(records, guid, m.effect)
    case Err(_) => records
  }
}
