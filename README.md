# webext-storage: the storage.local operations of `api.rs`

This project models, in Dafny, the core of the `webext-storage` component: the
`storage.local`-style key/value area that keeps one JSON object per extension
in the `moz_extension_data` table, with the four operations `set`, `get`,
`remove` and `clear`, the helper `get_keys` that expands a key specification,
the three quotas (`QUOTA_BYTES` = 102400, `QUOTA_BYTES_PER_ITEM` = 8192,
`MAX_ITEMS` = 512) and the `StorageValueChange` records the mutating operations
report.

The model has two layers.

- `Api` (`api.dfy`) describes each operation as a function of the loaded record:
  - `SetSpec`, `GetSpec`, `RemoveSpec` and `ClearSpec` say what the operation
    returns and what it does to the record. The effect is left alone, written,
    or deleted.
  - `SetLoop`, `GetLoop` and `RemoveLoop` follow the source's loops key by key.
- `Store` (`store.dfy`) is the imperative side. Its class `StorageArea` has the
  table as a field `records`, and its methods `Set`, `Get`, `Remove` and `Clear`
  do what the source does step by step:
  - load the record;
  - walk its keys in a `for` loop;
  - save the record with `SaveToDb` or delete it with `RemoveFromDb`.

  The loops of `set`, `remove` and `clear` are the methods `MergeMembers`,
  `RemoveMembers` and `ClearMembers`. Each method is proved equal to the
  matching function of `Api`. `Set`, `Remove` and `Clear` are also proved to
  keep the table invariant `Valid()`: every object record is within the three
  quotas.

The properties are proved in these files:

| File | Module | What it proves |
|---|---|---|
| `set_properties.dfy` | `SetProperties` | one change per incoming key, even when the value is unchanged; what the merge produces; each quota refuses exactly when it is exceeded |
| `get_properties.dfy` | `GetProperties` | `get` against a direct definition, `Selection`, by shape of key specification |
| `remove_properties.dfy` | `RemoveProperties` | which keys are reported, and when the record is rewritten |
| `table_properties.dfy` | `TableProperties` | the quota invariant; sequences of operations such as `clear` then `get` |

Supporting modules:

- `KeySpec` models `get_keys`.
- `Json` holds the JSON values and the byte length of their compact
  serialisation, which is all the quotas look at.
- `KeyOrder` gives the order in which a serde_json `Map` (a `BTreeMap`) visits
  its keys.

Two behaviours of the code are easy to miss:

- **`set` with a value that is not an object.** It is treated as `{}`, but
  `save_to_db` is still called, so the stored object is written back, and with
  no record an empty object `{}` is written as a new record. The call fails
  only when the stored object is itself already over `QUOTA_BYTES`: the empty
  object serialises to 2 bytes and always fits. It is not a no-op. See
  `SetProperties.SetNonObject`.
- **Order of incoming keys.** `set` visits them in the order the incoming
  `Map` iterates them. That is ascending key order, not the order in which
  they were written. The order only decides which error is reported when
  several quotas would fail.

## Model

| member | source | states |
|---|---|---|
| Store.StorageArea.SaveToDb | components/webext-storage/src/api.rs:39-56 | succeeds exactly when the serialised object is at most `QUOTA_BYTES` bytes, fails with `TotalBytes` otherwise, and writes the record only on success |
| Store.StorageArea.RemoveFromDb | components/webext-storage/src/api.rs:58-66 | the record of the extension is deleted and nothing else changes |
| Store.StorageArea.Set | components/webext-storage/src/api.rs:79-116 | returns the changes or the quota error `SetSpec` gives for the loaded record; the table changes only on success; keeps every record within the quotas |
| Store.MergeMembers | components/webext-storage/src/api.rs:92-112 | the loop over incoming keys ends with the merged object and changes, or the first `MaxItems`/`ItemBytes` refusal, exactly as `SetLoop` |
| Store.StorageArea.Get | components/webext-storage/src/api.rs:143-167 | returns the object `GetSpec` gives for the loaded record and key specification; the table is not changed |
| Store.StorageArea.Remove | components/webext-storage/src/api.rs:169-193 | returns the changes `RemoveSpec` gives and rewrites the record only as it says; on a table within the quotas it never fails and keeps them |
| Store.RemoveMembers | components/webext-storage/src/api.rs:175-188 | the loop over selected keys ends with the remaining object and the removal changes, exactly as `RemoveLoop` |
| Store.StorageArea.Clear | components/webext-storage/src/api.rs:195-213 | reports every stored member as removed and deletes the record; with no object record it reports nothing and changes nothing |
| Store.ClearMembers | components/webext-storage/src/api.rs:201-210 | the changes are one per stored key, each with the old value and no new value |
| KeyOrder.SortedKeys | components/webext-storage/src/api.rs:95 | the keys of a map are visited once each, all of them, and no others |
| KeySpec.GetKeys | components/webext-storage/src/api.rs:118-141 | a string names one key without default; an array names exactly its string elements; an object names each member once with its value as default; anything else names nothing |
| KeySpec.ObjectDefaults | components/webext-storage/src/api.rs:135-138 | one pair per member of the object, each key once, its default being the member's value |
| KeySpec.StringItemsAppend | components/webext-storage/src/api.rs:124-130 | the array case keeps array order and does not remove duplicates |
| KeySpec.StringItemsAllStrings | components/webext-storage/src/api.rs:124-130 | an array of strings names exactly its elements, position by position |
| KeySpec.KeySetShapes | components/webext-storage/src/api.rs:121-140 | the set of keys each shape of specification names: `{s}`, the string elements, the object's keys, or none |
| Json.StrLenCountsQuotes | components/webext-storage/src/api.rs:100-103 | a string value costs at least its UTF-8 bytes plus two quotes, exactly that for plain ASCII |
| Json.SerLenSubObject | components/webext-storage/src/api.rs:41-45 | an object with fewer members never serialises to more bytes |
| SetProperties.SetLoopSucceeds | components/webext-storage/src/api.rs:95-112 | the loop over incoming keys succeeds exactly when the merged key count stays within `MAX_ITEMS` and every member fits the per-item quota |
| SetProperties.SetLoopMerges | components/webext-storage/src/api.rs:95-112 | a successful loop yields the stored object overwritten by the incoming members, and one change per key |
| SetProperties.SetLoopRefusals | components/webext-storage/src/api.rs:95-105 | a `MaxItems` refusal means the merge would exceed `MAX_ITEMS` keys; an `ItemBytes` refusal means some member is over the per-item quota; the loop never reports `TotalBytes` |
| SetProperties.SetLoopOutcome | components/webext-storage/src/api.rs:95-112 | the three facts above for the loop `set` runs, over the incoming keys in iteration order from no changes |
| SetProperties.SetOutcome | components/webext-storage/src/api.rs:79-116 | `set` succeeds exactly when the item count, every item size and the total size are within quota; it then writes the merge and reports one change per incoming key; each error names a quota that is exceeded |
| SetProperties.SetSameValueIsReported | components/webext-storage/src/api.rs:356-370 | setting a member to the value it already has is reported as a change from that value to itself |
| SetProperties.SetNonObject | components/webext-storage/src/api.rs:84-88 | a value that is not an object merges nothing, reports no change and writes the stored object back, subject to the total quota |
| SetProperties.SetNonObjectWithoutRecord | components/webext-storage/src/api.rs:84-90 | with no record, a value that is not an object writes an empty object, reports no change and never fails |
| SetProperties.SetExistingKeysNeverMaxItems | components/webext-storage/src/api.rs:96-99 | updating keys that are all stored never trips `MaxItems`, because the count is taken after the key's old entry is removed |
| SetProperties.SetNewKeyWhenFullFails | components/webext-storage/src/api.rs:372-389 | a new key on an object that already has `MAX_ITEMS` keys is refused with `MaxItems` |
| SetProperties.SetItemBytesBoundary | components/webext-storage/src/api.rs:100-105 | one new member is refused with `ItemBytes` if and only if key bytes plus serialised value bytes reach `QUOTA_BYTES_PER_ITEM` |
| SetProperties.SetKeepsItemCount | components/webext-storage/src/api.rs:96-99 | after a successful `set` on an object within `MAX_ITEMS` the written object has at most `MAX_ITEMS` keys |
| SetProperties.ItemBytesCountsQuotes | components/webext-storage/src/api.rs:391-409 | a value of 8187 `x` characters fits under key `"x"` and does not fit under key `"xxxx"` |
| GetProperties.GetLoopWithoutDefaults | components/webext-storage/src/api.rs:158-165 | without defaults the loop of `get` adds exactly the stored members whose keys are selected |
| GetProperties.GetLoopWithDefaults | components/webext-storage/src/api.rs:158-165 | with defaults the loop adds every selected key, with its stored value if any and its default otherwise |
| GetProperties.GetMatchesSelection | components/webext-storage/src/api.rs:143-167 | `get` equals `Selection` for every record and key specification: `{}` without a record, the whole object for `null`, and otherwise the stored selected members, with defaults for absent ones |
| GetProperties.GetDefaultsLookup | components/webext-storage/src/api.rs:156-165 | with an object of defaults a key is in the result iff it is named, and its value is the stored one when stored, else its default |
| GetProperties.GetAbsentKeyOmitted | components/webext-storage/src/api.rs:159-164 | an absent key without a default is left out of the result |
| GetProperties.GetNullDefault | components/webext-storage/src/api.rs:162-164 | an absent key with a `null` default is returned as `null` |
| GetProperties.GetStoredBeatsDefault | components/webext-storage/src/api.rs:160-161 | a stored key is returned with its stored value, whatever its default |
| GetProperties.GetWholeOrNothing | components/webext-storage/src/api.rs:146-154 | without a record every query reads `{}`; with one, `null` reads the whole object |
| GetProperties.GetSingleItemQueries | components/webext-storage/src/api.rs:253-263 | the five query shapes on `{"foo": "bar"}` all return `{"foo": "bar"}` |
| GetProperties.GetTwoDefaults | components/webext-storage/src/api.rs:158-165 | two keys with defaults, one stored and one not, return the stored value and the default |
| GetProperties.GetMixedDefaults | components/webext-storage/src/api.rs:282-285 | `{"foo": null, "default": "yo"}` on `{"foo": "new", "other": "also new"}` returns `{"foo": "new", "default": "yo"}` |
| RemoveProperties.RemoveLoopRemoves | components/webext-storage/src/api.rs:178-188 | the loop of `remove` takes out every selected key and adds one change per selected key that was stored |
| RemoveProperties.RemoveOutcome | components/webext-storage/src/api.rs:169-193 | without a record nothing happens; if no selected key is stored nothing is written; otherwise the rest is written, subject to the total quota, and each removed key is reported |
| RemoveProperties.RemoveReportsStoredKeys | components/webext-storage/src/api.rs:178-188 | a key is reported iff it is selected and stored, with its stored value as old value and no new value |
| RemoveProperties.RemoveWithinQuotaSucceeds | components/webext-storage/src/api.rs:189-191 | removing from an object within the total quota never fails |
| RemoveProperties.RemoveMissingKey | components/webext-storage/src/api.rs:178-192 | removing a key that is not stored reports nothing and leaves the record alone |
| RemoveProperties.RemoveNullRemovesNothing | components/webext-storage/src/api.rs:175-192 | `remove(null)` names no key, reports nothing and leaves the record alone |
| RemoveProperties.RemoveLastKeyLeavesEmptyObject | components/webext-storage/src/api.rs:189-191 | removing the only member writes back an empty object instead of deleting the record |
| TableProperties.SetResultWithinQuota | components/webext-storage/src/api.rs:96-114 | what a successful `set` writes is within all three quotas when the record it started from was |
| TableProperties.RemoveResultWithinQuota | components/webext-storage/src/api.rs:189-192 | on a record within the quotas `remove` succeeds, never deletes, and writes an object within the quotas |
| TableProperties.SetKeepsTableWithinQuota | components/webext-storage/src/api.rs:79-116 | `set` keeps every object record of the table within the quotas |
| TableProperties.RemoveKeepsTableWithinQuota | components/webext-storage/src/api.rs:169-193 | `remove` never fails on such a table and keeps it within the quotas |
| TableProperties.ClearKeepsTableWithinQuota | components/webext-storage/src/api.rs:195-213 | `clear` keeps every object record of the table within the quotas |
| TableProperties.OtherExtensionsUntouched | components/webext-storage/src/api.rs:50-63 | an operation on one extension's record leaves every other record as it was |
| TableProperties.ClearThenGetIsEmpty | components/webext-storage/src/api.rs:293-297 | after `clear` every query of that extension reads `{}` |
| TableProperties.SetAfterClearStartsEmpty | components/webext-storage/src/api.rs:195-213 | after `clear` a `set` behaves as on an extension with no record |
| TableProperties.ClearReportsEveryKey | components/webext-storage/src/api.rs:201-210 | `clear` reports a key iff it is stored, with its old value and no new value |
| TableProperties.SetThenGetAll | components/webext-storage/src/api.rs:273-276 | after a successful `set`, `get(null)` returns the old object with the new members merged over it |
| TableProperties.SetThenGetKey | components/webext-storage/src/api.rs:277 | after a successful `set`, reading one of its keys returns the value it set |
| TableProperties.RemoveThenGetKey | components/webext-storage/src/api.rs:178-190 | after a successful `remove` of a key, reading that key returns `{}` |
| TableProperties.NonObjectRecordReadsEmpty | components/webext-storage/src/api.rs:28-33 | a record that does not hold an object reads as `{}` and `clear` leaves it alone |
| TableProperties.SetWithoutRecord | components/webext-storage/src/api.rs:90 | a successful `set` with no record writes an object of just the new members |
| TableProperties.SetReplacesNonObject | components/webext-storage/src/api.rs:28-33 | a successful `set` replaces a record that does not hold an object by the new members alone |

## Left out

- Database access. The SQL statements, connection errors and the errors of
  `execute_named` and `try_query_one` are not modelled. The table is a map
  from extension id to the JSON value its record holds.
- JSON text. Parsing and printing are not modelled, nor is the error
  `serde_json::from_str` raises on a record that is not valid JSON. A record
  holds a parsed value, and `SerLen` gives the byte length of
  `val.to_string()` without building the text.
- Floating-point numbers. Numbers are unbounded integers, so the 64-bit range
  of serde_json numbers is not enforced.
- `HashMap` iteration order of `StorageChanges`. Changes are a Dafny `map`, so
  they have no order.
- The serialisation of `StorageValueChange`. `skip_serializing_if`, camelCase
  names and the listener notification are left out; an absent old or new value
  is `None`.
- Transactions, sync support (sync status, tombstones) and concurrency. The
  model runs one operation at a time.
- The operations-per-minute quotas, which the source does not enforce, and
  `get_bytes_in_use`, which it does not implement.
- The serde_json `preserve_order` feature. The model follows the default
  `BTreeMap`, whose iteration order decides which quota error `set` reports
  first.
