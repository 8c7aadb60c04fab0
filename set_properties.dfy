/**
 * What `set` promises: one change per incoming key, the merged object on
 * success, and the three quotas, each refusing exactly when it is exceeded.
 */
module SetProperties {
  import opened Wrappers
  import opened KeyOrder
  import opened Json
  import opened Api

  /** The changes `set` reports for the keys `keys` of `incoming`, merged into `existing`. */
  function SetChangesOn(existing: JsonMap, incoming: JsonMap, keys: set<string>): Changes
  {
    map k | k in incoming && k in keys :: Change(Lookup(existing, k), Some(incoming[k]))
  }

  /** One change per incoming key: the value it replaces (absent if none) and the new value. */
  function SetChanges(existing: JsonMap, incoming: JsonMap): Changes
  {
    SetChangesOn(existing, incoming, incoming.Keys)
  }

  /** The item-count quota: the merged object holds at most `MAX_ITEMS` keys (nothing is checked when nothing is merged). */
  predicate MaxItemsOk(existing: JsonMap, incoming: JsonMap)
  {
    incoming == map[] || |existing.Keys + incoming.Keys| <= MAX_ITEMS
  }

  /** The per-item quota, for every incoming member. */
  predicate ItemsFit(incoming: JsonMap)
  {
    forall k :: k in incoming ==> ItemFits(k, incoming[k])
  }

  predicate Distinct(keys: seq<string>)
  {
    forall i, j :: 0 <= i < j < |keys| ==> keys[i] != keys[j]
  }

  /** The keys listed in `keys`. */
  function Named(keys: seq<string>): set<string>
  {
    set k | k in keys
  }

  lemma NamedTail(keys: seq<string>)
    requires keys != [] && Distinct(keys)
    ensures Named(keys) == Named(keys[1..]) + {keys[0]}
    ensures keys[0] !in Named(keys[1..])
    ensures Distinct(keys[1..])
  {
    assert forall x :: x in keys <==> x == keys[0] || x in keys[1..];
    forall j | 0 <= j < |keys[1..]| ensures keys[1..][j] != keys[0] {
      assert keys[1..][j] == keys[j + 1];
    }
  }

  /** Taking `k` out of `current` leaves fewer keys than `current` and `named` have between them. */
  lemma CountBound(current: JsonMap, k: string, named: set<string>)
    requires k in named
    ensures |current - {k}| + 1 <= |current.Keys + named|
    ensures |current - {k}| + 1 == |current.Keys + {k}|
  {
    var rest := current - {k};
    assert rest.Keys + {k} <= current.Keys + named;
    SubsetCard(rest.Keys + {k}, current.Keys + named);
    assert rest.Keys + {k} == current.Keys + {k};
    assert |rest.Keys + {k}| == |rest.Keys| + 1;
  }

  /** Taking a key out and putting its new value in, then merging the rest, is merging all. */
  lemma MergeStep(current: JsonMap, incoming: JsonMap, k: string, later: set<string>)
    requires k in incoming && k !in later
    ensures (current - {k})[k := incoming[k]] + Restrict(incoming, later)
         == current + Restrict(incoming, later + {k})
  {
    var lhs := (current - {k})[k := incoming[k]] + Restrict(incoming, later);
    var rhs := current + Restrict(incoming, later + {k});
    assert lhs.Keys == rhs.Keys;
    forall x | x in lhs ensures lhs[x] == rhs[x] {
      if x == k {
      } else if x in later && x in incoming {
      } else {
      }
    }
  }

  lemma ChangesStep(current: JsonMap, changes: Changes, incoming: JsonMap, k: string, later: set<string>)
    requires k in incoming && k !in later
    ensures changes[k := Change(Lookup(current, k), Some(incoming[k]))]
              + SetChangesOn((current - {k})[k := incoming[k]], incoming, later)
         == changes + SetChangesOn(current, incoming, later + {k})
  {
    var current' := (current - {k})[k := incoming[k]];
    var lhs := changes[k := Change(Lookup(current, k), Some(incoming[k]))]
                 + SetChangesOn(current', incoming, later);
    var rhs := changes + SetChangesOn(current, incoming, later + {k});
    assert lhs.Keys == rhs.Keys;
    forall x | x in lhs ensures lhs[x] == rhs[x] {
      if x != k && x in later && x in incoming {
        assert Lookup(current', x) == Lookup(current, x);
      }
    }
  }

  /** One turn of the loop of `set` past a key that passes both checks. */
  lemma SetLoopPasses(current: JsonMap, changes: Changes, incoming: JsonMap, keys: seq<string>)
    requires forall k :: k in keys ==> k in incoming
    requires keys != [] && |current - {keys[0]}| < MAX_ITEMS && ItemFits(keys[0], incoming[keys[0]])
    ensures var k := keys[0];
      SetLoop(current, changes, incoming, keys)
        == SetLoop((current - {k})[k := incoming[k]], changes[k := Change(Lookup(current, k), Some(incoming[k]))],
                   incoming, keys[1..])
  {
  }

  /** The keys present or still to come are the same after a turn of the loop of `set`. */
  lemma KeysAfterTurn(current: JsonMap, incoming: JsonMap, keys: seq<string>)
    requires keys != [] && Distinct(keys) && keys[0] in incoming
    ensures var k := keys[0];
      ((current - {k})[k := incoming[k]]).Keys + Named(keys[1..]) == current.Keys + Named(keys)
    ensures Named(keys) == Named(keys[1..]) + {keys[0]}
  {
    NamedTail(keys);
  }

  /**
   * The loop of `set` succeeds exactly when the count and size checks hold
   * for the keys it visits, whatever their order.
   */
  lemma {:induction false} SetLoopSucceeds(current: JsonMap, changes: Changes, incoming: JsonMap, keys: seq<string>)
    requires forall k :: k in keys ==> k in incoming
    requires Distinct(keys)
    ensures SetLoop(current, changes, incoming, keys).Ok? <==>
      (keys == [] || |current.Keys + Named(keys)| <= MAX_ITEMS) &&
      (forall k :: k in Named(keys) ==> ItemFits(k, incoming[k]))
    decreases |keys|
  {
    if keys != [] {
      var k := keys[0];
      var rest := current - {k};
      if |rest| >= MAX_ITEMS {
        CountBound(current, k, Named(keys));
      } else if !ItemFits(k, incoming[k]) {
        assert k in Named(keys);
      } else {
        var current' := rest[k := incoming[k]];
        var changes' := changes[k := Change(Lookup(current, k), Some(incoming[k]))];
        NamedTail(keys);
        SetLoopSucceeds(current', changes', incoming, keys[1..]);
        SetLoopSucceedsStep(current, changes, incoming, keys);
      }
    }
  }

  /** The step of `SetLoopSucceeds` past a key that passes both checks. */
  lemma SetLoopSucceedsStep(current: JsonMap, changes: Changes, incoming: JsonMap, keys: seq<string>)
    requires forall k :: k in keys ==> k in incoming
    requires keys != [] && Distinct(keys)
    requires |current - {keys[0]}| < MAX_ITEMS && ItemFits(keys[0], incoming[keys[0]])
    requires var k := keys[0];
      var current' := (current - {k})[k := incoming[k]];
      var changes' := changes[k := Change(Lookup(current, k), Some(incoming[k]))];
      SetLoop(current', changes', incoming, keys[1..]).Ok? <==>
        (keys[1..] == [] || |current'.Keys + Named(keys[1..])| <= MAX_ITEMS) &&
        (forall x :: x in Named(keys[1..]) ==> ItemFits(x, incoming[x]))
    ensures SetLoop(current, changes, incoming, keys).Ok? <==>
      |current.Keys + Named(keys)| <= MAX_ITEMS &&
      (forall x :: x in Named(keys) ==> ItemFits(x, incoming[x]))
  {
    var k := keys[0];
    SetLoopPasses(current, changes, incoming, keys);
    KeysAfterTurn(current, incoming, keys);
    if keys[1..] == [] {
      CountBound(current, k, Named(keys));
    }
  }

  /** On success the loop of `set` has merged the visited members and recorded their changes. */
  lemma {:induction false} SetLoopMerges(current: JsonMap, changes: Changes, incoming: JsonMap, keys: seq<string>)
    requires forall k :: k in keys ==> k in incoming
    requires Distinct(keys)
    requires SetLoop(current, changes, incoming, keys).Ok?
    ensures SetLoop(current, changes, incoming, keys).value
         == (current + Restrict(incoming, Named(keys)), changes + SetChangesOn(current, incoming, Named(keys)))
    decreases |keys|
  {
    if keys == [] {
      MergeNothing(current, changes, incoming);
    } else {
      var k := keys[0];
      NamedTail(keys);
      var current' := (current - {k})[k := incoming[k]];
      var changes' := changes[k := Change(Lookup(current, k), Some(incoming[k]))];
      assert SetLoop(current, changes, incoming, keys) == SetLoop(current', changes', incoming, keys[1..]) by {
        assert |current - {k}| < MAX_ITEMS && ItemFits(k, incoming[k]);
      }
      SetLoopMerges(current', changes', incoming, keys[1..]);
      MergeStep(current, incoming, k, Named(keys[1..]));
      ChangesStep(current, changes, incoming, k, Named(keys[1..]));
    }
  }

  lemma MergeNothing(current: JsonMap, changes: Changes, incoming: JsonMap)
    ensures current + Restrict(incoming, {}) == current
    ensures changes + SetChangesOn(current, incoming, {}) == changes
  {
  }

  /** Each refusal of the loop of `set` names a quota that is exceeded; it never reports `TotalBytes`. */
  lemma {:induction false} SetLoopRefusals(current: JsonMap, changes: Changes, incoming: JsonMap, keys: seq<string>)
    requires forall k :: k in keys ==> k in incoming
    requires Distinct(keys)
    ensures SetLoop(current, changes, incoming, keys) == Err(MaxItems)
        ==> |current.Keys + Named(keys)| > MAX_ITEMS
    ensures SetLoop(current, changes, incoming, keys) == Err(ItemBytes)
        ==> exists k :: k in Named(keys) && !ItemFits(k, incoming[k])
    ensures SetLoop(current, changes, incoming, keys) != Err(TotalBytes)
    decreases |keys|
  {
    if keys != [] {
      var k := keys[0];
      var rest := current - {k};
      NamedTail(keys);
      if |rest| >= MAX_ITEMS {
        CountBound(current, k, Named(keys));
      } else if ItemFits(k, incoming[k]) {
        var current' := rest[k := incoming[k]];
        var changes' := changes[k := Change(Lookup(current, k), Some(incoming[k]))];
        SetLoopRefusals(current', changes', incoming, keys[1..]);
        SetLoopRefusalsStep(current, changes, incoming, keys);
      } else {
        assert k in Named(keys);
      }
    }
  }

  /** The step of `SetLoopRefusals` past a key that passes both checks. */
  lemma SetLoopRefusalsStep(current: JsonMap, changes: Changes, incoming: JsonMap, keys: seq<string>)
    requires forall k :: k in keys ==> k in incoming
    requires keys != [] && Distinct(keys)
    requires |current - {keys[0]}| < MAX_ITEMS && ItemFits(keys[0], incoming[keys[0]])
    requires var k := keys[0];
      var r := SetLoop((current - {k})[k := incoming[k]],
                       changes[k := Change(Lookup(current, k), Some(incoming[k]))], incoming, keys[1..]);
      && (r == Err(MaxItems) ==> |((current - {k})[k := incoming[k]]).Keys + Named(keys[1..])| > MAX_ITEMS)
      && (r == Err(ItemBytes) ==> exists x :: x in Named(keys[1..]) && !ItemFits(x, incoming[x]))
      && r != Err(TotalBytes)
    ensures SetLoop(current, changes, incoming, keys) == Err(MaxItems)
        ==> |current.Keys + Named(keys)| > MAX_ITEMS
    ensures SetLoop(current, changes, incoming, keys) == Err(ItemBytes)
        ==> exists x :: x in Named(keys) && !ItemFits(x, incoming[x])
    ensures SetLoop(current, changes, incoming, keys) != Err(TotalBytes)
  {
    SetLoopPasses(current, changes, incoming, keys);
    KeysAfterTurn(current, incoming, keys);
  }

  lemma RestrictAll(m: JsonMap)
    ensures Restrict(m, m.Keys) == m
  {
  }

  /** Adding a map to the empty map gives that map. */
  lemma EmptyUnion<K, V>(m: map<K, V>)
    ensures map[] + m == m
  {
  }

  /** A successful loop over all incoming keys, from no changes, yields the merge and one change per key. */
  lemma SetLoopMergesAll(existing: JsonMap, incoming: JsonMap, keys: seq<string>)
    requires forall k :: k in keys ==> k in incoming
    requires Distinct(keys) && Named(keys) == incoming.Keys
    requires SetLoop(existing, map[], incoming, keys).Ok?
    ensures SetLoop(existing, map[], incoming, keys).value == (existing + incoming, SetChanges(existing, incoming))
  {
    SetLoopMerges(existing, map[], incoming, keys);
    RestrictAll(incoming);
    EmptyUnion(SetChanges(existing, incoming));
  }

  /** How `set` ends once its loop has run: a refusal from the loop, or the total-quota check on the merged object. */
  lemma SetSpecByLoop(stored: Option<JsonMap>, val: Json)
    ensures var loop := SetLoop(Base(stored), map[], Incoming(val), SortedKeys(Incoming(val).Keys));
      && (loop.Err? ==> SetSpec(stored, val) == Err(loop.error))
      && (loop.Ok? && !TotalFits(loop.value.0) ==> SetSpec(stored, val) == Err(TotalBytes))
      && (loop.Ok? && TotalFits(loop.value.0) ==>
            SetSpec(stored, val) == Ok(Mutation(Written(loop.value.0), loop.value.1)))
  {
  }

  /** The loop of `set` over all incoming keys, from no changes: when it succeeds, what it yields, and why it refuses. */
  lemma SetLoopOutcome(existing: JsonMap, incoming: JsonMap)
    ensures var loop := SetLoop(existing, map[], incoming, SortedKeys(incoming.Keys));
      && (loop.Ok? <==> MaxItemsOk(existing, incoming) && ItemsFit(incoming))
      && (loop.Ok? ==> loop.value == (existing + incoming, SetChanges(existing, incoming)))
      && (loop == Err(MaxItems) ==> !MaxItemsOk(existing, incoming))
      && (loop == Err(ItemBytes) ==> !ItemsFit(incoming))
      && loop != Err(TotalBytes)
  {
    var keys := SortedKeys(incoming.Keys);
    var loop := SetLoop(existing, map[], incoming, keys);
    assert Named(keys) == incoming.Keys;
    assert keys == [] <==> incoming == map[];
    SetLoopSucceeds(existing, map[], incoming, keys);
    SetLoopRefusals(existing, map[], incoming, keys);
    if loop.Ok? {
      SetLoopMergesAll(existing, incoming, keys);
    }
  }

  /**
   * `set` succeeds exactly when the item count, every item's size and the
   * merged object's size are within their quotas. It then writes the stored
   * object overlaid with the incoming members and reports one change per
   * incoming key; each refusal names a quota that is exceeded, and the record
   * is left alone.
   */
  lemma SetOutcome(stored: Option<JsonMap>, val: Json)
    ensures var existing, incoming, r := Base(stored), Incoming(val), SetSpec(stored, val);
      && (r.Ok? <==> MaxItemsOk(existing, incoming) && ItemsFit(incoming) && TotalFits(existing + incoming))
      && (r.Ok? ==> r.value == Mutation(Written(existing + incoming), SetChanges(existing, incoming)))
      && (r == Err(MaxItems) ==> !MaxItemsOk(existing, incoming))
      && (r == Err(ItemBytes) ==> !ItemsFit(incoming))
      && (r == Err(TotalBytes) ==> MaxItemsOk(existing, incoming) && ItemsFit(incoming) && !TotalFits(existing + incoming))
  {
    SetSpecByLoop(stored, val);
    SetLoopOutcome(Base(stored), Incoming(val));
  }

  /** Setting a value identical to the stored one is still reported as a change. */
  lemma SetSameValueIsReported(stored: JsonMap, k: string, v: Json)
    requires k in stored && stored[k] == v
    requires |stored| <= MAX_ITEMS && ItemFits(k, v) && TotalFits(stored)
    ensures SetSpec(Some(stored), Obj(map[k := v]))
         == Ok(Mutation(Written(stored), map[k := Change(Some(v), Some(v))]))
  {
    SetOutcome(Some(stored), Obj(map[k := v]));
    assert stored.Keys + {k} == stored.Keys;
    assert stored + map[k := v] == stored;
    assert SetChanges(stored, map[k := v]) == map[k := Change(Some(v), Some(v))];
  }

  /** A value that is not an object is merged as `{}`: no changes, the stored object written back. */
  lemma SetNonObject(stored: Option<JsonMap>, val: Json)
    requires !val.Obj?
    ensures SetSpec(stored, val)
         == if TotalFits(Base(stored)) then Ok(Mutation(Written(Base(stored)), map[])) else Err(TotalBytes)
  {
    SetOutcome(stored, val);
    assert Base(stored) + map[] == Base(stored);
  }

  /** With no record, a value that is not an object writes an empty object and cannot fail. */
  lemma SetNonObjectWithoutRecord(val: Json)
    requires !val.Obj?
    ensures SetSpec(None, val) == Ok(Mutation(Written(map[]), map[]))
  {
    SetNonObject(None, val);
    assert SerLen(Obj(map[])) == 2 by {
      assert EntriesLen(map[], {}) == 0;
    }
  }

  /** Updating keys that are all stored already never trips the item count. */
  lemma SetExistingKeysNeverMaxItems(stored: JsonMap, val: Json)
    requires |stored| <= MAX_ITEMS
    requires Incoming(val).Keys <= stored.Keys
    ensures SetSpec(Some(stored), val) != Err(MaxItems)
  {
    SetOutcome(Some(stored), val);
    assert stored.Keys + Incoming(val).Keys == stored.Keys;
  }

  /** A new key beyond the `MAX_ITEMS`-th is refused with `MaxItems`. */
  lemma SetNewKeyWhenFullFails(stored: JsonMap, k: string, v: Json)
    requires |stored| >= MAX_ITEMS && k !in stored
    ensures SetSpec(Some(stored), Obj(map[k := v])) == Err(MaxItems)
  {
    SortedKeysSingleton(k);
    assert map[k := v].Keys == {k};
    assert stored - {k} == stored;
  }

  /**
   * A single new member is refused with `ItemBytes` exactly when its key's
   * bytes plus its serialised value's bytes reach `QUOTA_BYTES_PER_ITEM`
   * (given room for one more key).
   */
  lemma SetItemBytesBoundary(stored: JsonMap, k: string, v: Json)
    requires |stored - {k}| < MAX_ITEMS
    ensures SetSpec(Some(stored), Obj(map[k := v])) == Err(ItemBytes)
        <==> Utf8Bytes(k) + SerLen(v) >= QUOTA_BYTES_PER_ITEM
  {
    var incoming := map[k := v];
    SortedKeysSingleton(k);
    assert incoming.Keys == {k};
    SetSpecByLoop(Some(stored), Obj(incoming));
    if Utf8Bytes(k) + SerLen(v) < QUOTA_BYTES_PER_ITEM {
      SetLoopPasses(stored, map[], incoming, [k]);
      assert [k][1..] == [];
    }
  }

  /** After a successful `set` the stored object holds at most `MAX_ITEMS` keys. */
  lemma SetKeepsItemCount(stored: Option<JsonMap>, val: Json)
    requires |Base(stored)| <= MAX_ITEMS
    requires SetSpec(stored, val).Ok?
    ensures SetSpec(stored, val).value.effect.Written?
    ensures |SetSpec(stored, val).value.effect.obj| <= MAX_ITEMS
  {
    SetOutcome(stored, val);
    var existing, incoming := Base(stored), Incoming(val);
    assert (existing + incoming).Keys == existing.Keys + incoming.Keys;
    if incoming == map[] {
      assert existing + incoming == existing;
    }
  }

  /**
   * The per-item quota counts the quotes of a string value: 8187 plain
   * characters fit under the one-byte key "x" (1 + 8189 bytes) but not under
   * the four-byte key "xxxx" (4 + 8189 bytes).
   */
  lemma ItemBytesCountsQuotes()
    ensures ItemFits("x", Str(Repeat('x', QUOTA_BYTES_PER_ITEM - 5)))
    ensures !ItemFits("xxxx", Str(Repeat('x', QUOTA_BYTES_PER_ITEM - 5)))
  {
    var s := Repeat('x', QUOTA_BYTES_PER_ITEM - 5);
    StrLenCountsQuotes(s);
    assert SerLen(Str(s)) == QUOTA_BYTES_PER_ITEM - 3;
    assert Utf8Bytes("x") == 1;
    assert Utf8Bytes("xxxx") == 4;
  }
}
