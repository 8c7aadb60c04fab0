/**
 * What `get` promises: no record reads as `{}`, a null specification returns
 * the whole object, and otherwise each selected key maps to its stored value,
 * or to its default when it is not stored, or is left out.
 */
module GetProperties {
  import opened Wrappers
  import opened KeyOrder
  import opened Json
  import opened KeySpec
  import opened Api

  /** The object `get` returns, defined directly by the shape of the key specification. */
  function Selection(stored: Option<JsonMap>, keys: Json): JsonMap
  {
    match stored
    case None => map[]
    case Some(existing) =>
      match keys
      case Null => existing
      case Str(s) => if s in existing then map[s := existing[s]] else map[]
      case Arr(items) => map k | k in existing && Str(k) in items :: existing[k]
      case Obj(defaults) => map k | k in defaults :: if k in existing then existing[k] else defaults[k]
      case _ => map[]
  }

  lemma NamesTail(pairs: seq<KeyDefault>)
    requires pairs != []
    ensures Names(pairs) == Names(pairs[1..]) + {pairs[0].0}
  {
    assert forall p :: p in pairs <==> p == pairs[0] || p in pairs[1..];
  }

  /** The members of `existing` whose keys are among `names`. */
  lemma RestrictStep(existing: JsonMap, result: JsonMap, k: string, names: set<string>)
    ensures k in existing ==> result[k := existing[k]] + Restrict(existing - {k}, names) == result + Restrict(existing, names + {k})
    ensures k !in existing ==> result + Restrict(existing, names) == result + Restrict(existing, names + {k})
  {
  }

  /** Without defaults, `get`'s loop keeps exactly the selected keys that are stored. */
  lemma {:induction false} GetLoopWithoutDefaults(existing: JsonMap, result: JsonMap, pairs: seq<KeyDefault>)
    requires forall p :: p in pairs ==> p.1 == None
    ensures GetLoop(existing, result, pairs) == result + Restrict(existing, Names(pairs))
    decreases |pairs|
  {
    if pairs == [] {
      assert Restrict(existing, Names(pairs)) == map[];
    } else {
      var k := pairs[0].0;
      NamesTail(pairs);
      assert pairs[0] in pairs;
      assert forall p :: p in pairs[1..] ==> p in pairs;
      if k in existing {
        GetLoopWithoutDefaults(existing - {k}, result[k := existing[k]], pairs[1..]);
      } else {
        GetLoopWithoutDefaults(existing, result, pairs[1..]);
      }
      RestrictStep(existing, result, k, Names(pairs[1..]));
    }
  }

  /** Each of `names` mapped to its stored value, or to its default when it is not stored. */
  function Filled(existing: JsonMap, names: set<string>, defaults: JsonMap): JsonMap
  {
    map k | k in names && k in defaults :: if k in existing then existing[k] else defaults[k]
  }

  lemma FilledStep(existing: JsonMap, result: JsonMap, k: string, names: set<string>, defaults: JsonMap)
    requires k in defaults && k !in names
    ensures var existing' := if k in existing then existing - {k} else existing;
            var v := if k in existing then existing[k] else defaults[k];
            result[k := v] + Filled(existing', names, defaults) == result + Filled(existing, names + {k}, defaults)
  {
  }

  lemma GetLoopWithDefaultsStep(existing: JsonMap, result: JsonMap, pairs: seq<KeyDefault>, defaults: JsonMap)
    requires pairs != [] && pairs[0].0 in defaults && pairs[0].1 == Some(defaults[pairs[0].0])
    requires pairs[0].0 !in Names(pairs[1..])
    requires var k := pairs[0].0;
             var existing' := if k in existing then existing - {k} else existing;
             var result' := result[k := if k in existing then existing[k] else defaults[k]];
             GetLoop(existing', result', pairs[1..]) == result' + Filled(existing', Names(pairs[1..]), defaults)
    ensures GetLoop(existing, result, pairs) == result + Filled(existing, Names(pairs), defaults)
  {
    NamesTail(pairs);
    FilledStep(existing, result, pairs[0].0, Names(pairs[1..]), defaults);
  }

  /**
   * With distinct keys that all carry defaults, `get`'s loop maps each
   * selected key to its stored value if there is one and to its default if not.
   */
  lemma {:induction false} GetLoopWithDefaults(existing: JsonMap, result: JsonMap, pairs: seq<KeyDefault>, defaults: JsonMap)
    requires forall i :: 0 <= i < |pairs| ==> pairs[i].0 in defaults && pairs[i].1 == Some(defaults[pairs[i].0])
    requires forall i, j :: 0 <= i < j < |pairs| ==> pairs[i].0 != pairs[j].0
    ensures GetLoop(existing, result, pairs) == result + Filled(existing, Names(pairs), defaults)
    decreases |pairs|
  {
    if pairs == [] {
      assert Filled(existing, Names(pairs), defaults) == map[];
    } else {
      var k := pairs[0].0;
      var tail := pairs[1..];
      assert k !in Names(tail) by {
        forall p | p in tail ensures p.0 != k {
          var j :| 0 <= j < |tail| && tail[j] == p;
          assert pairs[j + 1] == p;
        }
      }
      assert forall i :: 0 <= i < |tail| ==> tail[i] == pairs[i + 1];
      var existing' := if k in existing then existing - {k} else existing;
      var result' := result[k := if k in existing then existing[k] else defaults[k]];
      GetLoopWithDefaults(existing', result', tail, defaults);
      GetLoopWithDefaultsStep(existing, result, pairs, defaults);
    }
  }

  /** `get` with a string or an array selects the stored keys it names. */
  lemma GetNamedMatchesSelection(existing: JsonMap, keys: Json)
    requires keys.Str? || keys.Arr?
    ensures GetSpec(Some(existing), keys) == Selection(Some(existing), keys)
  {
    var pairs := GetKeys(keys);
    GetLoopWithoutDefaults(existing, map[], pairs);
    if keys.Str? {
      assert Names(pairs) == {keys.s};
    } else {
      assert forall k :: k in Names(pairs) <==> Str(k) in keys.items by {
        forall k | Str(k) in keys.items ensures k in Names(pairs) {
          assert (k, None) in pairs;
        }
      }
    }
  }

  /** A sequence of distinct keys with their defaults, naming every member of `defaults`. */
  predicate DefaultsList(pairs: seq<KeyDefault>, defaults: JsonMap)
  {
    && (forall i :: 0 <= i < |pairs| ==> pairs[i].0 in defaults && pairs[i].1 == Some(defaults[pairs[i].0]))
    && (forall i, j :: 0 <= i < j < |pairs| ==> pairs[i].0 != pairs[j].0)
    && (forall k :: k in defaults ==> (k, Some(defaults[k])) in pairs)
  }

  lemma GetLoopFillsDefaults(existing: JsonMap, pairs: seq<KeyDefault>, defaults: JsonMap)
    requires DefaultsList(pairs, defaults)
    ensures GetLoop(existing, map[], pairs) == Selection(Some(existing), Obj(defaults))
  {
    GetLoopWithDefaults(existing, map[], pairs, defaults);
    assert Names(pairs) == defaults.Keys by {
      forall k | k in defaults ensures k in Names(pairs) {
        assert (k, Some(defaults[k])) in pairs;
      }
    }
    assert map[] + Filled(existing, defaults.Keys, defaults) == Selection(Some(existing), Obj(defaults));
  }

  /** `get` with an object of defaults fills in every key it names. */
  lemma GetDefaultsMatchesSelection(existing: JsonMap, defaults: JsonMap)
    ensures GetSpec(Some(existing), Obj(defaults)) == Selection(Some(existing), Obj(defaults))
  {
    GetLoopFillsDefaults(existing, GetKeys(Obj(defaults)), defaults);
  }

  /** `get` returns the object `Selection` describes, for every stored record and key specification. */
  lemma GetMatchesSelection(stored: Option<JsonMap>, keys: Json)
    ensures GetSpec(stored, keys) == Selection(stored, keys)
  {
    if stored.Some? {
      match keys
      case Str(_) => GetNamedMatchesSelection(stored.value, keys);
      case Arr(_) => GetNamedMatchesSelection(stored.value, keys);
      case Obj(defaults) => GetDefaultsMatchesSelection(stored.value, defaults);
      case _ =>
    }
  }

  /** Filling in defaults, per key: every named key is present, with its stored value or its default. */
  lemma GetDefaultsLookup(existing: JsonMap, defaults: JsonMap, k: string)
    ensures var r := GetSpec(Some(existing), Obj(defaults));
      && (k in r <==> k in defaults)
      && (k in r ==> r[k] == if k in existing then existing[k] else defaults[k])
  {
    GetDefaultsMatchesSelection(existing, defaults);
  }

  /** An absent key with no default is left out of what `get` returns. */
  lemma GetAbsentKeyOmitted(existing: JsonMap, k: string)
    requires k !in existing
    ensures GetSpec(Some(existing), Str(k)) == map[]
  {
    GetNamedMatchesSelection(existing, Str(k));
  }

  /** An absent key whose default is `null` is returned as `null`. */
  lemma GetNullDefault(existing: JsonMap, k: string)
    requires k !in existing
    ensures GetSpec(Some(existing), Obj(map[k := Null])) == map[k := Null]
  {
    GetDefaultsLookup(existing, map[k := Null], k);
    var r := GetSpec(Some(existing), Obj(map[k := Null]));
    forall x ensures x in r <==> x == k {
      GetDefaultsLookup(existing, map[k := Null], x);
    }
  }

  /** A stored key is returned with its stored value, whatever its default. */
  lemma GetStoredBeatsDefault(existing: JsonMap, k: string, d: Json)
    requires k in existing
    ensures GetSpec(Some(existing), Obj(map[k := d])) == map[k := existing[k]]
  {
    GetDefaultsLookup(existing, map[k := d], k);
    var r := GetSpec(Some(existing), Obj(map[k := d]));
    forall x ensures x in r <==> x == k {
      GetDefaultsLookup(existing, map[k := d], x);
    }
  }

  /** Without a record every key specification reads as `{}`; with one, `null` reads the whole object. */
  lemma GetWholeOrNothing(stored: Option<JsonMap>, keys: Json)
    ensures stored.None? ==> GetSpec(stored, keys) == map[]
    ensures stored.Some? ==> GetSpec(stored, Null) == stored.value
  {
  }

  /** The five queries of the single-item case all read back `{"foo": "bar"}`. */
  lemma GetSingleItemQueries()
    ensures var stored := Some(map["foo" := Str("bar")]);
      && GetSpec(stored, Null) == map["foo" := Str("bar")]
      && GetSpec(stored, Str("foo")) == map["foo" := Str("bar")]
      && GetSpec(stored, Arr([Str("foo")])) == map["foo" := Str("bar")]
      && GetSpec(stored, Obj(map["foo" := Null])) == map["foo" := Str("bar")]
      && GetSpec(stored, Obj(map["foo" := Str("default")])) == map["foo" := Str("bar")]
  {
    var stored := Some(map["foo" := Str("bar")]);
    GetMatchesSelection(stored, Str("foo"));
    GetMatchesSelection(stored, Arr([Str("foo")]));
    GetMatchesSelection(stored, Obj(map["foo" := Null]));
    GetMatchesSelection(stored, Obj(map["foo" := Str("default")]));
    assert Selection(stored, Arr([Str("foo")])) == map["foo" := Str("bar")] by {
      assert Str("foo") in [Str("foo")];
    }
  }

  /** A map is determined by its two keys and their values. */
  lemma TwoKeyMap(r: JsonMap, a: string, va: Json, b: string, vb: Json)
    requires forall x :: x in r <==> x == a || x == b
    requires a in r && r[a] == va && b in r && r[b] == vb
    ensures r == map[a := va, b := vb]
  {
  }

  /** Two keys with defaults, one stored and one not: the stored value and the default. */
  lemma GetTwoDefaults(existing: JsonMap, a: string, da: Json, b: string, db: Json)
    requires a != b && a in existing && b !in existing
    ensures GetSpec(Some(existing), Obj(map[a := da, b := db])) == map[a := existing[a], b := db]
  {
    var defaults := map[a := da, b := db];
    var r := GetSpec(Some(existing), Obj(defaults));
    GetDefaultsLookup(existing, defaults, a);
    GetDefaultsLookup(existing, defaults, b);
    forall x ensures x in r <==> x == a || x == b {
      GetDefaultsLookup(existing, defaults, x);
    }
    TwoKeyMap(r, a, existing[a], b, db);
  }

  /** A stored key reads its value over a null default; an absent one reads its default. */
  lemma GetMixedDefaults()
    ensures GetSpec(Some(map["foo" := Str("new"), "other" := Str("also new")]),
                    Obj(map["foo" := Null, "default" := Str("yo")]))
         == map["foo" := Str("new"), "default" := Str("yo")]
  {
    var existing := map["foo" := Str("new"), "other" := Str("also new")];
    assert "default" !in existing by {
      assert "default"[0] != "foo"[0] && "default"[0] != "other"[0];
    }
    GetTwoDefaults(existing, "foo", Null, "default", Str("yo"));
  }
}
