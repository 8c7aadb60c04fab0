/**
 * The order in which the keys of a JSON object are visited.
 *
 * serde_json's `Map` is, in its default configuration, a `BTreeMap<String, Value>`:
 * iterating it visits the keys in ascending order of their UTF-8 bytes, which is
 * the lexicographic order of their code points. `SortedKeys` enumerates a key set
 * in that order; the model only relies on it being a duplicate-free enumeration.
 */
module KeyOrder {

  /** `a` sorts at or before `b`, comparing code point by code point. */
  predicate Below(a: string, b: string)
  {
    |a| == 0 || (|b| > 0 && (a[0] < b[0] || (a[0] == b[0] && Below(a[1..], b[1..]))))
  }

  lemma BelowTotal(a: string, b: string)
    ensures Below(a, b) || Below(b, a)
  {
  }

  lemma BelowAntisymmetric(a: string, b: string)
    requires Below(a, b) && Below(b, a)
    ensures a == b
  {
  }

  lemma BelowTransitive(a: string, b: string, c: string)
    requires Below(a, b) && Below(b, c)
    ensures Below(a, c)
  {
  }

  ghost predicate IsLeast(k: string, s: set<string>)
  {
    k in s && forall j :: j in s ==> Below(k, j)
  }

  lemma {:induction false} LeastExists(s: set<string>)
    requires s != {}
    ensures exists k :: IsLeast(k, s)
    decreases |s|
  {
    var x :| x in s;
    BelowTotal(x, x);
    if s != {x} {
      LeastExists(s - {x});
      var m :| IsLeast(m, s - {x});
      BelowTotal(x, m);
      if Below(x, m) {
        forall j | j in s ensures Below(x, j) {
          if j != x { BelowTransitive(x, m, j); }
        }
        assert IsLeast(x, s);
      } else {
        assert IsLeast(m, s);
      }
    } else {
      assert IsLeast(x, s);
    }
  }

  /** The first key of a non-empty key set in iteration order. */
  function Least(s: set<string>): (k: string)
    requires s != {}
    ensures k in s
    ensures forall j :: j in s ==> Below(k, j)
  {
    LeastExists(s);
    forall a, b | Below(a, b) && Below(b, a) ensures a == b {
      BelowAntisymmetric(a, b);
    }
    var k :| k in s && forall j :: j in s ==> Below(k, j); k
  }

  /** Every key of `s` exactly once, in iteration order. */
  function SortedKeys(s: set<string>): (r: seq<string>)
    ensures |r| == |s|
    ensures forall k :: k in r <==> k in s
    ensures forall i, j :: 0 <= i < j < |r| ==> r[i] != r[j]
    decreases |s|
  {
    if s == {} then []
    else
      var k := Least(s);
      [k] + SortedKeys(s - {k})
  }

  lemma SortedKeysSingleton(k: string)
    ensures SortedKeys({k}) == [k]
  {
    var r := SortedKeys({k});
    assert r[0] in r;
  }
}
