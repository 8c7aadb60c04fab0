/**
 * JSON values and the byte length of their compact serialisation, which is all
 * the quotas look at: `val.to_string()` in serde_json writes no whitespace,
 * quotes strings and object keys, escapes `"` `\` and control characters, and
 * writes every other character as its UTF-8 bytes.
 */
module Json {
  import opened KeyOrder

  datatype Json =
    | Null
    | Bool(b: bool)
    | Int(i: int)
    | Str(s: string)
    | Arr(items: seq<Json>)
    | Obj(fields: map<string, Json>)

  /** A JSON object: serde_json's `Map<String, Value>`. */
  type JsonMap = map<string, Json>

  /** The members of `m` whose keys are in `keys`. */
  function Restrict(m: JsonMap, keys: set<string>): JsonMap
  {
    map k | k in m && k in keys :: m[k]
  }

  /** Number of bytes in the UTF-8 encoding of `c`. */
  function Utf8Len(c: char): (n: nat)
    ensures 1 <= n <= 4
    ensures n == 1 <==> c as int < 0x80
  {
    if c as int < 0x80 then 1
    else if c as int < 0x800 then 2
    else if c as int < 0x1_0000 then 3
    else 4
  }

  /** `s.bytes().count()`: the UTF-8 length of a string. */
  function Utf8Bytes(s: string): (n: nat)
    ensures |s| <= n <= 4 * |s|
  {
    if s == [] then 0 else Utf8Len(s[0]) + Utf8Bytes(s[1..])
  }

  /** Bytes serde_json writes for one character inside a string literal. */
  function EscapedCharLen(c: char): (n: nat)
    ensures Utf8Len(c) <= n <= 6
    ensures n == Utf8Len(c) <==> c != '"' && c != '\\' && c as int >= 0x20
  {
    if c == '"' || c == '\\' then 2
    else if c as int < 0x20 then
      // \b \t \n \f \r have two-byte escapes, the rest are written \u00XX
      if c as int == 0x08 || c as int == 0x09 || c as int == 0x0A || c as int == 0x0C || c as int == 0x0D
      then 2 else 6
    else Utf8Len(c)
  }

  /** Bytes serde_json writes for the characters of a string, without the quotes. */
  function EscapedLen(s: string): (n: nat)
    ensures Utf8Bytes(s) <= n <= 6 * |s|
  {
    if s == [] then 0 else EscapedCharLen(s[0]) + EscapedLen(s[1..])
  }

  /** Number of decimal digits of `n`. */
  function DigitCount(n: nat): (d: nat)
    ensures d >= 1
  {
    if n < 10 then 1 else 1 + DigitCount(n / 10)
  }

  /** Bytes of an integer written in decimal, with a leading `-` when negative. */
  function IntLen(i: int): (n: nat)
    ensures n >= 1
  {
    if i < 0 then 1 + DigitCount(-i) else DigitCount(i)
  }

  /** Commas between `n` members of an array or object. */
  function Separators(n: nat): nat
  {
    if n == 0 then 0 else n - 1
  }

  /** `val.to_string().len()`: bytes of the compact serialisation of `v`. */
  function SerLen(v: Json): (n: nat)
    decreases v, 1
  {
    match v
    case Null => 4
    case Bool(b) => if b then 4 else 5
    case Int(i) => IntLen(i)
    case Str(s) => 2 + EscapedLen(s)
    case Arr(items) => 2 + ItemsLen(items, 0) + Separators(|items|)
    case Obj(fields) => 2 + EntriesLen(fields, fields.Keys) + Separators(|fields|)
  }

  /** Bytes of the elements `items[from..]`, without separators. */
  function ItemsLen(items: seq<Json>, from: nat): nat
    requires from <= |items|
    decreases Arr(items), 0, |items| - from
  {
    if from == |items| then 0 else SerLen(items[from]) + ItemsLen(items, from + 1)
  }

  /** Bytes of the member `"k":value` of an object. */
  function FieldLen(fields: JsonMap, k: string): nat
    requires k in fields
    decreases Obj(fields), 0, 0
  {
    2 + EscapedLen(k) + 1 + SerLen(fields[k])
  }

  /** Bytes of the members of `fields` whose keys are in `keys`, without separators. */
  function EntriesLen(fields: JsonMap, keys: set<string>): nat
    requires keys <= fields.Keys
    decreases Obj(fields), 0, |keys|
  {
    if keys == {} then 0
    else
      var k := Least(keys);
      FieldLen(fields, k) + EntriesLen(fields, keys - {k})
  }

  /** A string literal costs its characters plus the two quotes around them. */
  lemma StrLenCountsQuotes(s: string)
    ensures SerLen(Str(s)) >= Utf8Bytes(s) + 2
    ensures (forall i :: 0 <= i < |s| ==> s[i] != '"' && s[i] != '\\' && 0x20 <= s[i] as int < 0x80)
            ==> SerLen(Str(s)) == |s| + 2
  {
    PlainEscapedLen(s);
  }

  lemma {:induction false} PlainEscapedLen(s: string)
    ensures (forall i :: 0 <= i < |s| ==> s[i] != '"' && s[i] != '\\' && 0x20 <= s[i] as int < 0x80)
            ==> EscapedLen(s) == |s|
  {
    if s != [] {
      PlainEscapedLen(s[1..]);
      if forall i :: 0 <= i < |s| ==> s[i] != '"' && s[i] != '\\' && 0x20 <= s[i] as int < 0x80 {
        assert forall i :: 0 <= i < |s[1..]| ==> s[1..][i] == s[i + 1];
      }
    }
  }

  /**
   * The members of an object add up to the same length whichever key is taken
   * first: the length of an object does not depend on its iteration order.
   */
  lemma {:induction false} EntriesLenPick(fields: JsonMap, keys: set<string>, k: string)
    requires keys <= fields.Keys && k in keys
    ensures EntriesLen(fields, keys) == FieldLen(fields, k) + EntriesLen(fields, keys - {k})
    decreases |keys|
  {
    var j := Least(keys);
    if j != k {
      EntriesLenPick(fields, keys - {j}, k);
      EntriesLenPick(fields, keys - {k}, j);
      assert keys - {j} - {k} == keys - {k} - {j};
    }
  }

  /** Only the members named in `keys` matter to `EntriesLen`. */
  lemma {:induction false} EntriesLenAgree(f: JsonMap, g: JsonMap, keys: set<string>)
    requires keys <= f.Keys && keys <= g.Keys
    requires forall k :: k in keys ==> f[k] == g[k]
    ensures EntriesLen(f, keys) == EntriesLen(g, keys)
    decreases |keys|
  {
    if keys != {} {
      var k := Least(keys);
      EntriesLenAgree(f, g, keys - {k});
    }
  }

  lemma {:induction false} EntriesLenSubset(fields: JsonMap, small: set<string>, large: set<string>)
    requires small <= large <= fields.Keys
    ensures EntriesLen(fields, small) <= EntriesLen(fields, large)
    decreases |large|
  {
    if small != large {
      assert (large - small) + small == large;
      var k :| k in large - small;
      EntriesLenPick(fields, large, k);
      EntriesLenSubset(fields, small, large - {k});
    }
  }

  lemma {:induction false} SubsetCard(small: set<string>, large: set<string>)
    requires small <= large
    ensures |small| <= |large|
    decreases |large|
  {
    if small != large {
      assert (large - small) + small == large;
      var k :| k in large - small;
      SubsetCard(small, large - {k});
    }
  }

  /** Dropping members of an object never makes its serialisation longer. */
  lemma SerLenSubObject(sub: JsonMap, whole: JsonMap)
    requires sub.Keys <= whole.Keys
    requires forall k :: k in sub ==> sub[k] == whole[k]
    ensures SerLen(Obj(sub)) <= SerLen(Obj(whole))
  {
    EntriesLenAgree(sub, whole, sub.Keys);
    EntriesLenSubset(whole, sub.Keys, whole.Keys);
    SubsetCard(sub.Keys, whole.Keys);
  }

  /** A string of `n` copies of `c`. */
  function Repeat(c: char, n: nat): (s: string)
    ensures |s| == n
    ensures forall i :: 0 <= i < n ==> s[i] == c
  {
    if n == 0 then [] else [c] + Repeat(c, n - 1)
  }
}
