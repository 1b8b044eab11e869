/** The in-memory tree a YAML/JSON loader produces, and the Python dict
    operations the integration code performs on it: `d[k]` / `d.get(k)`,
    `d[k] = v`, `d.pop(k)` and `d.update(e)`. A mapping keeps its insertion order, as a
    Python dict does, so it is a sequence of key/value pairs. */
module Json {
  import opened Wrappers

  datatype Json =
    | Null
    | Bool(b: bool)
    | Num(n: int)
    | Str(s: string)
    | Arr(items: seq<Json>)
    | Obj(fields: Fields)

  type Fields = seq<(string, Json)>

  /** The keys of a mapping, in insertion order. */
  function Keys(f: Fields): (ks: seq<string>)
    ensures |ks| == |f| && forall i :: 0 <= i < |f| ==> ks[i] == f[i].0
  {
    if f == [] then [] else [f[0].0] + Keys(f[1..])
  }

  /** The key stored at position `i` is among the keys. */
  lemma KeyIn(f: Fields, i: nat)
    requires i < |f|
    ensures f[i].0 in Keys(f)
  {
    assert Keys(f)[i] == f[i].0;
  }

  /** A Python dict never holds the same key twice. */
  predicate UniqueKeys(f: Fields)
  {
    f == [] || (f[0].0 !in Keys(f[1..]) && UniqueKeys(f[1..]))
  }

  /** In a dict, the first key appears nowhere else. */
  lemma UniqueKeysHead(f: Fields, j: nat)
    requires UniqueKeys(f) && 0 < j < |f|
    ensures f[0].0 != f[j].0
  {
    var ks := Keys(f[1..]);
    assert ks[j - 1] == f[1..][j - 1].0;
    assert f[1..][j - 1] == f[j];
  }

  /** In a dict, two different positions hold two different keys. */
  lemma {:induction false} UniqueKeysAt(f: Fields, i: nat, j: nat)
    requires UniqueKeys(f) && i < j < |f|
    ensures f[i].0 != f[j].0
  {
    if i == 0 {
      UniqueKeysHead(f, j);
    } else {
      var t := f[1..];
      assert UniqueKeys(t);
      UniqueKeysAt(t, i - 1, j - 1);
      assert t[i - 1] == f[i] && t[j - 1] == f[j];
    }
  }

  /** Lookup: `d.get(k)`, `None` when the key is absent. */
  function Get(f: Fields, k: string): (r: Option<Json>)
    ensures r.Some? <==> k in Keys(f)
    ensures r.Some? ==> (k, r.value) in f
  {
    if f == [] then None
    else if f[0].0 == k then Some(f[0].1)
    else
      Get(f[1..], k)
  }

  /** Two different positions hold two different keys. */
  predicate DistinctKeys(f: Fields)
  {
    forall i, j :: 0 <= i < j < |f| ==> f[i].0 != f[j].0
  }

  lemma UniqueKeysDistinct(f: Fields)
    requires UniqueKeys(f)
    ensures DistinctKeys(f)
  {
    forall i, j | 0 <= i < j < |f| ensures f[i].0 != f[j].0 {
      UniqueKeysAt(f, i, j);
    }
  }

  /** Pairwise different keys make a dict. */
  lemma {:induction false} DistinctKeysUnique(f: Fields)
    requires DistinctKeys(f)
    ensures UniqueKeys(f)
  {
    if f != [] {
      forall j | 0 <= j < |f[1..]| ensures Keys(f[1..])[j] != f[0].0 {
        assert f[1..][j] == f[j + 1];
      }
      forall i, j | 0 <= i < j < |f[1..]| ensures f[1..][i].0 != f[1..][j].0 {
        assert f[1..][i] == f[i + 1] && f[1..][j] == f[j + 1];
      }
      DistinctKeysUnique(f[1..]);
    }
  }

  /** In a dict, the pair stored at index `i` is what a lookup of its key finds. */
  lemma {:induction false} GetAt(f: Fields, i: nat)
    requires UniqueKeys(f) && i < |f|
    ensures Get(f, f[i].0) == Some(f[i].1)
  {
    if i > 0 {
      UniqueKeysAt(f, 0, i);
      assert f[1..][i - 1] == f[i];
      GetAt(f[1..], i - 1);
    }
  }

  /** Assignment `d[k] = v`: an existing key keeps its place and takes the new
      value; a new key is appended at the end (see PutNewKey). */
  function Put(f: Fields, k: string, v: Json): (r: Fields)
    ensures Get(r, k) == Some(v)
    ensures forall k' :: k' != k ==> Get(r, k') == Get(f, k')
  {
    if f == [] then [(k, v)]
    else if f[0].0 == k then [(k, v)] + f[1..]
    else
      var r := [f[0]] + Put(f[1..], k, v);
      assert r[1..] == Put(f[1..], k, v);
      r
  }

  /** After `d[k] = v` the keys are the old ones and `k`. */
  lemma PutKeys(f: Fields, k: string, v: Json)
    ensures forall k' :: k' in Keys(Put(f, k, v)) <==> k' == k || k' in Keys(f)
  {
    forall k' ensures k' in Keys(Put(f, k, v)) <==> k' == k || k' in Keys(f) {
      assert Get(Put(f, k, v), k').Some? <==> k' in Keys(Put(f, k, v));
    }
  }

  /** Assigning to an existing key keeps every key in its place. */
  lemma {:induction false} PutExistingKey(f: Fields, k: string, v: Json)
    requires k in Keys(f)
    ensures Keys(Put(f, k, v)) == Keys(f)
  {
    if f[0].0 == k {
      assert Put(f, k, v)[1..] == f[1..];
    } else {
      PutExistingKey(f[1..], k, v);
      assert Put(f, k, v)[1..] == Put(f[1..], k, v);
    }
  }

  /** Assigning to a new key appends the pair at the end. */
  lemma {:induction false} PutNewKey(f: Fields, k: string, v: Json)
    requires k !in Keys(f)
    ensures Put(f, k, v) == f + [(k, v)]
  {
    if f != [] {
      assert Keys(f) == [f[0].0] + Keys(f[1..]);
      PutNewKey(f[1..], k, v);
      assert Put(f, k, v) == [f[0]] + (f[1..] + [(k, v)]);
      assert [f[0]] + (f[1..] + [(k, v)]) == ([f[0]] + f[1..]) + [(k, v)];
      assert [f[0]] + f[1..] == f;
    }
  }

  /** `d[k] = v` keeps a dict a dict. */
  lemma {:induction false} PutUnique(f: Fields, k: string, v: Json)
    requires UniqueKeys(f)
    ensures UniqueKeys(Put(f, k, v))
  {
    if f != [] && f[0].0 != k {
      var tail := Put(f[1..], k, v);
      PutUnique(f[1..], k, v);
      assert Put(f, k, v)[1..] == tail;
      assert Get(tail, f[0].0) == Get(f[1..], f[0].0);
    }
  }

  /** Removal `d.pop(k)` from a dict. */
  function Remove(f: Fields, k: string): (r: Fields)
    requires UniqueKeys(f)
    ensures UniqueKeys(r)
    ensures Get(r, k) == None
    ensures forall k' :: k' != k ==> Get(r, k') == Get(f, k')
    ensures f != [] && f[0].0 == k ==> r == f[1..]
  {
    if f == [] then []
    else if f[0].0 == k then f[1..]
    else
      var tail := Remove(f[1..], k);
      var r := [f[0]] + tail;
      assert r[1..] == tail;
      assert Get(tail, f[0].0) == None;
      r
  }

  /** `d.update(e)`: each pair of `e`, in order, assigned into `d`. */
  function Update(f: Fields, g: Fields): Fields
    decreases |g|
  {
    if g == [] then f else Update(Put(f, g[0].0, g[0].1), g[1..])
  }

  /** After `d.update(e)`, the keys are those of both; a key of `e` holds
      the value from `e`, and any other key keeps its value from `d`. */
  lemma {:induction false} UpdateLookup(f: Fields, g: Fields)
    requires UniqueKeys(g)
    ensures forall k :: k in Keys(Update(f, g)) <==> k in Keys(f) || k in Keys(g)
    ensures forall k :: k in Keys(g) ==> Get(Update(f, g), k) == Get(g, k)
    ensures forall k :: k !in Keys(g) ==> Get(Update(f, g), k) == Get(f, k)
    decreases |g|
  {
    if g != [] {
      var f' := Put(f, g[0].0, g[0].1);
      UpdateLookup(f', g[1..]);
      assert Keys(g) == [g[0].0] + Keys(g[1..]);
      forall k ensures k in Keys(Update(f, g)) <==> k in Keys(f) || k in Keys(g) {
        assert Get(Update(f, g), k).Some? <==> k in Keys(Update(f, g));
        assert Get(f', k).Some? <==> k in Keys(f');
      }
    }
  }

  /** The keys of `ks` that are not among `existing`, in the order of `ks`. */
  function NewKeys(ks: seq<string>, existing: seq<string>): (r: seq<string>)
    ensures forall k :: k in r <==> k in ks && k !in existing
    ensures |r| <= |ks|
  {
    if ks == [] then []
    else (if ks[0] in existing then [] else [ks[0]]) + NewKeys(ks[1..], existing)
  }

  /** A key that is not among `ks` does not change which keys of `ks` are new. */
  lemma {:induction false} NewKeysIgnore(ks: seq<string>, existing: seq<string>, k: string)
    requires k !in ks
    ensures NewKeys(ks, existing + [k]) == NewKeys(ks, existing)
  {
    if ks != [] {
      assert ks[0] in existing + [k] <==> ks[0] in existing;
      NewKeysIgnore(ks[1..], existing, k);
    }
  }

  /** Where `d[k] = v` leaves the keys: in place, or `k` appended. */
  lemma PutKeysOrder(f: Fields, k: string, v: Json)
    ensures Keys(Put(f, k, v)) == if k in Keys(f) then Keys(f) else Keys(f) + [k]
  {
    if k in Keys(f) {
      PutExistingKey(f, k, v);
    } else {
      PutNewKey(f, k, v);
      assert Keys(f + [(k, v)]) == Keys(f) + [k];
    }
  }

  lemma NewKeysCons(k: string, rest: seq<string>, existing: seq<string>)
    ensures NewKeys([k] + rest, existing) == (if k in existing then [] else [k]) + NewKeys(rest, existing)
  {
    assert ([k] + rest)[1..] == rest;
  }

  /** One key of `e` handled, the rest still to come. */
  lemma NewKeysStep(existing: seq<string>, k: string, rest: seq<string>)
    requires k !in rest
    ensures var after := if k in existing then existing else existing + [k];
      after + NewKeys(rest, after) == existing + NewKeys([k] + rest, existing)
  {
    NewKeysCons(k, rest, existing);
    if k !in existing {
      NewKeysIgnore(rest, existing, k);
      AppendAssociates(existing, [k], NewKeys(rest, existing));
    } else {
      assert [] + NewKeys(rest, existing) == NewKeys(rest, existing);
    }
  }

  lemma AppendAssociates<T>(a: seq<T>, b: seq<T>, c: seq<T>)
    ensures (a + b) + c == a + (b + c)
  {
  }

  /** `d.update(e)` keeps the keys of `d` in place and appends the keys of
      `e` that `d` lacks at the end, in the order of `e`. */
  lemma {:induction false} UpdateKeys(f: Fields, g: Fields)
    requires UniqueKeys(g)
    ensures Keys(Update(f, g)) == Keys(f) + NewKeys(Keys(g), Keys(f))
    decreases |g|
  {
    if g != [] {
      var k := g[0].0;
      var f' := Put(f, k, g[0].1);
      assert Update(f, g) == Update(f', g[1..]);
      UpdateKeys(f', g[1..]);
      PutKeysOrder(f, k, g[0].1);
      assert Keys(g) == [k] + Keys(g[1..]);
      NewKeysStep(Keys(f), k, Keys(g[1..]));
    }
  }

  lemma {:induction false} UpdateUnique(f: Fields, g: Fields)
    requires UniqueKeys(f)
    ensures UniqueKeys(Update(f, g))
    decreases |g|
  {
    if g != [] {
      PutUnique(f, g[0].0, g[0].1);
      UpdateUnique(Put(f, g[0].0, g[0].1), g[1..]);
    }
  }


  /** Two lists of pairs with the same keys in the same order are both
      dicts or neither. */
  lemma {:induction false} SameKeysUnique(f: Fields, g: Fields)
    requires Keys(f) == Keys(g) && UniqueKeys(f)
    ensures UniqueKeys(g)
  {
    if g != [] {
      assert Keys(f) == [f[0].0] + Keys(f[1..]);
      assert Keys(g) == [g[0].0] + Keys(g[1..]);
      assert Keys(f[1..]) == Keys(f)[1..] == Keys(g)[1..] == Keys(g[1..]);
      SameKeysUnique(f[1..], g[1..]);
    }
  }
}
