/** Renaming every key of a dict by prepending a prefix, as the `bff` branch
    of `default_integration` does it: over a snapshot of the keys taken
    first, each value is popped and stored again under the prefixed key. */
module Renaming {
  import opened Wrappers
  import opened Json

  predicate HasPrefix(prefix: string, k: string)
  {
    |prefix| <= |k| && k[..|prefix|] == prefix
  }

  lemma PrefixedHasPrefix(prefix: string, k: string)
    ensures HasPrefix(prefix, prefix + k)
  {
    assert (prefix + k)[..|prefix|] == prefix;
  }

  lemma PrefixInjective(prefix: string, k: string, k': string)
    requires prefix + k == prefix + k'
    ensures k == k'
  {
    assert k == (prefix + k)[|prefix|..];
    assert k' == (prefix + k')[|prefix|..];
  }

  predicate Distinct(ks: seq<string>)
  {
    forall i, j :: 0 <= i < j < |ks| ==> ks[i] != ks[j]
  }

  /** The keys still to rename are distinct keys of the dict being renamed. */
  predicate RenameReady(cur: Fields, ks: seq<string>)
  {
    UniqueKeys(cur) && Distinct(ks) && forall k :: k in ks ==> k in Keys(cur)
  }

  /** `d[prefix + k] = d.pop(k)`: the value leaves `k` and is stored under
      the prefixed key, replacing what was there, if anything. */
  function RenameStep(prefix: string, cur: Fields, k: string): Fields
    requires UniqueKeys(cur) && k in Keys(cur)
  {
    Put(Remove(cur, k), prefix + k, Get(cur, k).value)
  }

  /** One renaming keeps a dict a dict, moves the value of `k` to the
      prefixed key, empties `k` (for a non-empty prefix), and changes no
      other lookup. */
  lemma RenameStepLookup(prefix: string, cur: Fields, k: string)
    requires UniqueKeys(cur) && k in Keys(cur)
    ensures var r := RenameStep(prefix, cur, k);
      && UniqueKeys(r)
      && Get(r, prefix + k) == Get(cur, k)
      && (prefix != [] ==> Get(r, k) == None)
      && forall k' :: k' != k && k' != prefix + k ==> Get(r, k') == Get(cur, k')
  {
    PutUnique(Remove(cur, k), prefix + k, Get(cur, k).value);
    if prefix != [] {
      assert k != prefix + k by {
        assert |prefix + k| != |k|;
      }
    }
  }

  /** Every key still to rename survives the renaming of the first one. */
  lemma RenamePendingKept(prefix: string, cur: Fields, ks: seq<string>)
    requires RenameReady(cur, ks) && ks != []
    ensures forall k :: k in ks[1..] ==> k in Keys(RenameStep(prefix, cur, ks[0]))
  {
    RenameStepLookup(prefix, cur, ks[0]);
    var r := RenameStep(prefix, cur, ks[0]);
    forall k | k in ks[1..] ensures k in Keys(r) {
      var j :| 0 <= j < |ks[1..]| && ks[1..][j] == k;
      assert ks[j + 1] == k;
      assert k in Keys(cur);
      if k == prefix + ks[0] {
        assert Get(r, k) == Get(cur, ks[0]);
      } else {
        assert k != ks[0];
        assert Get(r, k) == Get(cur, k);
      }
    }
  }

  lemma DistinctTail(ks: seq<string>)
    requires Distinct(ks) && ks != []
    ensures Distinct(ks[1..])
  {
    forall i, j | 0 <= i < j < |ks[1..]| ensures ks[1..][i] != ks[1..][j] {
      assert ks[1..][i] == ks[i + 1] && ks[1..][j] == ks[j + 1];
    }
  }

  lemma RenameReadyStep(prefix: string, cur: Fields, ks: seq<string>)
    requires RenameReady(cur, ks) && ks != []
    ensures RenameReady(RenameStep(prefix, cur, ks[0]), ks[1..])
  {
    RenameStepLookup(prefix, cur, ks[0]);
    RenamePendingKept(prefix, cur, ks);
    DistinctTail(ks);
  }

  /** The renaming loop over a snapshot `ks` of the keys, from some key on. */
  function RenameFrom(prefix: string, cur: Fields, ks: seq<string>): Fields
    requires RenameReady(cur, ks)
    decreases |ks|
  {
    if ks == [] then cur
    else
      RenameReadyStep(prefix, cur, ks);
      RenameFrom(prefix, RenameStep(prefix, cur, ks[0]), ks[1..])
  }

  /** The snapshot of a dict's own keys is ready to be renamed. */
  lemma KeysRenameReady(f: Fields)
    requires UniqueKeys(f)
    ensures RenameReady(f, Keys(f))
  {
    forall i, j | 0 <= i < j < |Keys(f)| ensures Keys(f)[i] != Keys(f)[j] {
      UniqueKeysAt(f, i, j);
    }
  }

  /** After one renaming, every key is still to be renamed or prefixed. */
  lemma RenameStepPrefixes(prefix: string, cur: Fields, ks: seq<string>)
    requires RenameReady(cur, ks) && ks != []
    requires forall k :: k in Keys(cur) ==> k in ks || HasPrefix(prefix, k)
    ensures forall k :: k in Keys(RenameStep(prefix, cur, ks[0])) ==> k in ks[1..] || HasPrefix(prefix, k)
  {
    RenameStepLookup(prefix, cur, ks[0]);
    var r := RenameStep(prefix, cur, ks[0]);
    forall k | k in Keys(r) ensures k in ks[1..] || HasPrefix(prefix, k) {
      assert Get(r, k).Some?;
      if k == prefix + ks[0] {
        PrefixedHasPrefix(prefix, ks[0]);
      } else {
        assert k != ks[0];
        assert Get(r, k) == Get(cur, k);
        if !HasPrefix(prefix, k) {
          var j :| 0 <= j < |ks| && ks[j] == k;
          assert ks[1..][j - 1] == k;
        }
      }
    }
  }

  /** Renaming keeps a dict a dict, and once every key of the snapshot is
      renamed, every key carries the prefix, whatever collisions occurred. */
  lemma {:induction false} RenameFromPrefixes(prefix: string, cur: Fields, ks: seq<string>)
    requires RenameReady(cur, ks)
    requires forall k :: k in Keys(cur) ==> k in ks || HasPrefix(prefix, k)
    ensures UniqueKeys(RenameFrom(prefix, cur, ks))
    ensures forall k :: k in Keys(RenameFrom(prefix, cur, ks)) ==> HasPrefix(prefix, k)
    decreases |ks|
  {
    if ks != [] {
      RenameReadyStep(prefix, cur, ks);
      RenameStepPrefixes(prefix, cur, ks);
      RenameFromPrefixes(prefix, RenameStep(prefix, cur, ks[0]), ks[1..]);
    }
  }

  /** Every key of `f`, prefixed, in the same order and with the same values. */
  function PrefixAll(prefix: string, f: Fields): (r: Fields)
  {
    seq(|f|, i requires 0 <= i < |f| => (prefix + f[i].0, f[i].1))
  }

  /** The prefixed dict has as many entries, the prefixed key of `k` finds
      what `k` found, and every key carries the prefix. */
  lemma {:induction false} PrefixAllLookup(prefix: string, f: Fields)
    ensures |PrefixAll(prefix, f)| == |f|
    ensures forall k :: Get(PrefixAll(prefix, f), prefix + k) == Get(f, k)
    ensures forall k :: k in Keys(PrefixAll(prefix, f)) ==> HasPrefix(prefix, k)
  {
    if f != [] {
      PrefixAllLookup(prefix, f[1..]);
      assert PrefixAll(prefix, f)[1..] == PrefixAll(prefix, f[1..]);
      forall k ensures Get(PrefixAll(prefix, f), prefix + k) == Get(f, k) {
        if prefix + f[0].0 == prefix + k {
          PrefixInjective(prefix, f[0].0, k);
        }
      }
    }
    forall k | k in Keys(PrefixAll(prefix, f)) ensures HasPrefix(prefix, k) {
      var i :| 0 <= i < |f| && Keys(PrefixAll(prefix, f))[i] == k;
      PrefixedHasPrefix(prefix, f[i].0);
    }
  }

  /** No prefixed key is already a key. */
  predicate NoCollision(prefix: string, f: Fields)
  {
    forall i, j :: 0 <= i < |f| && 0 <= j < |f| ==> prefix + f[i].0 != f[j].0
  }

  /** Whether a prefixed key collides depends on the keys alone. */
  lemma NoCollisionSameKeys(prefix: string, f: Fields, g: Fields)
    requires NoCollision(prefix, f) && Keys(f) == Keys(g)
    ensures NoCollision(prefix, g)
  {
    forall i, j | 0 <= i < |g| && 0 <= j < |g| ensures prefix + g[i].0 != g[j].0 {
      assert Keys(f)[i] == f[i].0 && Keys(g)[i] == g[i].0;
      assert Keys(f)[j] == f[j].0 && Keys(g)[j] == g[j].0;
    }
  }

  /** The dict after `n` renamings, when nothing collides: the keys not yet
      renamed, then the renamed ones in their original order. */
  function Shifted(prefix: string, f: Fields, n: nat): Fields
    requires n <= |f|
  {
    f[n..] + PrefixAll(prefix, f[..n])
  }

  lemma ShiftedAt(prefix: string, f: Fields, n: nat, i: nat)
    requires n <= |f| && i < |f|
    ensures |Shifted(prefix, f, n)| == |f|
    ensures i < |f| - n ==> Shifted(prefix, f, n)[i] == f[n + i]
    ensures i >= |f| - n ==> Shifted(prefix, f, n)[i] == (prefix + f[i - (|f| - n)].0, f[i - (|f| - n)].1)
  {
  }

  lemma PrefixDistinct(prefix: string, a: string, b: string)
    requires a != b
    ensures prefix + a != prefix + b
  {
    if prefix + a == prefix + b {
      PrefixInjective(prefix, a, b);
    }
  }

  lemma ShiftedPairDistinct(prefix: string, f: Fields, n: nat, i: nat, j: nat)
    requires DistinctKeys(f) && NoCollision(prefix, f) && n <= |f| && i < j < |f|
    ensures Shifted(prefix, f, n)[i].0 != Shifted(prefix, f, n)[j].0
  {
    var m := |f| - n;
    ShiftedAt(prefix, f, n, i);
    ShiftedAt(prefix, f, n, j);
    if j < m {
      assert f[n + i].0 != f[n + j].0;
    } else if i < m {
      assert prefix + f[j - m].0 != f[n + i].0;
    } else {
      PrefixDistinct(prefix, f[i - m].0, f[j - m].0);
    }
  }

  lemma ShiftedUnique(prefix: string, f: Fields, n: nat)
    requires DistinctKeys(f) && NoCollision(prefix, f) && n <= |f|
    ensures UniqueKeys(Shifted(prefix, f, n))
  {
    var cur := Shifted(prefix, f, n);
    forall i, j | 0 <= i < j < |cur| ensures cur[i].0 != cur[j].0 {
      ShiftedAt(prefix, f, n, i);
      ShiftedPairDistinct(prefix, f, n, i, j);
    }
    DistinctKeysUnique(cur);
  }

  /** The prefixed key of the `n`-th key is not among the later keys nor
      among the prefixed earlier ones. */
  lemma ShiftedFresh(prefix: string, f: Fields, n: nat)
    requires DistinctKeys(f) && NoCollision(prefix, f) && n < |f|
    ensures prefix + f[n].0 !in Keys(Shifted(prefix, f, n)[1..])
  {
    var rest := Shifted(prefix, f, n)[1..];
    var k := f[n].0;
    forall j | 0 <= j < |rest| ensures rest[j].0 != prefix + k {
      ShiftedAt(prefix, f, n, j + 1);
      assert rest[j] == Shifted(prefix, f, n)[j + 1];
      if j + 1 < |f| - n {
        assert prefix + f[n].0 != f[n + 1 + j].0;
      } else {
        var i := j + 1 - (|f| - n);
        PrefixDistinct(prefix, f[i].0, k);
      }
    }
  }

  lemma ShiftedTail(prefix: string, f: Fields, n: nat)
    requires n < |f|
    ensures Shifted(prefix, f, n)[0] == f[n]
    ensures Shifted(prefix, f, n)[1..] == f[n + 1..] + PrefixAll(prefix, f[..n])
  {
  }

  lemma PrefixAllSnoc(prefix: string, f: Fields, n: nat)
    requires n < |f|
    ensures PrefixAll(prefix, f[..n]) + [(prefix + f[n].0, f[n].1)] == PrefixAll(prefix, f[..n + 1])
  {
  }

  /** When nothing collides, renaming the `n`-th key moves it from the front
      to the back. */
  lemma ShiftedStep(prefix: string, f: Fields, n: nat)
    requires DistinctKeys(f) && NoCollision(prefix, f) && n < |f|
    ensures UniqueKeys(Shifted(prefix, f, n)) && f[n].0 in Keys(Shifted(prefix, f, n))
    ensures RenameStep(prefix, Shifted(prefix, f, n), f[n].0) == Shifted(prefix, f, n + 1)
  {
    ShiftedUnique(prefix, f, n);
    var cur := Shifted(prefix, f, n);
    var k := f[n].0;
    ShiftedTail(prefix, f, n);
    KeyIn(cur, 0);
    var rest := cur[1..];
    assert Remove(cur, k) == rest;
    assert Get(cur, k) == Some(f[n].1);
    ShiftedFresh(prefix, f, n);
    PutNewKey(rest, prefix + k, f[n].1);
    assert RenameStep(prefix, cur, k) == rest + [(prefix + k, f[n].1)];
    AppendAssociates(f[n + 1..], PrefixAll(prefix, f[..n]), [(prefix + k, f[n].1)]);
    PrefixAllSnoc(prefix, f, n);
  }

  /** After `n` renamings without collisions, the remaining keys of the
      snapshot are distinct and present. */
  lemma ShiftedReady(prefix: string, f: Fields, n: nat)
    requires DistinctKeys(f) && NoCollision(prefix, f) && n <= |f|
    ensures RenameReady(Shifted(prefix, f, n), Keys(f)[n..])
  {
    var cur := Shifted(prefix, f, n);
    var ks := Keys(f)[n..];
    ShiftedUnique(prefix, f, n);
    forall i, j | 0 <= i < j < |ks| ensures ks[i] != ks[j] {
      assert f[n + i].0 != f[n + j].0;
    }
    forall k | k in ks ensures k in Keys(cur) {
      var j :| 0 <= j < |ks| && ks[j] == k;
      ShiftedAt(prefix, f, n, j);
      KeyIn(cur, j);
    }
  }

  lemma {:induction false} RenameShifted(prefix: string, f: Fields, n: nat)
    requires DistinctKeys(f) && NoCollision(prefix, f) && n <= |f|
    ensures RenameReady(Shifted(prefix, f, n), Keys(f)[n..])
    ensures RenameFrom(prefix, Shifted(prefix, f, n), Keys(f)[n..]) == PrefixAll(prefix, f)
    decreases |f| - n
  {
    ShiftedReady(prefix, f, n);
    var ks := Keys(f)[n..];
    if n == |f| {
      assert f[..n] == f;
      assert Shifted(prefix, f, n) == PrefixAll(prefix, f);
    } else {
      ShiftedStep(prefix, f, n);
      assert ks[0] == f[n].0;
      assert ks[1..] == Keys(f)[n + 1..];
      RenameShifted(prefix, f, n + 1);
    }
  }


  /** When no prefixed key is already a key, the renamed dict is exactly the
      prefixed one: every key prefixed, in order, with its value. */
  lemma RenameWithoutCollision(prefix: string, f: Fields)
    requires UniqueKeys(f) && NoCollision(prefix, f)
    ensures RenameReady(f, Keys(f))
    ensures RenameFrom(prefix, f, Keys(f)) == PrefixAll(prefix, f)
  {
    UniqueKeysDistinct(f);
    RenameShifted(prefix, f, 0);
    assert Shifted(prefix, f, 0) == f;
    assert Keys(f)[0..] == Keys(f);
  }
}
