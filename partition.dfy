/**
 * Splitting a sequence into groups by a key, the way the code walks
 * `df["employee_id"].unique()` and `groupby(..., sort=False)`: keys in order
 * of first appearance, each group holding its members in their original order.
 */
module Partition {

  ghost predicate NoDuplicates<K>(ks: seq<K>) {
    forall i, j :: 0 <= i < j < |ks| ==> ks[i] != ks[j]
  }

  /** The distinct keys of `s`, in order of first appearance (`Series.unique()`). */
  function Keys<T(!new), K(==,!new)>(s: seq<T>, key: T -> K): (ks: seq<K>)
    ensures forall k :: k in ks <==> exists i :: 0 <= i < |s| && key(s[i]) == k
    ensures NoDuplicates(ks)
    ensures |ks| <= |s|
    decreases |s|
  {
    if s == [] then []
    else
      var ks := Keys(s[..|s| - 1], key);
      if key(s[|s| - 1]) in ks then ks else ks + [key(s[|s| - 1])]
  }

  /** The members of `s` whose key is `k`, in their order in `s` (`df[df[col] == k]`). */
  function Select<T(!new), K(==,!new)>(s: seq<T>, key: T -> K, k: K): (r: seq<T>)
    ensures forall x :: x in r <==> x in s && key(x) == k
    ensures |r| <= |s|
    decreases |s|
  {
    if s == [] then []
    else
      LastSplit(s);
      Select(s[..|s| - 1], key, k) + (if key(s[|s| - 1]) == k then [s[|s| - 1]] else [])
  }

  /** The groups of `ks`, one after the other. */
  function Regroup<T(!new), K(==,!new)>(s: seq<T>, key: T -> K, ks: seq<K>): seq<T>
    decreases |ks|
  {
    if ks == [] then []
    else Regroup(s, key, ks[..|ks| - 1]) + Select(s, key, ks[|ks| - 1])
  }

  lemma SelectAppend<T(!new), K(!new)>(s: seq<T>, key: T -> K, k: K, x: T)
    ensures Select(s + [x], key, k) == Select(s, key, k) + (if key(x) == k then [x] else [])
  {
    assert (s + [x])[..|s|] == s;
  }

  /** Selection keeps every member with key `k` as often as `s` holds it, and no other. */
  lemma {:induction false} SelectCounts<T(!new), K(!new)>(s: seq<T>, key: T -> K, k: K)
    ensures forall x :: multiset(Select(s, key, k))[x] == if key(x) == k then multiset(s)[x] else 0
    decreases |s|
  {
    if s != [] {
      var init, last := s[..|s| - 1], s[|s| - 1];
      LastSplit(s);
      SelectCounts(init, key, k);
      assert multiset(s) == multiset(init) + multiset{last};
    }
  }

  /**
   * Selection keeps the order of `s`: selecting from two parts, one after the
   * other, is selecting from each part and joining the results.
   */
  lemma {:induction false} SelectConcat<T(!new), K(!new)>(s: seq<T>, t: seq<T>, key: T -> K, k: K)
    ensures Select(s + t, key, k) == Select(s, key, k) + Select(t, key, k)
    decreases |t|
  {
    if t == [] {
      assert s + t == s;
      assert Select(t, key, k) == [];
    } else {
      var init, last := t[..|t| - 1], t[|t| - 1];
      var tail := if key(last) == k then [last] else [];
      LastSplit(t);
      SelectConcat(s, init, key, k);
      assert s + t == (s + init) + [last];
      SelectAppend(s + init, key, k, last);
      SelectAppend(init, key, k, last);
      assert Select(s + t, key, k) == (Select(s, key, k) + Select(init, key, k)) + tail;
      assert Select(t, key, k) == Select(init, key, k) + tail;
      ConcatAssoc(Select(s, key, k), Select(init, key, k), tail);
    }
  }

  /** Some element of `s` before position `n` has key `k`. */
  ghost predicate OccursBefore<T, K>(s: seq<T>, key: T -> K, k: K, n: int) {
    exists m :: 0 <= m < n && m < |s| && key(s[m]) == k
  }

  /**
   * `ks` lists keys in order of first appearance in `s`: wherever the key
   * listed at `j` occurs, every key listed before it has already occurred.
   */
  ghost predicate InFirstAppearanceOrder<T, K>(s: seq<T>, key: T -> K, ks: seq<K>) {
    forall i, j, n :: 0 <= i < j < |ks| && 0 <= n < |s| && key(s[n]) == ks[j] ==>
      OccursBefore(s, key, ks[i], n)
  }

  /** `Series.unique()` lists the keys in order of first appearance. */
  lemma {:induction false} KeysInFirstAppearanceOrder<T(!new), K(!new)>(s: seq<T>, key: T -> K)
    ensures InFirstAppearanceOrder(s, key, Keys(s, key))
    decreases |s|
  {
    if s != [] {
      var s0, x := s[..|s| - 1], s[|s| - 1];
      KeysInFirstAppearanceOrder(s0, key);
      var ks0, ks := Keys(s0, key), Keys(s, key);
      forall i, j, n | 0 <= i < j < |ks| && 0 <= n < |s| && key(s[n]) == ks[j]
        ensures OccursBefore(s, key, ks[i], n)
      {
        assert ks[i] == ks0[i];
        if n < |s0| {
          assert s[n] == s0[n];
          if j < |ks0| {
            assert ks[j] == ks0[j];
            assert key(s0[n]) == ks0[j];
            assert OccursBefore(s0, key, ks0[i], n);
            var m :| 0 <= m < n && m < |s0| && key(s0[m]) == ks0[i];
            assert s[m] == s0[m];
          }
        } else {
          assert ks0[i] in ks0;
          var m :| 0 <= m < |s0| && key(s0[m]) == ks0[i];
          assert s[m] == s0[m];
        }
      }
    }
  }

  /** Adding one element to `s` adds it to exactly the group of its key, if that key is listed. */
  lemma {:induction false} RegroupAppend<T(!new), K(!new)>(s: seq<T>, key: T -> K, ks: seq<K>, x: T)
    requires NoDuplicates(ks)
    ensures multiset(Regroup(s + [x], key, ks))
         == multiset(Regroup(s, key, ks)) + (if key(x) in ks then multiset{x} else multiset{})
    decreases |ks|
  {
    if ks != [] {
      var init, k := ks[..|ks| - 1], ks[|ks| - 1];
      assert NoDuplicates(init);
      RegroupAppend(s, key, init, x);
      SelectAppend(s, key, k, x);
      LastSplit(ks);
      var a, a' := Regroup(s, key, init), Regroup(s + [x], key, init);
      var b, b' := Select(s, key, k), Select(s + [x], key, k);
      if key(x) == k {
        assert key(x) !in init;
        ConcatGrows(a, a', b, b', multiset{}, multiset{x});
      } else if key(x) in init {
        ConcatGrows(a, a', b, b', multiset{x}, multiset{});
      } else {
        assert key(x) !in ks;
        ConcatGrows(a, a', b, b', multiset{}, multiset{});
      }
    }
  }

  lemma ConcatGrows<T>(a: seq<T>, a': seq<T>, b: seq<T>, b': seq<T>, da: multiset<T>, db: multiset<T>)
    requires multiset(a') == multiset(a) + da && multiset(b') == multiset(b) + db
    ensures multiset(a' + b') == multiset(a + b) + da + db
  {
  }

  /**
   * Listing each key of `s` once and concatenating the groups rearranges `s`:
   * nothing is lost and nothing is repeated.
   */
  lemma {:induction false} RegroupIsPermutation<T(!new), K(!new)>(s: seq<T>, key: T -> K, ks: seq<K>)
    requires NoDuplicates(ks)
    requires forall i :: 0 <= i < |s| ==> key(s[i]) in ks
    ensures multiset(Regroup(s, key, ks)) == multiset(s)
    ensures |Regroup(s, key, ks)| == |s|
    decreases |s|
  {
    if s == [] {
      EmptyRegroup(key, ks);
    } else {
      var init, x := s[..|s| - 1], s[|s| - 1];
      forall i | 0 <= i < |init| ensures key(init[i]) in ks {
        assert init[i] == s[i];
      }
      RegroupIsPermutation(init, key, ks);
      assert key(x) in ks;
      RegroupAppend(init, key, ks, x);
      LastSplit(s);
      PermutationStep(Regroup(init, key, ks), Regroup(s, key, ks), init, x);
    }
    SameLength(Regroup(s, key, ks), s);
  }

  lemma ConcatAssoc<T>(a: seq<T>, b: seq<T>, c: seq<T>)
    ensures (a + b) + c == a + (b + c)
  {
  }

  /** A non-empty sequence is its front followed by its last element. */
  lemma LastSplit<T>(s: seq<T>)
    requires s != []
    ensures s[..|s| - 1] + [s[|s| - 1]] == s
  {
  }

  /** Extending a prefix by one element keeps the prefix and adds that element. */
  lemma PrefixStep<T>(s: seq<T>, i: int)
    requires 0 <= i < |s|
    ensures s[..i + 1][..i] == s[..i] && s[..i + 1][i] == s[i]
    ensures s[..i + 1] == s[..i] + [s[i]]
  {
  }

  lemma PermutationStep<T>(r: seq<T>, r': seq<T>, init: seq<T>, x: T)
    requires multiset(r) == multiset(init)
    requires multiset(r') == multiset(r) + multiset{x}
    ensures multiset(r') == multiset(init + [x])
  {
  }

  lemma SameLength<T>(a: seq<T>, b: seq<T>)
    requires multiset(a) == multiset(b)
    ensures |a| == |b|
  {
    assert |multiset(a)| == |a|;
    assert |multiset(b)| == |b|;
  }

  lemma {:induction false} EmptyRegroup<T(!new), K(!new)>(key: T -> K, ks: seq<K>)
    ensures Regroup([], key, ks) == []
    decreases |ks|
  {
    if ks != [] {
      EmptyRegroup(key, ks[..|ks| - 1]);
    }
  }

  /** The groups of all first-appearance keys rearrange the whole sequence. */
  lemma KeysRegroupIsPermutation<T(!new), K(!new)>(s: seq<T>, key: T -> K)
    ensures multiset(Regroup(s, key, Keys(s, key))) == multiset(s)
    ensures |Regroup(s, key, Keys(s, key))| == |s|
  {
    var ks := Keys(s, key);
    forall i | 0 <= i < |s| ensures key(s[i]) in ks {
    }
    RegroupIsPermutation(s, key, ks);
  }

  /**
   * `m` is what filling a dict row by row (`d[key(row)] = val(row)`) leaves:
   * exactly the keys that occur, each mapped to the value of its last row.
   */
  ghost predicate LastWriteWins<T, K(!new), V>(s: seq<T>, key: T -> K, val: T -> V, m: map<K, V>) {
    && (forall k :: k in m <==> exists i :: 0 <= i < |s| && key(s[i]) == k)
    && (forall i :: 0 <= i < |s| && (forall j :: i < j < |s| ==> key(s[j]) != key(s[i])) ==>
          key(s[i]) in m && m[key(s[i])] == val(s[i]))
  }

  /** Writing one more row keeps `LastWriteWins`. */
  lemma LastWriteWinsStep<T, K(!new), V>(s: seq<T>, key: T -> K, val: T -> V, m: map<K, V>, x: T)
    requires LastWriteWins(s, key, val, m)
    ensures LastWriteWins(s + [x], key, val, m[key(x) := val(x)])
  {
    var s', m' := s + [x], m[key(x) := val(x)];
    forall i | 0 <= i < |s'| && (forall j :: i < j < |s'| ==> key(s'[j]) != key(s'[i]))
      ensures key(s'[i]) in m' && m'[key(s'[i])] == val(s'[i])
    {
      if i < |s| {
        assert key(s'[|s|]) != key(s'[i]);
        assert forall j :: i < j < |s| ==> key(s[j]) != key(s[i]) by {
          forall j | i < j < |s| ensures key(s[j]) != key(s[i]) {
            assert s'[j] == s[j];
          }
        }
      }
    }
    forall k ensures k in m' <==> exists i :: 0 <= i < |s'| && key(s'[i]) == k {
      if k == key(x) {
        assert s'[|s|] == x;
      }
      if k in m && k != key(x) {
        var i :| 0 <= i < |s| && key(s[i]) == k;
        assert s'[i] == s[i];
      }
      if exists i :: 0 <= i < |s'| && key(s'[i]) == k {
        var i :| 0 <= i < |s'| && key(s'[i]) == k;
        if i < |s| {
          assert s'[i] == s[i];
        }
      }
    }
  }

  /** The dict that filling row by row leaves behind. */
  function LastWrites<T, K(==,!new), V>(s: seq<T>, key: T -> K, val: T -> V): (m: map<K, V>)
    ensures LastWriteWins(s, key, val, m)
    decreases |s|
  {
    if s == [] then map[]
    else
      var init, x := s[..|s| - 1], s[|s| - 1];
      LastSplit(s);
      LastWriteWinsStep(init, key, val, LastWrites(init, key, val), x);
      LastWrites(init, key, val)[key(x) := val(x)]
  }
}
