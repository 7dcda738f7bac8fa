/**
 * `df_processed.groupby(["employee_id", "day"]).apply(...).reset_index()`,
 * which both pipelines run on their processed punches: one row per
 * `(employee_id, day)`, in sorted key order (pandas sorts group keys), with
 * the first and last timestamp of the group, the devices of those punches
 * and the number of punches.
 */
module Grouping {
  import opened Records
  import Partition

  /** One grouped row, before time spent is computed. */
  datatype Group = Group(
    employee: string,
    day: int,
    start: int,
    end: int,
    startSn: string,
    endSn: string,
    numEntries: nat)

  function EntryKey(e: Entry): Key {
    Key(e.employee, e.day)
  }

  function GroupKey(g: Group): Key {
    Key(g.employee, g.day)
  }

  /** `"min"` or `"max"`, the operation argument of `get_device_for_time`. */
  datatype Which = Min | Max

  /** `k` is where `idxmin`/`idxmax` lands: an extreme timestamp, and the first such entry. */
  ghost predicate IsFirstExtreme(g: seq<Entry>, which: Which, k: int) {
    && 0 <= k < |g|
    && (forall j :: 0 <= j < |g| ==> if which == Min then g[k].ts <= g[j].ts else g[j].ts <= g[k].ts)
    && (forall j :: 0 <= j < k ==> g[j].ts != g[k].ts)
  }

  /** `Series.idxmin()`: position of the first smallest timestamp. */
  function FirstMinIndex(g: seq<Entry>): (k: nat)
    requires |g| > 0
    ensures IsFirstExtreme(g, Min, k)
    decreases |g|
  {
    if |g| == 1 then 0
    else
      var k := FirstMinIndex(g[1..]) + 1;
      if g[0].ts <= g[k].ts then 0 else k
  }

  /** `Series.idxmax()`: position of the first largest timestamp. */
  function FirstMaxIndex(g: seq<Entry>): (k: nat)
    requires |g| > 0
    ensures IsFirstExtreme(g, Max, k)
    decreases |g|
  {
    if |g| == 1 then 0
    else
      var k := FirstMaxIndex(g[1..]) + 1;
      if g[0].ts >= g[k].ts then 0 else k
  }

  /**
   * `get_device_for_time(group, "timestamp", "sn", which)`: the device of the
   * group's earliest (`Min`) or latest (`Max`) punch; on a tie, of the one
   * that comes first in the group.
   */
  function DeviceForTime(g: seq<Entry>, which: Which): (sn: string)
    requires |g| > 0
    ensures exists k :: IsFirstExtreme(g, which, k) && g[k].sn == sn
  {
    var k := if which == Min then FirstMinIndex(g) else FirstMaxIndex(g);
    assert IsFirstExtreme(g, which, k);
    g[k].sn
  }

  lemma ConsSorted(a: Key, ks: seq<Key>)
    requires StrictlySorted(ks)
    requires forall i :: 0 <= i < |ks| ==> KeyLt(a, ks[i])
    ensures StrictlySorted([a] + ks)
  {
    var r := [a] + ks;
    forall i, j | 0 <= i < j < |r| ensures KeyLt(r[i], r[j]) {
      if i > 0 {
        assert r[i] == ks[i - 1] && r[j] == ks[j - 1];
      }
    }
  }

  lemma PrependSmaller(k: Key, ks: seq<Key>)
    requires StrictlySorted(ks) && ks != [] && KeyLt(k, ks[0])
    ensures StrictlySorted([k] + ks)
  {
    forall i | 0 <= i < |ks| ensures KeyLt(k, ks[i]) {
      if i > 0 {
        KeyLtTransitive(k, ks[0], ks[i]);
      }
    }
    ConsSorted(k, ks);
  }

  /** Adds a key to a strictly sorted key list, keeping it strictly sorted. */
  function InsertKey(k: Key, ks: seq<Key>): (r: seq<Key>)
    requires StrictlySorted(ks)
    ensures StrictlySorted(r)
    ensures forall x :: x in r <==> x in ks || x == k
    decreases |ks|
  {
    if ks == [] then [k]
    else if k == ks[0] then ks
    else if KeyLt(k, ks[0]) then
      PrependSmaller(k, ks);
      [k] + ks
    else
      KeyLtTotal(k, ks[0]);
      var rest := InsertKey(k, ks[1..]);
      assert forall i :: 0 <= i < |rest| ==> rest[i] in ks[1..] || rest[i] == k;
      ConsSorted(ks[0], rest);
      [ks[0]] + rest
  }

  /** Some processed punch has key `k`. */
  ghost predicate Occurs(es: seq<Entry>, k: Key) {
    exists i :: 0 <= i < |es| && EntryKey(es[i]) == k
  }

  /** The group keys, sorted as `groupby` sorts them. */
  function GroupKeys(es: seq<Entry>): (ks: seq<Key>)
    ensures StrictlySorted(ks)
    ensures forall k :: k in ks <==> Occurs(es, k)
    decreases |es|
  {
    if es == [] then []
    else
      var ks := GroupKeys(es[..|es| - 1]);
      assert forall i :: 0 <= i < |es| - 1 ==> es[..|es| - 1][i] == es[i];
      assert forall k :: Occurs(es, k) <==> Occurs(es[..|es| - 1], k) || EntryKey(es[|es| - 1]) == k;
      InsertKey(EntryKey(es[|es| - 1]), ks)
  }

  /** The punches of one group, in their order among the processed entries. */
  function Members(es: seq<Entry>, k: Key): (g: seq<Entry>)
    ensures forall e :: e in g <==> e in es && EntryKey(e) == k
    ensures |g| > 0 <==> Occurs(es, k)
  {
    var g := Partition.Select(es, EntryKey, k);
    assert Occurs(es, k) ==> |g| > 0 by {
      if Occurs(es, k) {
        var i :| 0 <= i < |es| && EntryKey(es[i]) == k;
        assert es[i] in g;
      }
    }
    assert |g| > 0 ==> Occurs(es, k) by {
      if |g| > 0 {
        assert g[0] in es;
      }
    }
    g
  }

  /**
   * A group keeps the order of the processed entries: the group of two runs
   * of entries is the group of the first run followed by that of the second,
   * and a single entry forms its own group or none.  So "first" among a
   * group's members means first among the entries.
   */
  lemma MembersConcat(a: seq<Entry>, b: seq<Entry>, k: Key)
    ensures Members(a + b, k) == Members(a, k) + Members(b, k)
    ensures Members([], k) == []
    ensures forall e :: Members([e], k) == if EntryKey(e) == k then [e] else []
  {
    Partition.SelectConcat(a, b, EntryKey, k);
    forall e ensures Members([e], k) == if EntryKey(e) == k then [e] else [] {
      assert [e][..0] == [];
    }
  }

  /** A group holds each entry with its key as often as the entries do, and nothing else. */
  lemma MembersCounts(es: seq<Entry>, k: Key)
    ensures forall e :: multiset(Members(es, k))[e] == if EntryKey(e) == k then multiset(es)[e] else 0
  {
    Partition.SelectCounts(es, EntryKey, k);
  }

  /** The `pd.Series` the `apply` lambda builds from one non-empty group. */
  function Summarise(g: seq<Entry>, k: Key): (r: Group)
    requires |g| > 0
    ensures GroupKey(r) == k && r.numEntries == |g|
    ensures r.start <= r.end
    ensures forall e :: e in g ==> r.start <= e.ts <= r.end
    ensures (exists e :: e in g && e.ts == r.start) && (exists e :: e in g && e.ts == r.end)
    ensures exists i :: IsFirstExtreme(g, Min, i) && g[i].sn == r.startSn
    ensures exists i :: IsFirstExtreme(g, Max, i) && g[i].sn == r.endSn
  {
    var lo, hi := FirstMinIndex(g), FirstMaxIndex(g);
    assert g[lo] in g && g[hi] in g;
    Group(k.employee, k.day, g[lo].ts, g[hi].ts, DeviceForTime(g, Min), DeviceForTime(g, Max), |g|)
  }

  /** Grouped rows for the listed keys, each of which has at least one punch. */
  function RowsFor(es: seq<Entry>, ks: seq<Key>): (rows: seq<Group>)
    requires forall k :: k in ks ==> Occurs(es, k)
    ensures |rows| == |ks|
    ensures forall i :: 0 <= i < |ks| ==> GroupKey(rows[i]) == ks[i]
  {
    seq(|ks|, i requires 0 <= i < |ks| => Summarise(Members(es, ks[i]), ks[i]))
  }

  /**
   * The grouped summary: one row per group key, in the sorted order of
   * `GroupKeys`.  `GroupByRow` says what each row holds.
   */
  function GroupBy(es: seq<Entry>): (rows: seq<Group>)
    ensures |rows| == |GroupKeys(es)|
    ensures forall i :: 0 <= i < |rows| ==> GroupKey(rows[i]) == GroupKeys(es)[i]
  {
    RowsFor(es, GroupKeys(es))
  }

  /**
   * Grouped rows are strictly sorted by `(employee, day)`, and a key has a row
   * exactly when some punch carries it; there are rows exactly when there are punches.
   */
  lemma GroupBySortedAndComplete(es: seq<Entry>)
    ensures forall i, j :: 0 <= i < j < |GroupBy(es)| ==> KeyLt(GroupKey(GroupBy(es)[i]), GroupKey(GroupBy(es)[j]))
    ensures forall k :: k in GroupKeys(es) <==> Occurs(es, k)
    ensures |GroupBy(es)| == 0 <==> |es| == 0
  {
    if es != [] {
      assert Occurs(es, EntryKey(es[0]));
    }
  }

  /**
   * What one grouped row holds: its punches are the members of its key; it
   * counts them; its start and end are their earliest and latest timestamps
   * (so start <= end); its devices are those of the first earliest and the
   * first latest punch.
   */
  lemma GroupByRow(es: seq<Entry>, i: int)
    requires 0 <= i < |GroupBy(es)|
    ensures var r := GroupBy(es)[i];
            var g := Members(es, GroupKey(r));
            && |g| == r.numEntries > 0
            && r.start <= r.end
            && (forall e :: e in g ==> r.start <= e.ts <= r.end)
            && (exists e :: e in g && e.ts == r.start)
            && (exists e :: e in g && e.ts == r.end)
            && (exists j :: IsFirstExtreme(g, Min, j) && g[j].sn == r.startSn)
            && (exists j :: IsFirstExtreme(g, Max, j) && g[j].sn == r.endSn)
  {
    var ks := GroupKeys(es);
    assert GroupBy(es)[i] == Summarise(Members(es, ks[i]), ks[i]);
  }

  function TotalEntries(rows: seq<Group>): nat
    decreases |rows|
  {
    if rows == [] then 0 else TotalEntries(rows[..|rows| - 1]) + rows[|rows| - 1].numEntries
  }

  lemma {:induction false} TotalEntriesRowsFor(es: seq<Entry>, ks: seq<Key>)
    requires forall k :: k in ks ==> Occurs(es, k)
    ensures TotalEntries(RowsFor(es, ks)) == |Partition.Regroup(es, EntryKey, ks)|
    decreases |ks|
  {
    if ks != [] {
      var init := ks[..|ks| - 1];
      TotalEntriesRowsFor(es, init);
      var rows := RowsFor(es, ks);
      assert rows[..|rows| - 1] == RowsFor(es, init);
      assert rows[|rows| - 1] == Summarise(Members(es, ks[|ks| - 1]), ks[|ks| - 1]);
    }
  }

  /** Grouping loses no punch and counts none twice: the group sizes add up to the input. */
  lemma GroupByCountsEveryEntry(es: seq<Entry>)
    ensures TotalEntries(GroupBy(es)) == |es|
  {
    var ks := GroupKeys(es);
    TotalEntriesRowsFor(es, ks);
    forall i, j | 0 <= i < j < |ks| ensures ks[i] != ks[j] {
      KeyLtIrreflexive(ks[i]);
    }
    assert Partition.NoDuplicates(ks);
    forall i | 0 <= i < |es| ensures EntryKey(es[i]) in ks {
      assert Occurs(es, EntryKey(es[i]));
    }
    Partition.RegroupIsPermutation(es, EntryKey, ks);
  }
}
