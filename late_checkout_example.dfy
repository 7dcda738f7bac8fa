/**
 * A worked example of the late-checkout rule of `__main__.py` on a night
 * shift ending at 01:00: a day shift punch at 08:00 on day 20000, then
 * punches at 02:00 on days 20001 and 20002.  The 02:00 punch of day 20001
 * is credited to day 20000 (the employee punched that day); the 02:00 punch
 * of day 20002 is credited to day 20001, because the employee has a punch
 * dated 20001 — the one just moved away.  Day 20001's group is that single
 * punch, so it runs to 23:59:59 of day 20001 from 02:00 of day 20002: a
 * negative time spent.
 */
module LateCheckoutExample {
  import opened Wrappers
  import opened Calendar
  import opened Records
  import opened AdmsMain
  import Partition
  import Grouping

  const NIGHT_SHIFTS: map<string, MainShift> := map["E" := MainShift("NIGHT", AtClock(Clock(16, 0, 0)), AtClock(Clock(1, 0, 0)))]
  const PUNCH_A: Punch := Punch("E", 20000 * 86400 + 8 * 3600, "D1")
  const PUNCH_B: Punch := Punch("E", 20001 * 86400 + 2 * 3600, "D1")
  const PUNCH_C: Punch := Punch("E", 20002 * 86400 + 2 * 3600, "D1")

  lemma ChainKeys()
    ensures Partition.Keys([PUNCH_A, PUNCH_B, PUNCH_C], EmployeeOfPunch) == ["E"]
  {
    var a, b, c := PUNCH_A, PUNCH_B, PUNCH_C;
    var ps := [a, b, c];
    assert ps[..2] == [a, b] && [a, b][..1] == [a] && [a][..0] == [];
    assert Partition.Keys([a], EmployeeOfPunch) == ["E"];
    assert Partition.Keys([a, b], EmployeeOfPunch) == ["E"];
  }

  lemma ChainSelect()
    ensures Partition.Select([PUNCH_A, PUNCH_B, PUNCH_C], EmployeeOfPunch, "E") == [PUNCH_A, PUNCH_B, PUNCH_C]
  {
    var a, b, c := PUNCH_A, PUNCH_B, PUNCH_C;
    var ps := [a, b, c];
    assert ps[..2] == [a, b] && [a, b][..1] == [a] && [a][..0] == [];
    assert Partition.Select([a], EmployeeOfPunch, "E") == [a];
    assert Partition.Select([a, b], EmployeeOfPunch, "E") == [a, b];
  }

  lemma ChainSort()
    ensures SortByTs([PUNCH_A, PUNCH_B, PUNCH_C]) == [PUNCH_A, PUNCH_B, PUNCH_C]
  {
    var a, b, c := PUNCH_A, PUNCH_B, PUNCH_C;
    ChainSortPair();
    assert [a, b, c][..2] == [a, b];
    assert InsertByTs(c, [b]) == [b, c];
    assert InsertByTs(c, [a, b]) == [a, b, c];
  }

  lemma ChainSortPair()
    ensures SortByTs([PUNCH_A, PUNCH_B]) == [PUNCH_A, PUNCH_B]
  {
    var a, b := PUNCH_A, PUNCH_B;
    assert [a, b][..1] == [a] && [a][..0] == [];
    assert SortByTs([a]) == [a];
    assert InsertByTs(b, [a]) == [a, b];
  }

  lemma ChainData()
    ensures Partition.Keys([PUNCH_A, PUNCH_B, PUNCH_C], EmployeeOfPunch) == ["E"]
    ensures EmployeeData([PUNCH_A, PUNCH_B, PUNCH_C], "E") == [PUNCH_A, PUNCH_B, PUNCH_C]
  {
    ChainKeys();
    ChainSelect();
    ChainSort();
  }

  lemma ChainDays()
    ensures var ps := [PUNCH_A, PUNCH_B, PUNCH_C];
            && LateCheckoutDay(ps, PUNCH_A, NIGHT_SHIFTS) == 20000
            && LateCheckoutDay(ps, PUNCH_B, NIGHT_SHIFTS) == 20000
            && LateCheckoutDay(ps, PUNCH_C, NIGHT_SHIFTS) == 20001
  {
    var ps := [PUNCH_A, PUNCH_B, PUNCH_C];
    DayOfTime(20000, 8 * 3600);
    DayOfTime(20001, 2 * 3600);
    DayOfTime(20002, 2 * 3600);
    assert Hour(PUNCH_B.ts) == 2 && Hour(PUNCH_C.ts) == 2;
    assert PunchedOn(ps, 20000) by { assert DayOf(ps[0].ts) == 20000; }
    assert PunchedOn(ps, 20001) by { assert DayOf(ps[1].ts) == 20001; }
  }

  lemma LateCheckoutEntryFacts()
    ensures var pe := ProcessedEntries([PUNCH_A, PUNCH_B, PUNCH_C], NIGHT_SHIFTS);
            |pe| == 3 && pe[0] == Entry("E", PUNCH_A.ts, "D1", 20000) && pe[1] == Entry("E", PUNCH_B.ts, "D1", 20000)
            && pe[2] == Entry("E", PUNCH_C.ts, "D1", 20001)
  {
    var ps := [PUNCH_A, PUNCH_B, PUNCH_C];
    ChainData();
    ChainDays();
    var ee := EmployeeEntries(ps, NIGHT_SHIFTS);
    assert ["E"][..0] == [];
    assert Blocks(ps, ["E"], NIGHT_SHIFTS) == Blocks(ps, [], NIGHT_SHIFTS) + ee;
  }

  const ENTRY_A: Entry := Entry("E", PUNCH_A.ts, "D1", 20000)
  const ENTRY_B: Entry := Entry("E", PUNCH_B.ts, "D1", 20000)
  const ENTRY_C: Entry := Entry("E", PUNCH_C.ts, "D1", 20001)

  lemma ChainEntries()
    ensures ProcessedEntries([PUNCH_A, PUNCH_B, PUNCH_C], NIGHT_SHIFTS) == [ENTRY_A, ENTRY_B, ENTRY_C]
  {
    LateCheckoutEntryFacts();
    ThreeEntries(ProcessedEntries([PUNCH_A, PUNCH_B, PUNCH_C], NIGHT_SHIFTS), ENTRY_A, ENTRY_B, ENTRY_C);
  }

  lemma ThreeEntries(es: seq<Entry>, a: Entry, b: Entry, c: Entry)
    requires |es| == 3 && es[0] == a && es[1] == b && es[2] == c
    ensures es == [a, b, c]
  {
  }

  lemma ChainKeysOfGroups()
    ensures Grouping.GroupKeys([ENTRY_A, ENTRY_B, ENTRY_C]) == [Key("E", 20000), Key("E", 20001)]
  {
    var es := [ENTRY_A, ENTRY_B, ENTRY_C];
    assert es[..2] == [ENTRY_A, ENTRY_B] && [ENTRY_A, ENTRY_B][..1] == [ENTRY_A] && [ENTRY_A][..0] == [];
    assert Grouping.GroupKeys([ENTRY_A]) == [Key("E", 20000)];
    assert Grouping.GroupKeys([ENTRY_A, ENTRY_B]) == [Key("E", 20000)];
    assert !KeyLt(Key("E", 20001), Key("E", 20000));
    assert [Key("E", 20000)][1..] == [];
  }

  lemma ChainLateGroup()
    ensures |Grouping.GroupBy([ENTRY_A, ENTRY_B, ENTRY_C])| == 2
    ensures Grouping.GroupBy([ENTRY_A, ENTRY_B, ENTRY_C])[1] == Grouping.Group("E", 20001, PUNCH_C.ts, PUNCH_C.ts, "D1", "D1", 1)
  {
    var es := [ENTRY_A, ENTRY_B, ENTRY_C];
    ChainKeysOfGroups();
    var k := Key("E", 20001);
    assert es[..2] == [ENTRY_A, ENTRY_B] && [ENTRY_A, ENTRY_B][..1] == [ENTRY_A] && [ENTRY_A][..0] == [];
    assert Partition.Select([ENTRY_A], Grouping.EntryKey, k) == [];
    assert Partition.Select([ENTRY_A, ENTRY_B], Grouping.EntryKey, k) == [];
    assert Grouping.Members(es, k) == [ENTRY_C];
    assert Grouping.GroupBy(es)[1] == Grouping.Summarise([ENTRY_C], k);
  }

  lemma ChainedCheckoutIsNegative()
    ensures var rows := MainSummary(true, [PUNCH_A, PUNCH_B, PUNCH_C], NIGHT_SHIFTS).rows;
            |rows| == 2 && rows[1].day == 20001 && rows[1].start == Some(PUNCH_C.ts) && rows[1].timeSpent == -7201
  {
    ChainEntries();
    ChainLateGroup();
    var g := Grouping.GroupBy([ENTRY_A, ENTRY_B, ENTRY_C])[1];
    assert MainWorkedSummary([PUNCH_A, PUNCH_B, PUNCH_C], NIGHT_SHIFTS)[1] == MainWorkedRow(g, NIGHT_SHIFTS);
  }
}
