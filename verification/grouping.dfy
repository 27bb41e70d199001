/**
 `group_by_class`: a stable, order-preserving group-by on the class identifier.
 The insertion-ordered `defaultdict(list)` it builds is modelled as the list of
 keys in insertion order together with a map from each key to its rows.
 */
module Grouping {
  import opened Schedule

  /** The `{day, time, subject, teacher}` record stored under a class. */
  datatype Row = Row(day: string, time: string, subject: string, teacher: string)

  function Project(e: Entry): Row {
    Row(e.day, e.time, e.subject, e.teacher)
  }

  /** An insertion-ordered dictionary from class identifier to rows. */
  datatype Grouped = Grouped(keys: seq<string>, rows: map<string, seq<Row>>)

  predicate Distinct(keys: seq<string>) {
    forall i, j :: 0 <= i < j < |keys| ==> keys[i] != keys[j]
  }

  /** The key list lists each key of the map exactly once. */
  predicate Valid(g: Grouped) {
    && Distinct(g.keys)
    && (forall k :: k in g.rows ==> k in g.keys)
    && (forall k :: k in g.keys ==> k in g.rows)
  }

  /** `grouped[entry["class"]].append(...)`: a missing key is created at the end of
      the key order with an empty list first. */
  function Add(g: Grouped, e: Entry): Grouped {
    if e.cls in g.rows then Grouped(g.keys, g.rows[e.cls := g.rows[e.cls] + [Project(e)]])
    else Grouped(g.keys + [e.cls], g.rows[e.cls := [Project(e)]])
  }

  /** Appending one entry keeps the dictionary well formed, appends the entry's row
      to its class's list (an empty list for a new class), leaves every other class
      as it was, and only ever extends the key order at its end. */
  lemma AddSpec(g: Grouped, e: Entry)
    ensures Valid(g) ==> Valid(Add(g, e))
    ensures e.cls in Add(g, e).rows
    ensures Add(g, e).rows[e.cls] == (if e.cls in g.rows then g.rows[e.cls] else []) + [Project(e)]
    ensures forall k :: k != e.cls ==> (k in Add(g, e).rows <==> k in g.rows)
    ensures forall k :: k != e.cls && k in g.rows ==> Add(g, e).rows[k] == g.rows[k]
    ensures |g.keys| <= |Add(g, e).keys| && Add(g, e).keys[..|g.keys|] == g.keys
  {
  }

  /** `group_by_class`: the loop over the schedule, one `Add` per entry. */
  function GroupByClass(schedule: seq<Entry>): (g: Grouped)
    ensures Valid(g)
    ensures forall k :: k in g.rows ==> |g.rows[k]| > 0
    decreases |schedule|
  {
    if schedule == [] then Grouped([], map[])
    else Add(GroupByClass(schedule[..|schedule| - 1]), schedule[|schedule| - 1])
  }

  /* ----- reference definitions ----- */

  /** The rows of class `cls`: the subsequence of the schedule with that class,
      projected, in schedule order. */
  function RowsOf(schedule: seq<Entry>, cls: string): seq<Row> {
    if schedule == [] then []
    else (if schedule[0].cls == cls then [Project(schedule[0])] else []) + RowsOf(schedule[1..], cls)
  }

  /** The distinct classes of a schedule. */
  function Classes(schedule: seq<Entry>): set<string> {
    set e | e in schedule :: e.cls
  }

  /** The position of the first entry of class `cls`. */
  function FirstIndex(schedule: seq<Entry>, cls: string): (p: nat)
    requires cls in Classes(schedule)
    ensures p < |schedule| && schedule[p].cls == cls
    ensures forall i :: 0 <= i < p ==> schedule[i].cls != cls
  {
    if schedule[0].cls == cls then 0
    else
      assert cls in Classes(schedule[1..]) by {
        var e :| e in schedule && e.cls == cls;
        var i :| 0 <= i < |schedule| && schedule[i] == e;
        assert schedule[1..][i - 1] == e;
      }
      1 + FirstIndex(schedule[1..], cls)
  }

  /* ----- properties ----- */

  lemma {:induction false} RowsOfAppend(a: seq<Entry>, b: seq<Entry>, cls: string)
    ensures RowsOf(a + b, cls) == RowsOf(a, cls) + RowsOf(b, cls)
    decreases |a|
  {
    if a == [] {
      assert a + b == b;
    } else {
      var head := if a[0].cls == cls then [Project(a[0])] else [];
      assert (a + b)[0] == a[0];
      assert (a + b)[1..] == a[1..] + b;
      RowsOfAppend(a[1..], b, cls);
      assert RowsOf(a + b, cls) == head + RowsOf(a[1..] + b, cls);
      assert RowsOf(a, cls) == head + RowsOf(a[1..], cls);
    }
  }

  lemma RowsOfSnoc(s: seq<Entry>, e: Entry, cls: string)
    ensures RowsOf(s + [e], cls) == RowsOf(s, cls) + (if e.cls == cls then [Project(e)] else [])
  {
    RowsOfAppend(s, [e], cls);
    assert [e][1..] == [];
  }

  /** Each class's group is exactly the subsequence of the schedule with that class,
      projected, in emission order: no entry is reordered, dropped or duplicated;
      a class with no group has no entries. */
  lemma {:induction false} GroupsAreSubsequences(schedule: seq<Entry>)
    ensures forall k :: k in GroupByClass(schedule).rows ==> GroupByClass(schedule).rows[k] == RowsOf(schedule, k)
    ensures forall k :: k !in GroupByClass(schedule).rows ==> RowsOf(schedule, k) == []
    decreases |schedule|
  {
    if schedule != [] {
      var n := |schedule| - 1;
      var init, e := schedule[..n], schedule[n];
      assert schedule == init + [e];
      GroupsAreSubsequences(init);
      var g0, g := GroupByClass(init), GroupByClass(schedule);
      assert g == Add(g0, e);
      AddSpec(g0, e);
      forall k
        ensures k in g.rows ==> g.rows[k] == RowsOf(schedule, k)
        ensures k !in g.rows ==> RowsOf(schedule, k) == []
      {
        RowsOfSnoc(init, e, k);
        if k == e.cls {
          assert k in g.rows;
        } else if k in g0.rows {
          assert g.rows[k] == g0.rows[k];
        } else {
          assert k !in g.rows;
        }
      }
    }
  }

  /** The keys are exactly the distinct classes of the schedule. */
  lemma {:induction false} KeysAreClasses(schedule: seq<Entry>)
    ensures forall k :: k in GroupByClass(schedule).keys <==> k in Classes(schedule)
    decreases |schedule|
  {
    if schedule != [] {
      var n := |schedule| - 1;
      var init, e := schedule[..n], schedule[n];
      assert schedule == init + [e];
      KeysAreClasses(init);
      assert Classes(schedule) == Classes(init) + {e.cls};
    }
  }

  /** Appending an entry keeps the first occurrence of every class already seen. */
  lemma FirstIndexAppend(s: seq<Entry>, e: Entry, cls: string)
    requires cls in Classes(s)
    ensures cls in Classes(s + [e]) && FirstIndex(s + [e], cls) == FirstIndex(s, cls)
  {
    var p := FirstIndex(s, cls);
    assert (s + [e])[p] == s[p];
    var q := FirstIndex(s + [e], cls);
    assert q <= p;
    assert (s + [e])[q] == s[q];
  }

  /** A class seen for the first time in the appended entry first occurs there. */
  lemma FirstIndexOfNewClass(s: seq<Entry>, e: Entry)
    requires e.cls !in Classes(s)
    ensures e.cls in Classes(s + [e]) && FirstIndex(s + [e], e.cls) == |s|
  {
    assert (s + [e])[|s|] == e;
    forall i | 0 <= i < |s|
      ensures (s + [e])[i].cls != e.cls
    {
      assert (s + [e])[i] == s[i] && s[i] in s;
    }
  }

  /** Every listed class occurs in the schedule, and the classes are listed in the
      order of their first occurrences. */
  predicate FirstSeenOrdered(schedule: seq<Entry>, keys: seq<string>) {
    && (forall i :: 0 <= i < |keys| ==> keys[i] in Classes(schedule))
    && (forall i, j :: 0 <= i < j < |keys| ==>
          keys[i] in Classes(schedule) && keys[j] in Classes(schedule)
          && FirstIndex(schedule, keys[i]) < FirstIndex(schedule, keys[j]))
  }

  /** Appending an entry keeps an ordered key list ordered, and a class seen for
      the first time may be listed after all the others. */
  lemma FirstSeenOrderedSnoc(s: seq<Entry>, e: Entry, keys: seq<string>)
    requires FirstSeenOrdered(s, keys)
    ensures FirstSeenOrdered(s + [e], keys)
    ensures e.cls !in Classes(s) ==> FirstSeenOrdered(s + [e], keys + [e.cls])
  {
    forall i | 0 <= i < |keys|
      ensures keys[i] in Classes(s + [e]) && FirstIndex(s + [e], keys[i]) == FirstIndex(s, keys[i]) < |s|
    {
      FirstIndexAppend(s, e, keys[i]);
    }
    if e.cls !in Classes(s) {
      FirstIndexOfNewClass(s, e);
      var ks := keys + [e.cls];
      forall i | 0 <= i < |ks|
        ensures ks[i] in Classes(s + [e])
      {
        if i < |keys| {
          assert ks[i] == keys[i];
        }
      }
      forall i, j | 0 <= i < j < |ks|
        ensures FirstIndex(s + [e], ks[i]) < FirstIndex(s + [e], ks[j])
      {
        assert ks[i] == keys[i];
        if j < |keys| {
          assert ks[j] == keys[j];
        }
      }
    }
  }

  /** The keys are listed in the order in which their classes first appear. */
  lemma {:induction false} KeysInFirstSeenOrder(schedule: seq<Entry>)
    ensures FirstSeenOrdered(schedule, GroupByClass(schedule).keys)
    decreases |schedule|
  {
    if schedule != [] {
      var n := |schedule| - 1;
      var init, e := schedule[..n], schedule[n];
      assert schedule == init + [e];
      KeysInFirstSeenOrder(init);
      KeysAreClasses(init);
      FirstSeenOrderedSnoc(init, e, GroupByClass(init).keys);
    }
  }

  /** The total number of rows over the listed keys. */
  function TotalRows(keys: seq<string>, rows: map<string, seq<Row>>): nat
    requires forall k :: k in keys ==> k in rows
    decreases |keys|
  {
    if keys == [] then 0
    else TotalRows(keys[..|keys| - 1], rows) + |rows[keys[|keys| - 1]]|
  }

  /** Replacing the list of one key changes the total by the change in its length,
      and not at all when the key is not listed. */
  lemma {:induction false} TotalRowsUpdate(keys: seq<string>, rows: map<string, seq<Row>>, k: string, v: seq<Row>)
    requires Distinct(keys)
    requires forall x :: x in keys ==> x in rows
    ensures k in keys ==> TotalRows(keys, rows[k := v]) + |rows[k]| == TotalRows(keys, rows) + |v|
    ensures k !in keys ==> TotalRows(keys, rows[k := v]) == TotalRows(keys, rows)
    decreases |keys|
  {
    if keys != [] {
      var n := |keys| - 1;
      var init := keys[..n];
      assert forall i :: 0 <= i < n ==> init[i] == keys[i];
      assert Distinct(init);
      TotalRowsUpdate(init, rows, k, v);
      if k == keys[n] {
        assert k !in init;
      } else {
        assert k in keys ==> k in init;
      }
    }
  }

  /** The group lengths add up to the schedule length. */
  lemma {:induction false} GroupSizesSum(schedule: seq<Entry>)
    ensures TotalRows(GroupByClass(schedule).keys, GroupByClass(schedule).rows) == |schedule|
    decreases |schedule|
  {
    if schedule != [] {
      var n := |schedule| - 1;
      var init, e := schedule[..n], schedule[n];
      GroupSizesSum(init);
      var g0 := GroupByClass(init);
      if e.cls in g0.rows {
        TotalRowsUpdate(g0.keys, g0.rows, e.cls, g0.rows[e.cls] + [Project(e)]);
      } else {
        TotalRowsUpdate(g0.keys, g0.rows, e.cls, [Project(e)]);
        var g := GroupByClass(schedule);
        assert g.keys[..|g.keys| - 1] == g0.keys;
      }
    }
  }
}
