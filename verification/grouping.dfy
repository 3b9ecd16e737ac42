/** Grouping keyed values the way the analytics `reduce` calls do: an
    accumulator object indexed by key, where the first value under a new key
    opens a group and later values are appended to it. The object's values
    come out in insertion order, i.e. in order of each key's first occurrence. */
module Grouping {
  import opened Basics

  /** Everything filed under `key`: the values in input order, their total and their count. */
  datatype Group<K> = Group(key: K, values: seq<int>, total: int, count: nat)

  /** A group whose running total and count agree with its values. */
  ghost predicate Consistent<K>(g: Group<K>)
  {
    g.count == |g.values| >= 1 && g.total == Sum(g.values)
  }

  ghost predicate KeysUnique<K>(gs: seq<Group<K>>)
  {
    forall i, j :: 0 <= i < j < |gs| ==> gs[i].key != gs[j].key
  }

  /** `acc[key]`: the position of the group for `k`, if any. */
  function Find<K(==)>(gs: seq<Group<K>>, k: K): (r: Option<nat>)
    ensures r.None? ==> forall i :: 0 <= i < |gs| ==> gs[i].key != k
    ensures r.Some? ==> r.value < |gs| && gs[r.value].key == k
  {
    if |gs| == 0 then None
    else if gs[0].key == k then Some(0)
    else match Find(gs[1..], k)
      case None => None
      case Some(i) => Some(i + 1)
  }

  /** One step of the reduce: open a group for a new key, otherwise push the
      value and bump the total and the count of the existing group. */
  function File<K(==)>(gs: seq<Group<K>>, k: K, v: int): seq<Group<K>>
  {
    match Find(gs, k)
    case None => gs + [Group(k, [v], v, 1)]
    case Some(i) => gs[i := Group(k, gs[i].values + [v], gs[i].total + v, gs[i].count + 1)]
  }

  /** What one step of the reduce does to each group. */
  lemma {:induction false} FileSpec<K>(gs: seq<Group<K>>, k: K, v: int)
    requires KeysUnique(gs)
    requires forall i :: 0 <= i < |gs| ==> Consistent(gs[i])
    ensures var r := File(gs, k, v);
      && KeysUnique(r)
      && (forall i :: 0 <= i < |r| ==> Consistent(r[i]))
      && |r| == (if Find(gs, k).None? then |gs| + 1 else |gs|)
      && (forall i :: 0 <= i < |gs| ==> r[i].key == gs[i].key)
      && (forall i :: 0 <= i < |gs| && gs[i].key != k ==> r[i] == gs[i])
      && (forall i :: 0 <= i < |gs| && gs[i].key == k ==>
            r[i].values == gs[i].values + [v] && r[i].count == gs[i].count + 1)
      && (Find(gs, k).None? ==> r[|gs|] == Group(k, [v], v, 1))
  {
    match Find(gs, k)
    case None =>
      assert Sum([v]) == Sum([v][..0]) + v;
    case Some(p) =>
      var vs := gs[p].values + [v];
      assert vs[..|vs| - 1] == gs[p].values;
  }

  /** The reduce over all keyed values. */
  function GroupBy<K(==)>(items: seq<(K, int)>): seq<Group<K>>
  {
    if |items| == 0 then []
    else
      var n := |items| - 1;
      File(GroupBy(items[..n]), items[n].0, items[n].1)
  }

  /** Keys are unique and every group's total and count agree with its values. */
  lemma {:induction false} GroupByWellFormed<K>(items: seq<(K, int)>)
    ensures KeysUnique(GroupBy(items))
    ensures forall i :: 0 <= i < |GroupBy(items)| ==> Consistent(GroupBy(items)[i])
  {
    if |items| > 0 {
      var n := |items| - 1;
      GroupByWellFormed(items[..n]);
      FileSpec(GroupBy(items[..n]), items[n].0, items[n].1);
    }
  }

  /** The values filed under `k`, in input order: the reference the groups are checked against. */
  function ValuesUnder<K(==)>(items: seq<(K, int)>, k: K): seq<int>
  {
    if |items| == 0 then []
    else
      var n := |items| - 1;
      ValuesUnder(items[..n], k) + (if items[n].0 == k then [items[n].1] else [])
  }

  /** The keys that occur among the items. */
  function KeysOf<K>(items: seq<(K, int)>): set<K>
  {
    if |items| == 0 then {} else KeysOf(items[..|items| - 1]) + {items[|items| - 1].0}
  }

  /** A key occurs exactly when some item carries it. */
  lemma {:induction false} KeysOfMembership<K>(items: seq<(K, int)>, k: K)
    ensures k in KeysOf(items) <==> exists j :: 0 <= j < |items| && items[j].0 == k
  {
    if |items| > 0 {
      var n := |items| - 1;
      KeysOfMembership(items[..n], k);
      if exists j :: 0 <= j < |items| && items[j].0 == k {
        var j :| 0 <= j < |items| && items[j].0 == k;
        if j < n { assert items[..n][j] == items[j]; }
      }
      if exists j :: 0 <= j < n && items[..n][j].0 == k {
        var j :| 0 <= j < n && items[..n][j].0 == k;
        assert items[j] == items[..n][j];
      }
    }
  }

  function GroupKeys<K>(gs: seq<Group<K>>): set<K>
  {
    set i | 0 <= i < |gs| :: gs[i].key
  }

  /** Sum of the group counts. */
  function TotalCount<K>(gs: seq<Group<K>>): nat
  {
    if |gs| == 0 then 0 else TotalCount(gs[..|gs| - 1]) + gs[|gs| - 1].count
  }

  /** Replacing one group changes the total count by the difference of the counts. */
  lemma {:induction false} TotalCountUpdate<K>(gs: seq<Group<K>>, i: nat, g: Group<K>)
    requires i < |gs|
    ensures TotalCount(gs[i := g]) == TotalCount(gs) - gs[i].count + g.count
  {
    var n := |gs| - 1;
    if i < n {
      assert gs[i := g][..n] == gs[..n][i := g];
      TotalCountUpdate(gs[..n], i, g);
    } else {
      assert gs[i := g][..n] == gs[..n];
    }
  }

  /** A key that never occurs has nothing filed under it. */
  lemma {:induction false} ValuesUnderAbsent<K>(items: seq<(K, int)>, k: K)
    requires k !in KeysOf(items)
    ensures ValuesUnder(items, k) == []
  {
    if |items| > 0 {
      ValuesUnderAbsent(items[..|items| - 1], k);
    }
  }

  /** The groups' keys are exactly the keys that occur. */
  lemma {:induction false} GroupByKeys<K>(items: seq<(K, int)>)
    ensures GroupKeys(GroupBy(items)) == KeysOf(items)
  {
    if |items| > 0 {
      var n := |items| - 1;
      var prev := items[..n];
      GroupByKeys(prev);
      var gs := GroupBy(prev);
      var k := items[n].0;
      var v := items[n].1;
      var r := GroupBy(items);
      GroupByWellFormed(prev);
      FileSpec(gs, k, v);
      forall x | x in GroupKeys(r) ensures x in GroupKeys(gs) + {k} {
        var j :| 0 <= j < |r| && r[j].key == x;
        if j < |gs| { assert gs[j].key == x; }
      }
      forall x | x in GroupKeys(gs) + {k} ensures x in GroupKeys(r) {
        if x in GroupKeys(gs) {
          var j :| 0 <= j < |gs| && gs[j].key == x;
          assert r[j].key == x;
        } else {
          assert r[|gs|].key == k;
        }
      }
    }
  }

  /** Every group holds exactly the values filed under its key, in input order. */
  lemma {:induction false} GroupByContents<K>(items: seq<(K, int)>)
    ensures forall i :: 0 <= i < |GroupBy(items)| ==>
      GroupBy(items)[i].values == ValuesUnder(items, GroupBy(items)[i].key)
  {
    if |items| > 0 {
      var n := |items| - 1;
      var prev := items[..n];
      GroupByContents(prev);
      GroupByKeys(prev);
      var gs := GroupBy(prev);
      var k := items[n].0;
      var v := items[n].1;
      var r := GroupBy(items);
      GroupByWellFormed(prev);
      FileSpec(gs, k, v);
      forall i | 0 <= i < |r|
        ensures r[i].values == ValuesUnder(items, r[i].key)
      {
        if i < |gs| {
          assert r[i].key == gs[i].key;
          assert gs[i].values == ValuesUnder(prev, gs[i].key);
        } else {
          assert k !in GroupKeys(gs);
          ValuesUnderAbsent(prev, k);
        }
      }
    }
  }

  /** Every value is counted in exactly one group: the counts add up to the number of values. */
  lemma {:induction false} GroupByTotalCount<K>(items: seq<(K, int)>)
    ensures TotalCount(GroupBy(items)) == |items|
  {
    if |items| > 0 {
      var n := |items| - 1;
      GroupByTotalCount(items[..n]);
      var gs := GroupBy(items[..n]);
      var k := items[n].0;
      var v := items[n].1;
      match Find(gs, k)
      case None =>
        assert (gs + [Group(k, [v], v, 1)])[..|gs|] == gs;
      case Some(p) =>
        TotalCountUpdate(gs, p, Group(k, gs[p].values + [v], gs[p].total + v, gs[p].count + 1));
    }
  }

  /** Index of the first value filed under `k`. */
  function FirstIndex<K(==)>(items: seq<(K, int)>, k: K): (r: nat)
    requires k in KeysOf(items)
    ensures r < |items| && items[r].0 == k
    ensures forall j :: 0 <= j < r ==> items[j].0 != k
  {
    var n := |items| - 1;
    if k in KeysOf(items[..n]) then
      var r := FirstIndex(items[..n], k);
      assert forall j :: 0 <= j <= r ==> items[j] == items[..n][j];
      r
    else
      assert forall j :: 0 <= j < n ==> items[j].0 != k by {
        KeysOfMembership(items[..n], k);
        assert forall j :: 0 <= j < n ==> items[j] == items[..n][j];
      }
      n
  }

  /** Every group key occurs among the items, and groups are listed in the
      order their keys first occur. */
  ghost predicate InFirstOccurrenceOrder<K>(items: seq<(K, int)>, gs: seq<Group<K>>)
  {
    && (forall i :: 0 <= i < |gs| ==> gs[i].key in KeysOf(items))
    && (forall i, j :: 0 <= i < j < |gs| ==>
          FirstIndex(items, gs[i].key) < FirstIndex(items, gs[j].key))
  }

  /** One reduce step keeps the groups in first-occurrence order. */
  lemma {:induction false} FirstOccurrenceStep<K>(items: seq<(K, int)>)
    requires |items| > 0
    requires InFirstOccurrenceOrder(items[..|items| - 1], GroupBy(items[..|items| - 1]))
    ensures InFirstOccurrenceOrder(items, GroupBy(items))
  {
    var n := |items| - 1;
    var prev := items[..n];
    GroupByKeys(prev);
    var gs := GroupBy(prev);
    var k := items[n].0;
    var v := items[n].1;
    var r := GroupBy(items);
    GroupByWellFormed(prev);
    FileSpec(gs, k, v);
    forall i | 0 <= i < |gs|
      ensures r[i].key in KeysOf(items)
      ensures FirstIndex(items, r[i].key) == FirstIndex(prev, gs[i].key) < n
    {
    }
    if Find(gs, k).None? {
      assert k !in KeysOf(prev) by {
        assert k !in GroupKeys(gs);
      }
      assert r[|gs|].key == k;
    }
  }

  /** Groups appear in the order their keys first occur: the insertion order of the accumulator object. */
  lemma {:induction false} GroupByFirstOccurrenceOrder<K>(items: seq<(K, int)>)
    ensures InFirstOccurrenceOrder(items, GroupBy(items))
  {
    if |items| > 0 {
      GroupByFirstOccurrenceOrder(items[..|items| - 1]);
      FirstOccurrenceStep(items);
    }
  }
}
