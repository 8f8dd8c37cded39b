/**
  Grouping a list by a key in order of first appearance, as the adapter does with an
  insertion-ordered dictionary. Items without a key stand alone.
*/
module Grouping {
  import opened Basics

  datatype Group<T, K> = Group(key: Option<K>, items: seq<T>)

  /** The items of one key, in list order. */
  ghost function OfKey<T, K>(items: seq<T>, key: T -> Option<K>, k: K): seq<T> {
    if items == [] then [] else
    var before, item := OfKey(items[..|items| - 1], key, k), items[|items| - 1];
    if key(item) == Some(k) then before + [item] else before
  }

  function Flatten<T, K>(groups: seq<Group<T, K>>): seq<T> {
    if groups == [] then [] else Flatten(groups[..|groups| - 1]) + groups[|groups| - 1].items
  }

  /** The items that open a group: those without a key, and the first of each key. */
  ghost function Leads<T, K>(items: seq<T>, key: T -> Option<K>): seq<T> {
    if items == [] then [] else
    var before, item := items[..|items| - 1], items[|items| - 1];
    if key(item).None? || OfKey(before, key, key(item).value) == [] then Leads(before, key) + [item]
    else Leads(before, key)
  }

  /** A group that holds what it should: every item of its key, or its one unkeyed item. */
  ghost predicate Whole<T, K>(g: Group<T, K>, items: seq<T>, key: T -> Option<K>) {
    && g.items != [] && g.key == key(g.items[0])
    && g.items == if g.key.None? then [g.items[0]] else OfKey(items, key, g.key.value)
  }

  /**
    The grouping of a list: one whole group per lead, in the order of the leads, no key
    twice, and nothing lost or repeated.
  */
  ghost predicate IsGrouping<T, K>(groups: seq<Group<T, K>>, items: seq<T>, key: T -> Option<K>) {
    && |groups| == |Leads(items, key)|
    && (forall i :: 0 <= i < |groups| ==>
          Whole(groups[i], items, key) && groups[i].items[0] == Leads(items, key)[i])
    && (forall i, j :: 0 <= i < j < |groups| && groups[i].key.Some? ==> groups[i].key != groups[j].key)
    && multiset(Flatten(groups)) == multiset(items)
  }

  lemma FlattenLast<T, K>(init: seq<Group<T, K>>, last: Group<T, K>)
    ensures multiset(Flatten(init + [last])) == multiset(Flatten(init)) + multiset(last.items)
  {
    assert (init + [last])[..|init|] == init;
  }

  lemma {:induction false} FlattenUpdate<T, K>(groups: seq<Group<T, K>>, i: nat, grown: Group<T, K>, item: T)
    requires i < |groups| && multiset(grown.items) == multiset(groups[i].items) + multiset{item}
    ensures multiset(Flatten(groups[i := grown])) == multiset(Flatten(groups)) + multiset{item}
    decreases |groups|
  {
    var n := |groups| - 1;
    var init, last := groups[..n], groups[n];
    UpdateSplits(groups, i, grown);
    FlattenLast(init, last);
    if i == n {
      FlattenLast(init, grown);
    } else {
      FlattenLast(init[i := grown], last);
      FlattenUpdate(init, i, grown, item);
    }
  }

  lemma UpdateSplits<T>(s: seq<T>, i: nat, x: T)
    requires i < |s|
    ensures var n := |s| - 1;
      s == s[..n] + [s[n]] && s[i := x] == if i == n then s[..n] + [x] else s[..n][i := x] + [s[n]]
  {
  }

  /** A key that some item has already opened a group. */
  lemma {:induction false} KeyHasLead<T, K>(items: seq<T>, key: T -> Option<K>, k: K)
    ensures OfKey(items, key, k) != []
            <==> exists i :: 0 <= i < |Leads(items, key)| && key(Leads(items, key)[i]) == Some(k)
    decreases |items|
  {
    if items != [] {
      var before, item := items[..|items| - 1], items[|items| - 1];
      KeyHasLead(before, key, k);
      var was, now := Leads(before, key), Leads(items, key);
      if now != was {
        assert now == was + [item];
        if exists i :: 0 <= i < |was| && key(was[i]) == Some(k) {
          var i :| 0 <= i < |was| && key(was[i]) == Some(k);
          assert now[i] == was[i];
        }
        assert now[|was|] == item;
      }
    }
  }

  lemma AppendGroup<T, K>(groups: seq<Group<T, K>>, before: seq<T>, item: T, key: T -> Option<K>)
    requires IsGrouping(groups, before, key)
    requires key(item).None? || OfKey(before, key, key(item).value) == []
    ensures IsGrouping(groups + [Group(key(item), [item])], before + [item], key)
  {
    var items, after := before + [item], groups + [Group(key(item), [item])];
    assert items[..|items| - 1] == before;
    assert after[..|after| - 1] == groups;
    forall i | 0 <= i < |after| ensures Whole(after[i], items, key) {
      if i < |groups| {
        assert Whole(groups[i], before, key);
      }
    }
    forall i, j | 0 <= i < j < |after| && after[i].key.Some? ensures after[i].key != after[j].key {
      if j == |groups| {
        assert Whole(groups[i], before, key);
      }
    }
  }

  lemma ExtendGroup<T, K>(groups: seq<Group<T, K>>, before: seq<T>, item: T, key: T -> Option<K>, slot: nat)
    requires IsGrouping(groups, before, key)
    requires key(item).Some? && slot < |groups| && groups[slot].key == key(item)
    ensures IsGrouping(groups[slot := groups[slot].(items := groups[slot].items + [item])], before + [item], key)
  {
    var items := before + [item];
    var after := groups[slot := groups[slot].(items := groups[slot].items + [item])];
    assert items[..|items| - 1] == before;
    assert Whole(groups[slot], before, key);
    FlattenUpdate(groups, slot, after[slot], item);
    forall i | 0 <= i < |after| ensures Whole(after[i], items, key) && after[i].items[0] == Leads(items, key)[i] {
      assert Whole(groups[i], before, key);
    }
  }

  /** The slot table names exactly the keyed groups. */
  predicate SlotsMatch<T, K(==)>(groups: seq<Group<T, K>>, slots: map<K, nat>) {
    && (forall k :: k in slots ==> slots[k] < |groups| && groups[slots[k]].key == Some(k))
    && (forall i :: 0 <= i < |groups| && groups[i].key.Some? ==> groups[i].key.value in slots)
  }

  lemma SlotsExtend<T, K>(groups: seq<Group<T, K>>, slots: map<K, nat>, slot: nat, items: seq<T>)
    requires SlotsMatch(groups, slots) && slot < |groups|
    ensures SlotsMatch(groups[slot := groups[slot].(items := items)], slots)
  {
    var after := groups[slot := groups[slot].(items := items)];
    assert forall i :: 0 <= i < |groups| ==> after[i].key == groups[i].key;
  }

  lemma SlotsAppend<T, K>(groups: seq<Group<T, K>>, slots: map<K, nat>, key: Option<K>, items: seq<T>)
    requires SlotsMatch(groups, slots) && (key.Some? ==> key.value !in slots)
    ensures SlotsMatch(groups + [Group(key, items)], if key.Some? then slots[key.value := |groups|] else slots)
  {
    var after := groups + [Group(key, items)];
    assert forall i :: 0 <= i < |groups| ==> after[i] == groups[i];
  }

  /** One item joins the slot of its key, or opens a new one. */
  method PlaceItem<T, K(==)>(groups: seq<Group<T, K>>, slots: map<K, nat>, item: T, key: T -> Option<K>,
                             ghost before: seq<T>)
    returns (groups': seq<Group<T, K>>, slots': map<K, nat>)
    requires IsGrouping(groups, before, key) && SlotsMatch(groups, slots)
    ensures IsGrouping(groups', before + [item], key) && SlotsMatch(groups', slots')
  {
    var k := key(item);
    if k.Some? && k.value in slots {
      var slot := slots[k.value];
      ExtendGroup(groups, before, item, key, slot);
      SlotsExtend(groups, slots, slot, groups[slot].items + [item]);
      groups', slots' := groups[slot := groups[slot].(items := groups[slot].items + [item])], slots;
    } else {
      if k.Some? {
        NewKey(groups, before, key, k.value);
      }
      AppendGroup(groups, before, item, key);
      SlotsAppend(groups, slots, k, [item]);
      groups' := groups + [Group(k, [item])];
      slots' := if k.Some? then slots[k.value := |groups|] else slots;
    }
  }

  /** The loop over the whole list. */
  method GroupBy<T, K(==)>(items: seq<T>, key: T -> Option<K>) returns (groups: seq<Group<T, K>>)
    ensures IsGrouping(groups, items, key)
  {
    groups := [];
    var slots: map<K, nat> := map[];
    for n := 0 to |items|
      invariant IsGrouping(groups, items[..n], key) && SlotsMatch(groups, slots)
    {
      assert items[..n + 1] == items[..n] + [items[n]];
      groups, slots := PlaceItem(groups, slots, items[n], key, items[..n]);
    }
    assert items[..|items|] == items;
  }

  lemma NewKey<T, K>(groups: seq<Group<T, K>>, items: seq<T>, key: T -> Option<K>, k: K)
    requires IsGrouping(groups, items, key)
    requires forall i :: 0 <= i < |groups| ==> groups[i].key != Some(k)
    ensures OfKey(items, key, k) == []
  {
    KeyHasLead(items, key, k);
    forall i | 0 <= i < |groups| ensures key(Leads(items, key)[i]) != Some(k) {
      assert Whole(groups[i], items, key);
    }
  }

  lemma {:induction false} OfKeyMembers<T, K>(items: seq<T>, key: T -> Option<K>, k: K, x: T)
    ensures x in OfKey(items, key, k) <==> x in items && key(x) == Some(k)
    decreases |items|
  {
    if items != [] {
      OfKeyMembers(items[..|items| - 1], key, k, x);
      assert items == items[..|items| - 1] + [items[|items| - 1]];
    }
  }

  /** A grouping is determined by the list: no two groupings differ. */
  lemma GroupingIsUnique<T, K>(a: seq<Group<T, K>>, b: seq<Group<T, K>>, items: seq<T>, key: T -> Option<K>)
    requires IsGrouping(a, items, key) && IsGrouping(b, items, key)
    ensures a == b
  {
    forall i | 0 <= i < |a| ensures a[i] == b[i] {
      assert Whole(a[i], items, key) && Whole(b[i], items, key);
    }
  }

  // -- when grouping keeps the order of the list -------------------------

  /** The items of each key stand next to each other. */
  ghost predicate Contiguous<T, K>(items: seq<T>, key: T -> Option<K>) {
    forall i, j, l :: 0 <= i < j < l < |items| && key(items[i]).Some? && key(items[i]) == key(items[l]) ==>
      key(items[j]) == key(items[i])
  }

  /** The groups' items in turn, and where each comes from. */
  lemma {:induction false} FlattenMember<T, K>(groups: seq<Group<T, K>>, x: T)
    ensures x in Flatten(groups) <==> exists i :: 0 <= i < |groups| && x in groups[i].items
    decreases |groups|
  {
    if groups != [] {
      var init := groups[..|groups| - 1];
      FlattenMember(init, x);
      if x in Flatten(init) {
        var i :| 0 <= i < |init| && x in init[i].items;
        assert x in groups[i].items;
      }
      if exists i :: 0 <= i < |groups| && x in groups[i].items {
        var i :| 0 <= i < |groups| && x in groups[i].items;
        if i < |init| {
          assert x in init[i].items;
        }
      }
    }
  }

  ghost predicate Uniform<T, K>(groups: seq<Group<T, K>>, key: T -> Option<K>) {
    && (forall i, x :: 0 <= i < |groups| && x in groups[i].items ==> key(x) == groups[i].key)
    && (forall i :: 0 <= i < |groups| && groups[i].key.None? ==> |groups[i].items| == 1)
    && (forall i, j :: 0 <= i < j < |groups| && groups[i].key.Some? ==> groups[i].key != groups[j].key)
  }

  lemma GroupingIsUniform<T, K>(groups: seq<Group<T, K>>, items: seq<T>, key: T -> Option<K>)
    requires IsGrouping(groups, items, key)
    ensures Uniform(groups, key)
  {
    forall i, x | 0 <= i < |groups| && x in groups[i].items ensures key(x) == groups[i].key {
      assert Whole(groups[i], items, key);
      if groups[i].key.Some? {
        OfKeyMembers(items, key, groups[i].key.value, x);
      }
    }
    forall i | 0 <= i < |groups| && groups[i].key.None? ensures |groups[i].items| == 1 {
      assert Whole(groups[i], items, key);
    }
  }

  lemma LastKeyIsNew<T, K>(groups: seq<Group<T, K>>, key: T -> Option<K>, x: T)
    requires groups != [] && Uniform(groups, key) && x in Flatten(groups[..|groups| - 1]) && key(x).Some?
    ensures key(x) != groups[|groups| - 1].key
  {
    var init := groups[..|groups| - 1];
    FlattenMember(init, x);
    var g :| 0 <= g < |init| && x in init[g].items;
    assert x in groups[g].items;
  }

  lemma {:induction false} UniformIsContiguous<T, K>(groups: seq<Group<T, K>>, key: T -> Option<K>)
    requires Uniform(groups, key)
    ensures Contiguous(Flatten(groups), key)
    decreases |groups|
  {
    if groups != [] {
      var init, last := groups[..|groups| - 1], groups[|groups| - 1];
      var xs, all := Flatten(init), Flatten(groups);
      UniformIsContiguous(init, key);
      forall i, j, l | 0 <= i < j < l < |all| && key(all[i]).Some? && key(all[i]) == key(all[l])
        ensures key(all[j]) == key(all[i])
      {
        if l >= |xs| {
          assert all[l] == last.items[l - |xs|] && all[l] in last.items;
          if i < |xs| {
            LastKeyIsNew(groups, key, xs[i]);
          }
          assert all[j] == last.items[j - |xs|] && all[j] in last.items;
        } else {
          assert all[i] == xs[i] && all[j] == xs[j] && all[l] == xs[l];
        }
      }
    }
  }

  lemma {:induction false} ContiguousKeepsOrder<T, K>(groups: seq<Group<T, K>>, items: seq<T>, key: T -> Option<K>)
    requires IsGrouping(groups, items, key) && Contiguous(items, key)
    ensures Flatten(groups) == items
    decreases |items|
  {
    if items == [] {
      assert |groups| == 0;
    } else {
      var before, item := items[..|items| - 1], items[|items| - 1];
      assert items == before + [item];
      ContiguousPrefix(items, key);
      var was := GroupingExists(before, key);
      ContiguousKeepsOrder(was, before, key);
      var now := ContiguousStep(was, before, item, key);
      GroupingIsUnique(groups, now, items, key);
    }
  }

  lemma FlattenAppend<T, K>(groups: seq<Group<T, K>>, g: Group<T, K>)
    ensures Flatten(groups + [g]) == Flatten(groups) + g.items
  {
    assert (groups + [g])[..|groups|] == groups;
  }

  lemma FlattenExtendLast<T, K>(groups: seq<Group<T, K>>, item: T)
    requires groups != []
    ensures var n := |groups| - 1;
            Flatten(groups[n := groups[n].(items := groups[n].items + [item])]) == Flatten(groups) + [item]
  {
    var n := |groups| - 1;
    assert groups[n := groups[n].(items := groups[n].items + [item])][..n] == groups[..n];
  }

  lemma ContiguousStep<T, K>(was: seq<Group<T, K>>, before: seq<T>, item: T, key: T -> Option<K>)
    returns (now: seq<Group<T, K>>)
    requires IsGrouping(was, before, key) && Flatten(was) == before && Contiguous(before + [item], key)
    ensures IsGrouping(now, before + [item], key) && Flatten(now) == before + [item]
  {
    if key(item).None? || OfKey(before, key, key(item).value) == [] {
      AppendGroup(was, before, item, key);
      now := was + [Group(key(item), [item])];
      FlattenAppend(was, Group(key(item), [item]));
    } else {
      var slot := KeySlot(was, before, key, key(item).value);
      ContiguousEndsInSlot(was, before, item, key, slot);
      ExtendGroup(was, before, item, key, slot);
      now := was[slot := was[slot].(items := was[slot].items + [item])];
      FlattenExtendLast(was, item);
    }
  }

  lemma ContiguousPrefix<T, K>(items: seq<T>, key: T -> Option<K>)
    requires items != [] && Contiguous(items, key)
    ensures Contiguous(items[..|items| - 1], key)
  {
    var before := items[..|items| - 1];
    forall i, j, l | 0 <= i < j < l < |before| && key(before[i]).Some? && key(before[i]) == key(before[l])
      ensures key(before[j]) == key(before[i])
    {
      assert items[i] == before[i] && items[j] == before[j] && items[l] == before[l];
    }
  }

  lemma {:induction false} GroupingExists<T, K>(items: seq<T>, key: T -> Option<K>) returns (groups: seq<Group<T, K>>)
    ensures IsGrouping(groups, items, key)
    decreases |items|
  {
    groups := [];
    if items != [] {
      var before, item := items[..|items| - 1], items[|items| - 1];
      assert items == before + [item];
      groups := GroupingExists(before, key);
      if key(item).None? || OfKey(before, key, key(item).value) == [] {
        AppendGroup(groups, before, item, key);
        groups := groups + [Group(key(item), [item])];
      } else {
        var slot := KeySlot(groups, before, key, key(item).value);
        ExtendGroup(groups, before, item, key, slot);
        groups := groups[slot := groups[slot].(items := groups[slot].items + [item])];
      }
    }
  }

  lemma KeySlot<T, K>(groups: seq<Group<T, K>>, items: seq<T>, key: T -> Option<K>, k: K) returns (slot: nat)
    requires IsGrouping(groups, items, key) && OfKey(items, key, k) != []
    ensures slot < |groups| && groups[slot].key == Some(k)
  {
    KeyHasLead(items, key, k);
    slot :| slot < |groups| && key(Leads(items, key)[slot]) == Some(k);
    assert Whole(groups[slot], items, key);
  }

  /** With contiguous keys, the last item's group is the last one. */
  lemma ContiguousEndsInSlot<T, K>(groups: seq<Group<T, K>>, before: seq<T>, item: T, key: T -> Option<K>, slot: nat)
    requires IsGrouping(groups, before, key) && Flatten(groups) == before
    requires key(item).Some? && slot < |groups| && groups[slot].key == key(item)
    requires Contiguous(before + [item], key)
    ensures slot == |groups| - 1
  {
    GroupingIsUniform(groups, before, key);
    var last, first := groups[|groups| - 1], groups[slot].items[0];
    assert Whole(last, before, key) && Whole(groups[slot], before, key);
    assert first in groups[slot].items;
    FlattenMember(groups, first);
    var i :| 0 <= i < |before| && before[i] == first;
    var all, j := before + [item], |before| - 1;
    assert before[j] == last.items[|last.items| - 1] && before[j] in last.items;
    assert all[i] == before[i] && all[j] == before[j] && all[|before|] == item;
    assert key(before[j]) == key(item);
  }

  /** Grouping leaves the list in its own order exactly when each key's items already stand together. */
  lemma OrderIsKeptIffContiguous<T, K>(groups: seq<Group<T, K>>, items: seq<T>, key: T -> Option<K>)
    requires IsGrouping(groups, items, key)
    ensures Flatten(groups) == items <==> Contiguous(items, key)
  {
    if Contiguous(items, key) {
      ContiguousKeepsOrder(groups, items, key);
    }
    GroupingIsUniform(groups, items, key);
    UniformIsContiguous(groups, key);
  }
}
