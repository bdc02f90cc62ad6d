/** Policy sets as ordered lists of rule groups, and the flattened rule list the query returns. */
module PolicyOrder {
  import opened Text

  /** Membership of a group in the set, with its place. */
  datatype Member = Member(group: string, order: int)

  /** A rule with its group, its place in the group and its priority. */
  datatype GroupRule = GroupRule(id: string, group: string, groupOrder: int, priority: int)

  /** The place of a group in the set; by the primary key a group is in a set at most once. */
  function OrderOf(ms: seq<Member>, g: string): Option<int> {
    if ms == [] then None
    else if ms[|ms| - 1].group == g then Some(ms[|ms| - 1].order)
    else OrderOf(ms[..|ms| - 1], g)
  }

  // ---- changing the membership ---------------------------------------------

  function SetOrder(ms: seq<Member>, g: string, order: int): (out: seq<Member>)
    ensures |out| == |ms|
    ensures forall i :: 0 <= i < |ms| ==> out[i] == if ms[i].group == g then Member(g, order) else ms[i]
  {
    seq(|ms|, i requires 0 <= i < |ms| => if ms[i].group == g then Member(g, order) else ms[i])
  }

  function MaxOrder(ms: seq<Member>): int {
    if ms == [] then -1
    else if |ms| == 1 then ms[0].order
    else
      var m := MaxOrder(ms[..|ms| - 1]);
      if m >= ms[|ms| - 1].order then m else ms[|ms| - 1].order
  }

  /** `add_group_to_set`: at the given place or after the last; a group already in the set is moved. */
  function Added(ms: seq<Member>, g: string, order: Option<int>): seq<Member> {
    var o := match order { case Some(k) => k case None => MaxOrder(ms) + 1 };
    if OrderOf(ms, g).Some? then SetOrder(ms, g, o) else ms + [Member(g, o)]
  }

  function Removed(ms: seq<Member>, g: string): seq<Member> {
    if ms == [] then []
    else Removed(ms[..|ms| - 1], g) + if ms[|ms| - 1].group == g then [] else [ms[|ms| - 1]]
  }

  /** `reorder_groups`: the k-th id gets place k; ids that are not members change nothing. */
  function Reordered(ms: seq<Member>, ids: seq<string>): seq<Member> {
    if ids == [] then ms
    else SetOrder(Reordered(ms, ids[..|ids| - 1]), ids[|ids| - 1], |ids| - 1)
  }

  /** The membership rows of one policy set. */
  class SetMembers {
    var members: seq<Member>

    constructor ()
      ensures members == []
    {
      members := [];
    }

    /** `add_group_to_set`: the group has the order asked for, or comes after every other; no other group moves. */
    method AddGroup(g: string, order: Option<int>)
      modifies this
      ensures members == Added(old(members), g, order)
      ensures order.Some? ==> OrderOf(members, g) == order
      ensures forall h :: h != g ==> OrderOf(members, h) == OrderOf(old(members), h)
      ensures order.None? ==> OrderOf(members, g).Some? && (old(members) == [] ==> OrderOf(members, g) == Some(0))
      ensures order.None? ==>
                forall h :: OrderOf(old(members), h).Some? ==>
                  OrderOf(old(members), h).value < OrderOf(members, g).value
    {
      forall h ensures OrderOf(Added(members, g, order), h)
                    == if h == g then Some(OrElse(order, MaxOrder(members) + 1)) else OrderOf(members, h)
      {
        AddedMeans(members, g, order, h);
      }
      forall h ensures OrderOf(members, h).Some? ==> OrderOf(members, h).value <= MaxOrder(members) {
        MaxIsMax(members, h);
      }
      var o := if order.Some? then order.value else MaxOrder(members) + 1;
      if OrderOf(members, g).Some? {
        members := SetOrder(members, g, o);
      } else {
        members := members + [Member(g, o)];
      }
    }

    /** `remove_group_from_set`: the group is no longer in the set; no other group moves. */
    method RemoveGroup(g: string)
      modifies this
      ensures members == Removed(old(members), g)
      ensures OrderOf(members, g).None?
      ensures forall h :: h != g ==> OrderOf(members, h) == OrderOf(old(members), h)
    {
      forall h ensures OrderOf(Removed(members, g), h) == if h == g then None else OrderOf(members, h) {
        RemovedMeans(members, g, h);
      }
      members := Removed(members, g);
    }

    method ReorderGroups(ids: seq<string>)
      modifies this
      ensures members == Reordered(old(members), ids)
    {
      for order := 0 to |ids|
        invariant members == Reordered(old(members), ids[..order])
      {
        assert ids[..order + 1][..order] == ids[..order];
        members := SetOrder(members, ids[order], order);
      }
      assert ids[..|ids|] == ids;
    }
  }

  lemma {:induction false} SetOrderMeans(ms: seq<Member>, g: string, order: int, h: string)
    ensures OrderOf(SetOrder(ms, g, order), h)
         == if h == g && OrderOf(ms, g).Some? then Some(order) else OrderOf(ms, h)
  {
    if ms != [] {
      var n := |ms| - 1;
      assert SetOrder(ms, g, order)[..n] == SetOrder(ms[..n], g, order);
      SetOrderMeans(ms[..n], g, order, h);
    }
  }

  lemma {:induction false} RemovedMeans(ms: seq<Member>, g: string, h: string)
    ensures OrderOf(Removed(ms, g), h) == if h == g then None else OrderOf(ms, h)
  {
    if ms != [] {
      var n := |ms| - 1;
      RemovedMeans(ms[..n], g, h);
      var init := Removed(ms[..n], g);
      assert init + [] == init;
      assert (init + [ms[n]])[..|init|] == init;
    }
  }

  /** The ids are exactly the set's groups, each once. */
  ghost predicate Permutation(ms: seq<Member>, ids: seq<string>) {
    && Distinct(ids)
    && (forall g :: OrderOf(ms, g).Some? <==> g in ids)
  }

  predicate Distinct(ids: seq<string>) {
    forall i, j :: 0 <= i < j < |ids| ==> ids[i] != ids[j]
  }

  /** Reordering touches only the groups it names. */
  lemma {:induction false} ReorderedKeeps(ms: seq<Member>, ids: seq<string>, g: string)
    requires g !in ids
    ensures OrderOf(Reordered(ms, ids), g) == OrderOf(ms, g)
  {
    if ids != [] {
      var n := |ids| - 1;
      ReorderedKeeps(ms, ids[..n], g);
      SetOrderMeans(Reordered(ms, ids[..n]), ids[n], n, g);
    }
  }

  /** Each named group gets its position in the list. */
  lemma {:induction false} ReorderedAt(ms: seq<Member>, ids: seq<string>, i: nat)
    requires Distinct(ids) && i < |ids| && OrderOf(ms, ids[i]).Some?
    ensures OrderOf(Reordered(ms, ids), ids[i]) == Some(i)
  {
    var n := |ids| - 1;
    var init := ids[..n];
    if i == n {
      ReorderedKeeps(ms, init, ids[n]);
    } else {
      assert init[i] == ids[i] != ids[n];
      ReorderedAt(ms, init, i);
    }
    SetOrderMeans(Reordered(ms, init), ids[n], n, ids[i]);
  }

  // ---- the query -----------------------------------------------------------

  predicate Listed(ms: seq<Member>, r: GroupRule) { OrderOf(ms, r.group).Some? }

  function Place(ms: seq<Member>, r: GroupRule): int {
    match OrderOf(ms, r.group) case Some(k) => k case None => 0
  }

  /** `ORDER BY set_group_order, group_order, priority`; ties may come in any order. */
  predicate Before(ms: seq<Member>, a: GroupRule, b: GroupRule) {
    var p, q := Place(ms, a), Place(ms, b);
    p < q || (p == q && (a.groupOrder < b.groupOrder || (a.groupOrder == b.groupOrder && a.priority <= b.priority)))
  }

  predicate Ordered(ms: seq<Member>, out: seq<GroupRule>) {
    forall i, j :: 0 <= i < j < |out| ==> Before(ms, out[i], out[j])
  }

  function OfGroup(rs: seq<GroupRule>, g: string): (out: seq<GroupRule>)
    ensures forall r :: r in out ==> r in rs && r.group == g
  {
    if rs == [] then []
    else OfGroup(rs[..|rs| - 1], g) + if rs[|rs| - 1].group == g then [rs[|rs| - 1]] else []
  }

  function Joined(ms: seq<Member>, table: seq<GroupRule>): (out: seq<GroupRule>)
    ensures forall r :: r in out ==> Listed(ms, r)
  {
    if table == [] then []
    else Joined(ms, table[..|table| - 1]) + if Listed(ms, table[|table| - 1]) then [table[|table| - 1]] else []
  }

  /** What `rules_for_policy_set` may return: the joined rows, in order. */
  predicate QueryResult(ms: seq<Member>, table: seq<GroupRule>, out: seq<GroupRule>) {
    multiset(out) == multiset(Joined(ms, table)) && Ordered(ms, out)
  }

  /** The rules of the groups one after another. */
  function Concatenated(rs: seq<GroupRule>, ids: seq<string>): seq<GroupRule> {
    if ids == [] then [] else Concatenated(rs, ids[..|ids| - 1]) + OfGroup(rs, ids[|ids| - 1])
  }

  predicate PlacedBy(ms: seq<Member>, ids: seq<string>) {
    forall i :: 0 <= i < |ids| ==> OrderOf(ms, ids[i]) == Some(i)
  }

  /** Groups without rules add nothing. */
  lemma {:induction false} NothingOfGroup(rs: seq<GroupRule>, g: string)
    requires forall r :: r in rs ==> r.group != g
    ensures OfGroup(rs, g) == []
  {
    if rs != [] {
      NothingOfGroup(rs[..|rs| - 1], g);
    }
  }

  lemma {:induction false} SnocConcatenated(rs: seq<GroupRule>, x: GroupRule, ids: seq<string>)
    requires x.group !in ids
    ensures Concatenated(rs + [x], ids) == Concatenated(rs, ids)
  {
    if ids != [] {
      SnocConcatenated(rs, x, ids[..|ids| - 1]);
      assert (rs + [x])[..|rs|] == rs;
    }
  }

  /** No rule is of a group from place `k` on. */
  predicate NoneFrom(rs: seq<GroupRule>, ids: seq<string>, k: nat) {
    forall i, r :: k <= i < |ids| && r in rs ==> r.group != ids[i]
  }

  lemma {:induction false} TrailingEmpty(rs: seq<GroupRule>, ids: seq<string>, k: nat)
    requires k <= |ids| && NoneFrom(rs, ids, k)
    ensures Concatenated(rs, ids) == Concatenated(rs, ids[..k])
    decreases |ids|
  {
    var n := |ids| - 1;
    if k < |ids| {
      assert ids[..n][..k] == ids[..k];
      TrailingEmpty(rs, ids[..n], k);
      NothingOfGroup(rs, ids[n]);
    } else {
      assert ids[..k] == ids;
    }
  }

  /** An ordered list whose groups are placed by `ids` is the concatenation of its groups. */
  lemma {:induction false} OrderedIsConcatenated(ms: seq<Member>, out: seq<GroupRule>, ids: seq<string>)
    requires PlacedBy(ms, ids) && Ordered(ms, out)
    requires forall r :: r in out ==> r.group in ids
    ensures out == Concatenated(out, ids)
  {
    if out == [] {
      TrailingEmpty([], ids, 0);
      assert ids[..0] == [];
    } else {
      var n := |out| - 1;
      var init, x := out[..n], out[n];
      assert init + [x] == out;
      var k := GroupIndex(out, ids);
      OrderedIsConcatenated(ms, init, ids);
      AllPlacedLater(ms, out, ids, k);
      SnocStep(ms, init, x, ids, k);
    }
  }

  lemma GroupIndex(out: seq<GroupRule>, ids: seq<string>) returns (k: nat)
    requires out != [] && forall r :: r in out ==> r.group in ids
    ensures k < |ids| && ids[k] == out[|out| - 1].group
  {
    assert out[|out| - 1] in out;
    k :| 0 <= k < |ids| && ids[k] == out[|out| - 1].group;
  }

  lemma AllPlacedLater(ms: seq<Member>, out: seq<GroupRule>, ids: seq<string>, k: nat)
    requires PlacedBy(ms, ids) && Ordered(ms, out) && out != []
    requires k < |ids| && ids[k] == out[|out| - 1].group
    ensures NoneFrom(out, ids, k + 1)
  {
    forall i, r | k + 1 <= i < |ids| && r in out ensures r.group != ids[i] {
      PlacedLater(ms, out, ids, k, i, r);
    }
  }

  lemma SnocStep(ms: seq<Member>, init: seq<GroupRule>, x: GroupRule, ids: seq<string>, k: nat)
    requires PlacedBy(ms, ids) && k < |ids| && ids[k] == x.group
    requires init == Concatenated(init, ids)
    requires NoneFrom(init + [x], ids, k + 1)
    ensures init + [x] == Concatenated(init + [x], ids)
  {
    TrailingEmpty(init + [x], ids, k + 1);
    NoneFromFewer(init, x, ids, k + 1);
    TrailingEmpty(init, ids, k + 1);
    LastJoins(ms, init, x, ids, k);
  }

  lemma NoneFromFewer(init: seq<GroupRule>, x: GroupRule, ids: seq<string>, k: nat)
    requires NoneFrom(init + [x], ids, k)
    ensures NoneFrom(init, ids, k)
  {
    forall i, r | k <= i < |ids| && r in init ensures r.group != ids[i] {
      assert r in init + [x];
    }
  }

  lemma PlacedLater(ms: seq<Member>, out: seq<GroupRule>, ids: seq<string>, k: nat, i: nat, r: GroupRule)
    requires PlacedBy(ms, ids) && Ordered(ms, out) && out != []
    requires k < i < |ids| && ids[k] == out[|out| - 1].group && r in out
    ensures r.group != ids[i]
  {
    var j :| 0 <= j < |out| && out[j] == r;
    if j < |out| - 1 {
      assert Before(ms, out[j], out[|out| - 1]);
    }
  }

  lemma LastJoins(ms: seq<Member>, init: seq<GroupRule>, x: GroupRule, ids: seq<string>, k: nat)
    requires PlacedBy(ms, ids) && k < |ids| && ids[k] == x.group
    ensures Concatenated(init + [x], ids[..k + 1]) == Concatenated(init, ids[..k + 1]) + [x]
  {
    var part := ids[..k + 1];
    assert part[..k] == ids[..k] && part[k] == x.group;
    assert x.group !in ids[..k] by {
      forall i | 0 <= i < k ensures ids[i] != x.group {
        assert OrderOf(ms, ids[i]) == Some(i) && OrderOf(ms, ids[k]) == Some(k);
      }
    }
    SnocConcatenated(init, x, ids[..k]);
    assert (init + [x])[..|init|] == init;
    assert Concatenated(init, ids[..k]) + (OfGroup(init, x.group) + [x])
        == Concatenated(init, ids[..k]) + OfGroup(init, x.group) + [x];
  }

  // ---- each group keeps its rules ------------------------------------------

  lemma {:induction false} OfGroupCount(rs: seq<GroupRule>, g: string, r: GroupRule)
    ensures multiset(OfGroup(rs, g))[r] == if r.group == g then multiset(rs)[r] else 0
  {
    if rs != [] {
      OfGroupCount(rs[..|rs| - 1], g, r);
      assert rs == rs[..|rs| - 1] + [rs[|rs| - 1]];
    }
  }

  lemma {:induction false} JoinedCount(ms: seq<Member>, rs: seq<GroupRule>, r: GroupRule)
    ensures multiset(Joined(ms, rs))[r] == if Listed(ms, r) then multiset(rs)[r] else 0
  {
    if rs != [] {
      JoinedCount(ms, rs[..|rs| - 1], r);
      assert rs == rs[..|rs| - 1] + [rs[|rs| - 1]];
    }
  }

  /** A result holds exactly the rules of each listed group. */
  lemma GroupIntact(ms: seq<Member>, table: seq<GroupRule>, out: seq<GroupRule>, g: string)
    requires QueryResult(ms, table, out) && OrderOf(ms, g).Some?
    ensures multiset(OfGroup(out, g)) == multiset(OfGroup(table, g))
  {
    forall r ensures multiset(OfGroup(out, g))[r] == multiset(OfGroup(table, g))[r] {
      OfGroupCount(out, g, r);
      OfGroupCount(table, g, r);
      JoinedCount(ms, table, r);
    }
  }

  /** Inside a group rules come by group order, then by priority. */
  predicate GroupSorted(rs: seq<GroupRule>) {
    forall i, j :: 0 <= i < j < |rs| ==>
      rs[i].groupOrder < rs[j].groupOrder
      || (rs[i].groupOrder == rs[j].groupOrder && rs[i].priority <= rs[j].priority)
  }

  lemma GroupSortedNext(ms: seq<Member>, rs: seq<GroupRule>, x: GroupRule)
    requires GroupSorted(rs) && forall r :: r in rs ==> r.group == x.group && Before(ms, r, x)
    ensures GroupSorted(rs + [x])
  {
  }

  lemma BeforeLast(ms: seq<Member>, out: seq<GroupRule>, r: GroupRule)
    requires out != [] && Ordered(ms, out) && r in out[..|out| - 1]
    ensures Before(ms, r, out[|out| - 1])
  {
    var n := |out| - 1;
    var i :| 0 <= i < n && out[..n][i] == r;
    assert Before(ms, out[i], out[n]);
  }

  lemma {:induction false} OfGroupSorted(ms: seq<Member>, out: seq<GroupRule>, g: string)
    requires Ordered(ms, out)
    ensures GroupSorted(OfGroup(out, g))
  {
    if out != [] {
      var n := |out| - 1;
      var init, x := out[..n], out[n];
      OfGroupSorted(ms, init, g);
      if x.group == g {
        forall r | r in OfGroup(init, g) ensures r.group == x.group && Before(ms, r, x) {
          BeforeLast(ms, out, r);
        }
        GroupSortedNext(ms, OfGroup(init, g), x);
      }
    }
  }

  lemma ResultIsListed(ms: seq<Member>, table: seq<GroupRule>, out: seq<GroupRule>, r: GroupRule)
    requires QueryResult(ms, table, out) && r in out
    ensures Listed(ms, r)
  {
    assert r in multiset(out);
    assert r in Joined(ms, table);
  }

  /** After a reorder by a permutation of the groups, whatever the query returns is the concatenation, in that
      order, of each group's own rules, each group sorted by group order and priority. */
  lemma ReorderFlattens(ms: seq<Member>, table: seq<GroupRule>, ids: seq<string>, out: seq<GroupRule>)
    requires Permutation(ms, ids) && QueryResult(Reordered(ms, ids), table, out)
    ensures out == Concatenated(out, ids)
    ensures forall i :: 0 <= i < |ids| ==>
              multiset(OfGroup(out, ids[i])) == multiset(OfGroup(table, ids[i])) && GroupSorted(OfGroup(out, ids[i]))
  {
    var ms' := Reordered(ms, ids);
    forall i | 0 <= i < |ids| ensures OrderOf(ms', ids[i]) == Some(i) {
      assert ids[i] in ids;
      ReorderedAt(ms, ids, i);
    }
    forall r | r in out ensures r.group in ids {
      ResultIsListed(ms', table, out, r);
      if r.group !in ids {
        ReorderedKeeps(ms, ids, r.group);
      }
    }
    OrderedIsConcatenated(ms', out, ids);
    forall i | 0 <= i < |ids|
      ensures multiset(OfGroup(out, ids[i])) == multiset(OfGroup(table, ids[i])) && GroupSorted(OfGroup(out, ids[i]))
    {
      GroupIntact(ms', table, out, ids[i]);
      OfGroupSorted(ms', out, ids[i]);
    }
  }

  // ---- adding a group ------------------------------------------------------

  lemma {:induction false} MaxIsMax(ms: seq<Member>, g: string)
    ensures OrderOf(ms, g).Some? ==> OrderOf(ms, g).value <= MaxOrder(ms)
  {
    if |ms| > 1 {
      MaxIsMax(ms[..|ms| - 1], g);
    } else if |ms| == 1 {
      assert ms[..0] == [];
    }
  }

  lemma AddedMeans(ms: seq<Member>, g: string, order: Option<int>, h: string)
    ensures OrderOf(Added(ms, g, order), h)
         == if h == g then Some(OrElse(order, MaxOrder(ms) + 1)) else OrderOf(ms, h)
  {
    var o := match order { case Some(k) => k case None => MaxOrder(ms) + 1 };
    SetOrderMeans(ms, g, o, h);
    assert (ms + [Member(g, o)])[..|ms|] == ms;
  }

  function Others(rs: seq<GroupRule>, g: string): (out: seq<GroupRule>)
    ensures forall r :: r in out ==> r in rs && r.group != g
  {
    if rs == [] then []
    else Others(rs[..|rs| - 1], g) + if rs[|rs| - 1].group == g then [] else [rs[|rs| - 1]]
  }

  /** Adding a group without a place puts its rules after all others and leaves the others as they were. */
  lemma {:induction false} AddedGoesLast(ms: seq<Member>, g: string, out: seq<GroupRule>)
    requires Ordered(Added(ms, g, None), out)
    requires forall r :: r in out ==> Listed(Added(ms, g, None), r)
    ensures out == Others(out, g) + OfGroup(out, g)
  {
    if out != [] {
      var n := |out| - 1;
      var init, x := out[..n], out[n];
      assert out == init + [x];
      AddedGoesLast(ms, g, init);
      if x.group != g {
        assert x in out;
        NoneBefore(ms, g, out);
        NothingOfGroup(init, g);
      }
      LastSplits(init, x, g);
    }
  }

  lemma LastSplits(init: seq<GroupRule>, x: GroupRule, g: string)
    requires init == Others(init, g) + OfGroup(init, g)
    requires x.group != g ==> OfGroup(init, g) == []
    ensures init + [x] == Others(init + [x], g) + OfGroup(init + [x], g)
  {
    OthersOneMore(init, x, g);
    GroupOneMore(init, x, g);
    Regroup(Others(init, g), OfGroup(init, g), [x]);
    if x.group != g {
      assert Others(init, g) + [] == Others(init, g);
      assert Others(init, g) + [x] + [] == Others(init, g) + [x];
    }
  }

  lemma OthersOneMore(rs: seq<GroupRule>, x: GroupRule, g: string)
    ensures Others(rs + [x], g) == if x.group == g then Others(rs, g) else Others(rs, g) + [x]
  {
    assert (rs + [x])[..|rs|] == rs;
  }

  lemma GroupOneMore(rs: seq<GroupRule>, x: GroupRule, g: string)
    ensures OfGroup(rs + [x], g) == if x.group == g then OfGroup(rs, g) + [x] else OfGroup(rs, g)
  {
    assert (rs + [x])[..|rs|] == rs;
  }

  /** Before a rule of another group there is no rule of the added one. */
  lemma NoneBefore(ms: seq<Member>, g: string, out: seq<GroupRule>)
    requires out != [] && Ordered(Added(ms, g, None), out) && out[|out| - 1].group != g
    requires Listed(Added(ms, g, None), out[|out| - 1])
    ensures forall r :: r in out[..|out| - 1] ==> r.group != g
  {
    var n := |out| - 1;
    AddedMeans(ms, g, None, out[n].group);
    AddedMeans(ms, g, None, g);
    MaxIsMax(ms, out[n].group);
    forall r | r in out[..n] ensures r.group != g {
      var i :| 0 <= i < n && out[i] == r;
      assert Before(Added(ms, g, None), out[i], out[n]);
    }
  }

  /** The two sets place every other group alike. */
  ghost predicate SameBut(ms: seq<Member>, ms': seq<Member>, g: string) {
    forall h :: h != g ==> OrderOf(ms, h) == OrderOf(ms', h)
  }

  lemma OrderedOneMore(ms: seq<Member>, out: seq<GroupRule>, x: GroupRule)
    requires Ordered(ms, out) && forall r :: r in out ==> Before(ms, r, x)
    ensures Ordered(ms, out + [x])
  {
  }

  lemma {:induction false} OthersOrdered(ms: seq<Member>, ms': seq<Member>, g: string, out: seq<GroupRule>)
    requires SameBut(ms, ms', g) && Ordered(ms', out)
    ensures Ordered(ms, Others(out, g))
  {
    if out != [] {
      var n := |out| - 1;
      var init, x := out[..n], out[n];
      OthersOrdered(ms, ms', g, init);
      if x.group != g {
        forall r | r in Others(init, g) ensures Before(ms, r, x) {
          var i :| 0 <= i < n && init[i] == r;
          assert Before(ms', out[i], out[n]);
        }
        OrderedOneMore(ms, Others(init, g), x);
      }
    }
  }

  lemma {:induction false} OthersCount(rs: seq<GroupRule>, g: string, r: GroupRule)
    ensures multiset(Others(rs, g))[r] == if r.group == g then 0 else multiset(rs)[r]
  {
    if rs != [] {
      OthersCount(rs[..|rs| - 1], g, r);
      assert rs == rs[..|rs| - 1] + [rs[|rs| - 1]];
    }
  }

  /** Adding a new group without a place appends its rules to a result for the set without it. */
  lemma AddAppends(ms: seq<Member>, table: seq<GroupRule>, g: string, out: seq<GroupRule>)
    requires OrderOf(ms, g).None? && QueryResult(Added(ms, g, None), table, out)
    ensures out == Others(out, g) + OfGroup(out, g)
    ensures QueryResult(ms, table, Others(out, g))
    ensures multiset(OfGroup(out, g)) == multiset(OfGroup(table, g)) && GroupSorted(OfGroup(out, g))
  {
    var ms' := Added(ms, g, None);
    forall r | r in out ensures Listed(ms', r) { ResultIsListed(ms', table, out, r); }
    AddedGoesLast(ms, g, out);
    forall h | h != g ensures OrderOf(ms, h) == OrderOf(ms', h) { AddedMeans(ms, g, None, h); }
    OthersOrdered(ms, ms', g, out);
    forall r ensures multiset(Others(out, g))[r] == multiset(Joined(ms, table))[r] {
      OthersCount(out, g, r);
      JoinedCount(ms, table, r);
      JoinedCount(ms', table, r);
      AddedMeans(ms, g, None, r.group);
    }
    AddedMeans(ms, g, None, g);
    GroupIntact(ms', table, out, g);
    OfGroupSorted(ms', out, g);
  }

  /** Removing a group takes exactly its rules out of every result. */
  lemma RemoveFlattens(ms: seq<Member>, table: seq<GroupRule>, g: string, out: seq<GroupRule>)
    requires QueryResult(ms, table, out)
    ensures QueryResult(Removed(ms, g), table, Others(out, g))
  {
    var ms' := Removed(ms, g);
    forall h ensures OrderOf(ms', h) == if h == g then None else OrderOf(ms, h) { RemovedMeans(ms, g, h); }
    OthersOrdered(ms', ms, g, out);
    forall r ensures multiset(Others(out, g))[r] == multiset(Joined(ms', table))[r] {
      OthersCount(out, g, r);
      JoinedCount(ms, table, r);
      JoinedCount(ms', table, r);
    }
  }

  // ---- ties ----------------------------------------------------------------

  predicate Tied(ms: seq<Member>, a: GroupRule, b: GroupRule) { a != b && Before(ms, a, b) && Before(ms, b, a) }

  /** No two rules the query returns have the same place, group order and priority. */
  predicate NoTies(ms: seq<Member>, table: seq<GroupRule>) {
    forall a, b :: a in Joined(ms, table) && b in Joined(ms, table) ==> !Tied(ms, a, b)
  }

  predicate Untied(ms: seq<Member>, rs: seq<GroupRule>) {
    forall a, b :: a in rs && b in rs ==> !Tied(ms, a, b)
  }

  lemma HeadIsLeast(ms: seq<Member>, out: seq<GroupRule>, r: GroupRule)
    requires Ordered(ms, out) && r in out
    ensures Before(ms, out[0], r)
  {
    var i :| 0 <= i < |out| && out[i] == r;
    if i > 0 {
      assert Before(ms, out[0], out[i]);
    }
  }

  lemma SameHead(ms: seq<Member>, a: seq<GroupRule>, b: seq<GroupRule>)
    requires a != [] && b != [] && multiset(a) == multiset(b) && Ordered(ms, a) && Ordered(ms, b) && Untied(ms, a)
    ensures a[0] == b[0]
  {
    assert b[0] in multiset(b) && b[0] in a;
    assert a[0] in multiset(a) && a[0] in b;
    HeadIsLeast(ms, a, b[0]);
    HeadIsLeast(ms, b, a[0]);
    assert !Tied(ms, a[0], b[0]);
  }

  lemma TailOrdered(ms: seq<Member>, a: seq<GroupRule>)
    requires a != [] && Ordered(ms, a)
    ensures Ordered(ms, a[1..]) && multiset(a[1..]) == multiset(a) - multiset{a[0]}
    ensures Untied(ms, a) ==> Untied(ms, a[1..])
  {
    var t := a[1..];
    assert a == [a[0]] + t;
    forall i, j | 0 <= i < j < |t| ensures Before(ms, t[i], t[j]) {
      assert Before(ms, a[i + 1], a[j + 1]);
    }
  }

  lemma {:induction false} UntiedUnique(ms: seq<Member>, a: seq<GroupRule>, b: seq<GroupRule>)
    requires multiset(a) == multiset(b) && Ordered(ms, a) && Ordered(ms, b) && Untied(ms, a)
    ensures a == b
  {
    if a == [] {
      assert |multiset(b)| == |b|;
    } else {
      assert |multiset(b)| == |b| && |multiset(a)| == |a|;
      SameHead(ms, a, b);
      TailOrdered(ms, a);
      TailOrdered(ms, b);
      UntiedUnique(ms, a[1..], b[1..]);
      assert a == [a[0]] + a[1..] && b == [b[0]] + b[1..];
    }
  }

  /** Tied rules may come in either order. */
  lemma SwapTied(ms: seq<Member>, out: seq<GroupRule>, i: nat, j: nat)
    requires Ordered(ms, out) && i < j < |out| && Before(ms, out[j], out[i])
    ensures Ordered(ms, out[i := out[j]][j := out[i]])
  {
    var s := out[i := out[j]][j := out[i]];
    forall k, m | 0 <= k < m < |s| ensures Before(ms, s[k], s[m]) {
      SwapPair(ms, out, i, j, k, m);
    }
  }

  lemma SwapPair(ms: seq<Member>, out: seq<GroupRule>, i: nat, j: nat, k: nat, m: nat)
    requires Ordered(ms, out) && i < j < |out| && Before(ms, out[j], out[i]) && k < m < |out|
    ensures
      var s := out[i := out[j]][j := out[i]];
      Before(ms, s[k], s[m])
  {
    assert Before(ms, out[i], out[j]) && Before(ms, out[k], out[m]);
    assert k < i ==> Before(ms, out[k], out[i]) && Before(ms, out[k], out[j]);
    assert i < m ==> Before(ms, out[i], out[m]);
    assert k < j ==> Before(ms, out[k], out[j]);
    assert j < m ==> Before(ms, out[j], out[m]);
  }

  lemma SwapMultiset(out: seq<GroupRule>, i: nat, j: nat)
    requires i < j < |out|
    ensures multiset(out[i := out[j]][j := out[i]]) == multiset(out)
  {
  }

  lemma TieAt(ms: seq<Member>, out: seq<GroupRule>, a: GroupRule, b: GroupRule) returns (i: nat, j: nat)
    requires a in out && b in out && Tied(ms, a, b)
    ensures i < j < |out| && Tied(ms, out[i], out[j])
  {
    var x :| 0 <= x < |out| && out[x] == a;
    var y :| 0 <= y < |out| && out[y] == b;
    if x < y {
      i, j := x, y;
    } else {
      i, j := y, x;
    }
  }

  lemma ResultUntied(ms: seq<Member>, table: seq<GroupRule>, out: seq<GroupRule>)
    requires QueryResult(ms, table, out)
    ensures Untied(ms, out) <==> NoTies(ms, table)
  {
    forall r ensures r in out <==> r in Joined(ms, table) {
      assert r in multiset(out) <==> r in multiset(Joined(ms, table));
    }
  }

  /** The query has one result iff no two rules tie; with a tie the list, and with it the hash, may change from one
      check-in to the next although nothing was edited. */
  lemma UniqueIffNoTies(ms: seq<Member>, table: seq<GroupRule>, out: seq<GroupRule>)
    requires QueryResult(ms, table, out)
    ensures (forall other :: QueryResult(ms, table, other) ==> other == out) <==> NoTies(ms, table)
  {
    ResultUntied(ms, table, out);
    if Untied(ms, out) {
      forall other | QueryResult(ms, table, other) ensures other == out {
        UntiedUnique(ms, out, other);
      }
    } else {
      var a, b :| a in out && b in out && Tied(ms, a, b);
      var i, j := TieAt(ms, out, a, b);
      var other := out[i := out[j]][j := out[i]];
      SwapTied(ms, out, i, j);
      SwapMultiset(out, i, j);
      assert QueryResult(ms, table, other) && other[i] != out[i];
    }
  }
}
