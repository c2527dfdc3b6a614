/** What the writer's grouping, sorting and offset dictionary promise. */
module ResourceLaws {
  import opened Words
  import opened ResourceFormat

  lemma {:induction false} MatchingSplits(a: seq<Resource>, b: seq<Resource>, t: seq<Byte>, id: int)
    ensures Matching(a + b, t, id) == Matching(a, t, id) + Matching(b, t, id)
  {
    if b == [] {
      assert a + b == a;
    } else {
      var n := |b| - 1;
      assert (a + b)[..|a + b| - 1] == a + b[..n];
      MatchingSplits(a, b[..n], t, id);
    }
  }

  lemma MatchingOne(r: Resource, t: seq<Byte>, id: int)
    ensures Matching([r], t, id) == if r.rtype == t && r.rid == id then [r] else []
  {
    assert [r][..0] == [];
  }

  /** The sort is stable: for each id the order of the list is kept. */
  lemma {:induction false} InsertKeepsOrder(r: Resource, l: seq<Resource>, t: seq<Byte>, id: int)
    ensures Matching(InsertById(r, l), t, id) == Matching(l + [r], t, id)
  {
    hide Matching;
    if l != [] && l[|l| - 1].rid > r.rid {
      var n := |l| - 1;
      var x := l[n];
      InsertKeepsOrder(r, l[..n], t, id);
      assert l[..n] + [x] == l;
      MatchingSplits(InsertById(r, l[..n]), [x], t, id);
      SwapMatching(l[..n], x, r, t, id);
    }
  }

  /** Two resources with different ids may change places. */
  lemma SwapMatching(l: seq<Resource>, x: Resource, r: Resource, t: seq<Byte>, id: int)
    requires x.rid != r.rid
    ensures Matching(l + [r], t, id) + Matching([x], t, id) == Matching(l + [x] + [r], t, id)
  {
    hide Matching;
    MatchingSplits(l, [r], t, id);
    MatchingSplits(l, [x], t, id);
    MatchingSplits(l + [x], [r], t, id);
    MatchingOne(r, t, id);
    MatchingOne(x, t, id);
  }

  lemma {:induction false} SortKeepsOrder(l: seq<Resource>, t: seq<Byte>, id: int)
    ensures Matching(SortById(l), t, id) == Matching(l, t, id)
  {
    if l != [] {
      var n := |l| - 1;
      SortKeepsOrder(l[..n], t, id);
      InsertKeepsOrder(l[n], SortById(l[..n]), t, id);
      MatchingSplits(SortById(l[..n]), [l[n]], t, id);
      MatchingOne(l[n], t, id);
    }
  }

  ghost predicate SortedById(l: seq<Resource>) {
    forall i, j :: 0 <= i < j < |l| ==> l[i].rid <= l[j].rid
  }

  lemma {:induction false} InsertBelow(r: Resource, l: seq<Resource>, top: int)
    requires r.rid <= top && forall i :: 0 <= i < |l| ==> l[i].rid <= top
    ensures forall i :: 0 <= i < |InsertById(r, l)| ==> InsertById(r, l)[i].rid <= top
  {
    if l != [] && l[|l| - 1].rid > r.rid {
      InsertBelow(r, l[..|l| - 1], top);
    }
  }

  lemma {:induction false} InsertSorts(r: Resource, l: seq<Resource>)
    requires SortedById(l)
    ensures SortedById(InsertById(r, l))
  {
    if l != [] && l[|l| - 1].rid > r.rid {
      var n := |l| - 1;
      InsertSorts(r, l[..n]);
      InsertBelow(r, l[..n], l[n].rid);
    }
  }

  lemma {:induction false} InsertKeepsAll(r: Resource, l: seq<Resource>)
    ensures multiset(InsertById(r, l)) == multiset(l) + multiset{r}
  {
    if l != [] && l[|l| - 1].rid > r.rid {
      var n := |l| - 1;
      InsertKeepsAll(r, l[..n]);
      assert l == l[..n] + [l[n]];
    }
  }

  /** The sort puts a list in id order and loses nothing. */
  lemma {:induction false} SortSorts(l: seq<Resource>)
    ensures SortedById(SortById(l)) && multiset(SortById(l)) == multiset(l)
  {
    if l != [] {
      SortSorts(l[..|l| - 1]);
      InsertSorts(l[|l| - 1], SortById(l[..|l| - 1]));
      InsertKeepsAll(l[|l| - 1], SortById(l[..|l| - 1]));
      assert l == l[..|l| - 1] + [l[|l| - 1]];
    }
  }

  // ---- Groups ------------------------------------------------------------------------------

  /** Types are different, and each group holds resources of its type, at least one. */
  ghost predicate ProperGroups(gs: seq<Group>) {
    && (forall i, j :: 0 <= i < j < |gs| ==> gs[i].rtype != gs[j].rtype)
    && (forall i :: 0 <= i < |gs| ==> gs[i].list != [])
    && (forall i, k :: 0 <= i < |gs| && 0 <= k < |gs[i].list| ==> gs[i].list[k].rtype == gs[i].rtype)
  }

  /** The resources of a type, in list order. */
  function OfType(rs: seq<Resource>, t: seq<Byte>): seq<Resource> {
    if rs == [] then []
    else OfType(rs[..|rs| - 1], t) + if rs[|rs| - 1].rtype == t then [rs[|rs| - 1]] else []
  }

  /** Where a type appears first, or the length of the list. */
  function FirstOf(rs: seq<Resource>, t: seq<Byte>): (k: nat)
    ensures k <= |rs|
    ensures k < |rs| ==> rs[k].rtype == t
    ensures forall j :: 0 <= j < k ==> rs[j].rtype != t
  {
    if rs == [] then 0
    else
      var k := FirstOf(rs[..|rs| - 1], t);
      if k < |rs| - 1 then k else if rs[|rs| - 1].rtype == t then |rs| - 1 else |rs|
  }

  ghost predicate HasGroup(gs: seq<Group>, t: seq<Byte>) {
    exists i :: 0 <= i < |gs| && gs[i].rtype == t
  }

  /** The groups of a list: each type once, in order of first appearance, with its resources in list order. */
  ghost predicate GroupsOf(gs: seq<Group>, rs: seq<Resource>) {
    && (forall i :: 0 <= i < |gs| ==> FirstOf(rs, gs[i].rtype) < |rs| && gs[i].list == OfType(rs, gs[i].rtype))
    && (forall i, j :: 0 <= i < j < |gs| ==> FirstOf(rs, gs[i].rtype) < FirstOf(rs, gs[j].rtype))
    && (forall k :: 0 <= k < |rs| ==> HasGroup(gs, rs[k].rtype))
  }

  lemma {:induction false} GroupedIs(rs: seq<Resource>)
    ensures GroupsOf(Grouped(rs), rs)
    decreases |rs|
  {
    hide GroupsOf, AddTo;
    if rs == [] {
      NoGroups(rs);
    } else {
      GroupedIs(rs[..|rs| - 1]);
      AddedIs(Grouped(rs[..|rs| - 1]), rs);
    }
  }

  lemma NoGroups(rs: seq<Resource>)
    ensures rs == [] ==> GroupsOf([], rs)
  {
  }

  lemma AddedIs(gs: seq<Group>, rs: seq<Resource>)
    requires rs != [] && GroupsOf(gs, rs[..|rs| - 1])
    ensures GroupsOf(AddTo(gs, rs[|rs| - 1]), rs)
  {
    hide FindGroup, FirstOf, OfType, HasGroup, AddTo;
    var front, r := rs[..|rs| - 1], rs[|rs| - 1];
    var after, n := AddTo(gs, r), FindGroup(gs, r.rtype, 0);
    AddedParts(gs, r);
    if n == |gs| {
      NoneThere(gs, front, r.rtype);
    }
    forall i | 0 <= i < |after|
      ensures FirstOf(rs, after[i].rtype) == if i < |gs| then FirstOf(front, gs[i].rtype) else |front|
      ensures after[i].list == OfType(rs, after[i].rtype)
    {
      TypeStep(rs, after[i].rtype);
    }
    forall k | 0 <= k < |rs|
      ensures HasGroup(after, rs[k].rtype)
    {
      assert k < |front| ==> rs[k] == front[k];
      GroupStays(gs, after, rs[k].rtype, r.rtype);
    }
  }

  lemma AddedParts(gs: seq<Group>, r: Resource)
    ensures var after, n := AddTo(gs, r), FindGroup(gs, r.rtype, 0);
            && |after| == (if n == |gs| then |gs| + 1 else |gs|)
            && (forall i :: 0 <= i < |gs| ==> after[i].rtype == gs[i].rtype)
            && (forall i :: 0 <= i < |gs| ==> after[i].list == if i == n then gs[i].list + [r] else gs[i].list)
            && (forall i :: 0 <= i < |gs| && gs[i].rtype == r.rtype ==> n <= i)
            && (n == |gs| ==> after[n] == Group(r.rtype, [r]) && !HasGroup(gs, r.rtype))
            && HasGroup(after, r.rtype)
  {
    var after, n := AddTo(gs, r), FindGroup(gs, r.rtype, 0);
    assert after[n].rtype == r.rtype;
  }

  lemma TypeStep(rs: seq<Resource>, t: seq<Byte>)
    requires rs != []
    ensures var front, r := rs[..|rs| - 1], rs[|rs| - 1];
            && FirstOf(rs, t) == (if FirstOf(front, t) < |front| then FirstOf(front, t)
                                  else if r.rtype == t then |front| else |rs|)
            && OfType(rs, t) == OfType(front, t) + if r.rtype == t then [r] else []
  {
  }

  lemma GroupStays(gs: seq<Group>, after: seq<Group>, t: seq<Byte>, added: seq<Byte>)
    requires |gs| <= |after| && forall i :: 0 <= i < |gs| ==> after[i].rtype == gs[i].rtype
    requires HasGroup(after, added)
    ensures HasGroup(gs, t) || t == added ==> HasGroup(after, t)
  {
    if HasGroup(gs, t) {
      var i :| 0 <= i < |gs| && gs[i].rtype == t;
      assert after[i].rtype == t;
    }
  }

  lemma NoneThere(gs: seq<Group>, rs: seq<Resource>, t: seq<Byte>)
    requires GroupsOf(gs, rs) && !HasGroup(gs, t)
    ensures FirstOf(rs, t) == |rs| && OfType(rs, t) == []
  {
    hide HasGroup;
    NoOfType(rs, t);
  }

  lemma {:induction false} NoOfType(rs: seq<Resource>, t: seq<Byte>)
    requires forall k :: 0 <= k < |rs| ==> rs[k].rtype != t
    ensures OfType(rs, t) == []
  {
    if rs != [] {
      NoOfType(rs[..|rs| - 1], t);
    }
  }

  lemma {:induction false} GroupedProper(rs: seq<Resource>)
    ensures ProperGroups(Grouped(rs))
  {
    if rs != [] {
      GroupedProper(rs[..|rs| - 1]);
      AddToProper(Grouped(rs[..|rs| - 1]), rs[|rs| - 1]);
    }
  }

  lemma AddToProper(gs: seq<Group>, r: Resource)
    requires ProperGroups(gs)
    ensures ProperGroups(AddTo(gs, r))
  {
    hide FindGroup;
    var after := AddTo(gs, r);
    forall i | 0 <= i < |after|
      ensures after[i].list != [] && forall k :: 0 <= k < |after[i].list| ==> after[i].list[k].rtype == after[i].rtype
    {
      assert i < |gs| ==> after[i].rtype == gs[i].rtype;
    }
    assert forall i :: 0 <= i < |gs| ==> after[i].rtype == gs[i].rtype;
  }

  lemma {:induction false} NoneOfType(l: seq<Resource>, t: seq<Byte>, id: int)
    requires forall k :: 0 <= k < |l| ==> l[k].rtype != t
    ensures Matching(l, t, id) == []
  {
    if l != [] {
      NoneOfType(l[..|l| - 1], t, id);
    }
  }

  /** Only the group of the type contributes. */
  lemma {:induction false} EntriesMatching(gs: seq<Group>, t: seq<Byte>, id: int)
    requires ProperGroups(gs)
    ensures var i := FindGroup(gs, t, 0);
            Matching(Entries(gs), t, id) == if i == |gs| then [] else Matching(gs[i].list, t, id)
  {
    hide Matching, FindGroup, ProperGroups;
    NothingMatches(t, id);
    if gs != [] {
      var n := |gs| - 1;
      ProperPrefix(gs, n);
      EntriesMatching(gs[..n], t, id);
      MatchingSplits(Entries(gs[..n]), gs[n].list, t, id);
      FindInPrefix(gs, n, t);
      if gs[n].rtype != t {
        NoneOfType(gs[n].list, t, id);
      }
    }
  }

  lemma ProperPrefix(gs: seq<Group>, n: nat)
    requires ProperGroups(gs) && n + 1 == |gs|
    ensures ProperGroups(gs[..n])
    ensures forall i :: 0 <= i < n ==> gs[i].rtype != gs[n].rtype
    ensures forall k :: 0 <= k < |gs[n].list| ==> gs[n].list[k].rtype == gs[n].rtype
  {
  }

  lemma FindInPrefix(gs: seq<Group>, n: nat, t: seq<Byte>)
    requires n + 1 == |gs|
    ensures var i := FindGroup(gs[..n], t, 0);
            FindGroup(gs, t, 0) == if i < n then i else if gs[n].rtype == t then n else n + 1
  {
    var i := FindGroup(gs[..n], t, 0);
    FindIs(gs, t, if i < n then i else if gs[n].rtype == t then n else n + 1);
  }

  /** Grouping keeps the order of the resources of one type and id. */
  lemma {:induction false} GroupedMatching(rs: seq<Resource>, t: seq<Byte>, id: int)
    ensures Matching(Entries(Grouped(rs)), t, id) == Matching(rs, t, id)
  {
    hide Matching, Entries, FindGroup;
    NothingMatches(t, id);
    if rs != [] {
      var n := |rs| - 1;
      var r := rs[n];
      assert rs[..n] + [r] == rs;
      MatchingSplits(rs[..n], [r], t, id);
      var gs := Grouped(rs[..n]);
      GroupedMatching(rs[..n], t, id);
      GroupedProper(rs[..n]);
      GroupedProper(rs);
      EntriesMatching(gs, t, id);
      EntriesMatching(AddTo(gs, r), t, id);
      AddToFound(gs, r, t);
      var i := FindGroup(gs, r.rtype, 0);
      if i < |gs| {
        MatchingSplits(gs[i].list, [r], t, id);
      }
      MatchingOne(r, t, id);
    }
  }

  lemma NothingMatches(t: seq<Byte>, id: int)
    ensures Entries([]) == [] && Matching([], t, id) == []
  {
  }

  /** Where a type is found after a resource has been added. */
  lemma AddToFound(gs: seq<Group>, r: Resource, t: seq<Byte>)
    ensures var i, after := FindGroup(gs, r.rtype, 0), AddTo(gs, r);
            var j := FindGroup(gs, t, 0);
            && (t == r.rtype ==> FindGroup(after, t, 0) == i < |after|)
            && (t != r.rtype ==> (FindGroup(after, t, 0) == if j == |gs| then |after| else j)
                                 && (j < |gs| ==> after[j] == gs[j]))
  {
    var i, after := FindGroup(gs, r.rtype, 0), AddTo(gs, r);
    var j := FindGroup(gs, t, 0);
    if t == r.rtype {
      FindIs(after, t, i);
    } else {
      FindIs(after, t, if j == |gs| then |after| else j);
    }
  }

  lemma FindIs(gs: seq<Group>, t: seq<Byte>, i: nat)
    requires i <= |gs| && (i < |gs| ==> gs[i].rtype == t)
    requires forall j :: 0 <= j < i ==> gs[j].rtype != t
    ensures FindGroup(gs, t, 0) == i
  {
    assert FindGroup(gs, t, 0) <= |gs|;
  }

  /** The groups as they are written: sorted, but with the same order of the resources of one type and id. */
  lemma WrittenOrder(rs: seq<Resource>, t: seq<Byte>, id: int)
    ensures ProperGroups(SortGroups(Grouped(rs)))
    ensures Matching(Entries(SortGroups(Grouped(rs))), t, id) == Matching(rs, t, id)
  {
    var gs := Grouped(rs);
    var sorted := SortGroups(gs);
    GroupedProper(rs);
    GroupedMatching(rs, t, id);
    SortedProper(gs);
    EntriesMatching(gs, t, id);
    EntriesMatching(sorted, t, id);
    SortedFind(gs, t, 0);
    var i := FindGroup(gs, t, 0);
    if i < |gs| {
      SortKeepsOrder(gs[i].list, t, id);
    }
  }

  lemma {:induction false} SortedFind(gs: seq<Group>, t: seq<Byte>, i: nat)
    requires i <= |gs|
    ensures FindGroup(SortGroups(gs), t, i) == FindGroup(gs, t, i)
    decreases |gs| - i
  {
    if i < |gs| {
      SortedFind(gs, t, i + 1);
    }
  }

  lemma SortedProper(gs: seq<Group>)
    requires ProperGroups(gs)
    ensures ProperGroups(SortGroups(gs))
  {
    var s := SortGroups(gs);
    forall i | 0 <= i < |gs|
      ensures s[i].list != [] && forall k :: 0 <= k < |s[i].list| ==> s[i].list[k].rtype == s[i].rtype
    {
      var l := gs[i].list;
      SortSorts(l);
      assert |SortById(l)| == |multiset(SortById(l))| == |l|;
      forall k | 0 <= k < |s[i].list|
        ensures s[i].list[k].rtype == s[i].rtype
      {
        assert s[i].list[k] in multiset(SortById(l));
        assert s[i].list[k] in l;
      }
    }
  }
}
