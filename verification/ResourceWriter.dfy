/** build_rsrc of gen_rsrc.py: the loops that fill the areas of a resource file. */
module ResourceWriter {
  import opened Wrappers
  import opened Words
  import opened ByteTables
  import opened ResourceFormat
  import opened ResourceRoundTrip

  /** No field that struct.pack checks is out of range. */
  predicate AllPackable(entries: seq<Resource>, names: map<Key, int>)
    requires forall k :: 0 <= k < |entries| ==> KeyOf(entries[k]) in names
  {
    forall k :: 0 <= k < |entries| ==> Packable(entries[k], names[KeyOf(entries[k])])
  }

  method GroupByType(resources: seq<Resource>) returns (gs: seq<Group>)
    ensures gs == Grouped(resources)
  {
    gs := [];
    var n := 0;
    while n < |resources|
      invariant n <= |resources| && gs == Grouped(resources[..n])
    {
      var r := resources[n];
      assert resources[..n + 1][..n] == resources[..n];
      var i := FindGroup(gs, r.rtype, 0);
      ghost var before := gs;
      if i == |gs| {
        gs := gs + [Group(r.rtype, [])];
        assert [] + [r] == [r];
      }
      gs := gs[i := Group(gs[i].rtype, gs[i].list + [r])];
      assert gs == AddTo(before, r);
      n := n + 1;
    }
    assert resources[..n] == resources;
  }

  method SortEach(groups: seq<Group>) returns (gs: seq<Group>)
    ensures gs == SortGroups(groups)
  {
    gs := groups;
    var i := 0;
    while i < |groups|
      invariant i <= |groups| == |gs|
      invariant forall j :: 0 <= j < |groups| ==>
                  gs[j] == if j < i then Group(groups[j].rtype, SortById(groups[j].list)) else groups[j]
    {
      gs := gs[i := Group(gs[i].rtype, SortById(gs[i].list))];
      i := i + 1;
    }
  }

  /** The entries handled after `j` resources of group `g`. */
  ghost function Handled(gs: seq<Group>, g: nat, j: nat): seq<Resource>
    requires g <= |gs| && (j == 0 || (g < |gs| && j <= |gs[g].list|))
  {
    Entries(gs[..g]) + if j == 0 then [] else gs[g].list[..j]
  }

  lemma HandledStep(gs: seq<Group>, g: nat, j: nat)
    requires g < |gs| && j < |gs[g].list|
    ensures var h := Handled(gs, g, j + 1);
            |h| > 0 && h[..|h| - 1] == Handled(gs, g, j) && h[|h| - 1] == gs[g].list[j]
  {
  }

  lemma HandledGroup(gs: seq<Group>, g: nat)
    requires g < |gs|
    ensures Handled(gs, g, |gs[g].list|) == Handled(gs, g + 1, 0)
  {
    assert gs[..g + 1][..g] == gs[..g];
    assert gs[g].list[..|gs[g].list|] == gs[g].list;
  }

  lemma HandledAll(gs: seq<Group>)
    ensures Handled(gs, 0, 0) == [] && Handled(gs, |gs|, 0) == Entries(gs)
  {
    assert gs[..|gs|] == gs;
  }

  method BuildData(gs: seq<Group>) returns (data: seq<Byte>, offsets: map<Key, nat>)
    ensures data == Concat(DataParts(Entries(gs))) && offsets == DataOffsets(Entries(gs))
  {
    hide Entries, BE32, Concat, Handled, DataOffsets, DataParts;
    data, offsets := [], map[];
    HandledAll(gs);
    DataNone();
    var g := 0;
    while g < |gs|
      invariant g <= |gs|
      invariant data == Concat(DataParts(Handled(gs, g, 0))) && offsets == DataOffsets(Handled(gs, g, 0))
    {
      var j := 0;
      while j < |gs[g].list|
        invariant j <= |gs[g].list|
        invariant data == Concat(DataParts(Handled(gs, g, j))) && offsets == DataOffsets(Handled(gs, g, j))
      {
        var r := gs[g].list[j];
        var off := |data|;
        offsets := offsets[KeyOf(r) := off];
        data := data + (BE32(|r.data|) + r.data);
        HandledStep(gs, g, j);
        DataStep(Handled(gs, g, j + 1));
        j := j + 1;
      }
      HandledGroup(gs, g);
      g := g + 1;
    }
  }

  lemma DataNone()
    ensures Concat(DataParts([])) == [] && DataOffsets([]) == map[]
  {
  }

  lemma DataStep(h: seq<Resource>)
    requires |h| > 0
    ensures var n := |h| - 1;
            && Concat(DataParts(h)) == Concat(DataParts(h[..n])) + DataPart(h[n])
            && DataOffsets(h) == DataOffsets(h[..n])[KeyOf(h[n]) := |Concat(DataParts(h[..n]))|]
  {
    PrefixParts(h, |h| - 1);
  }

  method BuildNames(gs: seq<Group>) returns (ns: Names)
    ensures ns == NamesOf(Entries(gs))
  {
    hide Entries, Handled;
    ns := Names([], map[], map[]);
    HandledAll(gs);
    var g := 0;
    while g < |gs|
      invariant g <= |gs| && ns == NamesOf(Handled(gs, g, 0))
    {
      var j := 0;
      while j < |gs[g].list|
        invariant j <= |gs[g].list| && ns == NamesOf(Handled(gs, g, j))
      {
        var r := gs[g].list[j];
        HandledStep(gs, g, j);
        ghost var before := ns;
        if r.name.text == "" {
          ns := ns.(byKey := ns.byKey[KeyOf(r) := -1]);
        } else if r.name.text in ns.byName {
          ns := ns.(byKey := ns.byKey[KeyOf(r) := ns.byName[r.name.text]]);
        } else {
          var off := |ns.bytes|;
          var nm := r.name.encoded;
          if |nm| > 255 {
            nm := nm[..255];
          }
          ns := ns.(bytes := ns.bytes + ([|nm|] + nm));
          ns := ns.(byName := ns.byName[r.name.text := off]);
          ns := ns.(byKey := ns.byKey[KeyOf(r) := off]);
        }
        assert ns == NameStep(before, r);
        j := j + 1;
      }
      HandledGroup(gs, g);
      g := g + 1;
    }
  }

  /** The references of one type, or nothing if struct.pack refuses a field. */
  method BuildRefs(list: seq<Resource>, names: map<Key, int>, offsets: map<Key, nat>) returns (r: Option<seq<Byte>>)
    requires forall k :: 0 <= k < |list| ==> KeyOf(list[k]) in names && KeyOf(list[k]) in offsets
    ensures r == if AllPackable(list, names) then Some(Concat(RefParts(list, names, offsets))) else None
  {
    hide RefPart, Concat;
    var refs: seq<Byte> := [];
    RefsNone(names, offsets);
    var j := 0;
    while j < |list|
      invariant j <= |list|
      invariant refs == Concat(RefParts(list[..j], names, offsets))
      invariant AllPackable(list[..j], names)
    {
      var x := list[j];
      var nmOff := names[KeyOf(x)];
      var dataOff := offsets[KeyOf(x)];
      RefsStep(list, j, names, offsets);
      if !Packable(x, nmOff) {
        return None;
      }
      refs := refs + RefPart(x, nmOff, dataOff);
      j := j + 1;
    }
    assert list[..j] == list;
    return Some(refs);
  }

  lemma RefsNone(names: map<Key, int>, offsets: map<Key, nat>)
    ensures Concat(RefParts([], names, offsets)) == []
  {
  }

  lemma RefsStep(list: seq<Resource>, j: nat, names: map<Key, int>, offsets: map<Key, nat>)
    requires j < |list|
    requires forall k :: 0 <= k < |list| ==> KeyOf(list[k]) in names && KeyOf(list[k]) in offsets
    ensures Concat(RefParts(list[..j + 1], names, offsets))
            == Concat(RefParts(list[..j], names, offsets))
               + RefPart(list[j], names[KeyOf(list[j])], offsets[KeyOf(list[j])])
  {
    hide RefPart;
    var parts := RefParts(list[..j + 1], names, offsets);
    assert parts[..j] == RefParts(list[..j], names, offsets);
  }

  // ---- The map -----------------------------------------------------------------------------

  /** What build_rsrc notes for each type before it writes the type list. */
  datatype TypeEntry = TypeEntry(rtype: seq<Byte>, numRes: nat, refOff: nat, refs: seq<Byte>)

  /** All the dictionaries' keys are there. */
  ghost predicate Known(list: seq<Resource>, names: map<Key, int>, offsets: map<Key, nat>) {
    forall k :: 0 <= k < |list| ==> KeyOf(list[k]) in names && KeyOf(list[k]) in offsets
  }

  ghost function RefBytes(list: seq<Resource>, names: map<Key, int>, offsets: map<Key, nat>): seq<Byte>
    requires Known(list, names, offsets)
  {
    Concat(RefParts(list, names, offsets))
  }

  lemma KnownSplit(a: seq<Resource>, b: seq<Resource>, names: map<Key, int>, offsets: map<Key, nat>)
    requires Known(a + b, names, offsets)
    ensures Known(a, names, offsets) && Known(b, names, offsets)
    ensures AllPackable(a + b, names) <==> AllPackable(a, names) && AllPackable(b, names)
  {
    hide Packable;
    assert forall k :: 0 <= k < |a| ==> a[k] == (a + b)[k];
    assert forall k :: 0 <= k < |b| ==> b[k] == (a + b)[|a| + k];
  }

  lemma RefBytesSplit(a: seq<Resource>, b: seq<Resource>, names: map<Key, int>, offsets: map<Key, nat>)
    requires Known(a + b, names, offsets)
    ensures Known(a, names, offsets) && Known(b, names, offsets)
    ensures RefBytes(a + b, names, offsets) == RefBytes(a, names, offsets) + RefBytes(b, names, offsets)
    ensures |RefBytes(b, names, offsets)| == 12 * |b|
    ensures AllPackable(a + b, names) <==> AllPackable(a, names) && AllPackable(b, names)
  {
    hide RefPart, Concat, Size, Packable, AllPackable;
    KnownSplit(a, b, names, offsets);
    assert RefParts(a + b, names, offsets) == RefParts(a, names, offsets) + RefParts(b, names, offsets);
    ConcatAppend(RefParts(a, names, offsets), RefParts(b, names, offsets));
    FixedSize(RefParts(b, names, offsets), 12);
  }

  /** The entries of the groups from `g` on, split at the first of them. */
  lemma EntriesFrom(gs: seq<Group>, g: nat)
    requires g < |gs|
    ensures Entries(gs[..g + 1]) == Entries(gs[..g]) + gs[g].list
  {
    assert gs[..g + 1][..g] == gs[..g];
  }

  lemma {:induction false} EntriesPrefix(gs: seq<Group>, g: nat)
    requires g <= |gs|
    ensures Entries(gs[..g]) <= Entries(gs)
    decreases |gs| - g
  {
    if g < |gs| {
      EntriesFrom(gs, g);
      EntriesPrefix(gs, g + 1);
    } else {
      assert gs[..g] == gs;
    }
  }

  ghost predicate NotedTypes(gs: seq<Group>, entries: seq<TypeEntry>, names: map<Key, int>, offsets: map<Key, nat>) {
    && |entries| <= |gs|
    && forall i :: 0 <= i < |entries| ==>
         && Known(gs[i].list, names, offsets)
         && entries[i] == TypeEntry(gs[i].rtype, |gs[i].list|, 12 * Before(gs, i), RefBytes(gs[i].list, names, offsets))
  }

  /** What one more group adds. */
  lemma GroupStep(gs: seq<Group>, g: nat, names: map<Key, int>, offsets: map<Key, nat>)
    requires Known(Entries(gs), names, offsets) && g < |gs|
    ensures Known(gs[g].list, names, offsets)
    ensures Known(Entries(gs[..g]), names, offsets) && Known(Entries(gs[..g + 1]), names, offsets)
    ensures |RefBytes(gs[g].list, names, offsets)| == 12 * |gs[g].list|
    ensures RefBytes(Entries(gs[..g + 1]), names, offsets)
            == RefBytes(Entries(gs[..g]), names, offsets) + RefBytes(gs[g].list, names, offsets)
    ensures AllPackable(Entries(gs[..g + 1]), names)
            <==> AllPackable(Entries(gs[..g]), names) && AllPackable(gs[g].list, names)
    ensures !AllPackable(Entries(gs[..g + 1]), names) ==> !AllPackable(Entries(gs), names)
  {
    hide Entries, RefBytes, Packable;
    EntriesFrom(gs, g);
    EntriesPrefix(gs, g + 1);
    KnownPrefix(Entries(gs[..g + 1]), Entries(gs), names, offsets);
    RefBytesSplit(Entries(gs[..g]), gs[g].list, names, offsets);
    if !AllPackable(Entries(gs[..g + 1]), names) {
      StillUnpackable(Entries(gs[..g + 1]), Entries(gs), names);
    }
  }

  lemma KnownPrefix(a: seq<Resource>, b: seq<Resource>, names: map<Key, int>, offsets: map<Key, nat>)
    requires a <= b && Known(b, names, offsets)
    ensures Known(a, names, offsets)
  {
    assert forall k :: 0 <= k < |a| ==> a[k] == b[k];
  }

  lemma {:induction false} NotedStep(gs: seq<Group>, entries: seq<TypeEntry>, names: map<Key, int>,
                                      offsets: map<Key, nat>)
    requires NotedTypes(gs, entries, names, offsets) && |entries| < |gs|
    requires var g := |entries|; Known(gs[g].list, names, offsets)
    ensures var g := |entries|;
            NotedTypes(gs, entries + [TypeEntry(gs[g].rtype, |gs[g].list|, 12 * Before(gs, g),
                                                RefBytes(gs[g].list, names, offsets))],
                       names, offsets)
  {
    hide RefBytes, Before, Known;
  }

  method NoteTypes(gs: seq<Group>, names: map<Key, int>, offsets: map<Key, nat>) returns (r: Option<seq<TypeEntry>>)
    requires Known(Entries(gs), names, offsets)
    ensures r.Some? <==> AllPackable(Entries(gs), names)
    ensures r.Some? ==> |r.value| == |gs| && NotedTypes(gs, r.value, names, offsets)
  {
    hide Entries, RefBytes, AllPackable, NotedTypes;
    var entries: seq<TypeEntry> := [];
    var runningRefOff := 0;
    var g := 0;
    NoEntries(gs, names, offsets);
    while g < |gs|
      invariant g == |entries| <= |gs| && runningRefOff == 12 * Before(gs, g)
      invariant NotedTypes(gs, entries, names, offsets)
      invariant Known(Entries(gs[..g]), names, offsets) && AllPackable(Entries(gs[..g]), names)
    {
      GroupStep(gs, g, names, offsets);
      var refs := BuildRefs(gs[g].list, names, offsets);
      if refs == None {
        return None;
      }
      RefBytesIs(gs[g].list, names, offsets);
      NotedStep(gs, entries, names, offsets);
      entries := entries + [TypeEntry(gs[g].rtype, |gs[g].list|, runningRefOff, refs.value)];
      runningRefOff := runningRefOff + |refs.value|;
      g := g + 1;
    }
    assert gs[..g] == gs;
    return Some(entries);
  }

  lemma RefBytesIs(list: seq<Resource>, names: map<Key, int>, offsets: map<Key, nat>)
    requires Known(list, names, offsets)
    ensures RefBytes(list, names, offsets) == Concat(RefParts(list, names, offsets))
  {
  }

  lemma NoEntries(gs: seq<Group>, names: map<Key, int>, offsets: map<Key, nat>)
    ensures Entries(gs[..0]) == [] && Known([], names, offsets) && AllPackable([], names)
    ensures NotedTypes(gs, [], names, offsets) && RefBytes([], names, offsets) == []
  {
  }

  lemma StillUnpackable(a: seq<Resource>, b: seq<Resource>, names: map<Key, int>)
    requires a <= b && forall k :: 0 <= k < |b| ==> KeyOf(b[k]) in names
    requires !AllPackable(a, names)
    ensures !AllPackable(b, names)
  {
    hide Packable;
    var k :| 0 <= k < |a| && !Packable(a[k], names[KeyOf(a[k])]);
    assert b[k] == a[k];
  }

  /** The references of all types, in the order of the types, are the references of all entries. */
  method AppendRefs(gs: seq<Group>, entries: seq<TypeEntry>, head: seq<Byte>,
                    ghost names: map<Key, int>, ghost offsets: map<Key, nat>)
    returns (typeList: seq<Byte>)
    requires |entries| == |gs| && NotedTypes(gs, entries, names, offsets) && Known(Entries(gs), names, offsets)
    ensures typeList == head + RefBytes(Entries(gs), names, offsets)
  {
    hide Entries, RefBytes, AllPackable, NotedTypes;
    typeList := head;
    var g := 0;
    NoEntries(gs, names, offsets);
    while g < |gs|
      invariant g <= |gs| && Known(Entries(gs[..g]), names, offsets)
      invariant typeList == head + RefBytes(Entries(gs[..g]), names, offsets)
    {
      GroupStep(gs, g, names, offsets);
      NotedIs(gs, entries, names, offsets, g);
      typeList := typeList + entries[g].refs;
      g := g + 1;
    }
    assert gs[..g] == gs;
  }

  lemma {:induction false} NotedIs(gs: seq<Group>, entries: seq<TypeEntry>,
                                   names: map<Key, int>, offsets: map<Key, nat>, g: nat)
    requires NotedTypes(gs, entries, names, offsets) && g < |entries|
    ensures Known(gs[g].list, names, offsets)
    ensures entries[g] == TypeEntry(gs[g].rtype, |gs[g].list|, 12 * Before(gs, g), RefBytes(gs[g].list, names, offsets))
  {
    hide RefBytes, Before, Known;
  }

  /** The type list: the count, the type records, the references. */
  method BuildTypeList(gs: seq<Group>, entries: seq<TypeEntry>, ghost names: map<Key, int>,
                       ghost offsets: map<Key, nat>)
    returns (typeList: seq<Byte>)
    requires |entries| == |gs| && NotedTypes(gs, entries, names, offsets) && Known(Entries(gs), names, offsets)
    ensures typeList == TypeList(gs, RefParts(Entries(gs), names, offsets))
  {
    hide Entries, RefBytes, NotedTypes, BE16, Concat, Before, Known;
    typeList := BE16(|gs| - 1);
    ConcatNone();
    var g := 0;
    while g < |gs|
      invariant g <= |gs|
      invariant typeList == BE16(|gs| - 1) + Concat(TypeParts(gs)[..g])
    {
      NotedIs(gs, entries, names, offsets, g);
      ConcatStep(TypeParts(gs), g);
      var e := entries[g];
      typeList := typeList + (e.rtype + BE16(e.numRes - 1) + BE16(2 + 8 * |gs| + e.refOff));
      g := g + 1;
    }
    assert TypeParts(gs)[..g] == TypeParts(gs);
    RefBytesIs(Entries(gs), names, offsets);
    typeList := AppendRefs(gs, entries, typeList, names, offsets);
  }

  lemma ConcatNone()
    ensures Concat([]) == []
  {
  }

  lemma ConcatStep(parts: seq<seq<Byte>>, g: nat)
    requires g < |parts|
    ensures Concat(parts[..0]) == [] && Concat(parts[..g + 1]) == Concat(parts[..g]) + parts[g]
  {
    assert parts[..g + 1][..g] == parts[..g];
  }

  /** build_rsrc: the file of the layout, or nothing when struct.pack refuses an id or a name offset. */
  method BuildRsrc(resources: seq<Resource>) returns (r: Option<seq<Byte>>)
    ensures var e := Entries(SortGroups(Grouped(resources)));
            && (forall k :: 0 <= k < |e| ==> KeyOf(e[k]) in NamesOf(e).byKey)
            && r == if AllPackable(e, NamesOf(e).byKey) then Some(Written(resources)) else None
  {
    hide Entries, AllPackable, NotedTypes, Concat, NamesOf, DataOffsets, Grouped, SortGroups, TypeList, BE16, BE32,
         MapArea;
    var groups := GroupByType(resources);
    var gs := SortEach(groups);
    var dataArea, offsets := BuildData(gs);
    var ns := BuildNames(gs);
    NamesForAll(Entries(gs));
    OffsetsForAll(Entries(gs));
    var entries := NoteTypes(gs, ns.byKey, offsets);
    if entries == None {
      return None;
    }
    var typeList := BuildTypeList(gs, entries.value, ns.byKey, offsets);
    var mapArea := Zeros(28) + typeList + ns.bytes;
    var header := BE32(DATA_START) + BE32(DATA_START + |dataArea|) + BE32(|dataArea|) + BE32(|mapArea|);
    PatchedMap(typeList, ns.bytes, |dataArea|);
    mapArea := header + mapArea[16..];
    mapArea := mapArea[..24] + BE16(MAP_HEADER) + mapArea[26..];
    mapArea := mapArea[..26] + BE16(MAP_HEADER + |typeList|) + mapArea[28..];
    return Some(header + Zeros(DATA_START - 16) + dataArea + mapArea);
  }

  /** Patching the blank map header gives the map area of the layout. */
  lemma PatchedMap(typeList: seq<Byte>, names: seq<Byte>, dataLen: nat)
    ensures var blank := Zeros(28) + typeList + names;
            var header := Header(dataLen, |blank|);
            var m1 := header + blank[16..];
            var m2 := m1[..24] + BE16(MAP_HEADER) + m1[26..];
            m2[..26] + BE16(MAP_HEADER + |typeList|) + m2[28..] == MapArea(typeList, names, dataLen)
  {
    hide Header, BE16;
    var blank := Zeros(28) + typeList + names;
    var header := Header(dataLen, |blank|);
    var a, b := BE16(MAP_HEADER), BE16(MAP_HEADER + |typeList|);
    var m1 := header + blank[16..];
    assert m1[..24] == header + Zeros(8);
    assert m1[26..] == Zeros(2) + (typeList + names);
    var m2 := m1[..24] + a + m1[26..];
    assert m2[..26] == header + Zeros(8) + a;
    assert m2[28..] == typeList + names;
    assert header + Zeros(8) + a + b + (typeList + names) == header + Zeros(8) + a + b + typeList + names;
  }
}
