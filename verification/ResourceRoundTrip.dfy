/** GetResource finds in a written file exactly the last resource with the type and the id. */
module ResourceRoundTrip {
  import opened Words
  import opened ByteTables
  import opened ResourceFormat
  import opened ResourceLaws
  import opened ResourceReader

  // ---- Offsets -----------------------------------------------------------------------------

  /** The last entry with this type and id, or -1. */
  function LastIndex(entries: seq<Resource>, t: seq<Byte>, id: int): (k: int)
    ensures -1 <= k < |entries|
    ensures k >= 0 ==> entries[k].rtype == t && entries[k].rid == id
  {
    if entries == [] then -1
    else
      var n := |entries| - 1;
      if entries[n].rtype == t && entries[n].rid == id then n else LastIndex(entries[..n], t, id)
  }

  lemma {:induction false} LastMatches(entries: seq<Resource>, t: seq<Byte>, id: int)
    ensures var k, m := LastIndex(entries, t, id), Matching(entries, t, id);
            (k == -1 <==> m == []) && (k >= 0 ==> m[|m| - 1] == entries[k])
  {
    if entries != [] {
      LastMatches(entries[..|entries| - 1], t, id);
    }
  }

  lemma PrefixParts(entries: seq<Resource>, k: nat)
    requires k <= |entries|
    ensures DataParts(entries[..k]) == DataParts(entries)[..k]
  {
  }

  /** The dictionary holds, for each type and id, the offset of its last entry. */
  lemma {:induction false} OffsetOfLast(entries: seq<Resource>, t: seq<Byte>, id: int)
    ensures var k := LastIndex(entries, t, id);
            && (k >= 0 <==> (t, id) in DataOffsets(entries))
            && (k >= 0 ==> DataOffsets(entries)[(t, id)] == Size(DataParts(entries)[..k]))
  {
    if entries != [] {
      var n := |entries| - 1;
      OffsetOfLast(entries[..n], t, id);
      PrefixParts(entries, n);
      var k := LastIndex(entries, t, id);
      if 0 <= k < n {
        assert DataParts(entries[..n])[..k] == DataParts(entries)[..k];
      }
    }
  }

  lemma {:induction false} LastFromEntry(entries: seq<Resource>, j: nat)
    requires j < |entries|
    ensures LastIndex(entries, entries[j].rtype, entries[j].rid) >= j
  {
    var n := |entries| - 1;
    if j < n {
      LastFromEntry(entries[..n], j);
    }
  }

  lemma {:induction false} NamesForAll(entries: seq<Resource>)
    ensures forall k :: 0 <= k < |entries| ==> KeyOf(entries[k]) in NamesOf(entries).byKey
  {
    if entries != [] {
      NamesForAll(entries[..|entries| - 1]);
    }
  }

  lemma OffsetsForAll(entries: seq<Resource>)
    ensures forall k :: 0 <= k < |entries| ==> KeyOf(entries[k]) in DataOffsets(entries)
  {
    forall k | 0 <= k < |entries|
      ensures KeyOf(entries[k]) in DataOffsets(entries)
    {
      LastFromEntry(entries, k);
      OffsetOfLast(entries, entries[k].rtype, entries[k].rid);
    }
  }

  // ---- Where things are in the file --------------------------------------------------------

  ghost predicate At(s: seq<Byte>, at: nat, part: seq<Byte>) {
    at + |part| <= |s| && s[at..at + |part|] == part
  }

  // ---- The name list -----------------------------------------------------------------------

  /** The first entry whose name has this text, or -1. */
  function FirstNamed(entries: seq<Resource>, text: string): (k: int)
    ensures -1 <= k < |entries|
    ensures k >= 0 ==> entries[k].name.text == text
  {
    if entries == [] then -1
    else
      var n := |entries| - 1;
      var k := FirstNamed(entries[..n], text);
      if k == -1 && entries[n].name.text == text then n else k
  }

  /** Each text that is not empty is stored once, as the Pascal string of its first entry. */
  lemma {:induction false} NameStored(entries: seq<Resource>, text: string)
    requires text != ""
    ensures var k, ns := FirstNamed(entries, text), NamesOf(entries);
            && (k >= 0 <==> text in ns.byName)
            && (k >= 0 ==> At(ns.bytes, ns.byName[text], Pascal(entries[k].name.encoded)))
  {
    hide Pascal, At;
    if entries != [] {
      var n := |entries| - 1;
      var before, added := NamesOf(entries[..n]).bytes, Pascal(entries[n].name.encoded);
      NameStored(entries[..n], text);
      AtEnd(before, added);
      var k := FirstNamed(entries[..n], text);
      if k >= 0 {
        AtStays(before, added, NamesOf(entries[..n]).byName[text], Pascal(entries[k].name.encoded));
      }
    }
  }

  lemma AtEnd(s: seq<Byte>, part: seq<Byte>)
    ensures At(s + part, |s|, part)
  {
  }

  lemma AtStays(s: seq<Byte>, after: seq<Byte>, at: nat, part: seq<Byte>)
    requires At(s, at, part)
    ensures At(s + after, at, part)
  {
    assert (s + after)[at..at + |part|] == s[at..at + |part|];
  }

  /** Different texts are stored at different places. */
  lemma {:induction false} NamesApart(entries: seq<Resource>, x: string, y: string)
    requires x in NamesOf(entries).byName && y in NamesOf(entries).byName && x != y
    ensures NamesOf(entries).byName[x] != NamesOf(entries).byName[y]
  {
    if entries != [] {
      var n := |entries| - 1;
      var before := NamesOf(entries[..n]);
      if x in before.byName && y in before.byName {
        NamesApart(entries[..n], x, y);
      } else if x in before.byName {
        NameInside(entries[..n], x);
      } else if y in before.byName {
        NameInside(entries[..n], y);
      }
    }
  }

  lemma {:induction false} NameInside(entries: seq<Resource>, text: string)
    requires text in NamesOf(entries).byName
    ensures NamesOf(entries).byName[text] < |NamesOf(entries).bytes|
  {
    hide Pascal;
    if entries != [] {
      var n := |entries| - 1;
      if text in NamesOf(entries[..n]).byName {
        NameInside(entries[..n], text);
      }
    }
  }

  /** The offset noted for a type and an id is that of the last such entry's name, or -1 for an empty one. */
  lemma {:induction false} NameOfLast(entries: seq<Resource>, t: seq<Byte>, id: int)
    ensures var k, ns := LastIndex(entries, t, id), NamesOf(entries);
            && (k >= 0 <==> (t, id) in ns.byKey)
            && (k >= 0 ==>
                  var text := entries[k].name.text;
                  if text == "" then ns.byKey[(t, id)] == -1
                  else text in ns.byName && ns.byKey[(t, id)] == ns.byName[text])
  {
    hide Pascal;
    if entries != [] {
      NameOfLast(entries[..|entries| - 1], t, id);
    }
  }

  /** The tables of a file that the reader relies on. */
  datatype Layout = Layout(gs: seq<Group>, offsets: map<Key, nat>, names: map<Key, int>, types: nat, data: nat)

  ghost predicate LaidOut(s: seq<Byte>, y: Layout) {
    var entries := Entries(y.gs);
    var refs := y.types + 2 + 8 * |y.gs|;
    && (forall i :: 0 <= i < |y.gs| ==> At(s, y.types + 2 + 8 * i, TypePart(y.gs, i)))
    && (forall k :: 0 <= k < |entries| ==>
          && KeyOf(entries[k]) in y.names && KeyOf(entries[k]) in y.offsets
          && At(s, refs + 12 * k, RefPart(entries[k], y.names[KeyOf(entries[k])], y.offsets[KeyOf(entries[k])])))
    && (forall k :: 0 <= k < |entries| ==> At(s, y.data + Size(DataParts(entries)[..k]), DataPart(entries[k])))
  }

  /** The limits of the fields: 16 bits for counts, ids and offsets in the map, 24 bits for offsets of data. */
  ghost predicate WithinFormat(gs: seq<Group>) {
    var entries := Entries(gs);
    && |gs| <= 0xFFFF
    && (forall i :: 0 <= i < |gs| ==>
          |gs[i].rtype| == 4 && |gs[i].list| <= 0xFFFF && 2 + 8 * |gs| + 12 * Before(gs, i) <= 0xFFFF)
    && (forall k :: 0 <= k < |entries| ==>
          && -0x8000 <= entries[k].rid < 0x8000
          && Size(DataParts(entries)[..k]) < 0x100_0000 && |entries[k].data| < TWO_32)
  }

  /** The entries of one group in the list of all entries. */
  lemma {:induction false} GroupInEntries(gs: seq<Group>, g: nat, j: nat)
    requires g < |gs| && j < |gs[g].list|
    ensures Before(gs, g) + |gs[g].list| <= |Entries(gs)|
    ensures Entries(gs)[Before(gs, g) + j] == gs[g].list[j]
  {
    var n := |gs| - 1;
    BeforeIsLength(gs, g);
    if g < n {
      GroupInEntries(gs[..n], g, j);
      BeforeIsLength(gs[..n], g);
      assert gs[..n][..g] == gs[..g];
    }
  }

  lemma {:induction false} BeforeIsLength(gs: seq<Group>, g: nat)
    requires g <= |gs|
    ensures Before(gs, g) == |Entries(gs[..g])|
  {
    if g > 0 {
      BeforeIsLength(gs, g - 1);
      assert gs[..g][..g - 1] == gs[..g - 1];
    }
  }

  // ---- Reading one resource ----------------------------------------------------------------

  /** A field of a record. */
  lemma FieldAt(s: seq<Byte>, at: nat, before: seq<Byte>, field: seq<Byte>, after: seq<Byte>)
    requires At(s, at, before + field + after)
    ensures At(s, at + |before|, field)
  {
    var part := before + field + after;
    var x := s[at + |before|..at + |before| + |field|];
    forall i | 0 <= i < |field|
      ensures x[i] == field[i]
    {
      assert s[at..at + |part|][|before| + i] == part[|before| + i];
    }
    assert x == field;
  }

  /** A data part is read back. */
  lemma FetchBack(s: seq<Byte>, at: nat, r: Resource)
    requires At(s, at, DataPart(r)) && |r.data| < TWO_32
    ensures Fetch(s, at) == Found(r.data)
  {
    hide BE32, Read32;
    var size := BE32(|r.data|);
    assert [] + size + r.data == DataPart(r) == size + r.data + [];
    FieldAt(s, at, [], size, r.data);
    FieldAt(s, at, size, r.data, []);
    Read32Back(s, at, |r.data|);
    U32Same(|r.data|);
  }

  /** The fields of a reference entry are read back. */
  lemma RefBack(s: seq<Byte>, at: nat, r: Resource, nameOff: int, dataOff: nat)
    requires At(s, at, RefPart(r, nameOff, dataOff))
    requires -0x8000 <= r.rid < 0x8000 && dataOff < 0x100_0000
    ensures at + 12 <= |s| && S16(Read16(s, at)) == r.rid && Read24(s, at + 5) == dataOff
  {
    hide BE16, BE24, Read16, Read24;
    var id, name, off, handle := BE16(r.rid), BE16(nameOff), BE24(dataOff), [0, 0, 0, 0];
    var rest := name + [0] + off + handle;
    assert RefPart(r, nameOff, dataOff) == [] + id + rest == (id + name + [0]) + off + handle;
    FieldAt(s, at, [], id, rest);
    FieldAt(s, at, id + name + [0], off, handle);
    Read16Back(s, at, r.rid);
    Read24Back(s, at + 5, dataOff);
  }

  /** The fields of a type entry are read back. */
  lemma TypeBack(s: seq<Byte>, gs: seq<Group>, at: nat, g: nat)
    requires g < |gs| && At(s, at, TypePart(gs, g))
    requires |gs[g].rtype| == 4 && 0 < |gs[g].list| <= 0xFFFF && 2 + 8 * |gs| + 12 * Before(gs, g) <= 0xFFFF
    ensures at + 8 <= |s| && Read32(s, at) == Read32(gs[g].rtype, 0)
    ensures U16(Read16(s, at + 4) + 1) == |gs[g].list|
    ensures Read16(s, at + 6) == 2 + 8 * |gs| + 12 * Before(gs, g)
  {
    hide BE16, Read16, Read32, Before, U16;
    CountBack(|gs[g].list|);
    U16Same(2 + 8 * |gs| + 12 * Before(gs, g));
    var t, count, off := gs[g].rtype, BE16(|gs[g].list| - 1), BE16(2 + 8 * |gs| + 12 * Before(gs, g));
    ThreeFields(t, count, off);
    FieldAt(s, at, [], t, count + off);
    FieldAt(s, at, t, count, off);
    FieldAt(s, at, t + count, off, []);
    SameRead32(s, at, t);
    Read16Back(s, at + 4, |gs[g].list| - 1);
    Read16Back(s, at + 6, 2 + 8 * |gs| + 12 * Before(gs, g));
  }

  lemma CountBack(n: nat)
    requires 0 < n <= 0xFFFF
    ensures U16(U16(n - 1) + 1) == n
  {
  }

  lemma ThreeFields(a: seq<Byte>, b: seq<Byte>, c: seq<Byte>)
    ensures a + b + c == [] + a + (b + c) && a + b + c == (a + b) + c + []
  {
  }

  lemma SameRead32(s: seq<Byte>, at: nat, t: seq<Byte>)
    requires |t| == 4 && At(s, at, t)
    ensures Read32(s, at) == Read32(t, 0)
  {
    assert forall i :: 0 <= i < 4 ==> s[at..at + 4][i] == t[i];
  }

  // ---- The scans ---------------------------------------------------------------------------

  /** Entry `j` of group `g` leads to the last entry with its type and id. */
  lemma EntryLeads(s: seq<Byte>, y: Layout, g: nat, j: nat)
    requires LaidOut(s, y) && WithinFormat(y.gs) && ProperGroups(y.gs)
    requires y.offsets == DataOffsets(Entries(y.gs))
    requires g < |y.gs| && j < |y.gs[g].list|
    ensures var at := y.types + 2 + 8 * |y.gs| + 12 * Before(y.gs, g) + 12 * j;
            var r := y.gs[g].list[j];
            var k := LastIndex(Entries(y.gs), y.gs[g].rtype, r.rid);
            && at + 12 <= |s| && S16(Read16(s, at)) == r.rid
            && k >= 0 && Fetch(s, y.data + Read24(s, at + 5)) == Found(Entries(y.gs)[k].data)
  {
    hide RefPart, DataPart, Read16, Read24, S16, Fetch, DataOffsets, LastIndex, Before, Entries, Size;
    var e := Before(y.gs, g) + j;
    var entries := Entries(y.gs);
    GroupInEntries(y.gs, g, j);
    var r := entries[e];
    OffsetOfLast(entries, r.rtype, r.rid);
    LastFromEntry(entries, e);
    var k := LastIndex(entries, r.rtype, r.rid);
    assert y.offsets[KeyOf(r)] == Size(DataParts(entries)[..k]);
    RefBack(s, y.types + 2 + 8 * |y.gs| + 12 * e, r, y.names[KeyOf(r)], y.offsets[KeyOf(r)]);
    FetchBack(s, y.data + y.offsets[KeyOf(r)], entries[k]);
  }

  ghost predicate HasId(list: seq<Resource>, id: int, j: nat) {
    exists i :: j <= i < |list| && list[i].rid == id
  }

  /** In a laid-out file the references of group `g` lead to the last entry with the id. */
  lemma {:induction false} ScanGroup(s: seq<Byte>, y: Layout, g: nat, id: int, j: nat)
    requires LaidOut(s, y) && WithinFormat(y.gs) && ProperGroups(y.gs)
    requires y.offsets == DataOffsets(Entries(y.gs))
    requires g < |y.gs| && j <= |y.gs[g].list|
    ensures var found := ScanRefs(s, y.data, y.types + 2 + 8 * |y.gs| + 12 * Before(y.gs, g), |y.gs[g].list|, id, j);
            var k := LastIndex(Entries(y.gs), y.gs[g].rtype, id);
            if HasId(y.gs[g].list, id, j) then k >= 0 && found == Found(Entries(y.gs)[k].data) else found == Missing
    decreases |y.gs[g].list| - j
  {
    hide LaidOut, WithinFormat, ProperGroups, Read16, Read24, S16, Fetch, DataOffsets, LastIndex, Before, Entries;
    var list := y.gs[g].list;
    if j < |list| {
      EntryLeads(s, y, g, j);
      if list[j].rid != id {
        ScanGroup(s, y, g, id, j + 1);
        assert HasId(list, id, j) == HasId(list, id, j + 1);
      }
    }
  }

  // ---- The lookup --------------------------------------------------------------------------

  /** The type scan comes to the group of the type, if there is one, and stops there if it has the id. */
  lemma {:induction false} ScanAll(s: seq<Byte>, y: Layout, t: seq<Byte>, id: int, i: nat)
    requires LaidOut(s, y) && WithinFormat(y.gs) && ProperGroups(y.gs) && |t| == 4
    requires y.offsets == DataOffsets(Entries(y.gs))
    requires i <= |y.gs|
    ensures var found := ScanTypes(s, y.data, y.types, |y.gs|, Read32(t, 0), id, i);
            var g := FindGroup(y.gs, t, i);
            var k := LastIndex(Entries(y.gs), t, id);
            if g < |y.gs| && HasId(y.gs[g].list, id, 0) then k >= 0 && found == Found(Entries(y.gs)[k].data)
            else found == Missing
    decreases |y.gs| - i
  {
    hide LaidOut, WithinFormat, ProperGroups, Read16, Read32, ScanRefs, DataOffsets, LastIndex, Before, Entries, U16,
         HasId;
    if i < |y.gs| {
      TypeEntryBack(s, y, i);
      SameTag(y.gs[i].rtype, t);
      if y.gs[i].rtype == t {
        ScanGroup(s, y, i, id, 0);
        if !HasId(y.gs[i].list, id, 0) {
          ScanAll(s, y, t, id, i + 1);
          NoLaterGroup(y.gs, t, i);
        }
      } else {
        ScanAll(s, y, t, id, i + 1);
      }
    }
  }

  lemma TypeEntryBack(s: seq<Byte>, y: Layout, g: nat)
    requires LaidOut(s, y) && WithinFormat(y.gs) && ProperGroups(y.gs) && g < |y.gs|
    ensures var at := y.types + 2 + 8 * g;
            && |y.gs[g].rtype| == 4
            && at + 8 <= |s| && Read32(s, at) == Read32(y.gs[g].rtype, 0)
            && U16(Read16(s, at + 4) + 1) == |y.gs[g].list|
            && Read16(s, at + 6) == 2 + 8 * |y.gs| + 12 * Before(y.gs, g)
  {
    hide TypePart, Entries, Before;
    TypeBack(s, y.gs, y.types + 2 + 8 * g, g);
  }

  lemma NoLaterGroup(gs: seq<Group>, t: seq<Byte>, i: nat)
    requires ProperGroups(gs) && i < |gs| && gs[i].rtype == t
    ensures FindGroup(gs, t, i + 1) == |gs|
  {
    assert FindGroup(gs, t, i + 1) <= |gs|;
  }

  /** The group has the id exactly if some entry of all has type and id. */
  lemma GroupHasLast(gs: seq<Group>, t: seq<Byte>, id: int)
    requires ProperGroups(gs)
    ensures var g := FindGroup(gs, t, 0);
            (g < |gs| && HasId(gs[g].list, id, 0)) <==> LastIndex(Entries(gs), t, id) >= 0
  {
    EntriesMatching(gs, t, id);
    LastMatches(Entries(gs), t, id);
    var g := FindGroup(gs, t, 0);
    if g < |gs| {
      var list := gs[g].list;
      LastMatches(list, t, id);
      if HasId(list, id, 0) {
        var i :| 0 <= i < |list| && list[i].rid == id;
        LastFromEntry(list, i);
      } else {
        assert LastIndex(list, t, id) == -1;
      }
    }
  }

  // ---- The whole file ----------------------------------------------------------------------

  lemma AtSplit(s: seq<Byte>, at: nat, a: seq<Byte>, b: seq<Byte>)
    requires At(s, at, a + b)
    ensures At(s, at, a) && At(s, at + |a|, b)
  {
    SubAt(s, at, a + b, 0, a);
    SubAt(s, at, a + b, |a|, b);
  }

  lemma SubAt(s: seq<Byte>, at: nat, table: seq<Byte>, from: nat, part: seq<Byte>)
    requires At(s, at, table) && from + |part| <= |table| && table[from..from + |part|] == part
    ensures At(s, at + from, part)
  {
    var x := s[at + from..at + from + |part|];
    forall i | 0 <= i < |part|
      ensures x[i] == part[i]
    {
      assert s[at..at + |table|][from + i] == table[from + i] == table[from..from + |part|][i];
    }
    assert x == part;
  }

  /** A record of a table that lies in the file. */
  lemma RecordAt(s: seq<Byte>, at: nat, parts: seq<seq<Byte>>, k: nat)
    requires At(s, at, Concat(parts)) && k < |parts|
    ensures At(s, at + Size(parts[..k]), parts[k])
  {
    hide Concat, Size, At;
    PartAt(parts, k);
    SubAt(s, at, Concat(parts), Size(parts[..k]), parts[k]);
  }

  /** Records of one size lie at multiples of it. */
  lemma FixedRecordAt(s: seq<Byte>, at: nat, parts: seq<seq<Byte>>, w: nat, k: nat)
    requires At(s, at, Concat(parts)) && k < |parts|
    requires forall i :: 0 <= i < |parts| ==> |parts[i]| == w
    ensures At(s, at + w * k, parts[k])
  {
    hide Concat, At;
    RecordAt(s, at, parts, k);
    FixedSize(parts[..k], w);
  }

  function MapStart(dataLen: nat): nat { DATA_START + dataLen }

  /** The parts of a written file. */
  lemma FileParts(gs: seq<Group>, refs: seq<seq<Byte>>, names: seq<Byte>, data: seq<Byte>)
    ensures var f := FileOf(gs, refs, names, data);
            var m := MapStart(|data|);
            var list := TypeList(gs, refs);
            && |f| == m + MAP_HEADER + |list| + |names|
            && At(f, 0, Header(|data|, MAP_HEADER + |list| + |names|))
            && At(f, DATA_START, data)
            && At(f, m + 24, BE16(MAP_HEADER))
            && At(f, m + 26, BE16(MAP_HEADER + |list|))
            && At(f, m + MAP_HEADER, list)
            && At(f, m + MAP_HEADER + |list|, names)
  {
    hide Header, Zeros, TypeList, BE16, At;
    var list := TypeList(gs, refs);
    var header := Header(|data|, MAP_HEADER + |list| + |names|);
    var area := MapArea(list, names, |data|);
    var f := FileOf(gs, refs, names, data);
    var m := MapStart(|data|);
    Whole(f);
    AtSplit(f, 0, header + Zeros(240) + data, area);
    AtSplit(f, 0, header + Zeros(240), data);
    AtSplit(f, 0, header, Zeros(240));
    var off, off2 := BE16(MAP_HEADER), BE16(MAP_HEADER + |list|);
    AtSplit(f, m, header + Zeros(8) + off + off2 + list, names);
    AtSplit(f, m, header + Zeros(8) + off + off2, list);
    AtSplit(f, m, header + Zeros(8) + off, off2);
    AtSplit(f, m, header + Zeros(8), off);
  }

  lemma Whole(f: seq<Byte>)
    ensures At(f, 0, f)
  {
  }

  /** The tables of a written file are where the reader looks for them. */
  lemma WrittenIsLaidOut(gs: seq<Group>)
    requires ProperGroups(gs) && WithinFormat(gs)
    requires forall k :: 0 <= k < |Entries(gs)| ==>
               KeyOf(Entries(gs)[k]) in NamesOf(Entries(gs)).byKey && KeyOf(Entries(gs)[k]) in DataOffsets(Entries(gs))
    ensures var e := Entries(gs);
            var refs := RefParts(e, NamesOf(e).byKey, DataOffsets(e));
            var data := Concat(DataParts(e));
            var f := FileOf(gs, refs, NamesOf(e).bytes, data);
            && LaidOut(f, Layout(gs, DataOffsets(e), NamesOf(e).byKey, MapStart(|data|) + MAP_HEADER, DATA_START))
            && At(f, MapStart(|data|) + MAP_HEADER, BE16(|gs| - 1))
  {
    hide At, Concat, Size, BE16, Header, Zeros, NamesOf, DataOffsets, Entries, TypePart, RefPart, DataPart, FileOf;
    var e := Entries(gs);
    var refs := RefParts(e, NamesOf(e).byKey, DataOffsets(e));
    var data := Concat(DataParts(e));
    var f := FileOf(gs, refs, NamesOf(e).bytes, data);
    var types := MapStart(|data|) + MAP_HEADER;
    FileParts(gs, refs, NamesOf(e).bytes, data);
    AtSplit(f, types, BE16(|gs| - 1) + Concat(TypeParts(gs)), Concat(refs));
    AtSplit(f, types, BE16(|gs| - 1), Concat(TypeParts(gs)));
    TypePartSizes(gs);
    FixedSize(TypeParts(gs), 8);
    forall i | 0 <= i < |gs|
      ensures At(f, types + 2 + 8 * i, TypePart(gs, i))
    {
      FixedRecordAt(f, types + 2, TypeParts(gs), 8, i);
    }
    forall k | 0 <= k < |e|
      ensures At(f, types + 2 + 8 * |gs| + 12 * k,
                 RefPart(e[k], NamesOf(e).byKey[KeyOf(e[k])], DataOffsets(e)[KeyOf(e[k])]))
      ensures At(f, DATA_START + Size(DataParts(e)[..k]), DataPart(e[k]))
    {
      FixedRecordAt(f, types + 2 + 8 * |gs|, refs, 12, k);
      RecordAt(f, DATA_START, DataParts(e), k);
    }
  }

  lemma TypePartSizes(gs: seq<Group>)
    requires WithinFormat(gs)
    ensures forall i :: 0 <= i < |gs| ==> |TypeParts(gs)[i]| == 8
  {
    hide Entries, Before, BE16;
  }

  /** The file written for a list of resources. */
  function Written(rs: seq<Resource>): seq<Byte> {
    var gs := SortGroups(Grouped(rs));
    var e := Entries(gs);
    NamesForAll(e);
    OffsetsForAll(e);
    FileOf(gs, RefParts(e, NamesOf(e).byKey, DataOffsets(e)), NamesOf(e).bytes, Concat(DataParts(e)))
  }

  /** The header and the map's offset field are read back. */
  lemma HeaderBack(gs: seq<Group>, refs: seq<seq<Byte>>, names: seq<Byte>, data: seq<Byte>)
    requires |FileOf(gs, refs, names, data)| < TWO_32
    ensures var f := FileOf(gs, refs, names, data);
            var m := MapStart(|data|);
            && |f| >= m + MAP_HEADER
            && Read32(f, 0) == DATA_START && Read32(f, 4) == m && Read32(f, 8) == |data| && Read32(f, 12) == |f| - m
            && Read16(f, m + 24) == MAP_HEADER
  {
    hide At, BE32, BE16, Read32, Read16, FileOf, TypeList, U32, U16;
    var f := FileOf(gs, refs, names, data);
    var m := MapStart(|data|);
    FileParts(gs, refs, names, data);
    var a, b, c, d := BE32(DATA_START), BE32(m), BE32(|data|), BE32(|f| - m);
    AtSplit(f, 0, a + b + c, d);
    AtSplit(f, 0, a + b, c);
    AtSplit(f, 0, a, b);
    At32(f, 0, DATA_START);
    At32(f, 4, m);
    At32(f, 8, |data|);
    At32(f, 12, |f| - m);
    At16(f, m + 24, MAP_HEADER);
  }

  lemma At32(f: seq<Byte>, at: nat, x: nat)
    requires At(f, at, BE32(x)) && x < TWO_32
    ensures at + 4 <= |f| && Read32(f, at) == x
  {
    Read32Back(f, at, x);
    U32Same(x);
  }

  lemma At16(f: seq<Byte>, at: nat, x: nat)
    requires At(f, at, BE16(x)) && x < TWO_16
    ensures at + 2 <= |f| && Read16(f, at) == x
  {
    Read16Back(f, at, x);
    U16Same(x);
  }

  /** The number of types is read back, zero included. */
  lemma TypeCountBack(f: seq<Byte>, at: nat, n: nat)
    requires At(f, at, BE16(n - 1)) && n <= 0xFFFF
    ensures at + 2 <= |f| && U16(Read16(f, at) + 1) == n
  {
    Read16Back(f, at, n - 1);
  }

  /**
   * The round trip. In the file written for any list within the format's limits, looking up a type and an
   * id finds the data of the last resource of the list with that type and id, and nothing if there is none.
   */
  lemma GetFromWritten(rs: seq<Resource>, t: seq<Byte>, id: int)
    requires WithinFormat(SortGroups(Grouped(rs))) && |Written(rs)| < TWO_32 && |t| == 4
    ensures var m := Matching(rs, t, id);
            LookUp(Written(rs), Read32(t, 0), id) == if m == [] then Missing else Found(m[|m| - 1].data)
  {
    hide LookUp, FileOf, WithinFormat, ProperGroups, Matching, Entries, LastIndex, FindGroup, HasId, DataOffsets,
         NamesOf, Concat, SortGroups, Grouped, Read32;
    var gs := SortGroups(Grouped(rs));
    var e := Entries(gs);
    WrittenOrder(rs, t, id);
    LastMatches(e, t, id);
    GroupHasLast(gs, t, id);
    NamesForAll(e);
    OffsetsForAll(e);
    LookUpIsScan(gs, t, id);
  }

  lemma LookUpIsScan(gs: seq<Group>, t: seq<Byte>, id: int)
    requires ProperGroups(gs) && WithinFormat(gs) && |t| == 4
    requires forall k :: 0 <= k < |Entries(gs)| ==>
               KeyOf(Entries(gs)[k]) in NamesOf(Entries(gs)).byKey && KeyOf(Entries(gs)[k]) in DataOffsets(Entries(gs))
    requires |FileOf(gs, RefParts(Entries(gs), NamesOf(Entries(gs)).byKey, DataOffsets(Entries(gs))),
                     NamesOf(Entries(gs)).bytes, Concat(DataParts(Entries(gs))))| < TWO_32
    ensures var e := Entries(gs);
            var f := FileOf(gs, RefParts(e, NamesOf(e).byKey, DataOffsets(e)), NamesOf(e).bytes, Concat(DataParts(e)));
            var g := FindGroup(gs, t, 0);
            var k := LastIndex(e, t, id);
            if g < |gs| && HasId(gs[g].list, id, 0) then k >= 0 && LookUp(f, Read32(t, 0), id) == Found(e[k].data)
            else LookUp(f, Read32(t, 0), id) == Missing
  {
    hide At, Concat, BE16, NamesOf, DataOffsets, Entries, FileOf, ScanTypes, LaidOut, WithinFormat, ProperGroups,
         Read16, Read32, U16, LastIndex, HasId, FindGroup;
    var e := Entries(gs);
    var refs, data := RefParts(e, NamesOf(e).byKey, DataOffsets(e)), Concat(DataParts(e));
    var f := FileOf(gs, refs, NamesOf(e).bytes, data);
    var types := MapStart(|data|) + MAP_HEADER;
    WrittenIsLaidOut(gs);
    HeaderBack(gs, refs, NamesOf(e).bytes, data);
    AtMost64K(gs);
    TypeCountBack(f, types, |gs|);
    U32Same(DATA_START + |data|);
    U32Same(|f|);
    ScanAll(f, Layout(gs, DataOffsets(e), NamesOf(e).byKey, types, DATA_START), t, id, 0);
  }

  lemma AtMost64K(gs: seq<Group>)
    requires WithinFormat(gs)
    ensures |gs| <= 0xFFFF
  {
  }
}
