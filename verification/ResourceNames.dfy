/** A written file leads from each of its references to the name of the resource, byte by byte. */
module ResourceNames {
  import opened Words
  import opened ByteTables
  import opened ResourceFormat
  import opened ResourceLaws
  import opened ResourceReader
  import opened ResourceRoundTrip

  /** The name field, the attributes and the handle of a reference. */
  lemma RefNameBack(s: seq<Byte>, at: nat, r: Resource, nameOff: int, dataOff: nat)
    requires At(s, at, RefPart(r, nameOff, dataOff)) && -1 <= nameOff < 0x8000
    ensures at + 12 <= |s| && Read16(s, at + 2) == if nameOff == -1 then 0xFFFF else nameOff
    ensures s[at + 4] == 0 && s[at + 8..at + 12] == [0, 0, 0, 0]
  {
    hide BE16, BE24, Read16;
    var id, name, off, handle := BE16(r.rid), BE16(nameOff), BE24(dataOff), [0, 0, 0, 0];
    var rest := [0] + off + handle;
    assert RefPart(r, nameOff, dataOff) == id + name + rest;
    assert RefPart(r, nameOff, dataOff) == (id + name) + [0] + (off + handle);
    assert RefPart(r, nameOff, dataOff) == (id + name + [0] + off) + handle + [];
    FieldAt(s, at, id, name, rest);
    FieldAt(s, at, id + name, [0], off + handle);
    FieldAt(s, at, id + name + [0] + off, handle, []);
    Read16Back(s, at + 2, nameOff);
    AllOnes(nameOff);
  }

  lemma AllOnes(x: int)
    requires -1 <= x < 0x8000
    ensures U16(x) == if x == -1 then 0xFFFF else x
  {
  }

  /** A Pascal string in the file: its length byte, and its characters, of which 255 fit. */
  ghost predicate PascalAt(f: seq<Byte>, at: nat, text: seq<Byte>) {
    var n := if |text| > 255 then 255 else |text|;
    at + 1 + n <= |f| && f[at] == n && f[at + 1..at + 1 + n] == text[..n]
  }

  lemma PascalIs(f: seq<Byte>, at: nat, text: seq<Byte>)
    requires At(f, at, Pascal(text))
    ensures PascalAt(f, at, text)
  {
    var n := if |text| > 255 then 255 else |text|;
    var whole := f[at..at + 1 + n];
    assert whole == [n] + text[..n];
    assert f[at] == whole[0] && f[at + 1..at + 1 + n] == whole[1..];
  }

  lemma TypeListSize(gs: seq<Group>, refs: seq<seq<Byte>>)
    requires WithinFormat(gs) && forall k :: 0 <= k < |refs| ==> |refs[k]| == 12
    ensures |TypeList(gs, refs)| == 2 + 8 * |gs| + 12 * |refs|
  {
    hide Concat, Size, Entries, Before, TypePart;
    TypePartSizes(gs);
    FixedSize(TypeParts(gs), 8);
    FixedSize(refs, 12);
  }

  /** Reference `e` of `count` and the name list stand in the file where its map says. */
  ghost predicate Placed(f: seq<Byte>, m: nat, types: nat, count: nat, e: nat, part: seq<Byte>, names: seq<Byte>) {
    && |f| >= 8 && Read32(f, 4) == m && |f| >= m + 28
    && Read16(f, m + 24) == 28 && Read16(f, m + 26) == 30 + 8 * types + 12 * count
    && At(f, m + 30 + 8 * types + 12 * e, part)
    && At(f, m + 30 + 8 * types + 12 * count, names)
  }

  /** The map's two offsets and the name list. */
  lemma MapPlaces(gs: seq<Group>, refs: seq<seq<Byte>>, names: seq<Byte>, data: seq<Byte>)
    requires WithinFormat(gs) && forall k :: 0 <= k < |refs| ==> |refs[k]| == 12
    requires |FileOf(gs, refs, names, data)| < TWO_32 && 30 + 8 * |gs| + 12 * |refs| <= 0xFFFF
    ensures var f, m := FileOf(gs, refs, names, data), MapStart(|data|);
            && |f| >= 8 && Read32(f, 4) == m && |f| >= m + 28
            && Read16(f, m + 24) == 28 && Read16(f, m + 26) == 30 + 8 * |gs| + 12 * |refs|
            && At(f, m + 30 + 8 * |gs| + 12 * |refs|, names)
  {
    hide At, BE16, FileOf, WithinFormat, Read16, Read32, TypeList;
    var f, m := FileOf(gs, refs, names, data), MapStart(|data|);
    HeaderBack(gs, refs, names, data);
    FileParts(gs, refs, names, data);
    TypeListSize(gs, refs);
    At16(f, m + 26, MAP_HEADER + |TypeList(gs, refs)|);
  }

  /** Reference `e`. */
  lemma RefPlaces(gs: seq<Group>, e: nat)
    requires ProperGroups(gs) && WithinFormat(gs) && e < |Entries(gs)|
    requires forall k :: 0 <= k < |Entries(gs)| ==>
               KeyOf(Entries(gs)[k]) in NamesOf(Entries(gs)).byKey && KeyOf(Entries(gs)[k]) in DataOffsets(Entries(gs))
    ensures var n := Entries(gs);
            var f := FileOf(gs, RefParts(n, NamesOf(n).byKey, DataOffsets(n)), NamesOf(n).bytes, Concat(DataParts(n)));
            At(f, MapStart(|Concat(DataParts(n))|) + 30 + 8 * |gs| + 12 * e,
               RefPart(n[e], NamesOf(n).byKey[KeyOf(n[e])], DataOffsets(n)[KeyOf(n[e])]))
  {
    hide At, Concat, BE16, NamesOf, DataOffsets, Entries, FileOf, WithinFormat, ProperGroups, RefPart, TypePart;
    WrittenIsLaidOut(gs);
  }

  /** The fields of the map that lead to a name are within their limits. */
  ghost predicate NameFits(gs: seq<Group>, n: seq<Resource>, e: nat) {
    && 30 + 8 * |gs| + 12 * |n| <= 0xFFFF && e < |n|
    && KeyOf(n[e]) in NamesOf(n).byKey && NamesOf(n).byKey[KeyOf(n[e])] < 0x8000
  }

  lemma NamePlaces(rs: seq<Resource>, gs: seq<Group>, n: seq<Resource>, e: nat) returns (m: nat, dataOff: nat)
    requires gs == SortGroups(Grouped(rs)) && n == Entries(gs)
    requires WithinFormat(gs) && |Written(rs)| < TWO_32 && NameFits(gs, n, e)
    ensures Placed(Written(rs), m, |gs|, |n|, e, RefPart(n[e], NamesOf(n).byKey[KeyOf(n[e])], dataOff),
                   NamesOf(n).bytes)
  {
    hide At, Concat, NamesOf, DataOffsets, Entries, FileOf, WithinFormat, ProperGroups, RefPart, Grouped, SortGroups,
         Read16, Read32;
    WrittenOrder(rs, n[e].rtype, n[e].rid);
    NamesForAll(n);
    OffsetsForAll(n);
    m, dataOff := MapStart(|Concat(DataParts(n))|), DataOffsets(n)[KeyOf(n[e])];
    RefPlaces(gs, e);
    MapPlaces(gs, RefParts(n, NamesOf(n).byKey, DataOffsets(n)), NamesOf(n).bytes, Concat(DataParts(n)));
  }

  /**
   * Reference `e` in a file of `types` types has no attributes and no handle. Its name field is 0xFFFF if there is to
   * be no name; else it leads, from the start of the name list that the map notes, to the name.
   */
  ghost predicate LeadsToName(f: seq<Byte>, types: nat, e: nat, unnamed: bool, name: seq<Byte>) {
    && |f| >= 8 && |f| >= Read32(f, 4) + 28
    && var m := Read32(f, 4);
       var at := m + Read16(f, m + 24) + 2 + 8 * types + 12 * e;
       && at + 12 <= |f| && f[at + 4] == 0 && f[at + 8..at + 12] == [0, 0, 0, 0]
       && if unnamed then Read16(f, at + 2) == 0xFFFF
          else PascalAt(f, m + Read16(f, m + 26) + Read16(f, at + 2), name)
  }

  /** What is read where the parts of the file stand. */
  lemma NameRead(f: seq<Byte>, m: nat, types: nat, count: nat, e: nat, r: Resource, off: int, dataOff: nat,
                 names: seq<Byte>, name: seq<Byte>)
    requires Placed(f, m, types, count, e, RefPart(r, off, dataOff), names)
    requires -1 <= off < 0x8000 && (off >= 0 ==> At(names, off, Pascal(name)))
    ensures LeadsToName(f, types, e, off == -1, name)
  {
    hide At, Read16, Read32, RefPart, Pascal, PascalAt;
    RefNameBack(f, m + 30 + 8 * types + 12 * e, r, off, dataOff);
    if off >= 0 {
      InPart(f, m + 30 + 8 * types + 12 * count, names, off, Pascal(name));
      PascalIs(f, m + 30 + 8 * types + 12 * count + off, name);
    }
  }

  /** The name that the references of a type and an id are to lead to, as the first resource with the text has it. */
  ghost function StoredName(n: seq<Resource>, k: nat): seq<Byte>
    requires k < |n|
  {
    var first := FirstNamed(n, n[k].name.text);
    if first >= 0 then n[first].name.encoded else []
  }

  /** The name list has that name where the offset noted for type and id says. */
  lemma NoteIsRight(n: seq<Resource>, e: nat)
    requires e < |n|
    ensures LastIndex(n, n[e].rtype, n[e].rid) >= e && KeyOf(n[e]) in NamesOf(n).byKey
    ensures var k, off := LastIndex(n, n[e].rtype, n[e].rid), NamesOf(n).byKey[KeyOf(n[e])];
            && off >= -1 && (off == -1 <==> n[k].name.text == "")
            && (off >= 0 ==> FirstNamed(n, n[k].name.text) >= 0 && At(NamesOf(n).bytes, off, Pascal(StoredName(n, k))))
  {
    hide At, NamesOf, LastIndex, FirstNamed, Pascal;
    LastFromEntry(n, e);
    NameOfLast(n, n[e].rtype, n[e].rid);
    var text := n[LastIndex(n, n[e].rtype, n[e].rid)].name.text;
    if text != "" {
      NameStored(n, text);
    }
  }

  /**
   * In a written file every reference leads to the name of the last resource with its type and id, as it is encoded for
   * the first resource with the same text, or to none if that is empty.
   */
  lemma NameFromWritten(rs: seq<Resource>, gs: seq<Group>, n: seq<Resource>, e: nat)
    requires gs == SortGroups(Grouped(rs)) && n == Entries(gs)
    requires WithinFormat(gs) && |Written(rs)| < TWO_32 && NameFits(gs, n, e)
    ensures var k := LastIndex(n, n[e].rtype, n[e].rid);
            && k >= e && (n[k].name.text != "" ==> FirstNamed(n, n[k].name.text) >= 0)
            && LeadsToName(Written(rs), |gs|, e, n[k].name.text == "", StoredName(n, k))
  {
    hide At, NamesOf, Entries, WithinFormat, RefPart, LastIndex, FirstNamed, Pascal, Grouped, SortGroups, LeadsToName,
         StoredName, Written, Placed;
    var m, dataOff := NamePlaces(rs, gs, n, e);
    NoteIsRight(n, e);
    var ns, k := NamesOf(n), LastIndex(n, n[e].rtype, n[e].rid);
    NameRead(Written(rs), m, |gs|, |n|, e, n[e], ns.byKey[KeyOf(n[e])], dataOff, ns.bytes, StoredName(n, k));
  }

  lemma InPart(f: seq<Byte>, at: nat, whole: seq<Byte>, from: nat, part: seq<Byte>)
    requires At(f, at, whole) && At(whole, from, part)
    ensures At(f, at + from, part)
  {
    SubAt(f, at, whole, from, part);
  }

  /** The map begins with a copy of the file's header, and what belongs to neither is zero. */
  lemma MapCopies(gs: seq<Group>, refs: seq<seq<Byte>>, names: seq<Byte>, data: seq<Byte>)
    ensures var f, m := FileOf(gs, refs, names, data), 256 + |data|;
            && |f| >= m + 28 && f[m..m + 16] == f[..16]
            && f[16..256] == Zeros(240) && f[256..m] == data && f[m + 16..m + 24] == Zeros(8)
  {
    hide Header, Zeros, TypeList, BE16, At;
    var list := TypeList(gs, refs);
    var header := Header(|data|, MAP_HEADER + |list| + |names|);
    var off, off2 := BE16(MAP_HEADER), BE16(MAP_HEADER + |list|);
    var f, m := FileOf(gs, refs, names, data), 256 + |data|;
    Whole(f);
    AtSplit(f, 0, header + Zeros(240) + data, MapArea(list, names, |data|));
    AtSplit(f, 0, header + Zeros(240), data);
    AtSplit(f, 0, header, Zeros(240));
    AtSplit(f, m, header + Zeros(8) + off + off2 + list, names);
    AtSplit(f, m, header + Zeros(8) + off + off2, list);
    AtSplit(f, m, header + Zeros(8) + off, off2);
    AtSplit(f, m, header + Zeros(8), off);
    AtSplit(f, m, header, Zeros(8));
    SliceOf(f, 0, header);
    SliceOf(f, 16, Zeros(240));
    SliceOf(f, 256, data);
    SliceOf(f, m, header);
    SliceOf(f, m + 16, Zeros(8));
  }

  lemma SliceOf(f: seq<Byte>, at: nat, part: seq<Byte>)
    requires At(f, at, part)
    ensures at + |part| <= |f| && f[at..at + |part|] == part
  {
  }
}
