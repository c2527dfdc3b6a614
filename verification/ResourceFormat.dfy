/** The layout that gen_rsrc.py gives a resource file. */
module ResourceFormat {
  import opened Words
  import opened ByteTables

  /** A name: a text and what it is encoded as. */
  datatype Name = Name(text: string, encoded: seq<Byte>)

  /** A resource; `rtype` has four bytes. */
  datatype Resource = Resource(rtype: seq<Byte>, rid: int, name: Name, data: seq<Byte>)

  datatype Group = Group(rtype: seq<Byte>, list: seq<Resource>)

  type Key = (seq<Byte>, int)

  function KeyOf(r: Resource): Key { (r.rtype, r.rid) }

  // ---- Grouping and sorting ----------------------------------------------------------------

  function FindGroup(gs: seq<Group>, t: seq<Byte>, i: nat): (r: nat)
    requires i <= |gs|
    ensures i <= r <= |gs|
    ensures r < |gs| ==> gs[r].rtype == t
    ensures forall j :: i <= j < r ==> gs[j].rtype != t
    decreases |gs| - i
  {
    if i == |gs| || gs[i].rtype == t then i else FindGroup(gs, t, i + 1)
  }

  /** setdefault and append: a new type opens a group at the end. */
  function AddTo(gs: seq<Group>, r: Resource): seq<Group> {
    var i := FindGroup(gs, r.rtype, 0);
    if i == |gs| then gs + [Group(r.rtype, [r])] else gs[i := Group(r.rtype, gs[i].list + [r])]
  }

  function Grouped(rs: seq<Resource>): seq<Group> {
    if rs == [] then [] else AddTo(Grouped(rs[..|rs| - 1]), rs[|rs| - 1])
  }

  /** Insertion behind everything whose id is not greater. */
  function InsertById(r: Resource, l: seq<Resource>): seq<Resource> {
    if l == [] || l[|l| - 1].rid <= r.rid then l + [r]
    else InsertById(r, l[..|l| - 1]) + [l[|l| - 1]]
  }

  /** The stable sort by id. */
  function SortById(l: seq<Resource>): seq<Resource> {
    if l == [] then [] else InsertById(l[|l| - 1], SortById(l[..|l| - 1]))
  }

  function SortGroups(gs: seq<Group>): (s: seq<Group>)
    ensures |s| == |gs|
    ensures forall i :: 0 <= i < |gs| ==> s[i] == Group(gs[i].rtype, SortById(gs[i].list))
  {
    seq(|gs|, i requires 0 <= i < |gs| => Group(gs[i].rtype, SortById(gs[i].list)))
  }

  /** All resources in file order. */
  function Entries(gs: seq<Group>): seq<Resource> {
    if gs == [] then [] else Entries(gs[..|gs| - 1]) + gs[|gs| - 1].list
  }

  /** The resources with this type and id, in order. */
  function Matching(l: seq<Resource>, t: seq<Byte>, id: int): seq<Resource> {
    if l == [] then []
    else
      var r := l[|l| - 1];
      Matching(l[..|l| - 1], t, id) + if r.rtype == t && r.rid == id then [r] else []
  }

  // ---- The data area -----------------------------------------------------------------------

  function DataPart(r: Resource): seq<Byte> {
    BE32(|r.data|) + r.data
  }

  function DataParts(entries: seq<Resource>): (s: seq<seq<Byte>>)
    ensures |s| == |entries|
    ensures forall k :: 0 <= k < |s| ==> s[k] == DataPart(entries[k])
  {
    seq(|entries|, k requires 0 <= k < |entries| => DataPart(entries[k]))
  }

  /** data_offsets: a later resource with the same type and id replaces an earlier one. */
  function DataOffsets(entries: seq<Resource>): map<Key, nat> {
    if entries == [] then map[]
    else
      var n := |entries| - 1;
      DataOffsets(entries[..n])[KeyOf(entries[n]) := Size(DataParts(entries[..n]))]
  }

  // ---- The name list -----------------------------------------------------------------------

  /** The name bytes, where each text was first put, and the name offset of each resource (-1 for none). */
  datatype Names = Names(bytes: seq<Byte>, byName: map<string, nat>, byKey: map<Key, int>)

  function Pascal(name: seq<Byte>): (s: seq<Byte>)
    ensures s != []
  {
    var nm := if |name| > 255 then name[..255] else name;
    [|nm|] + nm
  }

  function NameStep(ns: Names, r: Resource): Names {
    var text := r.name.text;
    if text == "" then ns.(byKey := ns.byKey[KeyOf(r) := -1])
    else if text in ns.byName then ns.(byKey := ns.byKey[KeyOf(r) := ns.byName[text]])
    else
      var off := |ns.bytes|;
      Names(ns.bytes + Pascal(r.name.encoded), ns.byName[text := off], ns.byKey[KeyOf(r) := off])
  }

  function NamesOf(entries: seq<Resource>): Names {
    if entries == [] then Names([], map[], map[])
    else NameStep(NamesOf(entries[..|entries| - 1]), entries[|entries| - 1])
  }

  // ---- The map -----------------------------------------------------------------------------

  /** One reference list entry. */
  function RefPart(r: Resource, nameOff: int, dataOff: nat): (s: seq<Byte>)
    ensures |s| == 12
  {
    BE16(r.rid) + BE16(nameOff) + [0] + BE24(dataOff) + [0, 0, 0, 0]
  }

  function RefParts(entries: seq<Resource>, names: map<Key, int>, offsets: map<Key, nat>): (s: seq<seq<Byte>>)
    requires forall k :: 0 <= k < |entries| ==> KeyOf(entries[k]) in names && KeyOf(entries[k]) in offsets
    ensures |s| == |entries|
    ensures forall k :: 0 <= k < |s| ==>
              s[k] == RefPart(entries[k], names[KeyOf(entries[k])], offsets[KeyOf(entries[k])])
  {
    seq(|entries|, k requires 0 <= k < |entries| =>
          RefPart(entries[k], names[KeyOf(entries[k])], offsets[KeyOf(entries[k])]))
  }

  /** The number of reference entries before group `g`. */
  function Before(gs: seq<Group>, g: nat): nat
    requires g <= |gs|
  {
    if g == 0 then 0 else Before(gs, g - 1) + |gs[g - 1].list|
  }

  /** One type list entry; the offset counts from the start of the type list. */
  function TypePart(gs: seq<Group>, g: nat): seq<Byte>
    requires g < |gs|
  {
    gs[g].rtype + BE16(|gs[g].list| - 1) + BE16(2 + 8 * |gs| + 12 * Before(gs, g))
  }

  function TypeParts(gs: seq<Group>): (s: seq<seq<Byte>>)
    ensures |s| == |gs| && forall g :: 0 <= g < |gs| ==> s[g] == TypePart(gs, g)
  {
    seq(|gs|, g requires 0 <= g < |gs| => TypePart(gs, g))
  }

  /** struct.pack refuses an id or a name offset outside 16 signed bits. */
  predicate Packable(r: Resource, nameOff: int) {
    -0x8000 <= r.rid < 0x8000 && nameOff < 0x8000
  }

  const MAP_HEADER: nat := 28
  const DATA_START: nat := 256

  function TypeList(gs: seq<Group>, refs: seq<seq<Byte>>): seq<Byte> {
    BE16(|gs| - 1) + Concat(TypeParts(gs)) + Concat(refs)
  }

  function Header(dataLen: nat, mapLen: nat): (s: seq<Byte>)
    ensures |s| == 16
  {
    BE32(DATA_START) + BE32(DATA_START + dataLen) + BE32(dataLen) + BE32(mapLen)
  }

  function MapArea(typeList: seq<Byte>, names: seq<Byte>, dataLen: nat): seq<Byte> {
    Header(dataLen, MAP_HEADER + |typeList| + |names|) + Zeros(8)
    + BE16(MAP_HEADER) + BE16(MAP_HEADER + |typeList|) + typeList + names
  }

  function Zeros(n: nat): (s: seq<Byte>)
    ensures |s| == n && forall i :: 0 <= i < n ==> s[i] == 0
  {
    seq(n, _ => 0)
  }

  function FileOf(gs: seq<Group>, refs: seq<seq<Byte>>, names: seq<Byte>, data: seq<Byte>): seq<Byte> {
    var typeList := TypeList(gs, refs);
    Header(|data|, MAP_HEADER + |typeList| + |names|) + Zeros(240) + data + MapArea(typeList, names, |data|)
  }
}
