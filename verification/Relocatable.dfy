/** Partial linking (`-r`): merging sections, symbols and relocations of the inputs into one object
    (`peony-emit/src/relocatable.rs:64-276`; gABI chapter 4, "Symbol Values" and "Relocation"). */
module Relocatable {
  import opened Bytes
  import opened Objects
  import opened Grouping

  // ── Pass 1: sections ─────────────────────────────────────────────────────

  /** Section types that are rebuilt: NULL, SYMTAB, STRTAB, RELA, REL, GROUP, SYMTAB_SHNDX. */
  predicate IsRegenerated(shType: nat) { shType in {0, 2, 3, 4, 9, 17, 18} }

  datatype Part = Part(o: nat, pos: nat, offset: nat)

  datatype OutSection = OutSection(name: Name, shType: nat, flags: set<Flag>, align: nat, size: nat, parts: seq<Part>)

  /** Output section and offset of each input section, by object and position. */
  type Placements = map<(nat, nat), (nat, nat)>

  predicate Has(objects: seq<InputObject>, o: nat, pos: nat) { o < |objects| && pos < |objects[o].sections| }

  function SecAt(objects: seq<InputObject>, o: nat, pos: nat): InputSection
    requires Has(objects, o, pos)
  {
    objects[o].sections[pos]
  }

  predicate IsMerged(sec: InputSection) { !IsRegenerated(sec.shType) && sec.name != [] }

  const SHT_NULL := 0
  const SHT_SYMTAB := 2
  const SHT_STRTAB := 3
  const SHT_RELA := 4
  const SHT_REL := 9
  const SHT_GROUP := 17
  const SHT_SYMTAB_SHNDX := 18

  /** Dropped are nameless sections and those that describe other sections or symbols; all others are kept. */
  lemma {:induction false} MergedExactly(sec: InputSection)
    ensures IsMerged(sec)
            <==> && sec.name != [] && sec.shType != SHT_NULL && sec.shType != SHT_SYMTAB && sec.shType != SHT_STRTAB
                 && sec.shType != SHT_RELA && sec.shType != SHT_REL && sec.shType != SHT_GROUP
                 && sec.shType != SHT_SYMTAB_SHNDX
  {
  }

  function AlignOf(sec: InputSection): nat { Max(sec.align, 1) }

  /** Part `k` is where `placement` says, aligned and inside its section. */
  predicate PartOk(objects: seq<InputObject>, outs: seq<OutSection>, placement: Placements, i: nat, k: nat)
    requires i < |outs| && k < |outs[i].parts|
  {
    var p := outs[i].parts[k];
    && Has(objects, p.o, p.pos) && IsMerged(SecAt(objects, p.o, p.pos))
    && (p.o, p.pos) in placement && placement[(p.o, p.pos)] == (i, p.offset)
    && p.offset % AlignOf(SecAt(objects, p.o, p.pos)) == 0
    && p.offset + SecAt(objects, p.o, p.pos).size <= outs[i].size
    && AlignOf(SecAt(objects, p.o, p.pos)) <= outs[i].align && SecAt(objects, p.o, p.pos).flags <= outs[i].flags
  }

  predicate PartsApart(objects: seq<InputObject>, out: OutSection) {
    forall j, k | 0 <= j < k < |out.parts| && Has(objects, out.parts[j].o, out.parts[j].pos) ::
      out.parts[j].offset + SecAt(objects, out.parts[j].o, out.parts[j].pos).size <= out.parts[k].offset
  }

  /** Each placed section is a part, where it is placed. */
  ghost predicate IsPart(outs: seq<OutSection>, at: (nat, nat), o: nat, pos: nat) {
    at.0 < |outs| && Part(o, pos, at.1) in outs[at.0].parts
  }

  ghost predicate SectionsMerged(objects: seq<InputObject>, outs: seq<OutSection>, placement: Placements) {
    && (forall i, k | 0 <= i < |outs| && 0 <= k < |outs[i].parts| :: PartOk(objects, outs, placement, i, k))
    && (forall i | 0 <= i < |outs| :: PartsApart(objects, outs[i]))
    && (forall key | key in placement :: IsPart(outs, placement[key], key.0, key.1))
  }

  ghost predicate Named(outs: seq<OutSection>, index: map<Name, nat>) {
    && (forall n | n in index :: index[n] < |outs| && outs[index[n]].name == n)
    && (forall i | 0 <= i < |outs| :: outs[i].name in index && index[outs[i].name] == i)
  }

  /** Sections go to the output section of their name. */
  ghost predicate NamesKept(objects: seq<InputObject>, outs: seq<OutSection>, placement: Placements,
          lossy: Name -> Name) {
    forall key | key in placement ::
      Has(objects, key.0, key.1) && placement[key].0 < |outs|
          && outs[placement[key].0].name == lossy(SecAt(objects, key.0, key.1).name)
  }

  /** No more than its parts ask for: the type of the first, the flags of any, the alignment of some, and no
      padding but what alignment needs. */
  ghost predicate Least(objects: seq<InputObject>, out: OutSection) {
    && out.parts != [] && (forall k | 0 <= k < |out.parts| :: Has(objects, out.parts[k].o, out.parts[k].pos))
    && out.shType == SecAt(objects, out.parts[0].o, out.parts[0].pos).shType
    && (forall f :: f in out.flags <==> exists k :: HasFlag(objects, out, k, f))
    && (exists k :: 0 <= k < |out.parts| && AlignOf(SecAt(objects, out.parts[k].o, out.parts[k].pos)) == out.align)
    && out.parts[0].offset == 0
    && (forall k | 0 <= k < |out.parts| :: Packed(objects, out, k))
  }

  predicate HasFlag(objects: seq<InputObject>, out: OutSection, k: int, f: Flag)
    requires forall k | 0 <= k < |out.parts| :: Has(objects, out.parts[k].o, out.parts[k].pos)
  {
    0 <= k < |out.parts| && f in SecAt(objects, out.parts[k].o, out.parts[k].pos).flags
  }

  /** What follows part `k`, or the end of the section, is less than one alignment step behind it. */
  predicate Packed(objects: seq<InputObject>, out: OutSection, k: int)
    requires 0 <= k < |out.parts|
    requires forall k | 0 <= k < |out.parts| :: Has(objects, out.parts[k].o, out.parts[k].pos)
  {
    var end := out.parts[k].offset + SecAt(objects, out.parts[k].o, out.parts[k].pos).size;
    if k + 1 == |out.parts| then out.size == end
    else out.parts[k + 1].offset < end + AlignOf(SecAt(objects, out.parts[k + 1].o, out.parts[k + 1].pos))
  }

  /** Just opened for the section that comes first. */
  predicate Opened(out: OutSection, sec: InputSection) {
    out.parts == [] && out.size == 0 && out.shType == sec.shType && out.flags == sec.flags && out.align == AlignOf(sec)
  }

  lemma {:induction false} LeastPart(objects: seq<InputObject>, out: OutSection, o: nat, pos: nat)
    requires Has(objects, o, pos) && (Least(objects, out) || Opened(out, SecAt(objects, o, pos)))
    ensures Least(objects, WithPart(out, SecAt(objects, o, pos), o, pos))
  {
    var sec := SecAt(objects, o, pos);
    AlignUpLeast(out.size, AlignOf(sec));
    hide AlignUp, AlignOf, SecAt, Has;
    var now, n := WithPart(out, sec, o, pos), |out.parts|;
    assert now.parts[n].o == o && now.parts[n].pos == pos;
    assert forall k | 0 <= k < n :: now.parts[k] == out.parts[k];
    forall f ensures f in now.flags <==> exists k :: HasFlag(objects, now, k, f) {
      if f in sec.flags { assert HasFlag(objects, now, n, f); }
      if n > 0 && f in out.flags {
        var k :| HasFlag(objects, out, k, f);
        assert HasFlag(objects, now, k, f);
      }
      if k :| HasFlag(objects, now, k, f) {
        if k < n { assert HasFlag(objects, out, k, f); }
      }
    }
    if n > 0 {
      var k :| 0 <= k < n && AlignOf(SecAt(objects, out.parts[k].o, out.parts[k].pos)) == out.align;
      assert AlignOf(SecAt(objects, now.parts[k].o, now.parts[k].pos)) == out.align;
    }
    assert AlignOf(SecAt(objects, now.parts[n].o, now.parts[n].pos)) == AlignOf(sec);
    forall k | 0 <= k <= n ensures Packed(objects, now, k) {
      if k < n { assert Packed(objects, out, k); }
    }
  }

  function WithPart(out: OutSection, sec: InputSection, o: nat, pos: nat): OutSection {
    var offset := AlignUp(out.size, AlignOf(sec));
    out.(size := offset + sec.size, align := Max(out.align, AlignOf(sec)), flags := out.flags + sec.flags,
         parts := out.parts + [Part(o, pos, offset)])
  }

  lemma {:induction false} AddPart(objects: seq<InputObject>, outs: seq<OutSection>, placement: Placements, i: nat,
          o: nat, pos: nat)
    requires SectionsMerged(objects, outs, placement) && i < |outs|
    requires Has(objects, o, pos) && IsMerged(SecAt(objects, o, pos)) && (o, pos) !in placement
    ensures var sec := SecAt(objects, o, pos);
            SectionsMerged(objects, outs[i := WithPart(outs[i], sec, o, pos)],
                placement[(o, pos) := (i, AlignUp(outs[i].size, AlignOf(sec)))])
  {
    var sec := SecAt(objects, o, pos);
    AlignUpLeast(outs[i].size, AlignOf(sec));
    hide AlignUp, IsMerged, AlignOf, SecAt, Has;
    var now, at := outs[i := WithPart(outs[i], sec, o, pos)],
        placement[(o, pos) := (i, AlignUp(outs[i].size, AlignOf(sec)))];
    forall j, k | 0 <= j < |now| && 0 <= k < |now[j].parts|
      ensures PartOk(objects, now, at, j, k)
    {
      if !(j == i && k == |outs[i].parts|) { assert PartOk(objects, outs, placement, j, k)
          && now[j].parts[k] == outs[j].parts[k]; }
    }
    assert PartsApart(objects, now[i]) by {
      forall j, k | 0 <= j < k < |now[i].parts| && Has(objects, now[i].parts[j].o, now[i].parts[j].pos)
        ensures now[i].parts[j].offset
                + SecAt(objects, now[i].parts[j].o, now[i].parts[j].pos).size <= now[i].parts[k].offset
      {
        assert PartOk(objects, outs, placement, i, j) && now[i].parts[j] == outs[i].parts[j];
      }
    }
    forall key | key in at
      ensures IsPart(now, at[key], key.0, key.1)
    {
      if key == (o, pos) {
        assert now[i].parts[|outs[i].parts|] == Part(o, pos, at[key].1);
      } else {
        assert IsPart(outs, placement[key], key.0, key.1);
      }
    }
  }

  lemma {:induction false} AddSection(objects: seq<InputObject>, outs: seq<OutSection>, placement: Placements,
          out: OutSection)
    requires SectionsMerged(objects, outs, placement) && out.parts == []
    ensures SectionsMerged(objects, outs + [out], placement)
  {
    var now := outs + [out];
    forall i, k | 0 <= i < |now| && 0 <= k < |now[i].parts|
      ensures PartOk(objects, now, placement, i, k)
    {
      assert PartOk(objects, outs, placement, i, k) && now[i] == outs[i];
    }
    hide PartOk;
    forall key | key in placement
      ensures IsPart(now, placement[key], key.0, key.1)
    {
      assert IsPart(outs, placement[key], key.0, key.1);
    }
    assert forall i | 0 <= i < |outs| :: PartsApart(objects, outs[i]);
    hide PartsApart;
    assert PartsApart(objects, out) by { NoParts(objects, out); }
  }

  lemma {:induction false} NoParts(objects: seq<InputObject>, out: OutSection)
    requires out.parts == []
    ensures PartsApart(objects, out)
  {
  }

  /** The placed sections are the merged ones before `(o, n)`. */
  ghost predicate PlacedUpTo(objects: seq<InputObject>, placement: Placements, o: nat, n: nat) {
    forall key :: key in placement <==>
      Has(objects, key.0, key.1) && (key.0 < o || (key.0 == o && key.1 < n)) && IsMerged(SecAt(objects, key.0, key.1))
  }

  /** `lossy` is the conversion of section names to text. */
  method MergeSections(objects: seq<InputObject>,
          lossy: Name -> Name) returns (outs: seq<OutSection>, placement: Placements)
    ensures SectionsMerged(objects, outs, placement) && NamesKept(objects, outs, placement, lossy)
    ensures forall i, j | 0 <= i < j < |outs| :: outs[i].name != outs[j].name
    ensures forall o: nat, pos: nat :: (o, pos) in placement <==>
              Has(objects, o, pos) && IsMerged(SecAt(objects, o, pos))
    ensures forall i | 0 <= i < |outs| :: Least(objects, outs[i])
  {
    hide SectionsMerged, AlignUp, IsMerged, AlignOf, PlacedUpTo, Named, NamesKept, Least;
    outs, placement := [], map[];
    var index: map<Name, nat> := map[];
    NothingMerged(objects);
    for o := 0 to |objects|
      invariant SectionsMerged(objects, outs, placement) && Named(outs, index) && PlacedUpTo(objects, placement, o, 0)
      invariant NamesKept(objects, outs, placement, lossy)
      invariant forall i | 0 <= i < |outs| :: Least(objects, outs[i])
    {
      for pos := 0 to |objects[o].sections|
        invariant SectionsMerged(objects, outs, placement) && Named(outs, index)
                  && PlacedUpTo(objects, placement, o, pos)
        invariant NamesKept(objects, outs, placement, lossy)
        invariant forall i | 0 <= i < |outs| :: Least(objects, outs[i])
      {
        var sec := objects[o].sections[pos];
        NextPlaced(objects, placement, o, pos);
        if IsMerged(sec) {
          var name := lossy(sec.name);
          if name !in index {
            var added := OutSection(name, sec.shType, sec.flags, AlignOf(sec), 0, []);
            AddSection(objects, outs, placement, added);
            NameSection(objects, outs, index, placement, lossy, added);
            index := index[name := |outs|];
            outs := outs + [added];
          }
          NamedIndex(outs, index, name);
          var idx := index[name];
          var offset := AlignUp(outs[idx].size, AlignOf(sec));
          AddPart(objects, outs, placement, idx, o, pos);
          LeastPart(objects, outs[idx], o, pos);
          KeepNames(objects, outs, index, placement, lossy, idx, o, pos);
          PlaceNext(objects, placement, o, pos, (idx, offset));
          outs := outs[idx := WithPart(outs[idx], sec, o, pos)];
          placement := placement[(o, pos) := (idx, offset)];
        }
      }
      NextObject(objects, placement, o);
    }
    AllPlaced(objects, placement);
    DistinctNames(outs, index);
  }

  lemma {:induction false} DistinctNames(outs: seq<OutSection>, index: map<Name, nat>)
    requires Named(outs, index)
    ensures forall i, j | 0 <= i < j < |outs| :: outs[i].name != outs[j].name
  {
  }

  lemma {:induction false} NothingMerged(objects: seq<InputObject>)
    ensures SectionsMerged(objects, [], map[]) && Named([], map[])
            && (forall lossy :: NamesKept(objects, [], map[], lossy)) && PlacedUpTo(objects, map[], 0, 0)
  {
  }

  lemma {:induction false} NextPlaced(objects: seq<InputObject>, placement: Placements, o: nat, pos: nat)
    requires Has(objects, o, pos) && PlacedUpTo(objects, placement, o, pos)
    ensures (o, pos) !in placement
    ensures !IsMerged(SecAt(objects, o, pos)) ==> PlacedUpTo(objects, placement, o, pos + 1)
    ensures SecAt(objects, o, pos) == objects[o].sections[pos]
  {
    hide IsMerged;
  }

  lemma {:induction false} PlaceNext(objects: seq<InputObject>, placement: Placements, o: nat, pos: nat, at: (nat, nat))
    requires Has(objects, o, pos) && PlacedUpTo(objects, placement, o, pos) && IsMerged(SecAt(objects, o, pos))
    ensures PlacedUpTo(objects, placement[(o, pos) := at], o, pos + 1)
  {
    hide IsMerged;
  }

  lemma {:induction false} NextObject(objects: seq<InputObject>, placement: Placements, o: nat)
    requires o < |objects| && PlacedUpTo(objects, placement, o, |objects[o].sections|)
    ensures PlacedUpTo(objects, placement, o + 1, 0)
  {
    hide IsMerged;
  }

  lemma {:induction false} AllPlaced(objects: seq<InputObject>, placement: Placements)
    requires PlacedUpTo(objects, placement, |objects|, 0)
    ensures forall o: nat, pos: nat :: (o, pos) in placement <==>
              Has(objects, o, pos) && IsMerged(SecAt(objects, o, pos))
  {
    hide IsMerged;
  }

  lemma {:induction false} NameSection(objects: seq<InputObject>, outs: seq<OutSection>, index: map<Name, nat>,
          placement: Placements, lossy: Name -> Name, out: OutSection)
    requires Named(outs, index) && NamesKept(objects, outs, placement, lossy) && out.name !in index
    ensures Named(outs + [out], index[out.name := |outs|]) && NamesKept(objects, outs + [out], placement, lossy)
  {
  }

  lemma {:induction false} NamedIndex(outs: seq<OutSection>, index: map<Name, nat>, n: Name)
    requires Named(outs, index) && n in index
    ensures index[n] < |outs| && outs[index[n]].name == n
  {
  }

  lemma {:induction false} KeepNames(objects: seq<InputObject>, outs: seq<OutSection>, index: map<Name, nat>,
          placement: Placements, lossy: Name -> Name, i: nat, o: nat, pos: nat)
    requires Named(outs, index) && NamesKept(objects, outs, placement, lossy) && i < |outs|
    requires Has(objects, o, pos) && outs[i].name == lossy(SecAt(objects, o, pos).name)
    ensures var now := outs[i := WithPart(outs[i], SecAt(objects, o, pos), o, pos)];
            Named(now, index) && forall off: nat :: NamesKept(objects, now, placement[(o, pos) := (i, off)], lossy)
  {
    hide AlignUp;
  }
}
