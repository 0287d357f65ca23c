/** The bytes of a full emit outside the sections: the file and program headers, the section headers, and
    what nothing writes (`peony-emit/src/lib.rs:317-423`). */
module EmittedHeaders {
  import opened Bytes
  import opened Objects
  import opened InputWork
  import opened Dispatch
  import opened Emit
  import opened WorkList
  import opened EmittedImage
  import opened EmittedTables

  /** No section with contents in the file holds the byte. */
  ghost predicate Unheld(l: Layout, x: int) { forall sec | sec in l.sections && !sec.source.Bss? :: !sec.Holds(x) }

  lemma {:induction false} UnheldSettled(l: Layout, n: nat, x: int)
    requires Tidy(l, n) && Unheld(l, x)
    ensures OutsideDescriptor(l, x)
    ensures FindSource(l.sections, Got).Some? ==> !FindSource(l.sections, Got).value.Holds(x)
    ensures forall img: seq<byte> :: !InRoom(HdrRoom(l, img), x)
  {
    var note := FindSource(l.sections, NoteBuildId);
    if note.Some? { assert note.value in l.sections && note.value.size >= 32 && !note.value.Holds(x); }
    hide HdrRoom;
    forall img: seq<byte> ensures !InRoom(HdrRoom(l, img), x) {
      if HdrRoom(l, img).Some? {
        HdrRoomInHdr(img, l);
        var hdr :| hdr in l.sections && hdr.source.EhFrameHdr? && HdrRoom(l, img).value.at == hdr.off
                   && HdrRoom(l, img).value.End() <= hdr.End();
        assert !hdr.Holds(x);
      }
    }
  }

  lemma {:induction false} UnheldUncovered(l: Layout, objects: seq<InputObject>, lookup: Lookup, x: nat, k: nat)
    requires Fits(l, objects) && Unheld(l, x) && k < |Work(l, objects, lookup).items|
    ensures !Covers(Work(l, objects, lookup).items[k], x)
  {
    hide CollectInputWorkItems;
    var item := Work(l, objects, lookup).items[k];
    WorkExactly(l.sections, objects, All, item);
    var t, c :| Admits(l.sections, All, t, c) && IsWork(item, t, c, objects);
    assert item.isec == WorkFor(t, c, objects).isec;
    ContributionInside(l, objects, t, c);
    assert !t.Holds(x);
  }

  lemma {:induction false} SectionsFrame(img: seq<byte>, secs: seq<OutSec>, x: nat)
    requires x < |img|
    requires forall sec | sec in secs :: OwnStores(sec) && (sec.source.Bss? || !sec.Holds(x))
    ensures WriteSections(img, secs)[x] == img[x]
    decreases |secs|
  {
    hide WriteSection, OwnStores;
    if secs != [] {
      assert secs[0] in secs && forall t | t in secs[1..] :: t in secs;
      if secs[0].source.Bss? { BssWritesNothing(img, secs[0]); } else { SectionFrame(img, secs[0], x); }
      SectionsFrame(WriteSection(img, secs[0]), secs[1..], x);
    }
  }

  /** Before the section headers are written, a byte outside all sections is as the first headers left it. */
  lemma {:induction false} DataUnheld(l: Layout, objects: seq<InputObject>, lookup: Lookup, base: seq<byte>, x: nat)
    requires Faultless(l, objects, lookup, |base|) && OwnSections(l) && Unheld(l, x) && x < |base|
    ensures var job := Work(l, objects, lookup);
            SerialImage(job, Prefix(base, l), |job.items|)[x] == PutAll(base, l.headers)[x]
  {
    var job := Work(l, objects, lookup);
    hide CollectInputWorkItems, SerialImage, WriteSections, Acceptable, PutAll, OwnStores;
    forall k | 0 <= k < |job.items| ensures !Covers(job.items[k], x) { UnheldUncovered(l, objects, lookup, x, k); }
    SectionsFrame(PutAll(base, l.headers), l.sections, x);
    SerialOutside(job, Prefix(base, l), |job.items|, x);
  }

  /** Outside the sections the image is the last store of the section headers over the data. */
  lemma {:induction false} FullUnheld(l: Layout, objects: seq<InputObject>, lookup: Lookup, base: seq<byte>, x: nat)
    requires Faultless(l, objects, lookup, |base|) && OwnSections(l) && Unheld(l, x) && x < |base|
    ensures exists img: seq<byte> :: |img| == |base| && img[x] == PutAll(base, l.headers)[x]
              && Full(l, objects, lookup, base)[x] == PutAll(img, l.sectionHeaders)[x]
  {
    var job := Work(l, objects, lookup);
    DataUnheld(l, objects, lookup, base, x);
    UnheldSettled(l, |base|, x);
    hide CollectInputWorkItems, SerialImage, Acceptable, PutAll, OwnStores, Prefix, WriteTlsGot, WriteEhFrameHdr, Fits,
         HdrRoom, FinalizeBuildId, OutsideDescriptor, OwnSections, Unheld;
    var data := SerialImage(job, Prefix(base, l), |job.items|);
    BuildIdFrame(Finish(data, l), l, x);
    TlsFrame(data, l, x);
    HdrFrame(WriteTlsGot(data, l), l, x);
    var img := WriteEhFrameHdr(WriteTlsGot(data, l), l);
    assert Finish(data, l) == PutAll(img, l.sectionHeaders);
  }

  /** The last header store that touches a byte outside the sections decides it. */
  lemma {:induction false} FullHeader(l: Layout, objects: seq<InputObject>, lookup: Lookup, base: seq<byte>, k: nat,
          x: nat)
    requires Faultless(l, objects, lookup, |base|) && OwnSections(l) && Unheld(l, x)
    requires k < |l.headers| && l.headers[k].End() <= |base| && Touches(l.headers[k], x)
    requires (forall j | k < j < |l.headers| :: !Touches(l.headers[j], x)) && !TouchedBy(l.sectionHeaders, x)
    ensures x < |base| && Full(l, objects, lookup, base)[x] == l.headers[k].data[x - l.headers[k].at]
  {
    FullUnheld(l, objects, lookup, base, x);
    hide PutAll, Full, Faultless, OwnSections, Unheld;
    PutAllAt(base, l.headers, k, x);
    var img: seq<byte> :| |img| == |base| && img[x] == PutAll(base, l.headers)[x]
              && Full(l, objects, lookup, base)[x] == PutAll(img, l.sectionHeaders)[x];
    PutAllFrame(img, l.sectionHeaders, x);
  }

  /** And the last store of the section header table, which comes after everything else. */
  lemma {:induction false} FullSectionHeader(l: Layout, objects: seq<InputObject>, lookup: Lookup, base: seq<byte>,
          k: nat, x: nat)
    requires Faultless(l, objects, lookup, |base|) && OwnSections(l)
    requires k < |l.sectionHeaders| && l.sectionHeaders[k].End() <= |base| && Touches(l.sectionHeaders[k], x)
    requires forall j | k < j < |l.sectionHeaders| :: !Touches(l.sectionHeaders[j], x)
    ensures x < |base| && Full(l, objects, lookup, base)[x] == l.sectionHeaders[k].data[x - l.sectionHeaders[k].at]
  {
    TableUnheld(l, |base|, l.sectionHeaders[k], x);
    FullUnheld(l, objects, lookup, base, x);
    hide PutAll, Full, Faultless, OwnSections, Unheld;
    var img: seq<byte> :| |img| == |base| && img[x] == PutAll(base, l.headers)[x]
              && Full(l, objects, lookup, base)[x] == PutAll(img, l.sectionHeaders)[x];
    PutAllAt(img, l.sectionHeaders, k, x);
  }

  lemma {:induction false} TableUnheld(l: Layout, n: nat, s: Store, x: int)
    requires Tidy(l, n) && s in l.sectionHeaders && Touches(s, x)
    ensures Unheld(l, x)
  {
    forall sec | sec in l.sections && !sec.source.Bss? ensures !sec.Holds(x) { assert Clear(s, sec); }
  }

  /** A byte that no section holds and no header store touches is the base's. */
  lemma {:induction false} FullUntouched(l: Layout, objects: seq<InputObject>, lookup: Lookup, base: seq<byte>, x: nat)
    requires Faultless(l, objects, lookup, |base|) && OwnSections(l) && Unheld(l, x) && x < |base|
    requires !TouchedBy(l.headers, x) && !TouchedBy(l.sectionHeaders, x)
    ensures Full(l, objects, lookup, base)[x] == base[x]
  {
    FullUnheld(l, objects, lookup, base, x);
    hide PutAll, Full, Faultless, OwnSections, Unheld;
    PutAllFrame(base, l.headers, x);
    var img: seq<byte> :| |img| == |base| && img[x] == PutAll(base, l.headers)[x]
              && Full(l, objects, lookup, base)[x] == PutAll(img, l.sectionHeaders)[x];
    PutAllFrame(img, l.sectionHeaders, x);
  }
}
