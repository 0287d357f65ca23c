/** A relink whose `.eh_frame_hdr` table gets shorter: the minimal emit leaves the end of the old table in
    place (`peony-emit/src/lib.rs:317-423`, `peony-emit/src/eh_frame.rs:48-94`). */
module ShrinkingHdr {
  import opened Bytes
  import opened Objects
  import opened InputWork
  import opened Dispatch
  import opened EhFrame
  import opened Emit
  import EhRelocation

  // ── A full link zeroes the header section first ──────────────────────────

  /** A section's computed bytes lie inside it. */
  predicate FillsInside(l: Layout) {
    forall sec, s | sec in l.sections && s in sec.fill :: sec.off <= s.at && s.End() <= sec.End()
  }

  predicate Within(cs: seq<Contribution>, size: nat) { forall c | c in cs :: c.offset + c.size <= size }

  lemma {:induction false} ZeroFrame(img: seq<byte>, lo: nat, n: nat, x: nat)
    requires x < |img| && !(lo <= x < lo + n)
    ensures Zero(img, lo, n)[x] == img[x]
  {
  }

  lemma {:induction false} GapsFrame(img: seq<byte>, off: nat, size: nat, cs: seq<Contribution>, cursor: nat, x: nat)
    requires x < |img| && !(off <= x < off + size) && off <= cursor && Within(cs, size)
    ensures ZeroGaps(img, off, off + size, cs, cursor)[x] == img[x]
    decreases |cs|
  {
    hide Zero;
    if cs == [] {
      if off + size > cursor { ZeroFrame(img, cursor, off + size - cursor, x); }
    } else {
      assert cs[0] in cs && forall c | c in cs[1..] :: c in cs;
      var start := off + cs[0].offset;
      var next := if start > cursor then Zero(img, cursor, start - cursor) else img;
      if start > cursor { ZeroFrame(img, cursor, start - cursor, x); }
      GapsFrame(next, off, size, cs[1..], Max(cursor, start + cs[0].size), x);
    }
  }

  lemma {:induction false} SectionFrame(img: seq<byte>, l: Layout, objects: seq<InputObject>, sec: OutSec, x: nat)
    requires Tidy(l, |img|) && Fits(l, objects) && FillsInside(l) && sec in l.sections && x < |img|
    requires sec.source.Bss? || !sec.Holds(x)
    ensures WriteSection(img, sec)[x] == img[x]
  {
    hide PutAll, ZeroGaps, Tidy, ItemOf;
    match sec.source {
      case Input =>
        GapsFrame(img, sec.off, sec.size, sec.contributions, sec.off, x);
      case Bss =>
      case EhFrameHdr =>
      case NoteBuildId =>
        NoteInside(l, |img|, sec);
      case _ =>
        forall s | s in sec.fill ensures !Touches(s, x) {}
        PutAllFrame(Zero(img, sec.off, sec.size), sec.fill, x);
    }
  }

  lemma {:induction false} NoteInside(l: Layout, n: nat, sec: OutSec)
    requires Tidy(l, n) && sec in l.sections && sec.source.NoteBuildId?
    ensures sec.size >= 32
  {
  }

  lemma {:induction false} HdrZeroed(img: seq<byte>, sec: OutSec, x: nat)
    requires sec.source.EhFrameHdr? && sec.End() <= |img| && sec.Holds(x)
    ensures WriteSection(img, sec)[x] == 0
  {
    assert Zero(img, sec.off, sec.size)[sec.off..sec.End()][x - sec.off] == Zeros(sec.size)[x - sec.off];
  }

  /** Writing the sections leaves zeroes in the header section. */
  lemma {:induction false} SectionsZero(img: seq<byte>, l: Layout, objects: seq<InputObject>, secs: seq<OutSec>,
          hdr: OutSec, x: nat)
    requires Tidy(l, |img|) && Fits(l, objects) && FillsInside(l) && forall sec | sec in secs :: sec in l.sections
    requires hdr in l.sections && hdr.source.EhFrameHdr? && hdr.Holds(x) && x < |img| && (hdr in secs || img[x] == 0)
    ensures WriteSections(img, secs)[x] == 0
    decreases |secs|
  {
    hide WriteSection, Fits, FillsInside;
    if secs != [] {
      assert secs[0] in secs;
      if secs[0] == hdr {
        HdrZeroed(img, hdr, x);
      } else {
        assert Separate(secs[0], hdr);
        SectionFrame(img, l, objects, secs[0], x);
      }
      SectionsZero(WriteSection(img, secs[0]), l, objects, secs[1..], hdr, x);
    }
  }

  // ── The old rows are not zero ────────────────────────────────────────────

  /** `.eh_frame` and its header are less than 4 GiB apart and do not overlap. */
  predicate Near(eh: OutSec, hdr: OutSec) {
    (eh.va + eh.size <= hdr.va < eh.va + TWO32) || (hdr.va < eh.va && eh.va + eh.size <= hdr.va + TWO32)
  }

  lemma {:induction false} FdesInside(data: seq<byte>, pos: nat)
    requires pos <= |data|
    ensures forall f | f in FdesFrom(data, pos) :: f.at < |data|
    decreases |data| - pos
  {
    hide Word;
    match StepAt(data, pos)
    case Stop =>
    case Move(next, _) => FdesInside(data, next);
  }

  lemma {:induction false} SortedInside(ehVa: nat, fdes: seq<Fde>, size: nat, e: Entry)
    requires (forall f | f in fdes :: f.at < size) && e in SortEntries(EntriesOf(ehVa, fdes))
    ensures ehVa <= e.fde < ehVa + size
  {
    SortSorts(EntriesOf(ehVa, fdes));
    hide SortEntries;
    assert e in multiset(SortEntries(EntriesOf(ehVa, fdes)));
    assert e in EntriesOf(ehVa, fdes);
    var i :| 0 <= i < |fdes| && EntriesOf(ehVa, fdes)[i] == e;
    assert fdes[i] in fdes;
  }

  lemma {:induction false} FourZeros(s: seq<byte>)
    requires |s| == 4 && s[0] == s[1] == s[2] == s[3] == 0
    ensures FromLe(s) == 0
  {
    assert FromLe(s[4..]) == 0 && s[3..][1..] == s[4..] && FromLe(s[3..]) == 0;
    assert s[2..][1..] == s[3..] && FromLe(s[2..]) == 0;
    assert s[1..][1..] == s[2..] && FromLe(s[1..]) == 0;
  }

  lemma {:induction false} NotMultiple(d: int)
    requires -TWO32 < d < TWO32 && d != 0
    ensures d % TWO32 != 0
  {
  }

  /** Row `i` of the table, at `12 + 8 * i`, holds a byte that is not zero. */
  lemma {:induction false} RowNotZero(eh: OutSec, hdr: OutSec, data: seq<byte>, i: nat) returns (k: nat)
    requires Near(eh, hdr) && |data| == eh.size && i < |FdesFrom(data, 0)| < TWO32
    ensures 12 + 8 * i <= k < 20 + 8 * i && HdrBytes(eh.va, hdr.va, data)[k] != 0
  {
    hide FdesFrom, HdrBytes, SortEntries, EntriesOf, FromLe;
    var b, at, es := HdrBytes(eh.va, hdr.va, data), 12 + 8 * i, SortEntries(EntriesOf(eh.va, FdesFrom(data, 0)));
    HdrReadsBack(eh.va, hdr.va, data, i, at);
    FdesInside(data, 0);
    assert es[i] in es;
    SortedInside(eh.va, FdesFrom(data, 0), eh.size, es[i]);
    NotMultiple(es[i].fde - hdr.va);
    var field := b[at + 4..at + 8];
    if field[0] == field[1] == field[2] == field[3] == 0 { FourZeros(field); assert false; }
    var j := if field[0] != 0 then 0 else if field[1] != 0 then 1 else if field[2] != 0 then 2 else 3;
    k := at + 4 + j;
    assert b[k] == field[j];
  }

  // ── Exactly when the table shrinks ───────────────────────────────────────

  /** The relink keeps an `.eh_frame` section and a header that was reserved for the old table. */
  ghost predicate Reserved(r: Relink, eh: OutSec, hdr: OutSec)
    requires r.Valid()
  {
    && FindName(r.layout.sections, ".eh_frame") == Some(eh) && FindSource(r.layout.sections, EhFrameHdr) == Some(hdr)
    && FillsInside(r.layout) && Near(eh, hdr) && eh.End() <= |r.base|
    && 12 + 8 * OldFdes(r, eh) <= hdr.size && OldFdes(r, eh) < TWO32
  }

  ghost function OldFdes(r: Relink, eh: OutSec): nat
    requires r.Valid()
  {
    if eh.End() <= |r.base| then |FdesFrom(EhBytes(r.OldData(), eh), 0)| else 0
  }

  ghost function NewFdes(r: Relink, eh: OutSec): nat
    requires r.Valid()
  {
    if eh.End() <= |r.base| then |FdesFrom(EhBytes(r.NewData(), eh), 0)| else 0
  }

  lemma {:induction false} Rooms(r: Relink, eh: OutSec, hdr: OutSec)
    requires r.Valid() && Reserved(r, eh, hdr)
    ensures HdrRoom(r.layout, r.OldData())
            == Some(Emit.Store(hdr.off, HdrBytes(eh.va, hdr.va, EhBytes(r.OldData(), eh))))
    ensures HdrLen(r.layout, r.OldData()) == 12 + 8 * OldFdes(r, eh)
    ensures HdrLen(r.layout, r.NewData()) == Min(12 + 8 * NewFdes(r, eh), hdr.size)
    ensures var room := HdrRoom(r.layout, r.NewData());
            room.Some? && room.value.at == hdr.off && |room.value.data| == HdrLen(r.layout, r.NewData())
  {
    hide Relink.OldData, Relink.NewData, Tidy, Fits, FdesFrom, HdrBytes;
    var out := HdrBytes(eh.va, hdr.va, EhBytes(r.OldData(), eh));
    assert out[..Min(|out|, hdr.size)] == out;
  }

  /** Byte `k` of the old header, past the end of the new one, is stale. */
  lemma {:induction false} StaleAt(r: Relink, eh: OutSec, hdr: OutSec, k: nat)
    requires r.Valid() && Reserved(r, eh, hdr) && 12 + 8 * NewFdes(r, eh) <= k < 12 + 8 * OldFdes(r, eh)
    ensures hdr.Holds(hdr.off + k) && Stale(r, hdr.off + k)
    ensures |HdrBytes(eh.va, hdr.va, EhBytes(r.OldData(), eh))| == 12 + 8 * OldFdes(r, eh)
    ensures OldHdrByte(r, hdr.off + k) == HdrBytes(eh.va, hdr.va, EhBytes(r.OldData(), eh))[k]
  {
    hide Relink.OldData, Relink.NewData, Relink.Valid, Reserved, HdrBytes, HdrRoom, HdrLen, EhBytes, OldFdes, NewFdes,
         InRoom;
    Rooms(r, eh, hdr);
    OldLength(r, eh, hdr);
    RoomTail(HdrRoom(r.layout, r.OldData()).value, HdrRoom(r.layout, r.NewData()).value, hdr.off, k);
  }

  lemma {:induction false} RoomTail(a: Emit.Store, b: Emit.Store, off: nat, k: nat)
    requires a.at == b.at == off && |b.data| <= k < |a.data|
    ensures InRoom(Some(a), off + k) && !InRoom(Some(b), off + k)
  {
  }

  lemma {:induction false} OldLength(r: Relink, eh: OutSec, hdr: OutSec)
    requires r.Valid() && Reserved(r, eh, hdr)
    ensures 12 + 8 * OldFdes(r, eh) <= hdr.size
            && |HdrBytes(eh.va, hdr.va, EhBytes(r.OldData(), eh))| == 12 + 8 * OldFdes(r, eh)
  {
    hide Relink.OldData, Relink.Valid, HdrBytes, FdesFrom, EhBytes;
  }

  /** Row `NewFdes` of the old table is stale, and not all zeroes. */
  lemma {:induction false} StaleRow(r: Relink, eh: OutSec, hdr: OutSec)
    requires r.Valid() && Reserved(r, eh, hdr) && NewFdes(r, eh) < OldFdes(r, eh)
    ensures exists x: nat :: x < |r.base| && Stale(r, x) && OldHdrByte(r, x) != Prefix(r.base, r.layout)[x]
  {
    HdrFits(r, hdr);
    hide Relink.OldData, Relink.NewData, Tidy, Fits, FdesFrom, HdrBytes, HdrRoom, Prefix, FillsInside;
    var k := RowNotZero(eh, hdr, EhBytes(r.OldData(), eh), NewFdes(r, eh));
    hide EhBytes, Near;
    StaleAt(r, eh, hdr, k);
    var x := hdr.off + k;
    PrefixZero(r, hdr, x);
    hide Stale, OldHdrByte;
    assert Stale(r, x) && OldHdrByte(r, x) != 0;
  }

  lemma {:induction false} HdrFits(r: Relink, hdr: OutSec)
    requires r.Valid() && FindSource(r.layout.sections, EhFrameHdr) == Some(hdr)
    ensures hdr.End() <= |r.base|
  {
    hide Fits;
  }

  lemma {:induction false} PrefixZero(r: Relink, hdr: OutSec, x: nat)
    requires r.Valid() && FillsInside(r.layout) && hdr in r.layout.sections && hdr.source.EhFrameHdr? && hdr.Holds(x)
             && x < |r.base|
    ensures Prefix(r.base, r.layout)[x] == 0
  {
    hide Tidy, Fits, FillsInside, WriteSections, PutAll;
    SectionsZero(PutAll(r.base, r.layout.headers), r.layout, r.before, r.layout.sections, hdr, x);
  }

  /** With the header reserved as layout does, the minimal emit gives the image of a full link exactly
      when the new section has at least as many FDEs as the old one. */
  lemma {:induction false} MinimalEqualsFullIffNoFewerFdes(r: Relink, eh: OutSec, hdr: OutSec)
    requires r.Valid() && Reserved(r, eh, hdr)
    ensures r.PatchJob().Valid(|r.base|)
    ensures MinimalImage(r.PatchJob(), FullImage(r.OldJob(), r.base, r.layout), r.layout)
            == FullImage(r.NewJob(), r.base, r.layout)
            <==> OldFdes(r, eh) <= NewFdes(r, eh)
  {
    Rooms(r, eh, hdr);
    hide Relink.OldData, Relink.NewData, Tidy, Fits, HdrRoom, HdrLen, Prefix, MinimalImage, FullImage, Stale,
        OldHdrByte,
         FillsInside, Near, OldFdes, NewFdes;
    MinimalEqualsFull(r);
    if OldFdes(r, eh) <= NewFdes(r, eh) {
      GrowingHdr(r);
    } else {
      StaleRow(r, eh, hdr);
    }
  }

  // ── Why an incremental link does not shrink it ───────────────────────────

  /** The items of `.eh_frame` have the same bytes and relocations in both links, as the per-object digest
      demands, and no relocation reaches a length word or a CIE pointer of the merged section. */
  ghost predicate EhFrameKept(r: Relink, eh: OutSec)
    requires r.Valid() && eh.End() <= |r.base|
  {
    forall k, i | 0 <= k < |r.NewJob().items| == |r.OldJob().items| && eh.off <= r.NewJob().items[k].fileOff
                  && r.NewJob().items[k].End() <= eh.End() && 0 <= i < r.NewJob().items[k].Len()
                  && EhRelocation.HeaderByte(EhBytes(r.OldData(), eh), 0, r.NewJob().items[k].fileOff + i - eh.off) ::
      r.OldJob().items[k].isec == r.NewJob().items[k].isec && EhRelocation.Missed(r.NewJob().items[k], i)
  }

  lemma {:induction false} ItemByte(job: Job, base: seq<byte>, k: nat, x: nat)
    requires job.Valid(|base|) && k < |job.items| && Covers(job.items[k], x)
    requires EhRelocation.Missed(job.items[k], x - job.items[k].fileOff)
    ensures x < |base|
    ensures SerialImage(job, base, |job.items|)[x] == job.items[k].isec.data[x - job.items[k].fileOff]
  {
    hide SerialImage, Stage, EhRelocation.Missed;
    DataByte(job, base, k, x);
    EhRelocation.StageMisses(job.lookup, job.items[k], |job.items[k].isec.relocs|, x - job.items[k].fileOff);
  }

  lemma {:induction false} CoveringIsEh(r: Relink, eh: OutSec, k: nat, x: nat)
    requires r.Valid() && eh in r.layout.sections && eh.source.Input? && eh.Holds(x)
    requires k < |r.NewJob().items| && Covers(r.NewJob().items[k], x)
    ensures eh.off <= r.NewJob().items[k].fileOff && r.NewJob().items[k].End() <= eh.End()
  {
    hide Fits, CollectInputWorkItems, Acceptable;
    var item := r.NewJob().items[k];
    ItemsInside(r.layout, r.layout.sections, r.after, item);
    var sec :| sec in r.layout.sections && sec.source.Input? && sec.off <= item.fileOff && item.End() <= sec.End();
    assert sec == eh || Separate(sec, eh);
  }

  /** Both links leave the same bytes in the headers of the records. */
  lemma {:induction false} HeaderKept(r: Relink, eh: OutSec, x: nat)
    requires r.Valid() && eh.End() <= |r.base| && EhFrameKept(r, eh) && eh in r.layout.sections && eh.source.Input?
    requires eh.Holds(x) && EhRelocation.HeaderByte(EhBytes(r.OldData(), eh), 0, x - eh.off)
    ensures r.OldData()[x] == r.NewData()[x]
  {
    TwinWork(r, r.layout.sections);
    hide SerialImage, Tidy, Fits, Acceptable, CollectInputWorkItems, Prefix, EhBytes, EhRelocation.HeaderByte,
         EhRelocation.Missed;
    var olds, news := r.OldJob().items, r.NewJob().items;
    if k :| 0 <= k < |news| && Covers(news[k], x) {
      CoveringIsEh(r, eh, k, x);
      assert Twin(olds[k], news[k], r.changed);
      assert olds[k].isec == news[k].isec && EhRelocation.Missed(news[k], x - news[k].fileOff);
      SameMissed(olds[k], news[k], x - news[k].fileOff);
      ItemByte(r.NewJob(), Prefix(r.base, r.layout), k, x);
      ItemByte(r.OldJob(), Prefix(r.base, r.layout), k, x);
    } else {
      forall i | 0 <= i < |olds| ensures !Covers(olds[i], x) { assert Twin(olds[i], news[i], r.changed); }
      SerialOutside(r.NewJob(), Prefix(r.base, r.layout), |news|, x);
      SerialOutside(r.OldJob(), Prefix(r.base, r.layout), |olds|, x);
    }
  }

  lemma {:induction false} SameMissed(a: WorkItem, b: WorkItem, i: int)
    requires a.isec == b.isec && EhRelocation.Missed(b, i)
    ensures EhRelocation.Missed(a, i)
  {
  }

  /** So both links list the same FDEs, and by `MinimalEqualsFullIffNoFewerFdes` the minimal emit is
      right. */
  lemma {:induction false} KeptEhFrameKeepsFdes(r: Relink, eh: OutSec)
    requires r.Valid() && eh.End() <= |r.base| && EhFrameKept(r, eh) && eh in r.layout.sections && eh.source.Input?
    ensures OldFdes(r, eh) == NewFdes(r, eh)
  {
    hide Relink.Valid, EhFrameKept, FdesFrom, EhRelocation.HeaderByte, SameHeaders, Relink.OldData, Relink.NewData;
    var was, now := EhBytes(r.OldData(), eh), EhBytes(r.NewData(), eh);
    forall i | 0 <= i < |was| && EhRelocation.HeaderByte(was, 0, i)
      ensures was[i] == now[i]
    {
      HeaderKept(r, eh, eh.off + i);
    }
    EhRelocation.SameRecords(was, now, 0);
    HeadersDecideScan(was, now, 0);
  }

  /** Whatever the layout, its `.eh_frame` is kept, if it has one. */
  ghost predicate TableKept(r: Relink)
    requires r.Valid()
  {
    match FindName(r.layout.sections, ".eh_frame")
    case None => true
    case Some(eh) => eh.End() <= |r.base| ==> EhFrameKept(r, eh)
  }

  /** An incremental link that passed the digest check needs no further condition. */
  lemma {:induction false} KeptTableIsEnough(r: Relink)
    requires r.Valid() && TableKept(r)
    ensures r.PatchJob().Valid(|r.base|)
    ensures MinimalImage(r.PatchJob(), FullImage(r.OldJob(), r.base, r.layout), r.layout)
            == FullImage(r.NewJob(), r.base, r.layout)
  {
    KeptHdrLen(r);
    hide Relink.OldData, Relink.NewData, Tidy, Fits, HdrRoom, HdrLen, Prefix, MinimalImage, FullImage, Stale,
        OldHdrByte,
         TableKept;
    MinimalEqualsFull(r);
    GrowingHdr(r);
  }

  lemma {:induction false} KeptHdrLen(r: Relink)
    requires r.Valid() && TableKept(r)
    ensures HdrLen(r.layout, r.OldData()) == HdrLen(r.layout, r.NewData())
  {
    hide Relink.OldData, Relink.NewData, Fits, FdesFrom, HdrBytes, EhFrameKept;
    var eh := FindName(r.layout.sections, ".eh_frame");
    if eh.Some? && eh.value.End() <= |r.base| {
      KeptEhFrameKeepsFdes(r, eh.value);
    }
  }

  // ── One that does ────────────────────────────────────────────────────────

  /** A CIE and a second record, of twelve bytes after the length word each: a CIE when `id` is 0, and
      otherwise an FDE of the CIE that is `id` bytes back. */
  function Records(id: byte): (data: seq<byte>)
    ensures |data| == 32
  {
    seq(32, i requires 0 <= i < 32 => if i in {0, 16} then 12 else if i == 8 then 1 else if i == 20 then id else 0)
  }

  const EH := OutSec(".eh_frame", Input, 64, 32, 4160, [Emit.Contribution(0, 0, 0, 32)], [])
  const HDR := OutSec(".eh_frame_hdr", EhFrameHdr, 96, 20, 4192, [], [])

  function EhSection(data: seq<byte>): InputSection {
    InputSection(1, Ascii(".eh_frame"), SectionKind.EhFrame, 1, data, 8, |data|, {Alloc}, [])
  }

  function EhObject(data: seq<byte>): InputObject {
    InputObject("", [EhSection(data)], [], map[1 := 0], map[], [])
  }

  /** An object whose second record was an FDE and is a CIE now, in an image with file headers and a
      section header table. */
  function Shrinking(): Relink {
    var none := (id: nat, r: InputReloc, va: u64) => Skip;
    Relink(Layout([EH, HDR], [Emit.Store(0, Zeros(64))], [Emit.Store(120, Zeros(64))], [],
        (img: seq<byte>) => Zeros(16)),
           [EhObject(Records(20))], [EhObject(Records(0))], {0}, none, none, Zeros(184))
  }

  lemma {:induction false} WorkIs(l: Layout, objects: seq<InputObject>, data: seq<byte>)
    requires l.sections == [EH, HDR] && objects == [EhObject(data)] && |data| == 32
    ensures CollectInputWorkItems(l.sections, objects, All) == [WorkItem(64, 4160, 0, EhSection(data))]
    ensures ItemOf(EH, objects, EH.contributions[0]) == Some(WorkItem(64, 4160, 0, EhSection(data)))
  {
    var item := WorkItem(64, 4160, 0, EhSection(data));
    assert ItemOf(EH, objects, EH.contributions[0]) == Some(item);
    hide ItemOf;
    assert EH.contributions[1..] == [] && [EH, HDR][1..] == [HDR] && [HDR][1..] == [];
    assert SectionItems(EH, objects, [], All) == [];
    assert SectionItems(EH, objects, EH.contributions, All) == [item] + [];
    hide SectionItems;
    assert CollectInputWorkItems([], objects, All) == [];
    assert CollectInputWorkItems([HDR], objects, All) == [] + [];
  }

  lemma {:induction false} OneAcceptable(item: WorkItem, n: nat)
    requires item.isec.relocs == [] && item.End() <= n
    ensures Acceptable([item], n)
  {
  }

  lemma {:induction false} ShrinkingIsTidy()
    ensures var r := Shrinking(); Tidy(r.layout, |r.base|) && FindName(r.layout.sections, ".eh_frame") == Some(EH)
                                  && FindSource(r.layout.sections, EhFrameHdr) == Some(HDR) && FillsInside(r.layout)
  {
    hide Records;
    var r := Shrinking();
    assert r.layout.sections[0] == EH && r.layout.sections[1] == HDR && [EH, HDR][1..] == [HDR];
  }

  lemma {:induction false} EhFits(l: Layout, data: seq<byte>)
    requires l.sections == [EH, HDR] && |data| == 32
    ensures Fits(l, [EhObject(data)])
  {
    WorkIs(l, [EhObject(data)], data);
    hide ItemOf;
  }

  lemma {:induction false} OneItemJob(job: Job, data: seq<byte>, n: nat)
    requires job.items == [WorkItem(64, 4160, 0, EhSection(data))] && |data| == 32 && 96 <= n < TWO63 && job.batch > 0
    ensures job.Valid(n)
  {
    OneAcceptable(WorkItem(64, 4160, 0, EhSection(data)), n);
    hide Acceptable;
  }

  lemma {:induction false} ShrinkingIsValid()
    ensures Shrinking().Valid()
  {
    hide Records, Tidy, Fits, Acceptable, CollectInputWorkItems, ItemOf;
    var r := Shrinking();
    ShrinkingIsTidy();
    ShrinkingWork();
    EhFits(r.layout, Records(20));
    EhFits(r.layout, Records(0));
    OneItemJob(r.OldJob(), Records(20), 184);
    OneItemJob(r.NewJob(), Records(0), 184);
  }

  /** Without relocations a link copies the section. */
  lemma {:induction false} Copied(job: Job, base: seq<byte>, data: seq<byte>)
    requires job.items == [WorkItem(64, 4160, 0, EhSection(data))] && |data| == 32 && job.Valid(|base|) && |base| == 184
    ensures EhBytes(SerialImage(job, base, 1), EH) == data
  {
    SerialInside(job, base, 1, 0);
  }

  lemma {:induction false} TwoRecords(data: seq<byte>)
    requires |data| == 32 && Word(data, 0) == 12 == Word(data, 16) && Word(data, 4) == 0
    ensures |FdesFrom(data, 0)| == if Word(data, 20) == 0 then 0 else 1
  {
    hide Word;
    assert StepAt(data, 0) == Move(16, EhFrame.CIE);
    assert StepAt(data, 16) == Move(32, if Word(data, 20) == 0 then EhFrame.CIE else EhFrame.FDE);
    assert StepAt(data, 32) == Stop;
    assert FdesFrom(data, 32) == [];
  }

  lemma {:induction false} SmallWordAt(data: seq<byte>, pos: nat)
    requires pos + 4 <= |data| && data[pos + 1] == data[pos + 2] == data[pos + 3] == 0
    ensures Word(data, pos) == data[pos]
  {
  }

  lemma {:induction false} RecordFdes(id: byte)
    ensures |FdesFrom(Records(id), 0)| == if id == 0 then 0 else 1
  {
    hide FdesFrom, Word;
    var data := Records(id);
    SmallWordAt(data, 0);
    SmallWordAt(data, 4);
    SmallWordAt(data, 16);
    SmallWordAt(data, 20);
    hide Records;
    TwoRecords(data);
  }

  lemma {:induction false} FdesOfCopies(r: Relink, was: seq<byte>, now: seq<byte>)
    requires r.Valid() && |r.base| == 184 && |was| == |now| == 32
    requires r.OldJob().items == [WorkItem(64, 4160, 0, EhSection(was))]
    requires r.NewJob().items == [WorkItem(64, 4160, 0, EhSection(now))]
    ensures OldFdes(r, EH) == |FdesFrom(was, 0)| && NewFdes(r, EH) == |FdesFrom(now, 0)|
  {
    assert EH.End() == 96;
    hide Tidy, Fits, Acceptable, CollectInputWorkItems, SerialImage, EhBytes, FdesFrom, Prefix;
    Copied(r.OldJob(), Prefix(r.base, r.layout), was);
    Copied(r.NewJob(), Prefix(r.base, r.layout), now);
  }

  lemma {:induction false} ShrinkingWork()
    ensures Shrinking().OldJob().items == [WorkItem(64, 4160, 0, EhSection(Records(20)))]
    ensures Shrinking().NewJob().items == [WorkItem(64, 4160, 0, EhSection(Records(0)))]
    ensures |Shrinking().base| == 184
  {
    hide Records;
    var r := Shrinking();
    WorkIs(r.layout, r.before, Records(20));
    WorkIs(r.layout, r.after, Records(0));
    hide CollectInputWorkItems, ItemOf;
  }

  lemma {:induction false} ShrinkingFdes()
    requires Shrinking().Valid()
    ensures OldFdes(Shrinking(), EH) == 1 && NewFdes(Shrinking(), EH) == 0
  {
    ShrinkingWork();
    RecordFdes(20);
    RecordFdes(0);
    hide Shrinking, OldFdes, NewFdes, FdesFrom, Records;
    FdesOfCopies(Shrinking(), Records(20), Records(0));
  }

  /** Losing an FDE in place, without any change of size, makes the two modes differ. */
  lemma {:induction false} LostFdeLeavesARow()
    ensures var r := Shrinking();
            && r.Valid() && Reserved(r, EH, HDR) && r.PatchJob().Valid(|r.base|)
            && MinimalImage(r.PatchJob(), FullImage(r.OldJob(), r.base, r.layout), r.layout)
               != FullImage(r.NewJob(), r.base, r.layout)
  {
    ShrinkingIsTidy();
    ShrinkingIsValid();
    ShrinkingFdes();
    hide Tidy, Fits, FillsInside, OldFdes, NewFdes, MinimalImage, FullImage, CollectInputWorkItems, Acceptable,
         Records;
    MinimalEqualsFullIffNoFewerFdes(Shrinking(), EH, HDR);
  }
}
