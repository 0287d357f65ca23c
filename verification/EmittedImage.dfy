/** What a full emit leaves in the file, byte by byte: contributions, gaps, relocated fields
    (`peony-emit/src/lib.rs:317-423`). */
module EmittedImage {
  import opened Bytes
  import opened Reloc
  import opened Objects
  import opened InputWork
  import opened Dispatch
  import opened Emit
  import opened WorkList

  // ── Fields of one item ───────────────────────────────────────────────────

  /** Relocation `k` of the section and the later ones touch different bytes. */
  ghost predicate Alone(relocs: seq<InputReloc>, k: nat)
    requires k < |relocs|
  {
    forall j, i | k < j < |relocs| && InFootprint(relocs[k].rType, relocs[k].offset, i) ::
      !InFootprint(relocs[j].rType, relocs[j].offset, i)
  }

  lemma {:induction false} ApplyKeeps(lookup: Lookup, item: WorkItem, r: InputReloc, sec: seq<byte>, i: nat)
    requires i < |sec| < TWO63 && RelocFits(r, |sec|) && !InFootprint(r.rType, r.offset, i)
    ensures ApplyReloc(lookup, item, r, sec).bytes[i] == sec[i]
  {
    hide Patched, InFootprint;
    match lookup(item.objId, r, item.sectionVa)
    case Apply(addrs) => OutsideFootprint(sec, r.rType, addrs.(offset := r.offset), i);
    case _ =>
  }

  lemma {:induction false} StageKeeps(lookup: Lookup, item: WorkItem, k: nat, n: nat, i: nat)
    requires item.Len() < TWO63 && k <= n <= |item.isec.relocs| && i < item.Len()
    requires forall r | r in item.isec.relocs :: RelocFits(r, item.Len())
    requires forall j | k <= j < n :: !InFootprint(item.isec.relocs[j].rType, item.isec.relocs[j].offset, i)
    ensures Stage(lookup, item, n).bytes[i] == Stage(lookup, item, k).bytes[i]
    decreases n
  {
    hide ApplyReloc, InFootprint, RelocFits;
    if k < n {
      StageKeeps(lookup, item, k, n - 1, i);
      ApplyKeeps(lookup, item, item.isec.relocs[n - 1], Stage(lookup, item, n - 1).bytes, i);
    }
  }

  lemma {:induction false} StageOk(lookup: Lookup, item: WorkItem, k: nat, n: nat)
    requires item.Len() < TWO63 && k <= n <= |item.isec.relocs| && Stage(lookup, item, n).ok
    ensures Stage(lookup, item, k).ok
    decreases n
  {
    hide ApplyReloc;
    if k < n { StageOk(lookup, item, k, n - 1); }
  }

  /** In the finished section the field of a plain relocation that no later one touches holds its value. */
  lemma {:induction false} ItemField(lookup: Lookup, item: WorkItem, k: nat, a: Addrs)
    requires 0 < item.Len() < TWO63 && k < |item.isec.relocs| && Alone(item.isec.relocs, k)
    requires forall r | r in item.isec.relocs :: RelocFits(r, item.Len())
    requires ItemBytes(lookup, item).ok
    requires var r := item.isec.relocs[k];
             lookup(item.objId, r, item.sectionVa) == Apply(a) && a.offset == r.offset && FieldOf(r.rType, a).Some?
    ensures var r, w := item.isec.relocs[k], FieldOf(item.isec.relocs[k].rType, a).value.width;
            && r.offset + w <= item.Len()
            && FromLe(ItemBytes(lookup, item).bytes[r.offset..r.offset + w]) == AbiValue(r.rType, a) % Pow256(w)
            && FieldOf(r.rType, a).value.lo <= I64(AbiValue(r.rType, a)) < FieldOf(r.rType, a).value.hi
  {
    hide Patched, FromLe, AbiValue, Pow256;
    var r, n := item.isec.relocs[k], |item.isec.relocs|;
    var w := FieldOf(r.rType, a).value.width;
    StageOk(lookup, item, k + 1, n);
    var before, after := Stage(lookup, item, k), Stage(lookup, item, k + 1);
    assert after == ApplyReloc(lookup, item, r, before.bytes);
    FieldReadsBack(before.bytes, r.rType, a);
    FieldInFootprint(r.rType, a);
    assert RelocFits(r, item.Len());
    hide ApplyReloc, FieldOf;
    forall i | r.offset <= i < r.offset + w
      ensures Stage(lookup, item, n).bytes[i] == after.bytes[i]
    {
      assert InFootprint(r.rType, r.offset, i);
      StageKeeps(lookup, item, k + 1, n, i);
    }
    assert Stage(lookup, item, n).bytes[r.offset..r.offset + w] == after.bytes[r.offset..r.offset + w];
  }

  // ── The image ────────────────────────────────────────────────────────────

  function Work(l: Layout, objects: seq<InputObject>, lookup: Lookup): Job { WorkOf(l, objects, lookup, All) }

  /** The emit of a tidy layout that reports no error. */
  ghost predicate Faultless(l: Layout, objects: seq<InputObject>, lookup: Lookup, n: nat) {
    && Tidy(l, n) && Fits(l, objects) && Work(l, objects, lookup).Valid(n)
    && AllOk(Work(l, objects, lookup), |Work(l, objects, lookup).items|)
  }

  ghost function Full(l: Layout, objects: seq<InputObject>, lookup: Lookup, base: seq<byte>): (img: seq<byte>)
    requires Faultless(l, objects, lookup, |base|)
    ensures |img| == |base|
  {
    FullImage(Work(l, objects, lookup), base, l)
  }

  /** Inside an input section nothing is written after the data. */
  lemma {:induction false} FullByte(job: Job, base: seq<byte>, l: Layout, sec: OutSec, x: nat)
    requires job.Valid(|base|) && Tidy(l, |base|) && sec in l.sections && sec.source.Input? && sec.Holds(x)
    ensures x < |base| && FullImage(job, base, l)[x] == SerialImage(job, Prefix(base, l), |job.items|)[x]
  {
    hide SerialImage, Prefix, WriteTlsGot, WriteEhFrameHdr, HdrRoom, Finish, FinalizeBuildId, Settled;
    assert sec.End() <= |base|;
    hide Tidy;
    var data := SerialImage(job, Prefix(base, l), |job.items|);
    SettledInside(l, |base|, sec, x);
    SettledOutside(l, x);
    BuildIdFrame(Finish(data, l), l, x);
    FinishSettled(data, l, x);
    if InRoom(HdrRoom(l, WriteTlsGot(data, l)), x) { RoomHolds(l, |base|, WriteTlsGot(data, l), x); }
    HdrFrame(WriteTlsGot(data, l), l, x);
  }

  /** The work of a contribution, when its object and section are there. */
  function WorkFor(sec: OutSec, c: Contribution, objects: seq<InputObject>): (item: WorkItem)
    requires c.objectId < |objects| && c.sectionPos < |objects[c.objectId].sections|
    ensures IsWork(item, sec, c, objects)
  {
    WorkItem(sec.off + c.offset, Min(sec.va + c.offset, TWO64 - 1), c.objectId,
             objects[c.objectId].sections[c.sectionPos])
  }

  predicate Contributes(l: Layout, objects: seq<InputObject>, sec: OutSec, c: Contribution) {
    && sec in l.sections && sec.source.Input? && c in sec.contributions
    && c.objectId < |objects| && c.sectionPos < |objects[c.objectId].sections|
  }

  lemma {:induction false} WorkIsThere(l: Layout, objects: seq<InputObject>, lookup: Lookup, sec: OutSec,
          c: Contribution) returns (k: nat)
    requires Contributes(l, objects, sec, c)
    ensures k < |Work(l, objects, lookup).items| && Work(l, objects, lookup).items[k] == WorkFor(sec, c, objects)
  {
    hide CollectInputWorkItems;
    var item := WorkFor(sec, c, objects);
    assert Admits(l.sections, All, sec, c);
    WorkExactly(l.sections, objects, All, item);
    k :| 0 <= k < |Work(l, objects, lookup).items| && Work(l, objects, lookup).items[k] == item;
  }

  /** Every contribution lies at its offset in its section's file range, finished. */
  lemma {:induction false} FullHoldsContribution(l: Layout, objects: seq<InputObject>, lookup: Lookup, base: seq<byte>,
          sec: OutSec, c: Contribution, i: nat)
    requires Faultless(l, objects, lookup, |base|) && Contributes(l, objects, sec, c)
    requires i < WorkFor(sec, c, objects).Len()
    ensures var item := WorkFor(sec, c, objects);
            && item.Len() < TWO63 && ItemBytes(lookup, item).ok && sec.off + c.offset + i < |base|
            && Full(l, objects, lookup, base)[sec.off + c.offset + i] == ItemBytes(lookup, item).bytes[i]
  {
    var item, job := WorkFor(sec, c, objects), Work(l, objects, lookup);
    ContributionInside(l, objects, sec, c);
    var k := WorkIsThere(l, objects, lookup, sec, c);
    hide CollectInputWorkItems, SerialImage, FullImage, Prefix, Stage, Tidy, Fits, Acceptable;
    var x := sec.off + c.offset + i;
    FullByte(job, base, l, sec, x);
    assert Covers(job.items[k], x);
    DataByte(job, Prefix(base, l), k, x);
    assert ItemOk(lookup, item);
  }

  lemma {:induction false} ContributionInside(l: Layout, objects: seq<InputObject>, sec: OutSec, c: Contribution)
    requires Fits(l, objects) && Contributes(l, objects, sec, c)
    ensures WorkFor(sec, c, objects).Len() == c.size && c.offset + c.size <= sec.size
  {
    assert ItemOf(sec, objects, c) == Some(WorkFor(sec, c, objects));
  }

  // ── Gaps ─────────────────────────────────────────────────────────────────

  predicate InGap(sec: OutSec, x: int) {
    sec.Holds(x) && forall c | c in sec.contributions :: !(sec.off + c.offset <= x < sec.off + c.offset + c.size)
  }

  lemma {:induction false} ZeroAt(img: seq<byte>, off: nat, size: nat, x: nat)
    requires x < |img|
    ensures Zero(img, off, size)[x] == if off <= x < off + size <= |img| then 0 else img[x]
  {
    var s := Store(off, Zeros(size));
    if s.End() <= |img| && Touches(s, x) { assert Put(img, s)[off..s.End()][x - off] == s.data[x - off]; }
  }

  /** No contribution from `cs` on covers `x`: it becomes zero, or was and stays. */
  lemma {:induction false} GapZeroed(img: seq<byte>, off: nat, end: nat, cs: seq<Contribution>, cursor: nat, x: nat)
    requires off <= x < end <= |img| && (x < cursor ==> img[x] == 0)
    requires forall c | c in cs :: !(off + c.offset <= x < off + c.offset + c.size) && off + c.offset + c.size <= end
    ensures ZeroGaps(img, off, end, cs, cursor)[x] == 0
    decreases |cs|
  {
    hide Zero;
    if cs == [] {
      if end > cursor { ZeroAt(img, cursor, end - cursor, x); }
    } else {
      var start := off + cs[0].offset;
      assert cs[0] in cs;
      if start > cursor { ZeroAt(img, cursor, start - cursor, x); }
      var next := if start > cursor then Zero(img, cursor, start - cursor) else img;
      GapZeroed(next, off, end, cs[1..], Max(cursor, start + cs[0].size), x);
    }
  }

  /** Writing a section does not touch the bytes of a separate one. */
  lemma {:induction false} ZeroGapsFrame(img: seq<byte>, off: nat, end: nat, cs: seq<Contribution>, cursor: nat, x: nat)
    requires x < |img| && !(off <= x < end) && off <= cursor
    requires forall c | c in cs :: off + c.offset + c.size <= end
    ensures ZeroGaps(img, off, end, cs, cursor)[x] == img[x]
    decreases |cs|
  {
    hide Zero;
    if cs == [] {
      if end > cursor { ZeroAt(img, cursor, end - cursor, x); }
    } else {
      var start := off + cs[0].offset;
      assert cs[0] in cs;
      if start > cursor { ZeroAt(img, cursor, start - cursor, x); }
      var next := if start > cursor then Zero(img, cursor, start - cursor) else img;
      ZeroGapsFrame(next, off, end, cs[1..], Max(cursor, start + cs[0].size), x);
    }
  }

  /** The section's own stores lie inside it. */
  predicate OwnStores(sec: OutSec) {
    && (sec.source.Input? ==> forall c | c in sec.contributions :: c.offset + c.size <= sec.size)
    && (sec.source.NoteBuildId? ==> sec.size >= 32)
    && (sec.source.Got? || sec.source.Synthetic? ==>
          forall s | s in sec.fill :: sec.off <= s.at && s.End() <= sec.End())
  }

  lemma {:induction false} SectionFrame(img: seq<byte>, sec: OutSec, x: nat)
    requires x < |img| && !sec.Holds(x) && OwnStores(sec)
    ensures WriteSection(img, sec)[x] == img[x]
  {
    hide Zero, ZeroGaps, PutAll, Put;
    match sec.source
    case Input => ZeroGapsFrame(img, sec.off, sec.End(), sec.contributions, sec.off, x);
    case Bss =>
    case EhFrameHdr => ZeroAt(img, sec.off, sec.size, x);
    case NoteBuildId =>
      ZeroAt(img, sec.off, sec.size, x);
      PutFrame(Zero(img, sec.off, sec.size), Store(sec.off, NOTE_HEADER + Zeros(16)), x);
    case _ =>
      ZeroAt(img, sec.off, sec.size, x);
      PutAllFrame(Zero(img, sec.off, sec.size), sec.fill, x);
  }

  lemma {:induction false} PutFrame(img: seq<byte>, s: Store, x: nat)
    requires x < |img| && !Touches(s, x)
    ensures Put(img, s)[x] == img[x]
  {
  }

  /** What one section has written stays: the others are separate from it, or are the same. */
  lemma {:induction false} SectionsKeep(img: seq<byte>, secs: seq<OutSec>, sec: OutSec, x: nat, b: byte)
    requires x < |img| && sec.Holds(x) && !sec.source.Bss?
    requires forall t | t in secs :: OwnStores(t) && (t == sec || t.source.Bss? || Separate(t, sec))
    requires forall m: seq<byte> | |m| == |img| :: WriteSection(m, sec)[x] == b
    requires img[x] == b || sec in secs
    ensures WriteSections(img, secs)[x] == b
    decreases |secs|
  {
    hide WriteSection, OwnStores;
    if secs != [] {
      assert secs[0] in secs && forall t | t in secs :: t == secs[0] || t in secs[1..];
      var next := WriteSection(img, secs[0]);
      if secs[0] == sec {
        assert next[x] == b;
      } else if secs[0].source.Bss? {
        BssWritesNothing(img, secs[0]);
      } else {
        assert Separate(secs[0], sec);
        SectionFrame(img, secs[0], x);
      }
      SectionsKeep(next, secs[1..], sec, x, b);
    }
  }

  lemma {:induction false} BssWritesNothing(img: seq<byte>, sec: OutSec)
    requires sec.source.Bss?
    ensures WriteSection(img, sec) == img
  {
  }

  ghost predicate OwnSections(l: Layout) { forall sec | sec in l.sections :: OwnStores(sec) }

  /** Bytes of an input section that no contribution covers are zero. */
  lemma {:induction false} FullGapIsZero(l: Layout, objects: seq<InputObject>, lookup: Lookup, base: seq<byte>,
          sec: OutSec, x: nat)
    requires Faultless(l, objects, lookup, |base|) && OwnSections(l)
    requires sec in l.sections && sec.source.Input? && InGap(sec, x)
    ensures x < |base| && Full(l, objects, lookup, base)[x] == 0
  {
    hide CollectInputWorkItems, SerialImage, FullImage, Prefix, WriteSection, Acceptable, ItemOk;
    var job := Work(l, objects, lookup);
    FullByte(job, base, l, sec, x);
    InsideImage(l, |base|, sec);
    hide Tidy, Fits, OwnSections, InGap;
    forall m: seq<byte> | |m| == |base|
      ensures WriteSection(m, sec)[x] == 0
    {
      GapOfSection(m, sec, x);
    }
    PrefixByte(base, l, sec, x, 0);
    forall k | 0 <= k < |job.items|
      ensures !Covers(job.items[k], x)
    {
      NotCovered(l, objects, lookup, sec, x, k);
    }
    SerialOutside(job, Prefix(base, l), |job.items|, x);
  }

  lemma {:induction false} InsideImage(l: Layout, n: nat, sec: OutSec)
    requires Tidy(l, n) && OwnSections(l) && sec in l.sections && !sec.source.Bss?
    ensures sec.End() <= n && OwnStores(sec)
    ensures forall a, b | a in l.sections && b in l.sections && a != b :: Separate(a, b)
  {
    hide OwnStores, Separate;
  }

  lemma {:induction false} GapOfSection(img: seq<byte>, sec: OutSec, x: nat)
    requires sec.End() <= |img| && sec.source.Input? && OwnStores(sec) && InGap(sec, x)
    ensures WriteSection(img, sec)[x] == 0
  {
    hide ZeroGaps;
    GapZeroed(img, sec.off, sec.End(), sec.contributions, sec.off, x);
  }

  lemma {:induction false} PrefixByte(base: seq<byte>, l: Layout, sec: OutSec, x: nat, b: byte)
    requires Tidy(l, |base|) && OwnSections(l) && sec in l.sections && !sec.source.Bss? && sec.Holds(x) && x < |base|
    requires forall m: seq<byte> | |m| == |base| :: WriteSection(m, sec)[x] == b
    ensures Prefix(base, l)[x] == b
  {
    hide WriteSections, WriteSection, PutAll, OwnStores;
    assert forall t | t in l.sections :: t == sec || t.source.Bss? || Separate(t, sec);
    SectionsKeep(PutAll(base, l.headers), l.sections, sec, x, b);
  }

  lemma {:induction false} NotCovered(l: Layout, objects: seq<InputObject>, lookup: Lookup, sec: OutSec, x: nat, k: nat)
    requires Fits(l, objects) && sec in l.sections && sec.source.Input? && InGap(sec, x)
    requires (forall a, b | a in l.sections && b in l.sections && a != b :: Separate(a, b))
    requires k < |Work(l, objects, lookup).items|
    ensures !Covers(Work(l, objects, lookup).items[k], x)
  {
    hide CollectInputWorkItems;
    var item := Work(l, objects, lookup).items[k];
    WorkExactly(l.sections, objects, All, item);
    var t, c :| Admits(l.sections, All, t, c) && IsWork(item, t, c, objects);
    assert item.isec == WorkFor(t, c, objects).isec;
    ContributionInside(l, objects, t, c);
    if t != sec { assert Separate(t, sec); }
  }
}
