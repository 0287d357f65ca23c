/** The emitter's order of writes in full and in minimal mode (`peony-emit/src/lib.rs`,
    `peony-emit/src/sections.rs`, `peony-emit/src/build_id.rs`). */
module Emit {
  import opened Bytes
  import opened Reloc
  import opened Objects
  import opened InputWork
  import opened Dispatch
  import opened EhFrame

  // ── Layout as the emitter sees it ────────────────────────────────────────

  datatype Store = Store(at: nat, data: seq<byte>)
  {
    function End(): nat { at + |data| }
  }

  datatype Contribution = Contribution(objectId: nat, sectionPos: nat, offset: nat, size: nat)

  /** `Synthetic` stands for every source that zeroes its section and then stores bytes computed from the
      layout and the symbol view. */
  datatype Source = Input | Bss | EhFrameHdr | NoteBuildId | Got | Synthetic

  /** `fill`: the stores a `Got` or `Synthetic` section makes after zeroing. */
  datatype OutSec = OutSec(
    name: string, source: Source, off: nat, size: nat, va: u64, contributions: seq<Contribution>, fill: seq<Store>)
  {
    function End(): nat { off + size }

    predicate Holds(x: int) { off <= x < End() }
  }

  type Digest = d: seq<byte> | |d| == 16 witness Zeros(16)

  /** `headers` and `sectionHeaders`: the stores of the ELF and program headers and of the section header
      table; `tlsWrites`: address and value of each static TLS GOT slot. */
  datatype Layout = Layout(
    sections: seq<OutSec>, headers: seq<Store>, sectionHeaders: seq<Store>, tlsWrites: seq<(nat, u64)>,
    digest: seq<byte> -> Digest)

  function FindSource(secs: seq<OutSec>, source: Source): (r: Option<OutSec>)
    ensures r.Some? ==> r.value in secs && r.value.source == source
  {
    if secs == [] then None else if secs[0].source == source then Some(secs[0]) else FindSource(secs[1..], source)
  }

  function FindName(secs: seq<OutSec>, name: string): (r: Option<OutSec>)
    ensures r.Some? ==> r.value in secs
  {
    if secs == [] then None else if secs[0].name == name then Some(secs[0]) else FindName(secs[1..], name)
  }

  // ── Guarded stores ───────────────────────────────────────────────────────

  /** A store that would leave the buffer is skipped. */
  function Put(img: seq<byte>, s: Store): (r: seq<byte>)
    ensures |r| == |img|
  {
    if s.End() <= |img| then Splice(img, s.at, s.data) else img
  }

  function PutAll(img: seq<byte>, ss: seq<Store>): (r: seq<byte>)
    ensures |r| == |img|
    decreases |ss|
  {
    if ss == [] then img else PutAll(Put(img, ss[0]), ss[1..])
  }

  function Zero(img: seq<byte>, off: nat, size: nat): (r: seq<byte>)
    ensures |r| == |img|
  {
    Put(img, Store(off, Zeros(size)))
  }

  predicate Touches(s: Store, x: int) { s.at <= x < s.End() }

  predicate TouchedBy(ss: seq<Store>, x: int) { exists s :: s in ss && Touches(s, x) }

  lemma {:induction false} PutAllFrame(img: seq<byte>, ss: seq<Store>, x: nat)
    requires x < |img| && !TouchedBy(ss, x)
    ensures PutAll(img, ss)[x] == img[x]
    decreases |ss|
  {
    if ss != [] {
      assert !Touches(ss[0], x);
      assert forall s | s in ss[1..] :: s in ss;
      PutAllFrame(Put(img, ss[0]), ss[1..], x);
    }
  }

  lemma {:induction false} PutAgree(a: seq<byte>, b: seq<byte>, s: Store, x: nat)
    requires |a| == |b| && x < |a| && a[x] == b[x]
    ensures Put(a, s)[x] == Put(b, s)[x]
  {
    if s.End() <= |a| && Touches(s, x) {
      assert Put(a, s)[s.at..s.End()][x - s.at] == Put(b, s)[s.at..s.End()][x - s.at];
    }
  }

  /** The same stores keep images equal where they were equal. */
  lemma {:induction false} PutAllAgree(a: seq<byte>, b: seq<byte>, ss: seq<Store>, x: nat)
    requires |a| == |b| && x < |a| && a[x] == b[x]
    ensures PutAll(a, ss)[x] == PutAll(b, ss)[x]
    decreases |ss|
  {
    if ss != [] {
      PutAgree(a, b, ss[0], x);
      PutAllAgree(Put(a, ss[0]), Put(b, ss[0]), ss[1..], x);
    }
  }

  // ── Phase 1: synthetic sections and padding ──────────────────────────────

  function ZeroGaps(img: seq<byte>, off: nat, end: nat, cs: seq<Contribution>, cursor: nat): (r: seq<byte>)
    ensures |r| == |img|
    decreases |cs|
  {
    if cs == [] then if end > cursor then Zero(img, cursor, end - cursor) else img
    else
      var start := off + cs[0].offset;
      var next := if start > cursor then Zero(img, cursor, start - cursor) else img;
      ZeroGaps(next, off, end, cs[1..], Max(cursor, start + cs[0].size))
  }

  const NOTE_HEADER: seq<byte> := [4, 0, 0, 0, 16, 0, 0, 0, 3, 0, 0, 0, 71, 78, 85, 0]

  function WriteSection(img: seq<byte>, sec: OutSec): (r: seq<byte>)
    ensures |r| == |img|
  {
    match sec.source
    case Input => ZeroGaps(img, sec.off, sec.End(), sec.contributions, sec.off)
    case Bss => img
    case EhFrameHdr => Zero(img, sec.off, sec.size)
    case NoteBuildId => Put(Zero(img, sec.off, sec.size), Store(sec.off, NOTE_HEADER + Zeros(16)))
    case _ => PutAll(Zero(img, sec.off, sec.size), sec.fill)
  }

  function WriteSections(img: seq<byte>, secs: seq<OutSec>): (r: seq<byte>)
    ensures |r| == |img|
    decreases |secs|
  {
    if secs == [] then img else WriteSections(WriteSection(img, secs[0]), secs[1..])
  }

  // ── Phase 2: input sections ──────────────────────────────────────────────

  /** `All`, or the ids of the changed objects. */
  datatype Filter = All | ChangedObjects(ids: set<nat>)
  {
    predicate Writes(id: nat) { All? || id in ids }
  }

  function ItemOf(sec: OutSec, objects: seq<InputObject>, c: Contribution): Option<WorkItem> {
    if c.objectId < |objects| && c.sectionPos < |objects[c.objectId].sections| then
      Some(WorkItem(sec.off + c.offset, Min(sec.va + c.offset, TWO64 - 1), c.objectId,
                    objects[c.objectId].sections[c.sectionPos]))
    else None
  }

  function SectionItems(sec: OutSec, objects: seq<InputObject>, cs: seq<Contribution>, f: Filter): seq<WorkItem> {
    if cs == [] then []
    else
      (if f.Writes(cs[0].objectId) && ItemOf(sec, objects, cs[0]).Some?
       then [ItemOf(sec, objects, cs[0]).value] else [])
      + SectionItems(sec, objects, cs[1..], f)
  }

  function CollectInputWorkItems(secs: seq<OutSec>, objects: seq<InputObject>, f: Filter): seq<WorkItem> {
    if secs == [] then []
    else
      (if secs[0].source.Input? then SectionItems(secs[0], objects, secs[0].contributions, f) else [])
      + CollectInputWorkItems(secs[1..], objects, f)
  }

  function WorkOf(l: Layout, objects: seq<InputObject>, lookup: Lookup, f: Filter): Job {
    Job(lookup, CollectInputWorkItems(l.sections, objects, f), 256)
  }

  // ── Phases 3 to 6 ────────────────────────────────────────────────────────

  /** Static TLS GOT slots; a slot outside `.got` is skipped. */
  function TlsStores(got: OutSec, writes: seq<(nat, u64)>): seq<Store> {
    if writes == [] then []
    else
      var (va, value) := writes[0];
      (if va < got.va || va + 8 > got.va + got.size then [] else [Store(got.off + (va - got.va), Le(value, 8))])
      + TlsStores(got, writes[1..])
  }

  function WriteTlsGot(img: seq<byte>, l: Layout): (r: seq<byte>)
    ensures |r| == |img|
  {
    match FindSource(l.sections, Got)
    case None => img
    case Some(got) => PutAll(img, TlsStores(got, l.tlsWrites))
  }

  function EhBytes(img: seq<byte>, eh: OutSec): seq<byte>
    requires eh.End() <= |img|
  {
    img[eh.off..eh.End()]
  }

  /** The header store: as many bytes of the header as the reserved section holds. */
  function HdrStore(hdr: OutSec, eh: OutSec, bytes: seq<byte>): (s: Store)
    ensures s.at == hdr.off && |s.data| == Min(12 + 8 * |FdesFrom(bytes, 0)|, hdr.size)
  {
    var out := HdrBytes(eh.va, hdr.va, bytes);
    Store(hdr.off, out[..Min(|out|, hdr.size)])
  }

  function WriteEhFrameHdr(img: seq<byte>, l: Layout): (r: seq<byte>)
    ensures |r| == |img|
  {
    match (FindSource(l.sections, EhFrameHdr), FindName(l.sections, ".eh_frame"))
    case (Some(hdr), Some(eh)) =>
      if eh.End() > |img| then img else Put(img, HdrStore(hdr, eh, EhBytes(img, eh)))
    case _ => img
  }

  function DescriptorOffset(l: Layout): Option<nat> {
    match FindSource(l.sections, NoteBuildId)
    case Some(note) => Some(note.off + 16)
    case None => None
  }

  function FinalizeBuildId(img: seq<byte>, l: Layout): (r: seq<byte>)
    ensures |r| == |img|
  {
    match DescriptorOffset(l)
    case None => img
    case Some(d) =>
      if d + 16 > |img| then img
      else
        var cleared := Splice(img, d, Zeros(16));
        Splice(cleared, d, l.digest(cleared))
  }

  // ── The two modes ────────────────────────────────────────────────────────

  function Prefix(base: seq<byte>, l: Layout): (r: seq<byte>)
    ensures |r| == |base|
  {
    WriteSections(PutAll(base, l.headers), l.sections)
  }

  /** The phases that follow the data in a full emit, up to the build id. */
  function Finish(data: seq<byte>, l: Layout): (r: seq<byte>)
    ensures |r| == |data|
  {
    PutAll(WriteEhFrameHdr(WriteTlsGot(data, l), l), l.sectionHeaders)
  }

  function FullImage(job: Job, base: seq<byte>, l: Layout): (r: seq<byte>)
    requires job.Valid(|base|)
    ensures |r| == |base|
  {
    FinalizeBuildId(Finish(SerialImage(job, Prefix(base, l), |job.items|), l), l)
  }

  function MinimalImage(job: Job, base: seq<byte>, l: Layout): (r: seq<byte>)
    requires job.Valid(|base|)
    ensures |r| == |base|
  {
    FinalizeBuildId(WriteEhFrameHdr(SerialImage(job, base, |job.items|), l), l)
  }

  // ── What a layout promises the emitter ───────────────────────────────────

  predicate Clear(s: Store, sec: OutSec) { s.data == [] || s.End() <= sec.off || sec.End() <= s.at }

  predicate Separate(a: OutSec, b: OutSec) {
    a.source.Bss? || b.source.Bss? || a.End() <= b.off || b.End() <= a.off
  }

  /** File-backed sections lie in the file and do not overlap; the section header table lies outside
      them; `.got`'s reserved slots are the only ones the TLS writes can reach. */
  predicate Tidy(l: Layout, n: nat) {
    && (forall sec | sec in l.sections && !sec.source.Bss? :: sec.End() <= n)
    && (forall a, b | a in l.sections && b in l.sections && a != b :: Separate(a, b))
    && (forall s, sec | s in l.sectionHeaders && sec in l.sections && !sec.source.Bss? :: Clear(s, sec))
    && (forall sec | sec in l.sections && sec.source.NoteBuildId? :: sec.size >= 32)
    && (FindName(l.sections, ".eh_frame").Some? ==> FindName(l.sections, ".eh_frame").value.source.Input?)
  }

  /** Every contribution's bytes fit the room that layout gave it. */
  predicate Fits(l: Layout, objects: seq<InputObject>) {
    forall sec, c | sec in l.sections && sec.source.Input? && c in sec.contributions ::
      c.offset + c.size <= sec.size
      && (ItemOf(sec, objects, c).Some? ==> ItemOf(sec, objects, c).value.Len() == c.size)
  }

  // ── Where the work items lie ─────────────────────────────────────────────

  predicate Inside(item: WorkItem, secs: seq<OutSec>) {
    exists sec :: sec in secs && sec.source.Input? && sec.off <= item.fileOff && item.End() <= sec.End()
  }

  lemma {:induction false} SectionItemsInside(
    l: Layout, sec: OutSec, objects: seq<InputObject>, cs: seq<Contribution>, item: WorkItem)
    requires sec in l.sections && sec.source.Input? && Fits(l, objects) && forall c | c in cs :: c in sec.contributions
    requires item in SectionItems(sec, objects, cs, All)
    ensures Inside(item, l.sections)
    decreases |cs|
  {
    if cs != [] {
      assert cs[0] in cs;
      if ItemOf(sec, objects, cs[0]) != Some(item) { SectionItemsInside(l, sec, objects, cs[1..], item); }
    }
  }

  lemma {:induction false} ItemsInside(l: Layout, secs: seq<OutSec>, objects: seq<InputObject>, item: WorkItem)
    requires Fits(l, objects) && forall sec | sec in secs :: sec in l.sections
    requires item in CollectInputWorkItems(secs, objects, All)
    ensures Inside(item, l.sections)
    decreases |secs|
  {
    hide SectionItems;
    if secs != [] {
      assert secs[0] in secs;
      if secs[0].source.Input? && item in SectionItems(secs[0], objects, secs[0].contributions, All) {
        SectionItemsInside(l, secs[0], objects, secs[0].contributions, item);
      } else {
        ItemsInside(l, secs[1..], objects, item);
      }
    }
  }

  // ── The minimal work list is the full one, filtered ──────────────────────

  function Kept(items: seq<WorkItem>, ids: set<nat>): seq<WorkItem> {
    if items == [] then [] else (if items[0].objId in ids then [items[0]] else []) + Kept(items[1..], ids)
  }

  lemma {:induction false} Associates(a: seq<WorkItem>, b: seq<WorkItem>, c: seq<WorkItem>)
    ensures a + (b + c) == (a + b) + c
  {
  }

  lemma {:induction false} KeptConcat(a: seq<WorkItem>, b: seq<WorkItem>, ids: set<nat>)
    ensures Kept(a + b, ids) == Kept(a, ids) + Kept(b, ids)
  {
    if a == [] {
      assert a + b == b;
    } else {
      var head := if a[0].objId in ids then [a[0]] else [];
      assert (a + b)[0] == a[0] && (a + b)[1..] == a[1..] + b;
      KeptConcat(a[1..], b, ids);
      Associates(head, Kept(a[1..], ids), Kept(b, ids));
    }
  }

  lemma {:induction false} SectionFiltered(sec: OutSec, objects: seq<InputObject>, cs: seq<Contribution>, ids: set<nat>)
    ensures SectionItems(sec, objects, cs, ChangedObjects(ids)) == Kept(SectionItems(sec, objects, cs, All), ids)
    decreases |cs|
  {
    if cs != [] {
      var it := ItemOf(sec, objects, cs[0]);
      var head := if it.Some? then [it.value] else [];
      SectionFiltered(sec, objects, cs[1..], ids);
      KeptConcat(head, SectionItems(sec, objects, cs[1..], All), ids);
      assert Kept([], ids) == [];
      if it.Some? {
        assert [it.value][1..] == [];
        assert Kept([it.value], ids) == if cs[0].objectId in ids then [it.value] else [];
      }
    }
  }

  lemma {:induction false} WorkFiltered(secs: seq<OutSec>, objects: seq<InputObject>, ids: set<nat>)
    ensures CollectInputWorkItems(secs, objects, ChangedObjects(ids))
            == Kept(CollectInputWorkItems(secs, objects, All), ids)
    decreases |secs|
  {
    hide SectionItems;
    if secs != [] {
      var head := if secs[0].source.Input? then SectionItems(secs[0], objects, secs[0].contributions, All) else [];
      WorkFiltered(secs[1..], objects, ids);
      SectionFiltered(secs[0], objects, secs[0].contributions, ids);
      KeptConcat(head, CollectInputWorkItems(secs[1..], objects, All), ids);
    }
  }

  lemma {:induction false} KeptIn(items: seq<WorkItem>, ids: set<nat>, item: WorkItem)
    ensures item in Kept(items, ids) <==> item in items && item.objId in ids
  {
    if items != [] { KeptIn(items[1..], ids, item); }
  }

  predicate PairwiseApart(items: seq<WorkItem>) {
    forall i, j | 0 <= i < j < |items| :: Apart(items[i], items[j])
  }

  lemma {:induction false} KeptApart(items: seq<WorkItem>, ids: set<nat>)
    requires PairwiseApart(items)
    ensures PairwiseApart(Kept(items, ids))
  {
    hide Apart;
    if items != [] {
      var rest, kept := items[1..], Kept(items[1..], ids);
      KeptApart(rest, ids);
      forall k | 0 <= k < |kept|
        ensures Apart(items[0], kept[k])
      {
        KeptIn(rest, ids, kept[k]);
        var i :| 0 <= i < |rest| && rest[i] == kept[k];
        assert items[i + 1] == kept[k];
      }
    }
  }

  /** Filtering keeps a work list acceptable. */
  lemma {:induction false} KeptAcceptable(items: seq<WorkItem>, ids: set<nat>, n: nat)
    requires Acceptable(items, n)
    ensures Acceptable(Kept(items, ids), n)
  {
    hide Apart, Contained;
    var kept := Kept(items, ids);
    KeptApart(items, ids);
    forall k | 0 <= k < |kept|
      ensures Contained(kept[k], n)
    {
      KeptIn(items, ids, kept[k]);
    }
  }

  // ── One relink: some objects change, none changes size ───────────────────

  /** A relink of `before` to `after` in one layout; `changed` names every object that differs. */
  datatype Relink = Relink(
    layout: Layout, before: seq<InputObject>, after: seq<InputObject>, changed: set<nat>,
    oldLookup: Lookup, newLookup: Lookup, base: seq<byte>)
  {
    function OldJob(): Job { WorkOf(layout, before, oldLookup, All) }

    function NewJob(): Job { WorkOf(layout, after, newLookup, All) }

    function PatchJob(): Job { WorkOf(layout, after, newLookup, ChangedObjects(changed)) }

    predicate SameObjects() {
      && |before| == |after|
      && (forall i | 0 <= i < |before| :: |before[i].sections| == |after[i].sections|)
      && (forall i | 0 <= i < |before| && i !in changed :: before[i] == after[i])
    }

    /** One symbol view: the relocations of an unchanged object resolve as before. */
    ghost predicate SameLookups() {
      forall id, r, va :: id !in changed ==> oldLookup(id, r, va) == newLookup(id, r, va)
    }

    ghost predicate Valid() {
      && Tidy(layout, |base|) && Fits(layout, before) && Fits(layout, after)
      && OldJob().Valid(|base|) && NewJob().Valid(|base|)
      && SameObjects() && SameLookups()
    }

    ghost function OldData(): (r: seq<byte>)
      requires Valid()
      ensures |r| == |base|
    {
      SerialImage(OldJob(), Prefix(base, layout), |OldJob().items|)
    }

    ghost function NewData(): (r: seq<byte>)
      requires Valid()
      ensures |r| == |base|
    {
      SerialImage(NewJob(), Prefix(base, layout), |NewJob().items|)
    }
  }

  predicate Twin(a: WorkItem, b: WorkItem, changed: set<nat>) {
    && a.fileOff == b.fileOff && a.sectionVa == b.sectionVa && a.objId == b.objId && a.Len() == b.Len()
    && (a.objId !in changed ==> a == b)
  }

  predicate Twins(xs: seq<WorkItem>, ys: seq<WorkItem>, changed: set<nat>) {
    |xs| == |ys| && forall k | 0 <= k < |xs| :: Twin(xs[k], ys[k], changed)
  }

  lemma {:induction false} TwinsConcat(
    xs: seq<WorkItem>, ys: seq<WorkItem>, us: seq<WorkItem>, vs: seq<WorkItem>, changed: set<nat>)
    requires Twins(xs, ys, changed) && Twins(us, vs, changed)
    ensures Twins(xs + us, ys + vs, changed)
  {
    hide Twin;
  }

  lemma {:induction false} TwinItem(r: Relink, sec: OutSec, c: Contribution)
    requires r.SameObjects() && Fits(r.layout, r.before) && Fits(r.layout, r.after)
    requires sec in r.layout.sections && sec.source.Input? && c in sec.contributions
    ensures ItemOf(sec, r.before, c).Some? <==> ItemOf(sec, r.after, c).Some?
    ensures ItemOf(sec, r.before, c).Some? ==>
            Twin(ItemOf(sec, r.before, c).value, ItemOf(sec, r.after, c).value, r.changed)
  {
  }

  lemma {:induction false} TwinSections(r: Relink, sec: OutSec, cs: seq<Contribution>)
    requires r.SameObjects() && Fits(r.layout, r.before) && Fits(r.layout, r.after)
    requires sec in r.layout.sections && sec.source.Input? && forall c | c in cs :: c in sec.contributions
    ensures Twins(SectionItems(sec, r.before, cs, All), SectionItems(sec, r.after, cs, All), r.changed)
    decreases |cs|
  {
    hide Twin, ItemOf, Fits;
    if cs != [] {
      assert cs[0] in cs;
      TwinItem(r, sec, cs[0]);
      TwinSections(r, sec, cs[1..]);
      var a, b := ItemOf(sec, r.before, cs[0]), ItemOf(sec, r.after, cs[0]);
      if a.Some? {
        TwinsConcat([a.value], [b.value], SectionItems(sec, r.before, cs[1..], All),
            SectionItems(sec, r.after, cs[1..], All),
                    r.changed);
      } else {
        TwinsConcat([], [], SectionItems(sec, r.before, cs[1..], All), SectionItems(sec, r.after, cs[1..], All),
            r.changed);
      }
    }
  }

  /** Both work lists name the same windows in the same order. */
  lemma {:induction false} TwinWork(r: Relink, secs: seq<OutSec>)
    requires r.SameObjects() && Fits(r.layout, r.before) && Fits(r.layout, r.after)
    requires forall sec | sec in secs :: sec in r.layout.sections
    ensures Twins(CollectInputWorkItems(secs, r.before, All), CollectInputWorkItems(secs, r.after, All), r.changed)
    decreases |secs|
  {
    hide Twin, Fits, SectionItems;
    if secs != [] {
      assert secs[0] in secs;
      TwinWork(r, secs[1..]);
      var xs, ys := CollectInputWorkItems(secs[1..], r.before, All), CollectInputWorkItems(secs[1..], r.after, All);
      if secs[0].source.Input? {
        TwinSections(r, secs[0], secs[0].contributions);
        TwinsConcat(SectionItems(secs[0], r.before, secs[0].contributions, All),
                    SectionItems(secs[0], r.after, secs[0].contributions, All), xs, ys, r.changed);
      } else {
        TwinsConcat([], [], xs, ys, r.changed);
      }
    }
  }

  lemma {:induction false} SameStage(a: Lookup, b: Lookup, item: WorkItem, k: nat)
    requires item.Len() < TWO63 && k <= |item.isec.relocs|
    requires forall r, va :: a(item.objId, r, va) == b(item.objId, r, va)
    ensures Stage(a, item, k) == Stage(b, item, k)
  {
    hide Patched;
    if k > 0 { SameStage(a, b, item, k - 1); }
  }

  lemma {:induction false} PatchValid(r: Relink)
    requires r.Valid()
    ensures r.PatchJob().Valid(|r.base|)
    ensures r.PatchJob().items == Kept(r.NewJob().items, r.changed)
  {
    hide Tidy, Fits, Acceptable, Kept, CollectInputWorkItems;
    WorkFiltered(r.layout.sections, r.after, r.changed);
    KeptAcceptable(r.NewJob().items, r.changed, |r.base|);
  }

  /** The byte at `x` after an accepted list is the covering item's byte, or the byte beneath. */
  lemma {:induction false} DataByte(job: Job, base: seq<byte>, k: nat, x: nat)
    requires job.Valid(|base|) && k < |job.items| && Covers(job.items[k], x)
    ensures Contained(job.items[k], |base|) && x < |base|
    ensures SerialImage(job, base, |job.items|)[x]
            == ItemBytes(job.lookup, job.items[k]).bytes[x - job.items[k].fileOff]
  {
    hide SerialImage, ItemBytes;
    ItemContained(job, |base|, k);
    SerialInside(job, base, |job.items|, k);
    var item, img := job.items[k], SerialImage(job, base, |job.items|);
    assert img[item.fileOff..item.End()][x - item.fileOff] == img[x];
  }

  predicate Uncovered(items: seq<WorkItem>, x: int) { forall i | 0 <= i < |items| :: !Covers(items[i], x) }

  /** Where the old image still holds the old data, patching it gives the new data. */
  lemma {:induction false} PatchedByte(r: Relink, o: seq<byte>, x: nat)
    requires r.Valid() && |o| == |r.base| && x < |o| && o[x] == r.OldData()[x]
    ensures r.PatchJob().Valid(|o|)
    ensures SerialImage(r.PatchJob(), o, |r.PatchJob().items|)[x] == r.NewData()[x]
  {
    hide SerialImage, Tidy, Fits, Acceptable, CollectInputWorkItems, Kept, Prefix, ItemBytes;
    PatchValid(r);
    TwinWork(r, r.layout.sections);
    var news, kept := r.NewJob().items, r.PatchJob().items;
    if k :| 0 <= k < |news| && Covers(news[k], x) {
      DataByte(r.NewJob(), Prefix(r.base, r.layout), k, x);
      KeptIn(news, r.changed, news[k]);
      if news[k].objId in r.changed {
        var i :| 0 <= i < |kept| && kept[i] == news[k];
        DataByte(r.PatchJob(), o, i, x);
      } else {
        UnchangedByte(r, o, k, x);
      }
    } else {
      forall i | 0 <= i < |kept| ensures !Covers(kept[i], x) { KeptIn(news, r.changed, kept[i]); }
      SerialOutside(r.PatchJob(), o, |kept|, x);
      SerialOutside(r.NewJob(), Prefix(r.base, r.layout), |news|, x);
      forall i | 0 <= i < |r.OldJob().items| ensures !Covers(r.OldJob().items[i],
          x) { assert Twin(r.OldJob().items[i], news[i], r.changed); }
      SerialOutside(r.OldJob(), Prefix(r.base, r.layout), |r.OldJob().items|, x);
    }
  }

  lemma {:induction false} UnchangedByte(r: Relink, o: seq<byte>, k: nat, x: nat)
    requires r.Valid() && |o| == |r.base| && x < |o| && o[x] == r.OldData()[x]
    requires k < |r.NewJob().items| && Covers(r.NewJob().items[k], x) && r.NewJob().items[k].objId !in r.changed
    ensures r.PatchJob().Valid(|o|)
    ensures SerialImage(r.PatchJob(), o, |r.PatchJob().items|)[x] == r.NewData()[x]
  {
    hide SerialImage, Tidy, Fits, CollectInputWorkItems, Kept, Prefix, Stage;
    PatchValid(r);
    TwinWork(r, r.layout.sections);
    var item, kept := r.NewJob().items[k], r.PatchJob().items;
    assert Twin(r.OldJob().items[k], item, r.changed);
    DataByte(r.OldJob(), Prefix(r.base, r.layout), k, x);
    DataByte(r.NewJob(), Prefix(r.base, r.layout), k, x);
    SameStage(r.oldLookup, r.newLookup, item, |item.isec.relocs|);
    NoneCovers(r.NewJob(), |o|, r.changed, k, x);
    SerialOutside(r.PatchJob(), o, |kept|, x);
  }

  lemma {:induction false} NoneCovers(job: Job, n: nat, ids: set<nat>, k: nat, x: int)
    requires job.Valid(n) && k < |job.items| && Covers(job.items[k], x) && job.items[k].objId !in ids
    ensures Uncovered(Kept(job.items, ids), x)
  {
    hide Kept, Contained;
    var kept := Kept(job.items, ids);
    forall i | 0 <= i < |kept|
      ensures !Covers(kept[i], x)
    {
      KeptIn(job.items, ids, kept[i]);
      var j :| 0 <= j < |job.items| && job.items[j] == kept[i];
      if j < k { assert Apart(job.items[j], job.items[k]); } else { assert Apart(job.items[k], job.items[j]); }
    }
  }

  // ── Frames of the later phases ───────────────────────────────────────────

  lemma {:induction false} TlsInGot(got: OutSec, writes: seq<(nat, u64)>, x: int)
    requires TouchedBy(TlsStores(got, writes), x)
    ensures got.Holds(x)
    decreases |writes|
  {
    var s :| s in TlsStores(got, writes) && Touches(s, x);
    if s in TlsStores(got, writes[1..]) { TlsInGot(got, writes[1..], x); }
  }

  /** `x` is out of the reach of the TLS slots, of the section header table and of the build id. */
  predicate Settled(l: Layout, x: int) {
    && (FindSource(l.sections, Got).Some? ==> !FindSource(l.sections, Got).value.Holds(x))
    && !TouchedBy(l.sectionHeaders, x)
    && OutsideDescriptor(l, x)
  }

  predicate OutsideDescriptor(l: Layout, x: int) {
    DescriptorOffset(l).Some? ==> !(DescriptorOffset(l).value <= x < DescriptorOffset(l).value + 16)
  }

  lemma {:induction false} SettledInside(l: Layout, n: nat, sec: OutSec, x: int)
    requires Tidy(l, n) && sec in l.sections && sec.Holds(x)
    requires sec.source.Input? || sec.source.EhFrameHdr? || sec.source.Synthetic?
    ensures Settled(l, x)
  {
    var got, note := FindSource(l.sections, Got), FindSource(l.sections, NoteBuildId);
    if got.Some? { assert Separate(got.value, sec); }
    if note.Some? { assert Separate(note.value, sec); }
    forall s | s in l.sectionHeaders ensures !Touches(s, x) { assert Clear(s, sec); }
  }

  lemma {:induction false} TlsFrame(img: seq<byte>, l: Layout, x: nat)
    requires x < |img| && (FindSource(l.sections, Got).Some? ==> !FindSource(l.sections, Got).value.Holds(x))
    ensures WriteTlsGot(img, l)[x] == img[x]
  {
    hide PutAll, TlsStores;
    match FindSource(l.sections, Got)
    case None =>
    case Some(got) =>
      if TouchedBy(TlsStores(got, l.tlsWrites), x) { TlsInGot(got, l.tlsWrites, x); }
      PutAllFrame(img, TlsStores(got, l.tlsWrites), x);
  }

  lemma {:induction false} TlsAgree(a: seq<byte>, b: seq<byte>, l: Layout, x: nat)
    requires |a| == |b| && x < |a| && a[x] == b[x]
    ensures WriteTlsGot(a, l)[x] == WriteTlsGot(b, l)[x]
  {
    hide PutAll, TlsStores;
    match FindSource(l.sections, Got)
    case None =>
    case Some(got) => PutAllAgree(a, b, TlsStores(got, l.tlsWrites), x);
  }

  /** The part of the header section that the header store fills; empty when nothing is stored. */
  function HdrRoom(l: Layout, img: seq<byte>): (r: Option<Store>) {
    match (FindSource(l.sections, EhFrameHdr), FindName(l.sections, ".eh_frame"))
    case (Some(hdr), Some(eh)) => if eh.End() > |img| then None else Some(HdrStore(hdr, eh, EhBytes(img, eh)))
    case _ => None
  }

  /** How many bytes of `.eh_frame_hdr` the emitter writes for these section bytes. */
  function HdrLen(l: Layout, img: seq<byte>): nat {
    match HdrRoom(l, img)
    case Some(s) => |s.data|
    case None => 0
  }

  lemma {:induction false} HdrIsPut(img: seq<byte>, l: Layout)
    ensures WriteEhFrameHdr(img, l) == match HdrRoom(l, img) case Some(s) => Put(img, s) case None => img
  {
    hide HdrStore, Put;
  }

  lemma {:induction false} HdrFrame(img: seq<byte>, l: Layout, x: nat)
    requires x < |img|
    requires HdrRoom(l, img).Some? ==> !Touches(HdrRoom(l, img).value, x)
    ensures WriteEhFrameHdr(img, l)[x] == img[x]
  {
    hide HdrRoom;
    HdrIsPut(img, l);
  }

  lemma {:induction false} HdrRoomInHdr(img: seq<byte>, l: Layout)
    requires HdrRoom(l, img).Some?
    ensures var s := HdrRoom(l, img).value;
            exists hdr :: hdr in l.sections && hdr.source.EhFrameHdr? && s.at == hdr.off && s.End() <= hdr.End()
  {
    hide HdrBytes;
    var hdr := FindSource(l.sections, EhFrameHdr).value;
    assert hdr in l.sections && hdr.source.EhFrameHdr?;
  }

  /** The header depends on nothing but the relocated `.eh_frame` bytes. */
  lemma {:induction false} SameHdr(a: seq<byte>, b: seq<byte>, l: Layout)
    requires |a| == |b|
    requires FindName(l.sections, ".eh_frame").Some? ==>
               forall x | 0 <= x < |a| && FindName(l.sections, ".eh_frame").value.Holds(x) :: a[x] == b[x]
    ensures HdrRoom(l, a) == HdrRoom(l, b)
  {
    hide HdrStore;
    var eh := FindName(l.sections, ".eh_frame");
    if eh.Some? && eh.value.End() <= |a| {
      assert EhBytes(a, eh.value) == EhBytes(b, eh.value);
    }
  }

  /** The build id depends on every byte but its own: a stale descriptor makes no difference. */
  lemma {:induction false} StaleDescriptorIgnored(a: seq<byte>, b: seq<byte>, l: Layout)
    requires |a| == |b|
    requires DescriptorOffset(l).Some? ==> DescriptorOffset(l).value + 16 <= |a|
    requires forall x | 0 <= x < |a| && OutsideDescriptor(l, x) :: a[x] == b[x]
    ensures FinalizeBuildId(a, l) == FinalizeBuildId(b, l)
  {
    match DescriptorOffset(l)
    case None => SameImage(a, b);
    case Some(d) =>
      var ca, cb := Splice(a, d, Zeros(16)), Splice(b, d, Zeros(16));
      forall x | 0 <= x < |a|
        ensures ca[x] == cb[x]
      {
        if d <= x < d + 16 { assert ca[d..d + 16][x - d] == cb[d..d + 16][x - d]; }
      }
      SameImage(ca, cb);
  }

  lemma {:induction false} BuildIdFrame(img: seq<byte>, l: Layout, x: nat)
    requires x < |img| && OutsideDescriptor(l, x)
    ensures FinalizeBuildId(img, l)[x] == img[x]
  {
    hide Splice;
  }

  // ── Minimal over full equals full ────────────────────────────────────────

  lemma {:induction false} FinishSettled(data: seq<byte>, l: Layout, x: nat)
    requires x < |data| && Settled(l, x)
    ensures Finish(data, l)[x] == WriteEhFrameHdr(WriteTlsGot(data, l), l)[x]
    ensures WriteTlsGot(data, l)[x] == data[x]
  {
    hide WriteEhFrameHdr, WriteTlsGot, PutAll;
    TlsFrame(data, l, x);
    PutAllFrame(WriteEhFrameHdr(WriteTlsGot(data, l), l), l.sectionHeaders, x);
  }

  lemma {:induction false} RoomOf(r: Relink, data: seq<byte>)
    requires Tidy(r.layout, |data|)
    ensures HdrRoom(r.layout, WriteTlsGot(data, r.layout)) == HdrRoom(r.layout, data)
  {
    hide HdrRoom, WriteTlsGot;
    var eh := FindName(r.layout.sections, ".eh_frame");
    forall x: nat | x < |data| && eh.Some? && eh.value.Holds(x)
      ensures WriteTlsGot(data, r.layout)[x] == data[x]
    {
      SettledInside(r.layout, |data|, eh.value, x);
      TlsFrame(data, r.layout, x);
    }
    SameHdr(WriteTlsGot(data, r.layout), data, r.layout);
  }

  predicate InRoom(room: Option<Store>, x: int) { room.Some? && Touches(room.value, x) }

  lemma {:induction false} RoomHolds(l: Layout, n: nat, img: seq<byte>, x: int)
    requires Tidy(l, n) && InRoom(HdrRoom(l, img), x)
    ensures Settled(l, x) && HdrRoom(l, img).value.End() <= n
    ensures forall sec | sec in l.sections && sec.source.Input? :: !sec.Holds(x)
  {
    hide HdrRoom, Settled;
    HdrRoomInHdr(img, l);
    var s := HdrRoom(l, img).value;
    var hdr :| hdr in l.sections && hdr.source.EhFrameHdr? && s.at == hdr.off && s.End() <= hdr.End();
    SettledInside(l, n, hdr, x);
    forall sec | sec in l.sections && sec.source.Input? ensures !sec.Holds(x) { assert Separate(hdr, sec); }
  }

  /** Away from what later phases write, the old image holds the old data. */
  lemma {:induction false} OldByte(r: Relink, x: nat)
    requires r.Valid() && x < |r.base| && Settled(r.layout, x) && !InRoom(HdrRoom(r.layout, r.OldData()), x)
    ensures FullImage(r.OldJob(), r.base, r.layout)[x] == r.OldData()[x]
  {
    hide SerialImage, Prefix, WorkOf, Finish, FinalizeBuildId, HdrRoom, Tidy, Fits, WriteEhFrameHdr, WriteTlsGot;
    BuildIdFrame(Finish(r.OldData(), r.layout), r.layout, x);
    FinishSettled(r.OldData(), r.layout, x);
    TidyData(r);
    RoomOf(r, r.OldData());
    HdrFrame(WriteTlsGot(r.OldData(), r.layout), r.layout, x);
  }

  lemma {:induction false} TidyData(r: Relink)
    requires r.Valid()
    ensures Tidy(r.layout, |r.OldData()|) && Tidy(r.layout, |r.NewData()|)
  {
    hide Tidy, Fits;
  }

  ghost function PatchedData(r: Relink): (d: seq<byte>)
    requires r.Valid()
    ensures |d| == |r.base|
  {
    PatchValid(r);
    SerialImage(r.PatchJob(), FullImage(r.OldJob(), r.base, r.layout), |r.PatchJob().items|)
  }

  /** The patched image rebuilds the very header of the new link. */
  lemma {:induction false} SameRoom(r: Relink)
    requires r.Valid()
    ensures HdrRoom(r.layout, PatchedData(r)) == HdrRoom(r.layout, r.NewData())
  {
    hide SerialImage, HdrRoom, FullImage, Relink.OldData, Relink.NewData, Tidy, Fits;
    var eh := FindName(r.layout.sections, ".eh_frame");
    TidyData(r);
    PatchValid(r);
    forall x: nat | x < |r.base| && eh.Some? && eh.value.Holds(x)
      ensures PatchedData(r)[x] == r.NewData()[x]
    {
      EhByte(r, x);
    }
    SameHdr(PatchedData(r), r.NewData(), r.layout);
  }

  lemma {:induction false} EhByte(r: Relink, x: nat)
    requires r.Valid() && x < |r.base|
    requires FindName(r.layout.sections, ".eh_frame").Some? && FindName(r.layout.sections, ".eh_frame").value.Holds(x)
    ensures PatchedData(r)[x] == r.NewData()[x]
  {
    hide SerialImage, HdrRoom, FullImage, Settled, Fits;
    SettledInside(r.layout, |r.base|, FindName(r.layout.sections, ".eh_frame").value, x);
    if InRoom(HdrRoom(r.layout, r.OldData()), x) { RoomHolds(r.layout, |r.base|, r.OldData(), x); }
    OldByte(r, x);
    PatchedByte(r, FullImage(r.OldJob(), r.base, r.layout), x);
  }

  lemma {:induction false} RoomGrows(l: Layout, a: seq<byte>, b: seq<byte>, x: int)
    requires HdrLen(l, a) <= HdrLen(l, b) && InRoom(HdrRoom(l, a), x)
    ensures InRoom(HdrRoom(l, b), x)
  {
    hide HdrBytes;
  }

  /** The old header reaches `x` and the new one does not. */
  ghost predicate Stale(r: Relink, x: int)
    requires r.Valid()
  {
    InRoom(HdrRoom(r.layout, r.OldData()), x) && !InRoom(HdrRoom(r.layout, r.NewData()), x)
  }

  /** The byte of the old header at `x`. */
  ghost function OldHdrByte(r: Relink, x: int): byte
    requires r.Valid() && InRoom(HdrRoom(r.layout, r.OldData()), x)
  {
    var room := HdrRoom(r.layout, r.OldData()).value;
    room.data[x - room.at]
  }

  /** Where the old header is longer, patching leaves its bytes, and a full link the bytes it starts from. */
  lemma {:induction false} StaleByte(r: Relink, x: nat)
    requires r.Valid() && x < |r.base| && Stale(r, x)
    ensures OutsideDescriptor(r.layout, x)
    ensures WriteEhFrameHdr(PatchedData(r), r.layout)[x] == OldHdrByte(r, x)
    ensures Finish(r.NewData(), r.layout)[x] == Prefix(r.base, r.layout)[x]
  {
    hide WriteEhFrameHdr, Finish, HdrRoom, PatchedData, Fits, WriteTlsGot, Relink.OldData, Relink.NewData, FullImage,
         SerialImage, Settled, Prefix, CollectInputWorkItems;
    TidyData(r);
    RoomHolds(r.layout, |r.base|, r.OldData(), x);
    SettledOutside(r.layout, x);
    SameRoom(r);
    HdrFrame(PatchedData(r), r.layout, x);
    PatchedHdrByte(r, x);
    RoomOf(r, r.NewData());
    FinishSettled(r.NewData(), r.layout, x);
    HdrFrame(WriteTlsGot(r.NewData(), r.layout), r.layout, x);
    NewUntouched(r, x);
  }

  lemma {:induction false} SettledOutside(l: Layout, x: int)
    requires Settled(l, x)
    ensures OutsideDescriptor(l, x)
  {
  }

  /** No work item reaches into the header. */
  lemma {:induction false} HdrUncovered(r: Relink, x: nat)
    requires r.Valid() && InRoom(HdrRoom(r.layout, r.OldData()), x)
    ensures r.PatchJob().Valid(|r.base|) && Uncovered(r.PatchJob().items, x) && Uncovered(r.NewJob().items, x)
  {
    hide CollectInputWorkItems, Fits, Acceptable, Kept, HdrRoom, Relink.OldData;
    TidyData(r);
    PatchValid(r);
    RoomHolds(r.layout, |r.base|, r.OldData(), x);
    hide Tidy;
    forall i | 0 <= i < |r.NewJob().items|
      ensures !Covers(r.NewJob().items[i], x)
    {
      ItemsInside(r.layout, r.layout.sections, r.after, r.NewJob().items[i]);
    }
    forall i | 0 <= i < |r.PatchJob().items|
      ensures !Covers(r.PatchJob().items[i], x)
    {
      KeptIn(r.NewJob().items, r.changed, r.PatchJob().items[i]);
    }
  }

  lemma {:induction false} PatchedHdrByte(r: Relink, x: nat)
    requires r.Valid() && x < |r.base| && InRoom(HdrRoom(r.layout, r.OldData()), x)
    ensures PatchedData(r)[x] == OldHdrByte(r, x)
  {
    hide WriteEhFrameHdr, Finish, HdrRoom, Fits, WriteTlsGot, Relink.OldData, FullImage, SerialImage, Settled,
         CollectInputWorkItems;
    TidyData(r);
    HdrUncovered(r, x);
    SerialOutside(r.PatchJob(), FullImage(r.OldJob(), r.base, r.layout), |r.PatchJob().items|, x);
    RoomHolds(r.layout, |r.base|, r.OldData(), x);
    SettledOutside(r.layout, x);
    OldFinished(r, x);
    FinishSettled(r.OldData(), r.layout, x);
    RoomOf(r, r.OldData());
    HdrIsPut(WriteTlsGot(r.OldData(), r.layout), r.layout);
    PutByte(WriteTlsGot(r.OldData(), r.layout), HdrRoom(r.layout, r.OldData()).value, x);
  }

  lemma {:induction false} PutByte(img: seq<byte>, s: Store, x: nat)
    requires s.End() <= |img| && Touches(s, x)
    ensures Put(img, s)[x] == s.data[x - s.at]
  {
    assert Put(img, s)[s.at..s.End()][x - s.at] == s.data[x - s.at];
  }

  lemma {:induction false} NewUntouched(r: Relink, x: nat)
    requires r.Valid() && x < |r.base| && InRoom(HdrRoom(r.layout, r.OldData()), x)
    ensures r.NewData()[x] == Prefix(r.base, r.layout)[x]
  {
    hide HdrRoom, Tidy, Fits, SerialImage, Prefix, CollectInputWorkItems, Relink.OldData;
    HdrUncovered(r, x);
    SerialOutside(r.NewJob(), Prefix(r.base, r.layout), |r.NewJob().items|, x);
  }

  /** Every other byte but the descriptor's is the full link's before the build id is computed. */
  lemma {:induction false} FinishedByte(r: Relink, x: nat)
    requires r.Valid() && x < |r.base| && OutsideDescriptor(r.layout, x) && !Stale(r, x)
    ensures WriteEhFrameHdr(PatchedData(r), r.layout)[x] == Finish(r.NewData(), r.layout)[x]
  {
    hide WriteEhFrameHdr, Finish, HdrRoom, Settled, PatchedData, Fits, WriteTlsGot, Relink.OldData, Relink.NewData,
         FullImage;
    TidyData(r);
    SameRoom(r);
    RoomOf(r, r.NewData());
    var room, tls := HdrRoom(r.layout, r.NewData()), WriteTlsGot(r.NewData(), r.layout);
    if InRoom(room, x) {
      RoomHolds(r.layout, |r.base|, r.NewData(), x);
      FinishSettled(r.NewData(), r.layout, x);
      HdrIsPut(PatchedData(r), r.layout);
      HdrIsPut(tls, r.layout);
      PutInside(PatchedData(r), tls, room.value, x);
    } else {
      HdrFrame(PatchedData(r), r.layout, x);
      if Settled(r.layout, x) {
        FinishSettled(r.NewData(), r.layout, x);
        HdrFrame(tls, r.layout, x);
        OldByte(r, x);
        SettledByte(r, x);
      } else {
        UnsettledByte(r, x);
      }
    }
  }

  lemma {:induction false} PutInside(a: seq<byte>, b: seq<byte>, s: Store, x: nat)
    requires |a| == |b| && x < |a| && s.End() <= |a| && Touches(s, x)
    ensures Put(a, s)[x] == Put(b, s)[x]
  {
    assert Put(a, s)[s.at..s.End()][x - s.at] == Put(b, s)[s.at..s.End()][x - s.at];
  }

  lemma {:induction false} SettledByte(r: Relink, x: nat)
    requires r.Valid() && x < |r.base| && FullImage(r.OldJob(), r.base, r.layout)[x] == r.OldData()[x]
    ensures PatchedData(r)[x] == r.NewData()[x]
  {
    hide SerialImage, FullImage, Tidy, Fits;
    PatchedByte(r, FullImage(r.OldJob(), r.base, r.layout), x);
  }

  /** Where later phases write, no item reaches, and both links start from the same bytes. */
  lemma {:induction false} UnsettledByte(r: Relink, x: nat)
    requires r.Valid() && x < |r.base| && OutsideDescriptor(r.layout, x) && !Settled(r.layout, x)
    ensures PatchedData(r)[x] == Finish(r.NewData(), r.layout)[x]
  {
    hide SerialImage, FullImage, Tidy, Fits, Finish, Settled, Prefix, CollectInputWorkItems;
    NoItemCovers(r, x);
    SerialOutside(r.PatchJob(), FullImage(r.OldJob(), r.base, r.layout), |r.PatchJob().items|, x);
    SerialOutside(r.OldJob(), Prefix(r.base, r.layout), |r.OldJob().items|, x);
    SerialOutside(r.NewJob(), Prefix(r.base, r.layout), |r.NewJob().items|, x);
    OldFinished(r, x);
    FinishAgree(r, x);
  }

  lemma {:induction false} OldFinished(r: Relink, x: nat)
    requires r.Valid() && x < |r.base| && OutsideDescriptor(r.layout, x)
    ensures FullImage(r.OldJob(), r.base, r.layout)[x] == Finish(r.OldData(), r.layout)[x]
  {
    hide SerialImage, Tidy, Fits, Finish, Prefix, CollectInputWorkItems, FinalizeBuildId;
    BuildIdFrame(Finish(r.OldData(), r.layout), r.layout, x);
  }

  lemma {:induction false} FinishAgree(r: Relink, x: nat)
    requires r.Valid() && x < |r.base| && !Settled(r.layout, x) && r.OldData()[x] == r.NewData()[x]
    ensures Finish(r.OldData(), r.layout)[x] == Finish(r.NewData(), r.layout)[x]
  {
    hide SerialImage, Fits, Settled, Prefix, CollectInputWorkItems, HdrRoom, WriteTlsGot, PutAll, Relink.OldData,
         Relink.NewData;
    var l, a, b := r.layout, WriteTlsGot(r.OldData(), r.layout), WriteTlsGot(r.NewData(), r.layout);
    TlsAgree(r.OldData(), r.NewData(), l, x);
    if InRoom(HdrRoom(l, a), x) { RoomHolds(l, |r.base|, a, x); }
    if InRoom(HdrRoom(l, b), x) { RoomHolds(l, |r.base|, b, x); }
    HdrFrame(a, l, x);
    HdrFrame(b, l, x);
    PutAllAgree(WriteEhFrameHdr(a, l), WriteEhFrameHdr(b, l), l.sectionHeaders, x);
  }

  lemma {:induction false} NoItemCovers(r: Relink, x: nat)
    requires r.Valid() && x < |r.base| && !Settled(r.layout, x)
    ensures r.PatchJob().Valid(|r.base|) && Uncovered(r.PatchJob().items, x)
    ensures Uncovered(r.OldJob().items, x) && Uncovered(r.NewJob().items, x)
  {
    hide Settled, CollectInputWorkItems, Fits, Acceptable, Kept;
    PatchValid(r);
    WorkUncovered(r.layout, |r.base|, r.before, x);
    WorkUncovered(r.layout, |r.base|, r.after, x);
    forall i | 0 <= i < |r.PatchJob().items|
      ensures !Covers(r.PatchJob().items[i], x)
    {
      KeptIn(r.NewJob().items, r.changed, r.PatchJob().items[i]);
    }
  }

  lemma {:induction false} WorkUncovered(l: Layout, n: nat, objects: seq<InputObject>, x: int)
    requires Tidy(l, n) && Fits(l, objects) && !Settled(l, x)
    ensures Uncovered(CollectInputWorkItems(l.sections, objects, All), x)
  {
    hide Settled, CollectInputWorkItems, Fits, Tidy;
    var items := CollectInputWorkItems(l.sections, objects, All);
    forall i | 0 <= i < |items|
      ensures !Covers(items[i], x)
    {
      if Covers(items[i], x) { ItemSettled(l, n, objects, items[i], x); }
    }
  }

  lemma {:induction false} ItemSettled(l: Layout, n: nat, objects: seq<InputObject>, item: WorkItem, x: int)
    requires Tidy(l, n) && Fits(l, objects) && item in CollectInputWorkItems(l.sections, objects, All)
             && Covers(item, x)
    ensures Settled(l, x)
  {
    hide Settled, CollectInputWorkItems, Fits, Tidy;
    ItemsInside(l, l.sections, objects, item);
    var sec :| sec in l.sections && sec.source.Input? && sec.off <= item.fileOff && item.End() <= sec.End();
    SettledInside(l, n, sec, x);
  }

  /** Patching only the changed objects into the old output gives, byte for byte, a fresh full link of
      the new objects, build id included, exactly when the bytes that the old `.eh_frame_hdr` has past
      the end of the new one are those a full link starts from. */
  lemma {:induction false} MinimalEqualsFull(r: Relink)
    requires r.Valid()
    ensures r.PatchJob().Valid(|r.base|)
    ensures MinimalImage(r.PatchJob(), FullImage(r.OldJob(), r.base, r.layout), r.layout)
            == FullImage(r.NewJob(), r.base, r.layout)
            <==> forall x: nat | x < |r.base| && Stale(r, x) :: OldHdrByte(r, x) == Prefix(r.base, r.layout)[x]
  {
    hide WriteEhFrameHdr, Finish, HdrRoom, FinalizeBuildId, SerialImage, CollectInputWorkItems, Prefix, Fits, Tidy,
         OldHdrByte, OutsideDescriptor, Relink.OldData, Relink.NewData;
    PatchValid(r);
    var a, b := WriteEhFrameHdr(PatchedData(r), r.layout), Finish(r.NewData(), r.layout);
    FinalImages(r);
    if forall x: nat | x < |r.base| && Stale(r, x) :: OldHdrByte(r, x) == Prefix(r.base, r.layout)[x] {
      forall x: nat | x < |r.base| && OutsideDescriptor(r.layout, x)
        ensures a[x] == b[x]
      {
        if Stale(r, x) { StaleByte(r, x); } else { FinishedByte(r, x); }
      }
      DescriptorFits(r.layout, |r.base|);
      StaleDescriptorIgnored(a, b, r.layout);
    }
    if FinalizeBuildId(a, r.layout) == FinalizeBuildId(b, r.layout) {
      forall x: nat | x < |r.base| && Stale(r, x)
        ensures OldHdrByte(r, x) == Prefix(r.base, r.layout)[x]
      {
        StaleByte(r, x);
        BuildIdFrame(a, r.layout, x);
        BuildIdFrame(b, r.layout, x);
      }
    }
  }

  lemma {:induction false} DescriptorFits(l: Layout, n: nat)
    requires Tidy(l, n)
    ensures DescriptorOffset(l).Some? ==> DescriptorOffset(l).value + 16 <= n
  {
  }

  lemma {:induction false} FinalImages(r: Relink)
    requires r.Valid()
    ensures r.PatchJob().Valid(|r.base|)
    ensures MinimalImage(r.PatchJob(), FullImage(r.OldJob(), r.base, r.layout), r.layout)
            == FinalizeBuildId(WriteEhFrameHdr(PatchedData(r), r.layout), r.layout)
    ensures FullImage(r.NewJob(), r.base, r.layout) == FinalizeBuildId(Finish(r.NewData(), r.layout), r.layout)
  {
    hide WriteEhFrameHdr, Finish, FinalizeBuildId, SerialImage, CollectInputWorkItems, Prefix, Fits, Tidy;
    PatchValid(r);
  }

  // ── A search table that shrinks ──────────────────────────────────────────

  /** A table at least as long as the old one covers all of it. */
  lemma {:induction false} GrowingHdr(r: Relink)
    requires r.Valid() && HdrLen(r.layout, r.OldData()) <= HdrLen(r.layout, r.NewData())
    ensures forall x: int :: !Stale(r, x)
  {
    hide HdrRoom, HdrLen, Tidy, Fits, Relink.OldData, Relink.NewData;
    forall x: int ensures !Stale(r, x) {
      if InRoom(HdrRoom(r.layout, r.OldData()), x) { RoomGrows(r.layout, r.OldData(), r.NewData(), x); }
    }
  }

  /** A minimal emit reports an error exactly when the full one would, when the old link had none. */
  lemma {:induction false} MinimalFailsAsFull(r: Relink)
    requires r.Valid() && AllOk(r.OldJob(), |r.OldJob().items|)
    ensures AllOk(r.PatchJob(), |r.PatchJob().items|) <==> AllOk(r.NewJob(), |r.NewJob().items|)
  {
    hide CollectInputWorkItems, Fits, Tidy, Kept, Acceptable, ItemOk;
    PatchValid(r);
    TwinWork(r, r.layout.sections);
    var news, kept := r.NewJob().items, r.PatchJob().items;
    if AllOk(r.PatchJob(), |kept|) {
      forall k | 0 <= k < |news|
        ensures ItemOk(r.newLookup, news[k])
      {
        KeptIn(news, r.changed, news[k]);
        assert Twin(r.OldJob().items[k], news[k], r.changed);
        if news[k].objId !in r.changed {
          assert ItemOk(r.oldLookup, news[k]);
          SameOk(r, news[k]);
        }
      }
    }
    if AllOk(r.NewJob(), |news|) {
      forall k | 0 <= k < |kept| ensures ItemOk(r.newLookup, kept[k]) { KeptIn(news, r.changed, kept[k]); }
    }
  }

  lemma {:induction false} SameOk(r: Relink, item: WorkItem)
    requires r.SameLookups() && item.objId !in r.changed
    ensures ItemOk(r.oldLookup, item) <==> ItemOk(r.newLookup, item)
  {
    hide Stage;
    if item.Len() < TWO63 { SameStage(r.oldLookup, r.newLookup, item, |item.isec.relocs|); }
  }
}
