/** The whole image: read-only, executable and writable segments, the `PT_GNU_RELRO` span, and the
    sections that only the file holds (`peony-layout/src/lib.rs:1923-2067`, `2138-2454`, `3002-3058`). */
module Segments {
  import opened Bytes
  import opened Grouping
  import opened Placement

  /** Builders by segment; the writable ones are split into RELRO, other file-backed ones, and `.bss`. */
  datatype Plan = Plan(
    ro: seq<Builder>, rx: seq<Builder>, relro: seq<Builder>, rest: seq<Builder>, bss: seq<Builder>, base: nat,
        header: nat, page: nat)
  {
    function RoStart(): nat { base + header }

    function RoEnd(): nat { EndVa(ro, RoStart()) }

    function RxStart(): nat { if rx == [] then RoEnd() else AlignUp(RoEnd(), page) }

    function RxEnd(): nat { EndVa(rx, RxStart()) }

    predicate HasRw() { relro != [] || rest != [] || bss != [] }

    function RwStart(): nat { if HasRw() then AlignUp(RxEnd(), page) else RxEnd() }

    function RelroEnd(): nat { EndVa(relro, RwStart()) }

    /** The next page after the RELRO sections, when anything follows. */
    function RestStart(): nat { if rest != [] || bss != [] then AlignUp(RelroEnd(), page) else RelroEnd() }

    function FileEnd(): nat { EndVa(rest, RestStart()) }

    function MemEnd(): nat { EndVa(bss, FileEnd()) }
  }

  lemma {:induction false} InOrder(p: Plan)
    ensures p.base + p.header == p.RoStart() <= p.RoEnd() <= p.RxStart() <= p.RxEnd() <= p.RwStart()
    ensures p.RwStart() <= p.RelroEnd() <= p.RestStart() <= p.FileEnd() <= p.MemEnd()
    ensures p.page > 0 ==> (p.rx != [] ==> p.RxStart() % p.page == 0) && (p.HasRw() ==> p.RwStart() % p.page == 0)
                           && (p.rest != [] || p.bss != [] ==> p.RestStart() % p.page == 0)
  {
    AlignUpAny(p.RoEnd(), p.page);
    AlignUpAny(p.RxEnd(), p.page);
    AlignUpAny(p.RelroEnd(), p.page);
    hide EndVa, AlignUp;
  }

  /** The sections of each part. */
  datatype Parts = Parts(ro: seq<Sec>, rx: seq<Sec>, relro: seq<Sec>, rest: seq<Sec>, bss: seq<Sec>)
  {
    function FileBacked(): seq<Sec> { ro + rx + relro + rest }

    function All(): seq<Sec> { FileBacked() + bss }
  }

  function PartsOf(p: Plan): Parts {
    InOrder(p);
    Parts(PlacedFrom(p.ro, p.RoStart(), p.base), PlacedFrom(p.rx, p.RxStart(), p.base),
        PlacedFrom(p.relro, p.RwStart(), p.base),
          PlacedFrom(p.rest, p.RestStart(), p.base), PlacedFrom(p.bss, p.FileEnd(), p.base))
  }

  /** Runs of the five parts, one after the other. */
  ghost predicate PartRuns(p: Plan, s: Parts) {
    && Run(s.ro, p.base, p.RoStart(), p.RoEnd()) && Run(s.rx, p.base, p.RxStart(), p.RxEnd())
    && Run(s.relro, p.base, p.RwStart(), p.RelroEnd()) && Run(s.rest, p.base, p.RestStart(), p.FileEnd())
    && Run(s.bss, p.base, p.FileEnd(), p.MemEnd())
  }

  lemma {:induction false} PartsRun(p: Plan)
    ensures PartRuns(p, PartsOf(p))
  {
    InOrder(p);
    hide EndVa, AlignUp, Run, PlacedFrom, p.RoStart, p.RoEnd, p.RxStart, p.RxEnd, p.RwStart, p.RelroEnd,
         p.RestStart, p.FileEnd, p.MemEnd;
    PlacedRuns(p.ro, p.RoStart(), p.base);
    PlacedRuns(p.rx, p.RxStart(), p.base);
    PlacedRuns(p.relro, p.RwStart(), p.base);
    PlacedRuns(p.rest, p.RestStart(), p.base);
    PlacedRuns(p.bss, p.FileEnd(), p.base);
    EndsAre(p);
  }

  lemma {:induction false} EndsAre(p: Plan)
    ensures p.RoEnd() == EndVa(p.ro, p.RoStart()) && p.RxEnd() == EndVa(p.rx, p.RxStart())
            && p.RelroEnd() == EndVa(p.relro, p.RwStart())
    ensures p.FileEnd() == EndVa(p.rest, p.RestStart()) && p.MemEnd() == EndVa(p.bss, p.FileEnd())
  {
  }

  /** Memory: all sections are aligned, disjoint and as far from the base as from the file's start. File:
      the backed ones are disjoint and end at `FileEnd`. */
  lemma {:induction false} ImageRuns(p: Plan)
    ensures Run(PartsOf(p).All(), p.base, p.RoStart(), p.MemEnd())
    ensures Run(PartsOf(p).FileBacked(), p.base, p.RoStart(), p.FileEnd())
  {
    InOrder(p);
    PartsRun(p);
    var s := PartsOf(p);
    hide Run, PartsOf, p.RoStart, p.RoEnd, p.RxStart, p.RxEnd, p.RwStart, p.RelroEnd, p.RestStart, p.FileEnd, p.MemEnd;
    RunsJoin(s.ro, s.rx, p.base, p.RoStart(), p.RoEnd(), p.RxStart(), p.RxEnd());
    RunsJoin(s.ro + s.rx, s.relro, p.base, p.RoStart(), p.RxEnd(), p.RwStart(), p.RelroEnd());
    RunsJoin(s.ro + s.rx + s.relro, s.rest, p.base, p.RoStart(), p.RelroEnd(), p.RestStart(), p.FileEnd());
    RunsJoin(s.FileBacked(), s.bss, p.base, p.RoStart(), p.FileEnd(), p.FileEnd(), p.MemEnd());
  }

  // ── The pass ─────────────────────────────────────────────────────────────

  datatype Image = Image(sections: seq<Sec>, addresses: map<Key, nat>, secToOut: map<Key, nat>,
                         rxSeg: Option<(nat, nat)>, rwSeg: Option<(nat, nat, nat)>, fileContentEnd: nat)

  method PlaceReadable(p: Plan) returns (va: nat, sections: seq<Sec>, addresses: map<Key, nat>,
          secToOut: map<Key, nat>, rxSeg: Option<(nat, nat)>)
    ensures va == p.RxEnd() && sections == PartsOf(p).ro + PartsOf(p).rx && Addressed(sections, addresses, secToOut)
    ensures rxSeg == if p.rx == [] then None else Some((p.RxStart(), p.RxEnd()))
  {
    hide EndVa, PlacedFrom, Addressed, AlignUp;
    InOrder(p);
    NothingAddressed();
    va, sections, addresses, secToOut := PlaceBuilders(p.ro, p.base, p.base + p.header, [], map[], map[]);
    NoneAdded(va, p.base, sections);
    NoneAdded(va, p.base, PartsOf(p).ro);
    rxSeg := None;
    if p.rx != [] {
      var start := AlignUp(va, p.page);
      va, sections, addresses, secToOut := PlaceBuilders(p.rx, p.base, start, sections, addresses, secToOut);
      rxSeg := Some((start, va));
    }
  }

  /** RELRO sections, the next page, the other file-backed sections, then `.bss`. */
  method PlaceWritable(p: Plan, va0: nat, sections0: seq<Sec>, addresses0: map<Key, nat>, secToOut0: map<Key, nat>)
    returns (va: nat, fileEnd: nat, sections: seq<Sec>, addresses: map<Key, nat>, secToOut: map<Key, nat>)
    requires p.HasRw() && va0 == p.RxEnd() && sections0 == PartsOf(p).ro + PartsOf(p).rx
             && Addressed(sections0, addresses0, secToOut0)
    ensures sections == PartsOf(p).All() && Addressed(sections, addresses, secToOut)
    ensures va == p.MemEnd() && fileEnd == p.FileEnd()
  {
    hide EndVa, PlacedFrom, Addressed, AlignUp, p.RoEnd, p.RxStart, p.RxEnd;
    InOrder(p);
    var start := AlignUp(va0, p.page);
    va, sections, addresses, secToOut := PlaceBuilders(p.relro, p.base, start, sections0, addresses0, secToOut0);
    if p.rest != [] || p.bss != [] { va := AlignUp(va, p.page); }
    assert va == p.RestStart();
    va, sections, addresses, secToOut := PlaceBuilders(p.rest, p.base, va, sections, addresses, secToOut);
    fileEnd := va;
    va, sections, addresses, secToOut := PlaceBuilders(p.bss, p.base, va, sections, addresses, secToOut);
  }

  /** With nothing writable the image ends after the executable segment. */
  lemma {:induction false} NothingWritable(p: Plan)
    requires !p.HasRw()
    ensures PartsOf(p).All() == PartsOf(p).ro + PartsOf(p).rx && p.FileEnd() == p.RxEnd()
            && (p.rx == [] ==> p.RxEnd() == p.RoEnd())
  {
    hide AlignUp;
    InOrder(p);
    NoneAdded(p.RxEnd(), p.base, PartsOf(p).ro + PartsOf(p).rx);
  }

  /** `rwPb` has the RELRO sections first and is split behind them. */
  method PlaceImage(ro: seq<Builder>, rx: seq<Builder>, rwPb: seq<Builder>, rwBss: seq<Builder>, base: nat,
          header: nat, page: nat)
    returns (image: Image, p: Plan)
    requires RelroFirst(rwPb)
    ensures p.ro == ro && p.rx == rx && p.bss == rwBss && p.relro + p.rest == rwPb
    ensures p.base == base && p.header == header && p.page == page
    ensures (forall b | b in p.relro :: IsRelro(b.name)) && (forall b | b in p.rest :: !IsRelro(b.name))
    ensures image.sections == PartsOf(p).All() && Addressed(image.sections, image.addresses, image.secToOut)
    ensures image.fileContentEnd == p.FileEnd() - base
    ensures image.rxSeg == if rx == [] then None else Some((p.RxStart(), p.RxEnd()))
    ensures image.rwSeg == if !p.HasRw() then None else Some((p.RwStart(), p.FileEnd(), p.MemEnd()))
  {
    hide IsRelro, PartsOf, Addressed;
    var split := Placement.RelroEnd(rwPb);
    p := Plan(ro, rx, rwPb[..split], rwPb[split..], rwBss, base, header, page);
    assert p.relro + p.rest == rwPb;
    InOrder(p);
    hide p.RxStart, p.RxEnd, p.RwStart, p.RelroEnd, p.RestStart, p.FileEnd, p.MemEnd;
    var va, sections, addresses, secToOut, rxSeg := PlaceReadable(p);
    if p.HasRw() {
      var readable := va;
      var fileEnd;
      va, fileEnd, sections, addresses, secToOut := PlaceWritable(p, readable, sections, addresses, secToOut);
      StartsAt(p);
      image := Image(sections, addresses, secToOut, rxSeg, Some((AlignUp(readable, page), fileEnd, va)),
          fileEnd - base);
    } else {
      NothingWritable(p);
      image := Image(sections, addresses, secToOut, rxSeg, None, va - base);
    }
  }

  lemma {:induction false} StartsAt(p: Plan)
    requires p.HasRw()
    ensures p.RwStart() == AlignUp(p.RxEnd(), p.page)
  {
  }

  lemma {:induction false} NothingAddressed()
    ensures Addressed([], map[], map[])
  {
  }

  lemma {:induction false} NoneAdded(va: nat, base: nat, secs: seq<Sec>)
    requires base <= va
    ensures EndVa([], va) == va && PlacedFrom([], va, base) == [] && secs + [] == secs && [] + secs == secs
  {
  }

  // ── Sections that only the file holds ────────────────────────────────────

  /** Size and alignment of a section without an address: `.symtab`, `.strtab`, `.rela.*`, `.debug_*`, … */
  datatype Meta = Meta(size: nat, align: nat)

  /** They follow the file-backed content, and the section header table follows them. */
  method PlaceMeta(fileContentEnd: nat, metas: seq<Meta>) returns (offs: seq<nat>, shoff: nat)
    ensures |offs| == |metas|
    ensures forall i | 0 <= i < |metas| :: fileContentEnd <= offs[i] && offs[i] + metas[i].size <= shoff
    ensures forall i | 0 <= i < |metas| && metas[i].align > 0 :: offs[i] % metas[i].align == 0
    ensures forall i, j | 0 <= i < j < |metas| :: offs[i] + metas[i].size <= offs[j]
    ensures shoff >= fileContentEnd && shoff % 8 == 0
  {
    hide AlignUp;
    AlignUpAny(fileContentEnd, 8);
    var foff := AlignUp(fileContentEnd, 8);
    offs := [];
    for n := 0 to |metas|
      invariant |offs| == n && foff >= fileContentEnd
      invariant forall i | 0 <= i < n :: fileContentEnd <= offs[i] && offs[i] + metas[i].size <= foff
      invariant forall i | 0 <= i < n && metas[i].align > 0 :: offs[i] % metas[i].align == 0
      invariant forall i, j | 0 <= i < j < n :: offs[i] + metas[i].size <= offs[j]
    {
      AlignUpAny(foff, metas[n].align);
      foff := AlignUp(foff, metas[n].align);
      offs := offs + [foff];
      foff := foff + metas[n].size;
    }
    AlignUpAny(foff, 8);
    shoff := AlignUp(foff, 8);
  }
}
