/** The TLS part of the GOT: counting its relocations and filling its slots
    (`peony-reloc/src/tls.rs:22-169`). */
module TlsReloc {
  import opened Bytes
  import opened Reloc
  import opened Objects
  import opened Symbols

  /** A thread-local symbol: a local one by object and position, a global one by id. */
  datatype TlsRef = LocalRef(o: nat, pos: nat) | GlobalRef(id: nat)

  /** General-Dynamic, TLSDESC and Initial-Exec references, and whether there is a Local-Dynamic pair. */
  datatype TlsGot = TlsGot(gd: seq<TlsRef>, desc: seq<TlsRef>, ie: seq<TlsRef>, ldm: bool)

  /** Symbols, the offsets of sections in the TLS block, and the GOT addresses that layout gave out. */
  datatype TlsView = TlsView(
    lookup: Name -> Option<Resolution>, nameById: nat -> Option<Name>, dynsym: Name -> nat,
        tlsOffset: (nat, nat) -> Option<nat>,
    gdAddr: map<TlsRef, nat>, descAddr: map<TlsRef, nat>, ieAddr: map<TlsRef, nat>, ldmAddr: Option<nat>, tlsSize: nat)
  {
    function Known(id: nat): Option<Resolution> {
      match nameById(id) case None => None case Some(name) => lookup(name)
    }

    /** The offset of a reference in this module's TLS block, and whether the loader must supply it. */
    function RefOffset(objects: seq<InputObject>, ref: TlsRef): Option<(nat, bool)> {
      match ref
      case LocalRef(o, pos) =>
        if o >= |objects| || pos >= |objects[o].symbols| || objects[o].symbols[pos].section.None? then None
        else
          var sym := objects[o].symbols[pos];
          (match tlsOffset(o, sym.section.value) case None => None case Some(base) => Some((base + sym.value, false)))
      case GlobalRef(id) =>
        match Known(id)
        case None => None
        case Some(res) =>
          if res.definedIn.Some? && res.section.Some? then
            match tlsOffset(res.definedIn.value, res.section.value)
            case None => None
            case Some(base) => Some((base + res.value, false))
          else Some((0, true))
    }

    /** A reference that cannot be resolved is left to the loader. */
    function Resolved(objects: seq<InputObject>, ref: TlsRef): (nat, bool) {
      match RefOffset(objects, ref) case Some(r) => r case None => (0, true)
    }

    function DynIndex(ref: TlsRef): nat {
      match ref
      case LocalRef(_, _) => 0
      case GlobalRef(id) =>
        match nameById(id)
        case None => 0
        case Some(name) => if lookup(name).Some? then dynsym(name) else 0
    }

    /** How the counting pass sees the reference. */
    predicate CountsAsImported(ref: TlsRef) {
      ref.GlobalRef? && (Known(ref.id).None? || Known(ref.id).value.definedIn.None?)
    }
  }

  datatype TlsRow = TlsRow(site: nat, rType: RType, sym: nat, addend: int)

  /** Relocations and words written directly, as `(address, value)`. */
  datatype Fill = Fill(rows: seq<TlsRow>, statics: seq<(nat, int)>)
  {
    function Plus(f: Fill): Fill { Fill(rows + f.rows, statics + f.statics) }
  }

  const NOTHING := Fill([], [])

  datatype Kind = Gd | Desc | Ie

  /** What one reference puts into its slots. */
  function FillFor(v: TlsView, objects: seq<InputObject>, kind: Kind, shared: bool, ref: TlsRef): Fill {
    var (offset, imported) := v.Resolved(objects, ref);
    match kind
    case Gd =>
      if ref !in v.gdAddr then NOTHING
      else
        var pair := v.gdAddr[ref];
        if imported then
          Fill([TlsRow(pair, DTPMOD64, v.DynIndex(ref), 0), TlsRow(pair + 8, DTPOFF64, v.DynIndex(ref), 0)], [])
        else Fill([TlsRow(pair, DTPMOD64, 0, 0)], [(pair + 8, offset)])
    case Desc =>
      if ref !in v.descAddr then NOTHING
      else Fill([TlsRow(v.descAddr[ref], TLSDESC, if imported then v.DynIndex(ref) else 0, if imported then 0
          else offset)], [])
    case Ie =>
      if ref !in v.ieAddr then NOTHING
      else
        var slot := v.ieAddr[ref];
        if imported then Fill([TlsRow(slot, TPOFF64, v.DynIndex(ref), 0)], [])
        else if shared then Fill([TlsRow(slot, TPOFF64, 0, offset)], [])
        else Fill([], [(slot, offset - v.tlsSize)])
  }

  function Fills(v: TlsView, objects: seq<InputObject>, kind: Kind, shared: bool, refs: seq<TlsRef>): Fill
    decreases |refs|
  {
    if refs == [] then NOTHING
    else Fills(v, objects, kind, shared, refs[..|refs| - 1]).Plus(FillFor(v, objects, kind, shared, refs[|refs| - 1]))
  }

  function LdmFill(v: TlsView): Fill {
    match v.ldmAddr
    case None => NOTHING
    case Some(ldm) => Fill([TlsRow(ldm, DTPMOD64, 0, 0)], [(ldm + 8, 0)])
  }

  function AllFills(v: TlsView, objects: seq<InputObject>, tls: TlsGot, shared: bool): Fill {
    var ie := Fills(v, objects, Ie, shared, tls.ie);
    if shared then
      Fills(v, objects, Gd, shared, tls.gd).Plus(Fills(v, objects, Desc, shared, tls.desc)).Plus(LdmFill(v)).Plus(ie)
    else ie
  }

  method CollectKind(v: TlsView, objects: seq<InputObject>, kind: Kind, shared: bool, refs: seq<TlsRef>,
          before: Fill) returns (f: Fill)
    ensures f == before.Plus(Fills(v, objects, kind, shared, refs))
  {
    hide FillFor;
    var rows, statics := before.rows, before.statics;
    for i := 0 to |refs|
      invariant Fill(rows, statics) == before.Plus(Fills(v, objects, kind, shared, refs[..i]))
    {
      assert refs[..i + 1][..i] == refs[..i];
      var one := FillFor(v, objects, kind, shared, refs[i]);
      ghost var sofar := Fills(v, objects, kind, shared, refs[..i]);
      assert before.rows + (sofar.rows + one.rows) == (before.rows + sofar.rows) + one.rows;
      assert before.statics + (sofar.statics + one.statics) == (before.statics + sofar.statics) + one.statics;
      rows, statics := rows + one.rows, statics + one.statics;
    }
    assert refs[..|refs|] == refs;
    f := Fill(rows, statics);
  }

  lemma {:induction false} NothingFirst(f: Fill)
    ensures NOTHING.Plus(f) == f
  {
    assert [] + f.rows == f.rows && [] + f.statics == f.statics;
  }

  method CollectTlsGot(v: TlsView, objects: seq<InputObject>, tls: TlsGot, shared: bool) returns (f: Fill)
    ensures f == AllFills(v, objects, tls, shared)
  {
    f := NOTHING;
    NothingFirst(Fills(v, objects, Gd, shared, tls.gd));
    NothingFirst(Fills(v, objects, Ie, shared, tls.ie));
    hide FillFor, Fills, LdmFill, f.Plus;
    if shared {
      f := CollectKind(v, objects, Gd, shared, tls.gd, f);
      f := CollectKind(v, objects, Desc, shared, tls.desc, f);
      f := f.Plus(LdmFill(v));
    }
    f := CollectKind(v, objects, Ie, shared, tls.ie, f);
  }

  // ── Every word is filled once ────────────────────────────────────────────

  /** The GOT words of one reference; the loader fills both words of a descriptor. */
  function WordsOf(v: TlsView, kind: Kind, ref: TlsRef): seq<nat> {
    match kind
    case Gd => if ref in v.gdAddr then [v.gdAddr[ref], v.gdAddr[ref] + 8] else []
    case Desc => if ref in v.descAddr then [v.descAddr[ref]] else []
    case Ie => if ref in v.ieAddr then [v.ieAddr[ref]] else []
  }

  function AllWordsOf(v: TlsView, kind: Kind, refs: seq<TlsRef>): multiset<nat>
    decreases |refs|
  {
    if refs == [] then multiset{}
    else AllWordsOf(v, kind, refs[..|refs| - 1]) + multiset(WordsOf(v, kind, refs[|refs| - 1]))
  }

  /** The addresses that a fill relocates or writes. */
  function Touched(f: Fill): multiset<nat> {
    multiset(seq(|f.rows|, i requires 0 <= i < |f.rows| => f.rows[i].site))
    + multiset(seq(|f.statics|, i requires 0 <= i < |f.statics| => f.statics[i].0))
  }

  lemma {:induction false} TouchedPlus(f: Fill, g: Fill)
    ensures Touched(f.Plus(g)) == Touched(f) + Touched(g)
  {
    var h := f.Plus(g);
    assert seq(|h.rows|, i requires 0 <= i < |h.rows| => h.rows[i].site)
        == seq(|f.rows|, i requires 0 <= i < |f.rows| => f.rows[i].site)
            + seq(|g.rows|, i requires 0 <= i < |g.rows| => g.rows[i].site);
    assert seq(|h.statics|, i requires 0 <= i < |h.statics| => h.statics[i].0)
        == seq(|f.statics|, i requires 0 <= i < |f.statics| => f.statics[i].0)
            + seq(|g.statics|, i requires 0 <= i < |g.statics| => g.statics[i].0);
  }

  lemma {:induction false} FillTouches(v: TlsView, objects: seq<InputObject>, kind: Kind, shared: bool, ref: TlsRef)
    ensures Touched(FillFor(v, objects, kind, shared, ref)) == multiset(WordsOf(v, kind, ref))
  {
    var f := FillFor(v, objects, kind, shared, ref);
    assert seq(|f.rows|, i requires 0 <= i < |f.rows| => f.rows[i].site)
        + seq(|f.statics|, i requires 0 <= i < |f.statics| => f.statics[i].0) == WordsOf(v, kind, ref);
  }

  lemma {:induction false} FillsTouch(v: TlsView, objects: seq<InputObject>, kind: Kind, shared: bool,
          refs: seq<TlsRef>)
    ensures Touched(Fills(v, objects, kind, shared, refs)) == AllWordsOf(v, kind, refs)
    decreases |refs|
  {
    hide FillFor, WordsOf;
    if refs != [] {
      hide Touched;
      var front, last := refs[..|refs| - 1], refs[|refs| - 1];
      FillsTouch(v, objects, kind, shared, front);
      FillTouches(v, objects, kind, shared, last);
      TouchedPlus(Fills(v, objects, kind, shared, front), FillFor(v, objects, kind, shared, last));
    }
  }

  /** Each placed GOT word gets one relocation or one written value, and nothing else is touched. */
  lemma {:induction false} EveryWordFilledOnce(v: TlsView, objects: seq<InputObject>, tls: TlsGot, shared: bool)
    ensures var ldm := if v.ldmAddr.Some? then multiset{v.ldmAddr.value, v.ldmAddr.value + 8} else multiset{};
            var dynamic := AllWordsOf(v, Gd, tls.gd) + AllWordsOf(v, Desc, tls.desc) + ldm;
            Touched(AllFills(v, objects, tls, shared)) == AllWordsOf(v, Ie, tls.ie) + if shared then dynamic
                else multiset{}
  {
    LdmTouches(v);
    hide Fills, AllWordsOf, Touched, LdmFill;
    FillsTouch(v, objects, Ie, shared, tls.ie);
    if shared {
      var gd, desc := Fills(v, objects, Gd, shared, tls.gd), Fills(v, objects, Desc, shared, tls.desc);
      FillsTouch(v, objects, Gd, shared, tls.gd);
      FillsTouch(v, objects, Desc, shared, tls.desc);
      TouchedPlus(gd, desc);
      TouchedPlus(gd.Plus(desc), LdmFill(v));
      TouchedPlus(gd.Plus(desc).Plus(LdmFill(v)), Fills(v, objects, Ie, shared, tls.ie));
    }
  }

  lemma {:induction false} LdmTouches(v: TlsView)
    ensures Touched(LdmFill(v)) == if v.ldmAddr.Some? then multiset{v.ldmAddr.value, v.ldmAddr.value + 8}
            else multiset{}
  {
    var f := LdmFill(v);
    if v.ldmAddr.Some? {
      assert seq(|f.rows|, i requires 0 <= i < |f.rows| => f.rows[i].site) == [v.ldmAddr.value];
      assert seq(|f.statics|, i requires 0 <= i < |f.statics| => f.statics[i].0) == [v.ldmAddr.value + 8];
    }
  }

  // ── Counting ─────────────────────────────────────────────────────────────

  function CountGd(v: TlsView, refs: seq<TlsRef>): nat
    decreases |refs|
  {
    if refs == [] then 0
    else CountGd(v, refs[..|refs| - 1]) + if v.CountsAsImported(refs[|refs| - 1]) then 2 else 1
  }

  function CountTls(v: TlsView, tls: TlsGot, shared: bool): nat {
    if !shared then |tls.ie| else CountGd(v, tls.gd) + |tls.desc| + |tls.ie| + if tls.ldm then 1 else 0
  }

  /** The reference was counted for one record and its pair of words needs two. */
  predicate Gained(a: TlsView, b: TlsView, objects: seq<InputObject>, ref: TlsRef) {
    ref in b.gdAddr && !a.CountsAsImported(ref) && b.Resolved(objects, ref).1
  }

  /** The rows of one General-Dynamic reference stay within its count in exactly these cases. */
  lemma {:induction false} GdExactly(a: TlsView, b: TlsView, objects: seq<InputObject>, shared: bool, ref: TlsRef)
    ensures |FillFor(b, objects, Gd, shared, ref).rows| <= (if a.CountsAsImported(ref) then 2 else 1) <==>
            !Gained(a, b, objects, ref)
  {
    hide b.Resolved, b.DynIndex, a.CountsAsImported;
  }

  ghost predicate Placed(a: TlsView, b: TlsView, objects: seq<InputObject>, tls: TlsGot) {
    (forall ref | ref in tls.gd :: !Gained(a, b, objects, ref)) && (b.ldmAddr.Some? ==> tls.ldm)
  }

  lemma {:induction false} KindBound(v: TlsView, objects: seq<InputObject>, kind: Kind, shared: bool, refs: seq<TlsRef>)
    requires kind != Gd
    ensures |Fills(v, objects, kind, shared, refs).rows| <= |refs|
    decreases |refs|
  {
    hide v.Resolved, v.DynIndex;
    if refs != [] { KindBound(v, objects, kind, shared, refs[..|refs| - 1]); }
  }

  lemma {:induction false} GdBound(a: TlsView, b: TlsView, objects: seq<InputObject>, shared: bool, refs: seq<TlsRef>)
    requires forall ref | ref in refs :: !Gained(a, b, objects, ref)
    ensures |Fills(b, objects, Gd, shared, refs).rows| <= CountGd(a, refs)
    decreases |refs|
  {
    hide FillFor, Gained, a.CountsAsImported;
    if refs != [] {
      assert refs[|refs| - 1] in refs;
      GdBound(a, b, objects, shared, refs[..|refs| - 1]);
      GdExactly(a, b, objects, shared, refs[|refs| - 1]);
    }
  }

  /** Counted before layout, collected after it: never more rows than counted. */
  lemma {:induction false} TlsCountBounds(a: TlsView, b: TlsView, objects: seq<InputObject>, tls: TlsGot, shared: bool)
    requires shared ==> Placed(a, b, objects, tls)
    ensures |AllFills(b, objects, tls, shared).rows| <= CountTls(a, tls, shared)
  {
    hide Fills, CountGd, b.Resolved, a.CountsAsImported;
    KindBound(b, objects, Ie, shared, tls.ie);
    if shared {
      KindBound(b, objects, Desc, shared, tls.desc);
      GdBound(a, b, objects, shared, tls.gd);
    }
  }

  /** Layout gives every reference its slots. */
  ghost predicate AllSlots(b: TlsView, tls: TlsGot) {
    && (forall ref | ref in tls.gd :: ref in b.gdAddr) && (forall ref | ref in tls.desc :: ref in b.descAddr)
    && (forall ref | ref in tls.ie :: ref in b.ieAddr) && (b.ldmAddr.Some? <==> tls.ldm)
  }

  /** What was undefined when counted got a place in the TLS block afterwards. */
  predicate Given(a: TlsView, b: TlsView, objects: seq<InputObject>, ref: TlsRef) {
    a.CountsAsImported(ref) && !b.Resolved(objects, ref).1
  }

  lemma {:induction false} KindExact(v: TlsView, objects: seq<InputObject>, kind: Kind, refs: seq<TlsRef>)
    requires kind != Gd && forall ref | ref in refs :: if kind == Desc then ref in v.descAddr else ref in v.ieAddr
    ensures |Fills(v, objects, kind, true, refs).rows| == |refs|
    decreases |refs|
  {
    hide v.Resolved, v.DynIndex;
    if refs != [] {
      assert refs[|refs| - 1] in refs;
      KindExact(v, objects, kind, refs[..|refs| - 1]);
    }
  }

  function CountGained(a: TlsView, b: TlsView, objects: seq<InputObject>, refs: seq<TlsRef>): (n: nat)
    ensures n == 0 <==> forall ref | ref in refs :: !Gained(a, b, objects, ref)
    decreases |refs|
  {
    if refs == [] then 0
    else
      assert forall ref :: ref in refs <==> ref in refs[..|refs| - 1] || ref == refs[|refs| - 1];
      CountGained(a, b, objects, refs[..|refs| - 1]) + if Gained(a, b, objects, refs[|refs| - 1]) then 1 else 0
  }

  function CountGiven(a: TlsView, b: TlsView, objects: seq<InputObject>, refs: seq<TlsRef>): (n: nat)
    ensures n == 0 <==> forall ref | ref in refs :: !Given(a, b, objects, ref)
    decreases |refs|
  {
    if refs == [] then 0
    else
      assert forall ref :: ref in refs <==> ref in refs[..|refs| - 1] || ref == refs[|refs| - 1];
      CountGiven(a, b, objects, refs[..|refs| - 1]) + if Given(a, b, objects, refs[|refs| - 1]) then 1 else 0
  }

  lemma {:induction false} GdExact(a: TlsView, b: TlsView, objects: seq<InputObject>, refs: seq<TlsRef>)
    requires forall ref | ref in refs :: ref in b.gdAddr
    ensures |Fills(b, objects, Gd, true, refs).rows| + CountGiven(a, b, objects, refs)
            == CountGd(a, refs) + CountGained(a, b, objects, refs)
    decreases |refs|
  {
    hide b.Resolved, b.DynIndex, a.CountsAsImported;
    if refs != [] {
      assert refs[|refs| - 1] in refs;
      GdExact(a, b, objects, refs[..|refs| - 1]);
    }
  }

  /** In a shared object each reference that gained a record is one record more than counted, and each that
      was given a place is one less: the count is enough exactly when no more gained than were given. */
  lemma {:induction false} TlsCountExactly(a: TlsView, b: TlsView, objects: seq<InputObject>, tls: TlsGot)
    requires AllSlots(b, tls)
    ensures |AllFills(b, objects, tls, true).rows| + CountGiven(a, b, objects, tls.gd)
            == CountTls(a, tls, true) + CountGained(a, b, objects, tls.gd)
    ensures |AllFills(b, objects, tls, true).rows| <= CountTls(a, tls, true)
            <==> CountGained(a, b, objects, tls.gd) <= CountGiven(a, b, objects, tls.gd)
  {
    hide Fills, CountGd, CountGained, CountGiven, Gained, Given, b.Resolved, a.CountsAsImported;
    KindExact(b, objects, Ie, tls.ie);
    KindExact(b, objects, Desc, tls.desc);
    GdExact(a, b, objects, tls.gd);
  }

  /** An object with one thread-local symbol, in its section 1. */
  const TLS_OBJECT := InputObject(
    "", [InputSection(1, [], Tdata, 1, Zeros(8), 8, 8, {Alloc, Write, Tls}, [])],
    [InputSymbol(0, [0x74], Local, false, false, false, 6, 0, Some(1), 0, 8)], map[1 := 0], map[0 := 0], [])

  /** Layout left section 1 of object 0 out of the TLS block; a kept reference to its symbol has its
      slots all the same. */
  ghost predicate SectionDropped(v: TlsView, tls: TlsGot) {
    v.tlsOffset(0, 1).None? && tls.gd == [LocalRef(0, 0)] && AllSlots(v, tls)
  }

  /** A local thread-local symbol whose section was dropped is counted once and collected twice. */
  lemma {:induction false} DroppedSectionOverflows()
    ensures TLS_OBJECT.Indexed() && TLS_OBJECT.symbols[0].section == Some(TLS_OBJECT.sections[0].index)
    ensures exists v: TlsView, tls: TlsGot ::
              SectionDropped(v, tls) && CountTls(v, tls, true) == 1 && |AllFills(v, [TLS_OBJECT], tls, true).rows| == 2
  {
    var ref := LocalRef(0, 0);
    var v := TlsView((n: Name) => None, (i: nat) => None, (n: Name) => 0, (o: nat, s: nat) => None, map[ref := 4096],
        map[], map[], None, 0);
    var tls := TlsGot([ref], [], [], false);
    assert [ref][..0] == [] && CountGd(v, []) == 0 && CountGd(v, [ref]) == 1;
    assert v.Resolved([TLS_OBJECT], ref) == (0, true);
    assert SectionDropped(v, tls);
    hide AllFills;
    TlsCountExactly(v, v, [TLS_OBJECT], tls);
    assert Gained(v, v, [TLS_OBJECT], ref) && CountGained(v, v, [TLS_OBJECT], []) == 0;
  }
}
