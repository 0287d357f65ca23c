/** What the TLS words of the GOT mean once the loader has worked off their relocations: the module and the offset of
    the variable, or its offset from the thread pointer (`peony-reloc/src/tls.rs:22-128`). */
module TlsMeaning {
  import opened Bytes
  import opened Objects
  import opened TlsReloc

  // ── The loader ───────────────────────────────────────────────────────────

  /** A thread-local variable: a module and an offset in its block. */
  datatype Variable = Variable(mod: nat, off: int)

  /** `own` is the module being loaded, `symbol` the variable that a `.dynsym` index is bound to, and `blockAt` where a
      module's block starts from the thread pointer. */
  datatype Loader = Loader(own: nat, symbol: nat -> Variable, blockAt: nat -> int)
  {
    /** Index 0 stands for the start of the module's own block. */
    function Bound(index: nat): Variable { if index == 0 then Variable(own, 0) else symbol(index) }

    function FromThread(x: Variable): int { blockAt(x.mod) + x.off }

    /** What a relocation stores, or what its descriptor returns. */
    function Word(r: TlsRow): Option<int> {
      var x := Bound(r.sym);
      match r.rType
      case DTPMOD64 => Some(x.mod)
      case DTPOFF64 => Some(x.off + r.addend)
      case TPOFF64 | TLSDESC => Some(FromThread(x) + r.addend)
      case _ => None
    }

    /** The word at `addr` holds `value`: a relocation leaves it there, or the linker has. */
    ghost predicate Holds(f: Fill, addr: nat, value: int) {
      (exists r :: r in f.rows && r.site == addr && Word(r) == Some(value)) || (addr, value) in f.statics
    }
  }

  predicate Names(v: TlsView, ref: TlsRef, n: Name) {
    ref.GlobalRef? && v.nameById(ref.id) == Some(n) && v.lookup(n).Some?
  }

  /** The variable that a reference means: the module's own at its offset, or the one that the `.dynsym` entry of its
      name is bound to. */
  ghost predicate Means(l: Loader, v: TlsView, objects: seq<InputObject>, ref: TlsRef, x: Variable) {
    var (off, imported) := v.Resolved(objects, ref);
    if imported then exists n :: Names(v, ref, n) && v.dynsym(n) != 0 && x == l.symbol(v.dynsym(n))
    else x == Variable(l.own, off)
  }

  lemma {:induction false} IndexOfName(v: TlsView, ref: TlsRef, n: Name)
    requires Names(v, ref, n)
    ensures v.DynIndex(ref) == v.dynsym(n)
  {
  }

  lemma {:induction false} MeansBound(l: Loader, v: TlsView, objects: seq<InputObject>, ref: TlsRef, x: Variable)
    requires Means(l, v, objects, ref, x)
    ensures var (off, imported) := v.Resolved(objects, ref);
            x == if imported then l.Bound(v.DynIndex(ref)) else Variable(l.own, off)
    ensures v.Resolved(objects, ref).1 ==> v.DynIndex(ref) != 0
  {
    hide v.Resolved, v.DynIndex;
    if v.Resolved(objects, ref).1 {
      var n :| Names(v, ref, n) && v.dynsym(n) != 0 && x == l.symbol(v.dynsym(n));
      IndexOfName(v, ref, n);
    }
  }

  // ── What the slots hold ──────────────────────────────────────────────────

  /** A General-Dynamic pair holds the module and the offset of its variable. */
  lemma {:induction false} PairMeansVariable(l: Loader, v: TlsView, objects: seq<InputObject>, shared: bool,
          ref: TlsRef, x: Variable)
    requires ref in v.gdAddr && Means(l, v, objects, ref, x)
    ensures var f := FillFor(v, objects, Gd, shared, ref);
            l.Holds(f, v.gdAddr[ref], x.mod) && l.Holds(f, v.gdAddr[ref] + 8, x.off)
  {
    MeansBound(l, v, objects, ref, x);
    hide v.Resolved, v.DynIndex, Means;
    var f := FillFor(v, objects, Gd, shared, ref);
    assert f.rows[0] in f.rows;
    if v.Resolved(objects, ref).1 { assert f.rows[1] in f.rows; }
  }

  /** A descriptor returns the offset of its variable from the thread pointer. */
  lemma {:induction false} DescriptorMeansVariable(l: Loader, v: TlsView, objects: seq<InputObject>, shared: bool,
          ref: TlsRef, x: Variable)
    requires ref in v.descAddr && Means(l, v, objects, ref, x)
    ensures l.Holds(FillFor(v, objects, Desc, shared, ref), v.descAddr[ref], l.FromThread(x))
  {
    MeansBound(l, v, objects, ref, x);
    hide v.Resolved, v.DynIndex, Means;
    var f := FillFor(v, objects, Desc, shared, ref);
    assert f.rows[0] in f.rows;
  }

  /** An Initial-Exec slot holds the same. The linker stores it itself in an executable, whose block ends at the thread
      pointer. */
  lemma {:induction false} SlotMeansVariable(l: Loader, v: TlsView, objects: seq<InputObject>, shared: bool,
          ref: TlsRef, x: Variable)
    requires ref in v.ieAddr && Means(l, v, objects, ref, x) && (!shared ==> l.blockAt(l.own) + v.tlsSize == 0)
    ensures l.Holds(FillFor(v, objects, Ie, shared, ref), v.ieAddr[ref], l.FromThread(x))
  {
    MeansBound(l, v, objects, ref, x);
    hide v.Resolved, v.DynIndex, Means;
    var f := FillFor(v, objects, Ie, shared, ref);
    if f.rows != [] { assert f.rows[0] in f.rows; } else { assert f.statics[0] in f.statics; }
  }

  /** The Local-Dynamic pair holds the module itself and the start of its block. */
  lemma {:induction false} LocalPairMeansModule(l: Loader, v: TlsView)
    requires v.ldmAddr.Some?
    ensures l.Holds(LdmFill(v), v.ldmAddr.value, l.own) && l.Holds(LdmFill(v), v.ldmAddr.value + 8, 0)
  {
    assert LdmFill(v).rows[0] in LdmFill(v).rows && LdmFill(v).statics[0] in LdmFill(v).statics;
  }

  // ── All of them ──────────────────────────────────────────────────────────

  lemma {:induction false} HoldsPlus(l: Loader, f: Fill, g: Fill, addr: nat, value: int)
    ensures l.Holds(f.Plus(g), addr, value) <==> l.Holds(f, addr, value) || l.Holds(g, addr, value)
  {
    hide l.Word;
    assert forall r :: r in f.Plus(g).rows <==> r in f.rows || r in g.rows;
  }

  lemma {:induction false} FillsHold(l: Loader, v: TlsView, objects: seq<InputObject>, kind: Kind, shared: bool,
          refs: seq<TlsRef>, addr: nat, value: int)
    ensures l.Holds(Fills(v, objects, kind, shared, refs), addr, value) <==>
              exists ref :: ref in refs && l.Holds(FillFor(v, objects, kind, shared, ref), addr, value)
    decreases |refs|
  {
    hide FillFor, l.Holds, Fill.Plus;
    if refs == [] {
      NothingHeld(l, addr, value);
    } else {
      var n := |refs| - 1;
      FillsHold(l, v, objects, kind, shared, refs[..n], addr, value);
      HoldsPlus(l, Fills(v, objects, kind, shared, refs[..n]), FillFor(v, objects, kind, shared, refs[n]), addr, value);
      assert forall ref :: ref in refs <==> ref in refs[..n] || ref == refs[n];
    }
  }

  lemma {:induction false} NothingHeld(l: Loader, addr: nat, value: int)
    ensures !l.Holds(NOTHING, addr, value)
  {
  }

  /** What the whole TLS part of the GOT holds is what its references put there; an executable has Initial-Exec slots
      only. */
  lemma {:induction false} GotHolds(l: Loader, v: TlsView, objects: seq<InputObject>, tls: TlsGot, shared: bool,
          addr: nat, value: int)
    ensures l.Holds(AllFills(v, objects, tls, shared), addr, value) <==>
              || (exists ref :: ref in tls.ie && l.Holds(FillFor(v, objects, Ie, shared, ref), addr, value))
              || (shared && l.Holds(LdmFill(v), addr, value))
              || (shared && exists ref :: ref in tls.gd && l.Holds(FillFor(v, objects, Gd, shared, ref), addr, value))
              || (shared && exists ref ::
                    ref in tls.desc && l.Holds(FillFor(v, objects, Desc, shared, ref), addr, value))
  {
    hide FillFor, Fills, l.Holds, Fill.Plus, LdmFill;
    FillsHold(l, v, objects, Ie, shared, tls.ie, addr, value);
    FillsHold(l, v, objects, Gd, shared, tls.gd, addr, value);
    FillsHold(l, v, objects, Desc, shared, tls.desc, addr, value);
    var gd, desc, ie := Fills(v, objects, Gd, shared, tls.gd), Fills(v, objects, Desc, shared, tls.desc),
                        Fills(v, objects, Ie, shared, tls.ie);
    HoldsPlus(l, gd, desc, addr, value);
    HoldsPlus(l, gd.Plus(desc), LdmFill(v), addr, value);
    HoldsPlus(l, gd.Plus(desc).Plus(LdmFill(v)), ie, addr, value);
  }
}
