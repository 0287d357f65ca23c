/** What is decided for one relocation before it is applied: to skip it, the addresses it is applied with, or that
    its symbol is undefined (`peony-reloc/src/apply.rs:23-71`, `134-292`). */
module RelocAction {
  import opened Bytes
  import opened Reloc
  import opened Objects
  import Symbols
  import opened TlsReloc
  import InputWork

  /** Symbols, PLT stubs, section addresses, and the TLS part of the layout. */
  datatype ApplyView = ApplyView(
    tls: TlsView, plt: Name -> nat, address: (nat, nat) -> Option<nat>, gotBase: nat, shared: bool)

  function U64(x: int): u64 { x % TWO64 }

  predicate IsTlsType(t: RType) {
    t in {TPOFF32, TPOFF64, DTPOFF32, DTPOFF64, TLSGD, TLSLD, GOTTPOFF, GOTPC32_TLSDESC, TLSDESC_CALL, TLSDESC}
  }

  function TlsGetAddr(): Name { Ascii("__tls_get_addr") }

  /** Address, GOT slot, PLT stub and size. */
  datatype Place = Place(s: nat, g: nat, l: nat, z: nat)

  datatype Found = Unplaced | Missing | At(place: Place)

  function LocalPlace(v: ApplyView, id: nat, sym: InputSymbol): Found {
    match sym.section
    case None => At(Place(sym.value, 0, 0, sym.size))
    case Some(si) =>
      match v.address(id, si)
      case None => Unplaced
      case Some(va) => At(Place(va + sym.value, 0, 0, sym.size))
  }

  /** A weak reference to nothing has address 0, but keeps its GOT slot. */
  function GlobalPlace(v: ApplyView, sym: InputSymbol, res: Option<Symbols.Resolution>): Found {
    match res
    case None => Missing
    case Some(r) =>
      if r.IsDefined() then At(Place(r.va, r.gotAddress, v.plt(sym.name), r.size))
      else if sym.binding == Weak then At(Place(0, r.gotAddress, 0, 0))
      else Missing
  }

  function PlaceFor(v: ApplyView, id: nat, sym: InputSymbol, res: Option<Symbols.Resolution>): Found {
    if sym.binding == Local then LocalPlace(v, id, sym) else GlobalPlace(v, sym, res)
  }

  /** The symbol's offset in the TLS block; 0 when it has none there. */
  function TlsOffsetOf(v: ApplyView, id: nat, sym: InputSymbol, res: Option<Symbols.Resolution>): nat {
    if sym.binding == Local then
      match sym.section
      case None => 0
      case Some(si) => (match v.tls.tlsOffset(id, si) case None => 0 case Some(b) => b + sym.value)
    else
      match res
      case None => 0
      case Some(r) =>
        if r.definedIn.None? || r.section.None? then 0
        else match v.tls.tlsOffset(r.definedIn.value, r.section.value) case None => 0 case Some(b) => b + r.value
  }

  function RefOf(id: nat, pos: nat, sym: InputSymbol, res: Option<Symbols.Resolution>): TlsRef {
    if sym.binding != Local && res.Some? then GlobalRef(res.value.id) else LocalRef(id, pos)
  }

  predicate TlsImported(sym: InputSymbol, res: Option<Symbols.Resolution>) {
    sym.binding != Local && res.Some? && res.value.imported && res.value.definedIn.None?
  }

  function SlotOf(slots: map<TlsRef, nat>, ref: TlsRef): nat { if ref in slots then slots[ref] else 0 }

  function AddrsOf(v: ApplyView, id: nat, pos: nat, sym: InputSymbol, res: Option<Symbols.Resolution>, r: InputReloc,
          va: nat, p: Place): Addrs {
    var isTls, ref := IsTlsType(r.rType), RefOf(id, pos, sym, res);
    Addrs(U64(p.s), r.addend, U64(va + r.offset), U64(p.g), U64(p.l), U64(p.z), U64(v.gotBase),
          if isTls then U64(TlsOffsetOf(v, id, sym, res)) else 0, U64(v.tls.tlsSize), r.offset, v.shared,
          if isTls then U64(SlotOf(v.tls.gdAddr, ref)) else 0, if isTls then U64(SlotOf(v.tls.ieAddr, ref)) else 0,
          if isTls then U64(SlotOf(v.tls.descAddr, ref)) else 0,
          match v.tls.ldmAddr case None => 0 case Some(ldm) => U64(ldm), isTls && TlsImported(sym, res))
  }

  /** The call to `__tls_get_addr` behind a relaxed TLS sequence is gone. */
  predicate RelaxedCall(v: ApplyView, t: RType, sym: InputSymbol) {
    !v.shared && (t == PLT32 || t == PC32) && sym.name == TlsGetAddr()
  }

  /** The decision for symbol `pos` of object `id`, whose table entry is `res`. */
  function ActionFor(v: ApplyView, id: nat, pos: nat, sym: InputSymbol, res: Option<Symbols.Resolution>, r: InputReloc,
          va: nat): InputWork.Action {
    if RelaxedCall(v, r.rType, sym) then InputWork.Skip
    else
      match PlaceFor(v, id, sym, res)
      case Unplaced => InputWork.Skip
      case Missing => InputWork.Action.Undefined
      case At(p) => InputWork.Apply(AddrsOf(v, id, pos, sym, res, r, va, p))
  }

  /** The symbol of a relocation, by its position. */
  function SymbolAt(objects: seq<InputObject>, id: nat, r: InputReloc): Option<nat> {
    if r.rType == NONE || id >= |objects| then None
    else
      match objects[id].SymbolPos(r.symbol)
      case None => None
      case Some(pos) => if pos < |objects[id].symbols| then Some(pos) else None
  }

  /** By name. */
  function ResolveAction(v: ApplyView, objects: seq<InputObject>, id: nat, r: InputReloc, va: nat): InputWork.Action {
    match SymbolAt(objects, id, r)
    case None => InputWork.Skip
    case Some(pos) =>
      var sym := objects[id].symbols[pos];
      ActionFor(v, id, pos, sym, if sym.binding == Local then None else v.tls.lookup(sym.name), r, va)
  }

  // ── The integer index ────────────────────────────────────────────────────

  type SymIndex = seq<seq<Option<Symbols.Resolution>>>

  function IndexedEntry(v: ApplyView, sym: InputSymbol): Option<Symbols.Resolution> {
    if sym.binding == Local || sym.name == [] then None else v.tls.lookup(sym.name)
  }

  predicate Indexes(v: ApplyView, objects: seq<InputObject>, index: SymIndex) {
    && |index| == |objects|
    && forall o | 0 <= o < |objects| ::
         && |index[o]| == |objects[o].symbols|
         && forall pos | 0 <= pos < |index[o]| :: index[o][pos] == IndexedEntry(v, objects[o].symbols[pos])
  }

  method BuildSymIndex(v: ApplyView, objects: seq<InputObject>) returns (index: SymIndex)
    ensures Indexes(v, objects, index)
  {
    hide IndexedEntry;
    index := [];
    for o := 0 to |objects|
      invariant Indexes(v, objects[..o], index)
    {
      var symbols, row := objects[o].symbols, [];
      for pos := 0 to |symbols|
        invariant |row| == pos && forall i | 0 <= i < pos :: row[i] == IndexedEntry(v, symbols[i])
      {
        row := row + [IndexedEntry(v, symbols[pos])];
      }
      index := index + [row];
      assert objects[..o + 1] == objects[..o] + [objects[o]];
    }
    assert objects[..|objects|] == objects;
  }

  /** Through the index. */
  function ResolveIndexed(v: ApplyView, objects: seq<InputObject>, index: SymIndex, id: nat, r: InputReloc, va: nat):
          InputWork.Action
    requires Indexes(v, objects, index)
  {
    match SymbolAt(objects, id, r)
    case None => InputWork.Skip
    case Some(pos) =>
      var sym := objects[id].symbols[pos];
      ActionFor(v, id, pos, sym, if sym.binding == Local then None else index[id][pos], r, va)
  }

  /** Both give the same decisions when the table has no entry without a name. */
  lemma {:induction false} IndexIsLookup(v: ApplyView, objects: seq<InputObject>, index: SymIndex, id: nat,
          r: InputReloc, va: nat)
    requires Indexes(v, objects, index) && v.tls.lookup([]).None?
    ensures ResolveIndexed(v, objects, index, id, r, va) == ResolveAction(v, objects, id, r, va)
  {
    hide ActionFor;
  }

  // ── What the decision means ──────────────────────────────────────────────

  /** The relocation's symbol, when it has one. */
  predicate Against(objects: seq<InputObject>, id: nat, r: InputReloc, sym: InputSymbol) {
    id < |objects| && objects[id].SymbolPos(r.symbol).Some? && objects[id].SymbolByIndex(r.symbol) == Some(sym)
  }

  /** The address of a symbol: a local one's is that of its section plus its value, a table entry's is recorded
      there, and an undefined weak reference's is 0. */
  ghost predicate HasAddress(v: ApplyView, id: nat, sym: InputSymbol, s: nat) {
    if sym.binding == Local then
      if sym.section.None? then s == sym.value
      else exists va :: v.address(id, sym.section.value) == Some(va) && s == va + sym.value
    else
      exists e :: v.tls.lookup(sym.name) == Some(e)
                  && ((e.IsDefined() && s == e.va) || (!e.IsDefined() && sym.binding == Weak && s == 0))
  }

  lemma {:induction false} PlaceIsAddress(v: ApplyView, id: nat, sym: InputSymbol)
    ensures var f := PlaceFor(v, id, sym, if sym.binding == Local then None else v.tls.lookup(sym.name));
            && (f.At? ==> forall s: nat :: HasAddress(v, id, sym, s) <==> s == f.place.s)
            && (!f.At? ==> forall s: nat :: !HasAddress(v, id, sym, s)) && (f.Missing? ==> sym.binding != Local)
            && (f.Unplaced? ==> sym.binding == Local)
  {
  }

  lemma {:induction false} ActionIs(v: ApplyView, objects: seq<InputObject>, id: nat, r: InputReloc, va: nat,
          sym: InputSymbol)
    requires Against(objects, id, r, sym) && r.rType != NONE
    ensures var f := PlaceFor(v, id, sym, if sym.binding == Local then None else v.tls.lookup(sym.name));
            var action := ResolveAction(v, objects, id, r, va);
            && (action.Apply? <==> !RelaxedCall(v, r.rType, sym) && f.At?)
            && (action.Undefined? <==> !RelaxedCall(v, r.rType, sym) && f.Missing?)
            && (action.Apply? ==>
                  && action.addrs.s == U64(f.place.s) && action.addrs.a == r.addend
                  && action.addrs.p == U64(va + r.offset) && action.addrs.offset == r.offset
                  && action.addrs.shared == v.shared)
  {
    hide PlaceFor, RelaxedCall, TlsOffsetOf, RefOf, IsTlsType, TlsImported, SlotOf;
  }

  ghost predicate Placed(v: ApplyView, id: nat, sym: InputSymbol) { exists s: nat :: HasAddress(v, id, sym, s) }

  /** A relocation is applied exactly when its symbol has an address and its call has not been relaxed away, and
      fails exactly when a table entry is wanted and gives none. It uses that address, and the place is where the
      relocation sits in memory. */
  lemma {:induction false} AppliedExactly(v: ApplyView, objects: seq<InputObject>, id: nat, r: InputReloc, va: nat,
          sym: InputSymbol)
    requires Against(objects, id, r, sym) && r.rType != NONE
    ensures var action := ResolveAction(v, objects, id, r, va);
            var relaxed := !v.shared && r.rType in {PLT32, PC32} && sym.name == Ascii("__tls_get_addr");
            && (action.Apply? <==> !relaxed && Placed(v, id, sym))
            && (action.Undefined? <==> !relaxed && sym.binding != Local && !Placed(v, id, sym))
            && (action.Apply? ==>
                  && (forall s: nat | HasAddress(v, id, sym, s) :: action.addrs.s == U64(s))
                  && action.addrs.a == r.addend && action.addrs.p == U64(va + r.offset)
                  && action.addrs.offset == r.offset && action.addrs.shared == v.shared)
  {
    PlaceIsAddress(v, id, sym);
    ActionIs(v, objects, id, r, va, sym);
    assert RelaxedCall(v, r.rType, sym)
      <==> !v.shared && r.rType in {PLT32, PC32} && sym.name == Ascii("__tls_get_addr");
    hide PlaceFor, RelaxedCall, HasAddress, ResolveAction, Against;
    var f := PlaceFor(v, id, sym, if sym.binding == Local then None else v.tls.lookup(sym.name));
    if f.At? { assert HasAddress(v, id, sym, f.place.s); }
  }

  /** GOT slot, PLT stub and size come from the table entry: the slot also for an undefined weak reference, the
      stub only for a symbol with an address. */
  lemma {:induction false} AppliedSlots(v: ApplyView, objects: seq<InputObject>, id: nat, r: InputReloc, va: nat,
          sym: InputSymbol)
    requires Against(objects, id, r, sym) && ResolveAction(v, objects, id, r, va).Apply?
    ensures var addrs, e := ResolveAction(v, objects, id, r, va).addrs, v.tls.lookup(sym.name);
            && addrs.gotBase == U64(v.gotBase) && addrs.tlsSize == U64(v.tls.tlsSize)
            && (sym.binding == Local ==> addrs.g == addrs.l == 0 && addrs.z == U64(sym.size))
            && (sym.binding != Local ==> e.Some? && addrs.g == U64(e.value.gotAddress))
            && (sym.binding != Local && e.value.IsDefined() ==>
                  addrs.l == U64(v.plt(sym.name)) && addrs.z == U64(e.value.size))
            && (sym.binding != Local && !e.value.IsDefined() ==> addrs.l == addrs.z == 0)
  {
  }

  /** The thread-local reference that the relocation makes. */
  ghost predicate Refers(v: ApplyView, objects: seq<InputObject>, id: nat, r: InputReloc, sym: InputSymbol,
          ref: TlsRef) {
    && Against(objects, id, r, sym)
    && (sym.binding == Local ==> ref == LocalRef(id, objects[id].SymbolPos(r.symbol).value))
    && (sym.binding != Local ==>
          exists e :: v.tls.lookup(sym.name) == Some(e) && ref == GlobalRef(e.id)
                      && v.tls.nameById(e.id) == Some(sym.name))
  }

  /** A thread-local access uses the slots of its reference, and the offset that the slots are filled from. */
  lemma {:induction false} AppliedTls(v: ApplyView, objects: seq<InputObject>, id: nat, r: InputReloc, va: nat,
          sym: InputSymbol, ref: TlsRef)
    requires Refers(v, objects, id, r, sym, ref) && IsTlsType(r.rType) && ResolveAction(v, objects, id, r, va).Apply?
    ensures var addrs := ResolveAction(v, objects, id, r, va).addrs;
            && (ref in v.tls.gdAddr ==> addrs.tlsGd == U64(v.tls.gdAddr[ref]))
            && (ref in v.tls.ieAddr ==> addrs.tlsIe == U64(v.tls.ieAddr[ref]))
            && (ref in v.tls.descAddr ==> addrs.tlsDesc == U64(v.tls.descAddr[ref]))
            && (v.tls.ldmAddr.Some? ==> addrs.tlsLdm == U64(v.tls.ldmAddr.value))
            && (v.tls.RefOffset(objects, ref).Some? ==> addrs.tls == U64(v.tls.RefOffset(objects, ref).value.0))
            && (addrs.tlsImported ==> v.tls.Resolved(objects, ref) == (0, true))
  {
  }

  /** Other relocations use none of it. */
  lemma {:induction false} AppliedPlain(v: ApplyView, objects: seq<InputObject>, id: nat, r: InputReloc, va: nat)
    requires !IsTlsType(r.rType) && ResolveAction(v, objects, id, r, va).Apply?
    ensures var addrs := ResolveAction(v, objects, id, r, va).addrs;
            addrs.tls == addrs.tlsGd == addrs.tlsIe == addrs.tlsDesc == 0 && !addrs.tlsImported
  {
  }
}
