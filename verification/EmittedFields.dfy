/** From the symbol table to the file: where the relocated fields of a full emit lead
    (`peony-emit/src/lib.rs:317-423`, `peony-reloc/src/apply.rs:104-520`). */
module EmittedFields {
  import opened Bytes
  import opened Reloc
  import opened Objects
  import opened InputWork
  import opened Emit
  import opened EmittedImage
  import opened RelocAction
  import opened RelocMeaning

  function LookupOf(v: ApplyView, objects: seq<InputObject>): Lookup {
    (id: nat, r: InputReloc, va: u64) => ResolveAction(v, objects, id, r, va)
  }

  /** `img` is the result of a full emit without error. */
  ghost predicate IsImage(l: Layout, objects: seq<InputObject>, lookup: Lookup, base: seq<byte>, img: seq<byte>) {
    Faultless(l, objects, lookup, |base|) && img == Full(l, objects, lookup, base)
  }

  /** The file range of a contribution, all at once. */
  lemma {:induction false} WholeItem(l: Layout, objects: seq<InputObject>, lookup: Lookup, base: seq<byte>,
          img: seq<byte>, sec: OutSec, c: Contribution)
    requires IsImage(l, objects, lookup, base, img) && Contributes(l, objects, sec, c)
    requires objects[c.objectId].sections[c.sectionPos].data != []
    ensures var item, at := WorkFor(sec, c, objects), sec.off + c.offset;
            && 0 < item.Len() < TWO63 && ItemBytes(lookup, item).ok && at + item.Len() <= |img|
            && img[at..at + item.Len()] == ItemBytes(lookup, item).bytes
            && forall r | r in item.isec.relocs :: RelocFits(r, item.Len())
  {
    hide ItemBytes, Full, Faultless;
    var item, at := WorkFor(sec, c, objects), sec.off + c.offset;
    FullHoldsContribution(l, objects, lookup, base, sec, c, item.Len() - 1);
    forall i | 0 <= i < item.Len()
      ensures img[at + i] == ItemBytes(lookup, item).bytes[i]
    {
      FullHoldsContribution(l, objects, lookup, base, sec, c, i);
    }
    RelocsFit(l, objects, lookup, |base|, sec, c);
  }

  lemma {:induction false} RelocsFit(l: Layout, objects: seq<InputObject>, lookup: Lookup, n: nat, sec: OutSec,
          c: Contribution)
    requires Faultless(l, objects, lookup, n) && Contributes(l, objects, sec, c)
    requires objects[c.objectId].sections[c.sectionPos].data != []
    ensures var item := WorkFor(sec, c, objects); forall r | r in item.isec.relocs :: RelocFits(r, item.Len())
  {
    hide Tidy, Fits, Emit.CollectInputWorkItems, RelocFits;
    var k := WorkIsThere(l, objects, lookup, sec, c);
    assert Contained(Work(l, objects, lookup).items[k], n);
  }

  // ── One field ────────────────────────────────────────────────────────────

  /** Relocation `r`, number `k` of a contribution, which no later one writes over. */
  ghost predicate Relocates(l: Layout, objects: seq<InputObject>, sec: OutSec, c: Contribution, k: nat, r: InputReloc) {
    && Contributes(l, objects, sec, c) && sec.va + c.offset < TWO64
    && var isec := objects[c.objectId].sections[c.sectionPos];
       isec.data != [] && k < |isec.relocs| && isec.relocs[k] == r && Alone(isec.relocs, k)
  }

  /** A plain field of the emitted file holds the value of its formula. */
  lemma {:induction false} FieldInImage(l: Layout, objects: seq<InputObject>, lookup: Lookup, base: seq<byte>,
          img: seq<byte>, sec: OutSec, c: Contribution, k: nat, r: InputReloc, a: Addrs)
    requires IsImage(l, objects, lookup, base, img) && Relocates(l, objects, sec, c, k, r)
    requires lookup(c.objectId, r, sec.va + c.offset) == Apply(a) && a.offset == r.offset && FieldOf(r.rType, a).Some?
    ensures var f, at := FieldOf(r.rType, a).value, sec.off + c.offset + r.offset;
            && at + f.width <= |img| && FromLe(img[at..at + f.width]) == AbiValue(r.rType, a) % Pow256(f.width)
            && f.lo <= I64(AbiValue(r.rType, a)) < f.hi
  {
    hide FieldOf, AbiValue, I64, FromLe, IsImage, ItemBytes, RelocFits, Alone, Pow256;
    var item := WorkFor(sec, c, objects);
    WholeItem(l, objects, lookup, base, img, sec, c);
    ItemField(lookup, item, k, a);
    var at, w := sec.off + c.offset, FieldOf(r.rType, a).value.width;
    SubSlice(img, at, item.Len(), r.offset, w);
  }

  lemma {:induction false} SubSlice(img: seq<byte>, at: nat, len: nat, off: nat, w: nat)
    requires at + len <= |img| && off + w <= len
    ensures img[at..at + len][off..off + w] == img[at + off..at + off + w]
  {
    var x, y := img[at..at + len][off..off + w], img[at + off..at + off + w];
    assert |x| == |y| && forall i | 0 <= i < w :: x[i] == y[i];
  }

  // ── Where it leads ───────────────────────────────────────────────────────

  lemma {:induction false} UnwrappedSame(x: int)
    ensures SameAddress(U64(x), x)
  {
  }

  lemma {:induction false} SameTrans(x: int, y: int, z: int)
    requires SameAddress(x, y) && SameAddress(y, z)
    ensures SameAddress(x, z)
  {
  }

  lemma {:induction false} PcSum(p: int, s: int, a: int)
    ensures SameAddress(p + (U64(s) + a - U64(p)), s + a)
  {
    UnwrappedSame(s);
    UnwrappedSame(p);
    AddSame(a + p - U64(p), U64(s), s);
    var k := p / TWO64;
    assert p - U64(p) == TWO64 * k;
    ModShift(s + a, TWO64, k);
  }

  /** A 32-bit PC-relative field or a 64-bit one, read with its sign, is the formula's value. */
  lemma {:induction false} FieldIsValue(bytes: seq<byte>, value: int, f: Field)
    requires f in {F64, FI32} && f.lo <= I64(value) < f.hi && FromLe(bytes) == value % Pow256(f.width)
    ensures SameAddress(Signed(FromLe(bytes), f.width), value)
  {
    LowBytes(value, f.width);
    WrappedIsSame(value);
    Pow256Values();
    hide I64, FromLe, Pow256, SameAddress;
    SignedReads(I64(value), f.width);
  }

  predicate PcField(t: RType) { t in {PC32, PC64, PLT32} }

  lemma {:induction false} FieldArrives(bytes: seq<byte>, t: RType, a: Addrs, p: int, target: int)
    requires PcField(t) && Destination(t, a) == Some(U64(target)) && a.p == U64(p)
    requires var f := FieldOf(t, a).value;
             f.lo <= I64(AbiValue(t, a)) < f.hi && FromLe(bytes) == AbiValue(t, a) % Pow256(f.width)
    ensures FieldOf(t, a) == Some(if t == PC64 then F64 else FI32)
    ensures SameAddress(p + Signed(FromLe(bytes), if t == PC64 then 8 else 4), target + a.a)
  {
    hide I64, FromLe, SameAddress, AbiValue, Destination, Pow256;
    var f := FieldOf(t, a).value;
    FieldIsValue(bytes, AbiValue(t, a), f);
    FormulaLeadsTo(t, a);
    PcSum(p, target, a.a);
    AddSame(p, Signed(FromLe(bytes), f.width), AbiValue(t, a));
    SameTrans(p + Signed(FromLe(bytes), f.width), p + AbiValue(t, a), target + a.a);
  }

  /** What a reference means: the address of its symbol, or the PLT stub for a call to a symbol that has one. */
  ghost predicate Means(v: ApplyView, id: nat, sym: InputSymbol, t: RType, target: nat) {
    && Placed(v, id, sym)
    && if t == PLT32 && sym.binding != Local && v.tls.lookup(sym.name).Some? && v.tls.lookup(sym.name).value.IsDefined()
          && U64(v.plt(sym.name)) != 0
       then target == v.plt(sym.name) else HasAddress(v, id, sym, target)
  }

  lemma {:induction false} MeansAddrs(v: ApplyView, objects: seq<InputObject>, id: nat, r: InputReloc, va: nat,
          sym: InputSymbol, target: nat)
    requires Against(objects, id, r, sym) && PcField(r.rType) && !RelaxedCall(v, r.rType, sym)
    requires Means(v, id, sym, r.rType, target)
    ensures var action := ResolveAction(v, objects, id, r, va);
            && action.Apply? && action.addrs.p == U64(va + r.offset) && action.addrs.a == r.addend
            && action.addrs.offset == r.offset && Destination(r.rType, action.addrs) == Some(U64(target))
            && FieldOf(r.rType, action.addrs).Some?
  {
    hide ResolveAction, Against, HasAddress;
    AppliedExactly(v, objects, id, r, va, sym);
    if r.rType == PLT32 { AppliedSlots(v, objects, id, r, va, sym); }
  }

  /** In the emitted file a PC-relative reference leads from where it sits in memory to what it means, moved by its
      addend. */
  lemma {:induction false} ReferenceArrives(l: Layout, objects: seq<InputObject>, v: ApplyView, base: seq<byte>,
          img: seq<byte>, sec: OutSec, c: Contribution, k: nat, r: InputReloc, sym: InputSymbol, target: nat)
    requires IsImage(l, objects, LookupOf(v, objects), base, img) && Relocates(l, objects, sec, c, k, r)
    requires Against(objects, c.objectId, r, sym) && PcField(r.rType) && !RelaxedCall(v, r.rType, sym)
    requires Means(v, c.objectId, sym, r.rType, target)
    ensures var w, at := if r.rType == PC64 then 8 else 4, sec.off + c.offset + r.offset;
            && at + w <= |img|
            && SameAddress(sec.va + c.offset + r.offset + Signed(FromLe(img[at..at + w]), w), target + r.addend)
  {
    hide IsImage, Relocates, Against, RelaxedCall, Means, ResolveAction, LookupOf, SameAddress, FieldOf, AbiValue, I64,
         FromLe, Signed, Destination, PcField, Pow256;
    var va := sec.va + c.offset;
    RelocatesLow(l, objects, sec, c, k, r);
    MeansAddrs(v, objects, c.objectId, r, va, sym, target);
    LookupIs(v, objects, c.objectId, r, va);
    var a := ResolveAction(v, objects, c.objectId, r, va).addrs;
    FieldInImage(l, objects, LookupOf(v, objects), base, img, sec, c, k, r, a);
    var at := sec.off + c.offset + r.offset;
    FieldArrives(img[at..at + FieldOf(r.rType, a).value.width], r.rType, a, va + r.offset, target);
  }

  lemma {:induction false} RelocatesLow(l: Layout, objects: seq<InputObject>, sec: OutSec, c: Contribution, k: nat,
          r: InputReloc)
    requires Relocates(l, objects, sec, c, k, r)
    ensures sec.va + c.offset < TWO64
  {
    hide Alone;
  }

  lemma {:induction false} LookupIs(v: ApplyView, objects: seq<InputObject>, id: nat, r: InputReloc, va: u64)
    ensures LookupOf(v, objects)(id, r, va) == ResolveAction(v, objects, id, r, va)
  {
    hide ResolveAction;
  }

  /** And a 64-bit word holds the address of its symbol and the addend. */
  lemma {:induction false} WordHolds(l: Layout, objects: seq<InputObject>, v: ApplyView, base: seq<byte>,
          img: seq<byte>, sec: OutSec, c: Contribution, k: nat, r: InputReloc, sym: InputSymbol, s: nat)
    requires IsImage(l, objects, LookupOf(v, objects), base, img) && Relocates(l, objects, sec, c, k, r)
    requires Against(objects, c.objectId, r, sym) && r.rType == R64 && HasAddress(v, c.objectId, sym, s)
    ensures var at := sec.off + c.offset + r.offset;
            at + 8 <= |img| && FromLe(img[at..at + 8]) == (s + r.addend) % TWO64
  {
    hide IsImage, Relocates, Against, HasAddress, ResolveAction, LookupOf, I64, FromLe, Pow256;
    var va := sec.va + c.offset;
    RelocatesLow(l, objects, sec, c, k, r);
    AppliedExactly(v, objects, c.objectId, r, va, sym);
    LookupIs(v, objects, c.objectId, r, va);
    var a := ResolveAction(v, objects, c.objectId, r, va).addrs;
    FieldInImage(l, objects, LookupOf(v, objects), base, img, sec, c, k, r, a);
    Pow256Values();
    UnwrappedSame(s);
    AddSame(r.addend, U64(s), s);
    assert r.addend + U64(s) == U64(s) + r.addend;
  }
}
