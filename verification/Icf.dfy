/** Identical code folding: which text sections are folded, onto which, and what the folding keeps
    (`peony-layout/src/icf.rs:28-338`, `peony-layout/src/lib.rs:2075-2084`). */
module Icf {
  import opened Bytes
  import opened Reloc
  import opened Objects
  import opened Addrsig

  // ── Address significance ─────────────────────────────────────────────────

  predicate TakesAddress(t: RType) { t != NONE && t != PC32 && t != PLT32 }

  /** The symbol whose address a relocation takes. */
  function Taken(obj: InputObject, r: InputReloc): Option<InputSymbol> {
    if TakesAddress(r.rType) then obj.SymbolByIndex(r.symbol) else None
  }

  function RelocNames(obj: InputObject, relocs: seq<InputReloc>): set<Name> {
    set r | r in relocs && Taken(obj, r).Some? && Taken(obj, r).value.name != [] :: Taken(obj, r).value.name
  }

  /** A nameless symbol stands for the section it points into. */
  function RelocSections(obj: InputObject, relocs: seq<InputReloc>): set<nat> {
    set r | r in relocs && Taken(obj, r).Some? && Taken(obj, r).value.name == [] && Taken(obj, r).value.section.Some?
      :: Taken(obj, r).value.section.value
  }

  function SectionNames(obj: InputObject, secs: seq<InputSection>): set<Name> {
    set s, n | s in secs && n in RelocNames(obj, s.relocs) :: n
  }

  function SectionSections(obj: InputObject, secs: seq<InputSection>): set<nat> {
    set s, n | s in secs && n in RelocSections(obj, s.relocs) :: n
  }

  datatype AddrTaint = AddrTaint(
    byName: set<Name>, bySection: set<(nat, nat)>, tables: map<nat, seq<nat>>)

  /** The names and sections whose address is taken in the first `n` objects, and their tables. */
  ghost predicate TaintOf(objects: seq<InputObject>, n: nat, t: AddrTaint)
    requires n <= |objects|
  {
    && t.byName == (set o: nat, x | o < n && x in SectionNames(objects[o], objects[o].sections) :: x)
    && t.bySection == (set o: nat, x | o < n && x in SectionSections(objects[o], objects[o].sections) :: (o, x))
    && (forall o: nat :: o in t.tables <==> o < n && Significant(objects[o]).Some?)
    && (forall o: nat | o in t.tables :: Significant(objects[o]) == Some(t.tables[o]))
  }

  method TaintRelocs(obj: InputObject, relocs: seq<InputReloc>) returns (names: set<Name>, sections: set<nat>)
    ensures names == RelocNames(obj, relocs) && sections == RelocSections(obj, relocs)
  {
    names, sections := {}, {};
    hide TakesAddress;
    for i := 0 to |relocs|
      invariant names == RelocNames(obj, relocs[..i]) && sections == RelocSections(obj, relocs[..i])
    {
      assert relocs[..i + 1] == relocs[..i] + [relocs[i]];
      match Taken(obj, relocs[i])
      case Some(sym) =>
        if sym.name != [] {
          names := names + {sym.name};
        } else if sym.section.Some? {
          sections := sections + {sym.section.value};
        }
      case None =>
    }
    assert relocs[..|relocs|] == relocs;
  }

  method TaintSections(obj: InputObject) returns (names: set<Name>, sections: set<nat>)
    ensures names == SectionNames(obj, obj.sections) && sections == SectionSections(obj, obj.sections)
  {
    names, sections := {}, {};
    hide RelocNames, RelocSections;
    var secs := obj.sections;
    for i := 0 to |secs|
      invariant names == SectionNames(obj, secs[..i]) && sections == SectionSections(obj, secs[..i])
    {
      assert secs[..i + 1] == secs[..i] + [secs[i]];
      var moreNames, moreSections := TaintRelocs(obj, secs[i].relocs);
      names, sections := names + moreNames, sections + moreSections;
    }
    assert secs[..|secs|] == secs;
  }

  method AddressTaint(objects: seq<InputObject>) returns (t: AddrTaint)
    ensures TaintOf(objects, |objects|, t)
  {
    hide SectionNames, SectionSections, Significant;
    t := AddrTaint({}, {}, map[]);
    for o := 0 to |objects|
      invariant TaintOf(objects, o, t)
    {
      var names, sections := TaintSections(objects[o]);
      var table := ParseAddrsig(objects[o]);
      t := AddrTaint(t.byName + names, t.bySection + set x | x in sections :: (o, x),
                     if table.Some? then t.tables[o := table.value] else t.tables);
    }
  }

  const ZTV: Name := [0x5f, 0x5a, 0x54, 0x56]
  const ZTI: Name := [0x5f, 0x5a, 0x54, 0x49]
  const ZTS: Name := [0x5f, 0x5a, 0x54, 0x53]
  const STV_DEFAULT := 0

  /** One symbol that the section defines forbids folding it. */
  predicate SymbolForbids(sym: InputSymbol, listed: bool, t: AddrTaint) {
    || listed
    || (sym.name != []
        && (StartsWith(sym.name, ZTV) || StartsWith(sym.name, ZTI) || StartsWith(sym.name, ZTS)
            || sym.name in t.byName || sym.binding == Weak
            || (sym.binding != Local && sym.visibility == STV_DEFAULT)))
  }

  predicate DefinesAddressSignificant(obj: InputObject, o: nat, pos: nat, t: AddrTaint) {
    || pos >= |obj.sections|
    || o !in t.tables
    || (o, obj.sections[pos].index) in t.bySection
    || exists i | 0 <= i < |obj.symbols| ::
         && obj.symbols[i].section == Some(obj.sections[pos].index) && !obj.symbols[i].isUndefined
         && SymbolForbids(obj.symbols[i], i in t.tables[o], t)
  }

  /** No relocation of the whole link takes the address of the section or of a symbol it defines, and
      the compiler vouches for every symbol in it. */
  ghost predicate AddressUnseen(objects: seq<InputObject>, o: nat, pos: nat)
    requires o < |objects| && pos < |objects[o].sections|
  {
    var index := objects[o].sections[pos].index;
    && Significant(objects[o]).Some?
    && (forall i | 0 <= i < |objects[o].symbols|
       && Defines(objects[o].symbols[i], index) :: i !in Significant(objects[o]).value)
    && forall u, s, r | 0 <= u < |objects| && s in objects[u].sections && r in s.relocs && Taken(objects[u], r).Some? ::
         var sym := Taken(objects[u], r).value;
         if sym.name == [] then u != o || sym.section != Some(index)
         else forall i | 0 <= i < |objects[o].symbols| && Defines(objects[o].symbols[i], index) ::
                objects[o].symbols[i].name != sym.name
  }

  predicate Defines(sym: InputSymbol, index: nat) { sym.section == Some(index) && !sym.isUndefined }

  lemma {:induction false} NotSignificantIsUnseen(objects: seq<InputObject>, t: AddrTaint, o: nat, pos: nat)
    requires TaintOf(objects, |objects|, t) && o < |objects|
    requires !DefinesAddressSignificant(objects[o], o, pos, t)
    ensures AddressUnseen(objects, o, pos)
  {
    hide Significant, TakesAddress, StartsWith, RelocNames, RelocSections, Taken;
    var index := objects[o].sections[pos].index;
    forall u, s, r | 0 <= u < |objects| && s in objects[u].sections && r in s.relocs && Taken(objects[u], r).Some?
      ensures var sym := Taken(objects[u], r).value;
              if sym.name == [] then u != o || sym.section != Some(index)
              else forall i | 0 <= i < |objects[o].symbols| && Defines(objects[o].symbols[i], index) ::
                     objects[o].symbols[i].name != sym.name
    {
      InRelocs(objects[u], s.relocs, r);
      var sym := Taken(objects[u], r).value;
      if sym.name != [] {
        assert sym.name in SectionNames(objects[u], objects[u].sections);
        assert sym.name in t.byName;
      } else if sym.section.Some? {
        assert sym.section.value in SectionSections(objects[u], objects[u].sections);
        assert (u, sym.section.value) in t.bySection;
      }
    }
  }

  lemma {:induction false} InRelocs(obj: InputObject, relocs: seq<InputReloc>, r: InputReloc)
    requires r in relocs && Taken(obj, r).Some?
    ensures var sym := Taken(obj, r).value;
            if sym.name != [] then sym.name in RelocNames(obj, relocs)
            else sym.section.Some? ==> sym.section.value in RelocSections(obj, relocs)
  {
    hide Taken;
  }

  // ── Folding ──────────────────────────────────────────────────────────────

  /** A section by object and position, and by object and raw index. */
  datatype Place = Place(obj: nat, pos: nat)

  type Key = (nat, nat)

  datatype NormReloc = NormReloc(offset: u64, rType: RType, addend: int, target: Name)

  datatype FoldKey = FoldKey(flags: set<Flag>, digest: nat, len: nat, relocs: seq<NormReloc>)

  /** Relocations with target names for targets; `None` when a target does not resolve. */
  function Normal(obj: InputObject, relocs: seq<InputReloc>): Option<seq<NormReloc>>
    decreases |relocs|
  {
    if relocs == [] then Some([])
    else
      var r := relocs[0];
      match obj.SymbolByIndex(r.symbol)
      case None => None
      case Some(sym) =>
        match Normal(obj, relocs[1..])
        case None => None
        case Some(rest) => Some([NormReloc(r.offset, r.rType, r.addend, sym.name)] + rest)
  }

  /** The objects and the digest that the keys hash section bytes with. */
  datatype Input = Input(objects: seq<InputObject>, digest: seq<byte> -> nat)
  {
    predicate Has(a: Place) { a.obj < |objects| && a.pos < |objects[a.obj].sections| }

    function Sec(a: Place): InputSection
      requires Has(a)
    {
      objects[a.obj].sections[a.pos]
    }

    function KeyOf(a: Place): Key
      requires Has(a)
    {
      (a.obj, Sec(a).index)
    }

    function Relocs(a: Place): Option<seq<NormReloc>>
      requires Has(a)
    {
      Normal(objects[a.obj], Sec(a).relocs)
    }

    function FoldKeyFor(a: Place, t: AddrTaint): Option<FoldKey>
      requires Has(a)
    {
      if Sec(a).kind != Text || Sec(a).data == [] then None
      else if DefinesAddressSignificant(objects[a.obj], a.obj, a.pos, t) then None
      else if Relocs(a).None? then None
      else Some(FoldKey(Sec(a).flags, digest(Sec(a).data), |Sec(a).data| % TWO32, Relocs(a).value))
    }

    /** As the parser numbers them. */
    predicate DistinctIndices() {
      forall o, i, j | 0 <= o < |objects| && 0 <= i < j < |objects[o].sections| ::
        objects[o].sections[i].index != objects[o].sections[j].index
    }
  }

  predicate Before(a: Place, b: Place) { a.obj < b.obj || (a.obj == b.obj && a.pos < b.pos) }

  /** `canonical` has the first section of every key before `end`. */
  ghost predicate Canonical(inp: Input, t: AddrTaint, end: Place, canonical: map<FoldKey, Place>) {
    && (forall k | k in canonical ::
         inp.Has(canonical[k]) && Before(canonical[k], end) && inp.FoldKeyFor(canonical[k], t) == Some(k))
    && (forall a: Place | inp.Has(a) && Before(a, end) :: Covered(inp, t, canonical, a))
  }

  predicate Covered(inp: Input, t: AddrTaint, canonical: map<FoldKey, Place>, a: Place)
    requires inp.Has(a)
  {
    match inp.FoldKeyFor(a, t) case None => true case Some(k) => k in canonical && !Before(a, canonical[k])
  }

  /** `folds` sends each section before `end` that has the bytes of its canonical one to that one, and
      nothing else. */
  ghost predicate FoldedUpTo(inp: Input, t: AddrTaint, end: Place, canonical: map<FoldKey, Place>,
          folds: map<Key, Key>) {
    && (forall a: Place | inp.Has(a) && Before(a, end) :: FoldedRight(inp, t, canonical, folds, a))
    && (forall k | k in folds :: exists a: Place :: inp.Has(a) && Before(a, end) && inp.KeyOf(a) == k)
  }

  predicate FoldedRight(inp: Input, t: AddrTaint, canonical: map<FoldKey, Place>, folds: map<Key, Key>, a: Place)
    requires inp.Has(a)
  {
    && (inp.KeyOf(a) in folds <==> FoldsOnto(inp, t, canonical, a))
    && (FoldsOnto(inp, t, canonical, a) ==> folds[inp.KeyOf(a)] == inp.KeyOf(canonical[inp.FoldKeyFor(a, t).value]))
  }

  predicate FoldsOnto(inp: Input, t: AddrTaint, canonical: map<FoldKey, Place>, a: Place)
    requires inp.Has(a)
  {
    && inp.FoldKeyFor(a, t).Some?
    && inp.FoldKeyFor(a, t).value in canonical
    && var c := canonical[inp.FoldKeyFor(a, t).value];
       c != a && inp.Has(c) && inp.Sec(c).data == inp.Sec(a).data
  }

  /** What handling section `a` does to the two maps. */
  function FoldOne(inp: Input, t: AddrTaint, a: Place, canonical: map<FoldKey, Place>, folds: map<Key, Key>)
    : (map<FoldKey, Place>, map<Key, Key>)
    requires inp.Has(a)
    requires forall k | k in canonical :: inp.Has(canonical[k])
  {
    match inp.FoldKeyFor(a, t)
    case None => (canonical, folds)
    case Some(k) =>
      if k !in canonical then (canonical[k := a], folds)
      else if inp.Sec(a).data == inp.Sec(canonical[k]).data
          then (canonical, folds[inp.KeyOf(a) := inp.KeyOf(canonical[k])])
      else (canonical, folds)
  }

  lemma {:induction false} CanonicalStep(inp: Input, t: AddrTaint, a: Place, canonical: map<FoldKey, Place>,
          folds: map<Key, Key>)
    requires inp.Has(a) && Canonical(inp, t, a, canonical)
    ensures Canonical(inp, t, Place(a.obj, a.pos + 1), FoldOne(inp, t, a, canonical, folds).0)
  {
    hide inp.FoldKeyFor, inp.KeyOf;
    var now := FoldOne(inp, t, a, canonical, folds).0;
    forall b: Place | inp.Has(b) && Before(b, Place(a.obj, a.pos + 1))
      ensures Covered(inp, t, now, b)
    {
      if b != a { assert Before(b, a) && Covered(inp, t, canonical, b); }
    }
  }

  lemma {:induction false} FoldStep(inp: Input, t: AddrTaint, a: Place, canonical: map<FoldKey, Place>,
          folds: map<Key, Key>)
    requires inp.DistinctIndices() && inp.Has(a)
    requires Canonical(inp, t, a, canonical) && FoldedUpTo(inp, t, a, canonical, folds)
    ensures var s := FoldOne(inp, t, a, canonical, folds);
            FoldedUpTo(inp, t, Place(a.obj, a.pos + 1), s.0, s.1)
  {
    var s := FoldOne(inp, t, a, canonical, folds);
    var next := Place(a.obj, a.pos + 1);
    KeyIsNew(inp, t, a, canonical, folds);
    forall b: Place | inp.Has(b) && Before(b, next)
      ensures FoldedRight(inp, t, s.0, s.1, b)
    {
      hide inp.FoldKeyFor, inp.DistinctIndices, inp.Sec;
      if b == a {
        FoldHere(inp, t, a, canonical, folds);
      } else {
        assert Before(b, a);
        OtherKeys(inp, a, b);
        FoldElsewhere(inp, t, a, b, canonical, folds);
      }
    }
    hide inp.FoldKeyFor, inp.DistinctIndices, FoldedRight, FoldsOnto, inp.KeyOf, inp.Sec;
    forall k | k in s.1
      ensures exists b: Place :: inp.Has(b) && Before(b, next) && inp.KeyOf(b) == k
    {
      if k in folds {
        var b: Place :| inp.Has(b) && Before(b, a) && inp.KeyOf(b) == k;
        assert Before(b, next);
      } else {
        assert k == inp.KeyOf(a) && Before(a, next);
      }
    }
  }

  lemma {:induction false} OtherKeys(inp: Input, a: Place, b: Place)
    requires inp.DistinctIndices() && inp.Has(a) && inp.Has(b) && a != b
    ensures inp.KeyOf(a) != inp.KeyOf(b)
  {
  }

  lemma {:induction false} FoldHere(inp: Input, t: AddrTaint, a: Place, canonical: map<FoldKey, Place>,
          folds: map<Key, Key>)
    requires inp.Has(a) && Canonical(inp, t, a, canonical) && inp.KeyOf(a) !in folds
    ensures var s := FoldOne(inp, t, a, canonical, folds); FoldedRight(inp, t, s.0, s.1, a)
  {
    hide inp.FoldKeyFor, inp.KeyOf, Covered;
  }

  lemma {:induction false} FoldElsewhere(inp: Input, t: AddrTaint, a: Place, b: Place,
          canonical: map<FoldKey, Place>, folds: map<Key, Key>)
    requires inp.Has(a) && inp.Has(b) && Before(b, a) && inp.KeyOf(a) != inp.KeyOf(b)
    requires Canonical(inp, t, a, canonical) && FoldedRight(inp, t, canonical, folds, b)
    ensures var s := FoldOne(inp, t, a, canonical, folds); FoldedRight(inp, t, s.0, s.1, b)
  {
    hide inp.FoldKeyFor, inp.KeyOf;
    assert Covered(inp, t, canonical, b);
    hide Canonical;
  }

  lemma {:induction false} KeyIsNew(inp: Input, t: AddrTaint, a: Place, canonical: map<FoldKey, Place>,
          folds: map<Key, Key>)
    requires inp.DistinctIndices() && inp.Has(a) && FoldedUpTo(inp, t, a, canonical, folds)
    ensures inp.KeyOf(a) !in folds
  {
    hide inp.FoldKeyFor, FoldedRight, inp.DistinctIndices, inp.KeyOf;
    if inp.KeyOf(a) in folds {
      var b: Place :| inp.Has(b) && Before(b, a) && inp.KeyOf(b) == inp.KeyOf(a);
      OtherKeys(inp, a, b);
    }
  }

  // ── What the fold map means ──────────────────────────────────────────────

  predicate SameContent(inp: Input, a: Place, b: Place)
    requires inp.Has(a) && inp.Has(b)
  {
    && inp.Sec(a).data == inp.Sec(b).data
    && inp.Sec(a).flags == inp.Sec(b).flags
    && inp.Relocs(a).Some? && inp.Relocs(a) == inp.Relocs(b)
  }

  /** Two sections whose digest and 32-bit length agree have the same bytes. */
  predicate CollisionFree(inp: Input) {
    forall o, p, u, q | 0 <= o < |inp.objects| && 0 <= p < |inp.objects[o].sections|
                        && 0 <= u < |inp.objects| && 0 <= q < |inp.objects[u].sections| ::
      SameDigest(inp, inp.objects[o].sections[p].data, inp.objects[u].sections[q].data) ==>
        inp.objects[o].sections[p].data == inp.objects[u].sections[q].data
  }

  predicate SameDigest(inp: Input, a: seq<byte>, b: seq<byte>) {
    inp.digest(a) == inp.digest(b) && |a| % TWO32 == |b| % TWO32
  }

  /** Section `a` is folded onto the earlier section `c`, which is not folded itself. */
  ghost predicate SoundFold(inp: Input, t: AddrTaint, folds: map<Key, Key>, a: Place, c: Place) {
    && inp.Has(a) && inp.Has(c) && Before(c, a)
    && inp.KeyOf(a) in folds && folds[inp.KeyOf(a)] == inp.KeyOf(c) && inp.KeyOf(c) !in folds
    && inp.FoldKeyFor(a, t).Some? && inp.FoldKeyFor(c, t).Some? && SameContent(inp, a, c)
    && AddressUnseen(inp.objects, a.obj, a.pos) && AddressUnseen(inp.objects, c.obj, c.pos)
  }

  ghost predicate SoundFolds(inp: Input, t: AddrTaint, folds: map<Key, Key>) {
    forall k | k in folds :: exists a, c :: inp.Has(a) && inp.KeyOf(a) == k && SoundFold(inp, t, folds, a, c)
  }

  ghost predicate HasTwinBefore(inp: Input, t: AddrTaint, a: Place)
    requires inp.Has(a)
  {
    && inp.FoldKeyFor(a, t).Some?
    && exists b: Place :: inp.Has(b) && Before(b, a) && inp.FoldKeyFor(b, t).Some? && SameContent(inp, b, a)
  }

  lemma {:induction false} KeyMeans(inp: Input, t: AddrTaint, a: Place, b: Place)
    requires TaintOf(inp.objects, |inp.objects|, t)
    requires inp.Has(a) && inp.Has(b) && inp.FoldKeyFor(a, t).Some? && inp.FoldKeyFor(b, t).Some?
    ensures AddressUnseen(inp.objects, a.obj, a.pos)
    ensures SameContent(inp, a, b) ==> inp.FoldKeyFor(a, t) == inp.FoldKeyFor(b, t)
    ensures inp.FoldKeyFor(a, t) == inp.FoldKeyFor(b, t) ==>
              (inp.Sec(a).data == inp.Sec(b).data ==> SameContent(inp, a, b))
              && SameDigest(inp, inp.Sec(a).data, inp.Sec(b).data)
  {
    NotSignificantIsUnseen(inp.objects, t, a.obj, a.pos);
    hide AddressUnseen, TaintOf, DefinesAddressSignificant;
  }

  lemma {:induction false} FoldIsSound(inp: Input, t: AddrTaint, end: Place, canonical: map<FoldKey, Place>,
          folds: map<Key, Key>, a: Place)
    requires TaintOf(inp.objects, |inp.objects|, t)
    requires Canonical(inp, t, end, canonical) && FoldedUpTo(inp, t, end, canonical, folds)
    requires inp.Has(a) && Before(a, end) && inp.KeyOf(a) in folds
    ensures exists c :: SoundFold(inp, t, folds, a, c)
  {
    hide inp.FoldKeyFor, AddressUnseen, TaintOf, SameContent;
    assert FoldedRight(inp, t, canonical, folds, a) && Covered(inp, t, canonical, a);
    var c := canonical[inp.FoldKeyFor(a, t).value];
    assert FoldedRight(inp, t, canonical, folds, c);
    hide FoldedUpTo, Canonical;
    KeyMeans(inp, t, a, c);
    KeyMeans(inp, t, c, a);
    assert SoundFold(inp, t, folds, a, c);
  }

  lemma {:induction false} FoldIsComplete(inp: Input, t: AddrTaint, end: Place, canonical: map<FoldKey, Place>,
          folds: map<Key, Key>, a: Place)
    requires TaintOf(inp.objects, |inp.objects|, t)
    requires Canonical(inp, t, end, canonical) && FoldedUpTo(inp, t, end, canonical, folds)
    requires inp.Has(a) && Before(a, end)
    ensures inp.KeyOf(a) in folds ==> HasTwinBefore(inp, t, a)
    ensures CollisionFree(inp) && HasTwinBefore(inp, t, a) ==> inp.KeyOf(a) in folds
  {
    hide inp.FoldKeyFor, AddressUnseen, TaintOf, SameContent, SameDigest;
    assert FoldedRight(inp, t, canonical, folds, a) && Covered(inp, t, canonical, a);
    if inp.KeyOf(a) in folds {
      var c := canonical[inp.FoldKeyFor(a, t).value];
      KeyMeans(inp, t, c, a);
    }
    if CollisionFree(inp) && HasTwinBefore(inp, t, a) {
      var b: Place :| inp.Has(b) && Before(b, a) && inp.FoldKeyFor(b, t).Some? && SameContent(inp, b, a);
      KeyMeans(inp, t, b, a);
      assert Covered(inp, t, canonical, b);
      var c := canonical[inp.FoldKeyFor(a, t).value];
      KeyMeans(inp, t, c, a);
    }
  }

  /** Visits every section in order. */
  method ComputeFoldMap(inp: Input) returns (folds: map<Key, Key>, ghost taint: AddrTaint)
    requires inp.DistinctIndices()
    ensures TaintOf(inp.objects, |inp.objects|, taint)
    ensures SoundFolds(inp, taint, folds)
    ensures forall a: Place | inp.Has(a) && inp.KeyOf(a) in folds :: HasTwinBefore(inp, taint, a)
    ensures CollisionFree(inp) ==> forall a: Place | inp.Has(a) && HasTwinBefore(inp, taint, a) :: inp.KeyOf(a) in folds
  {
    hide TaintOf, Canonical, FoldedUpTo, FoldOne, HasTwinBefore, CollisionFree, inp.FoldKeyFor, SoundFold,
         inp.KeyOf, inp.DistinctIndices;
    var t := AddressTaint(inp.objects);
    taint := t;
    var canonical: map<FoldKey, Place> := map[];
    folds := map[];
    NothingFolded(inp, t);
    for o := 0 to |inp.objects|
      invariant Canonical(inp, t, Place(o, 0), canonical) && FoldedUpTo(inp, t, Place(o, 0), canonical, folds)
    {
      for p := 0 to |inp.objects[o].sections|
        invariant Canonical(inp, t, Place(o, p), canonical) && FoldedUpTo(inp, t, Place(o, p), canonical, folds)
      {
        var a := Place(o, p);
        CanonicalStep(inp, t, a, canonical, folds);
        FoldStep(inp, t, a, canonical, folds);
        CanonicalPlaces(inp, t, a, canonical);
        FoldedInto(inp, t, a, canonical, folds);
        match inp.FoldKeyFor(a, t)
        case None =>
        case Some(key) =>
          if key !in canonical {
            canonical := canonical[key := a];
          } else if inp.Sec(a).data == inp.Sec(canonical[key]).data {
            folds := folds[inp.KeyOf(a) := inp.KeyOf(canonical[key])];
          }
      }
      NextObject(inp, t, o, canonical, folds);
    }
    FoldMapMeaning(inp, t, canonical, folds);
  }

  lemma {:induction false} NothingFolded(inp: Input, t: AddrTaint)
    ensures Canonical(inp, t, Place(0, 0), map[]) && FoldedUpTo(inp, t, Place(0, 0), map[], map[])
  {
  }

  lemma {:induction false} CanonicalPlaces(inp: Input, t: AddrTaint, end: Place, canonical: map<FoldKey, Place>)
    requires Canonical(inp, t, end, canonical)
    ensures forall k | k in canonical :: inp.Has(canonical[k])
  {
  }

  /** `FoldOne`, case by case. */
  lemma {:induction false} FoldedInto(inp: Input, t: AddrTaint, a: Place, canonical: map<FoldKey, Place>,
          folds: map<Key, Key>)
    requires inp.Has(a) && forall k | k in canonical :: inp.Has(canonical[k])
    ensures FoldOne(inp, t, a, canonical, folds) ==
            match inp.FoldKeyFor(a, t)
            case None => (canonical, folds)
            case Some(k) =>
              if k !in canonical then (canonical[k := a], folds)
              else if inp.Sec(a).data == inp.Sec(canonical[k]).data
                  then (canonical, folds[inp.KeyOf(a) := inp.KeyOf(canonical[k])])
              else (canonical, folds)
  {
  }

  lemma {:induction false} NextObject(inp: Input, t: AddrTaint, o: nat, canonical: map<FoldKey, Place>,
          folds: map<Key, Key>)
    requires o < |inp.objects|
    requires Canonical(inp, t, Place(o, |inp.objects[o].sections|), canonical)
    requires FoldedUpTo(inp, t, Place(o, |inp.objects[o].sections|), canonical, folds)
    ensures Canonical(inp, t, Place(o + 1, 0), canonical) && FoldedUpTo(inp, t, Place(o + 1, 0), canonical, folds)
  {
    hide inp.FoldKeyFor, FoldedRight, Covered, inp.KeyOf;
    forall a: Place | inp.Has(a) && Before(a, Place(o + 1, 0))
      ensures Before(a, Place(o, |inp.objects[o].sections|))
    {
    }
    forall k | k in folds
      ensures exists a: Place :: inp.Has(a) && Before(a, Place(o + 1, 0)) && inp.KeyOf(a) == k
    {
      var a: Place :| inp.Has(a) && Before(a, Place(o, |inp.objects[o].sections|)) && inp.KeyOf(a) == k;
      assert Before(a, Place(o + 1, 0));
    }
  }

  lemma {:induction false} FoldMapMeaning(inp: Input, t: AddrTaint, canonical: map<FoldKey, Place>,
          folds: map<Key, Key>)
    requires TaintOf(inp.objects, |inp.objects|, t)
    requires Canonical(inp, t, Place(|inp.objects|, 0), canonical)
             && FoldedUpTo(inp, t, Place(|inp.objects|, 0), canonical, folds)
    ensures SoundFolds(inp, t, folds)
    ensures forall a: Place | inp.Has(a) && inp.KeyOf(a) in folds :: HasTwinBefore(inp, t, a)
    ensures CollisionFree(inp) ==> forall a: Place | inp.Has(a) && HasTwinBefore(inp, t, a) :: inp.KeyOf(a) in folds
  {
    hide TaintOf, Canonical, FoldedRight, HasTwinBefore, CollisionFree, inp.FoldKeyFor, SoundFold, inp.KeyOf;
    var end := Place(|inp.objects|, 0);
    forall a: Place | inp.Has(a)
      ensures inp.KeyOf(a) in folds ==> HasTwinBefore(inp, t, a)
      ensures CollisionFree(inp) && HasTwinBefore(inp, t, a) ==> inp.KeyOf(a) in folds
    {
      FoldIsComplete(inp, t, end, canonical, folds, a);
    }
    forall k | k in folds
      ensures exists a, c :: inp.Has(a) && inp.KeyOf(a) == k && SoundFold(inp, t, folds, a, c)
    {
      var a: Place :| inp.Has(a) && Before(a, end) && inp.KeyOf(a) == k;
      FoldIsSound(inp, t, end, canonical, folds, a);
    }
  }

  // ── Aliasing ─────────────────────────────────────────────────────────────

  predicate OneStep(folds: map<Key, Key>) { forall k | k in folds :: folds[k] !in folds }

  /** Each folded section takes the address of its representative; all others keep theirs. */
  function Aliased<V>(folds: map<Key, Key>, at: map<Key, V>): map<Key, V> {
    map k | k in at.Keys + folds.Keys && ((k in folds && folds[k] in at) || k in at) ::
      if k in folds && folds[k] in at then at[folds[k]] else at[k]
  }

  /** The fold map is visited in any order. */
  method AliasFolds<V>(folds: map<Key, Key>, at: map<Key, V>) returns (r: map<Key, V>)
    requires OneStep(folds)
    ensures r == Aliased(folds, at)
  {
    var rest := folds.Keys;
    r := at;
    while rest != {}
      invariant rest <= folds.Keys
      invariant r == Aliased(map k | k in folds.Keys - rest :: folds[k], at)
      decreases rest
    {
      var dup :| dup in rest;
      var canon := folds[dup];
      if canon in r { r := r[dup := r[canon]]; }
      rest := rest - {dup};
    }
    assert folds == map k | k in folds.Keys - rest :: folds[k];
  }

  lemma {:induction false} SoundFoldsAreOneStep(inp: Input, t: AddrTaint, folds: map<Key, Key>)
    requires SoundFolds(inp, t, folds)
    ensures OneStep(folds)
  {
    hide SameContent, AddressUnseen;
  }

  /** Every folded section ends up where its representative is, and no representative moves. */
  lemma {:induction false} AliasMeaning<V>(folds: map<Key, Key>, at: map<Key, V>, k: Key)
    requires OneStep(folds)
    ensures k in folds && folds[k] in at ==>
              k in Aliased(folds, at) && folds[k] in Aliased(folds, at)
                  && Aliased(folds, at)[k] == Aliased(folds, at)[folds[k]] == at[folds[k]]
    ensures k !in folds && k in at ==> k in Aliased(folds, at) && Aliased(folds, at)[k] == at[k]
  {
  }

  // ── Relocation targets ───────────────────────────────────────────────────

  /** Where symbols lie: a local one by object and position, any other by name. */
  datatype View = View(local: (nat, nat) -> int, global: Name -> int)
  {
    function Target(obj: InputObject, o: nat, raw: nat): Option<int> {
      match obj.SymbolPos(raw)
      case None => None
      case Some(pos) =>
        if pos >= |obj.symbols| then None
        else if obj.symbols[pos].binding == Local then Some(local(o, pos))
        else Some(global(obj.symbols[pos].name))
    }
  }

  predicate IsLocal(obj: InputObject, raw: nat) {
    obj.SymbolByIndex(raw).Some? && obj.SymbolByIndex(raw).value.binding == Local
  }

  lemma {:induction false} NormalAt(obj: InputObject, relocs: seq<InputReloc>, i: nat)
    requires Normal(obj, relocs).Some? && i < |relocs|
    ensures |Normal(obj, relocs).value| == |relocs|
    ensures obj.SymbolByIndex(relocs[i].symbol).Some?
    ensures Normal(obj, relocs).value[i] ==
            NormReloc(relocs[i].offset, relocs[i].rType, relocs[i].addend,
                obj.SymbolByIndex(relocs[i].symbol).value.name)
    decreases |relocs|
  {
    hide obj.SymbolByIndex;
    if i > 0 {
      NormalAt(obj, relocs[1..], i - 1);
    } else if |relocs| > 1 {
      NormalAt(obj, relocs[1..], 0);
    }
  }

  lemma {:induction false} SameShape(inp: Input, a: Place, c: Place, i: nat)
    requires inp.Has(a) && inp.Has(c) && SameContent(inp, a, c) && i < |inp.Sec(a).relocs|
    ensures |inp.Sec(c).relocs| == |inp.Sec(a).relocs|
    ensures var r, q := inp.Sec(a).relocs[i], inp.Sec(c).relocs[i];
            && r.offset == q.offset && r.rType == q.rType && r.addend == q.addend
            && inp.objects[a.obj].SymbolByIndex(r.symbol).Some? && inp.objects[c.obj].SymbolByIndex(q.symbol).Some?
            && inp.objects[a.obj].SymbolByIndex(r.symbol).value.name
               == inp.objects[c.obj].SymbolByIndex(q.symbol).value.name
  {
    hide Normal, inp.objects[a.obj].SymbolByIndex;
    NormalAt(inp.objects[a.obj], inp.Sec(a).relocs, i);
    if inp.Sec(c).relocs == [] {
      EmptyNormal(inp.objects[c.obj]);
    } else {
      NormalAt(inp.objects[c.obj], inp.Sec(c).relocs, 0);
      NormalAt(inp.objects[c.obj], inp.Sec(c).relocs, i);
    }
  }

  lemma {:induction false} EmptyNormal(obj: InputObject)
    ensures Normal(obj, []) == Some([])
  {
  }

  /** The names in the fold key identify the target in every view exactly when neither side is local, or
      both are the same local symbol. */
  lemma {:induction false} TargetsAgree(inp: Input, a: Place, c: Place, i: nat)
    requires inp.Has(a) && inp.Has(c) && SameContent(inp, a, c) && i < |inp.Sec(a).relocs|
    ensures |inp.Sec(c).relocs| == |inp.Sec(a).relocs|
    ensures var r, q := inp.Sec(a).relocs[i].symbol, inp.Sec(c).relocs[i].symbol;
            var objA, objC := inp.objects[a.obj], inp.objects[c.obj];
            (forall v: View :: v.Target(objA, a.obj, r) == v.Target(objC, c.obj, q))
            <==> (!IsLocal(objA, r) && !IsLocal(objC, q)) || (a.obj == c.obj && objA.SymbolPos(r) == objC.SymbolPos(q))
  {
    SameShape(inp, a, c, i);
    hide SameContent;
    var r, q := inp.Sec(a).relocs[i].symbol, inp.Sec(c).relocs[i].symbol;
    var objA, objC := inp.objects[a.obj], inp.objects[c.obj];
    hide inp.Sec;
    var p := objA.SymbolPos(r).value;
    var v := View((o: nat, x: nat) => if o == a.obj && x == p then 1 else 2, (n: Name) => 3);
    assert v.Target(objA, a.obj, r) == v.Target(objC, c.obj, q) ==>
        (!IsLocal(objA, r) && !IsLocal(objC, q)) || (a.obj == c.obj && objA.SymbolPos(r) == objC.SymbolPos(q));
  }

  /** The first sections of two objects are folded, though their first targets differ. */
  ghost predicate FoldsApart(inp: Input, t: AddrTaint, v: View) {
    && inp.DistinctIndices() && TaintOf(inp.objects, |inp.objects|, t)
    && |inp.objects| == 2 && inp.Has(Place(0, 0)) && inp.Has(Place(1, 0)) && HasTwinBefore(inp, t, Place(1, 0))
    && inp.objects[0].Indexed() && inp.objects[1].Indexed()
    && v.Target(inp.objects[0], 0, 0) != v.Target(inp.objects[1], 1, 0)
  }

  /** A section that calls the local function `g`, whose own section has the given code, and an empty
      address-significance table. */
  function ColdCall(code: seq<byte>): InputObject {
    var text := InputSection(1, Ascii(".text.f"), Text, 1, [0xe8, 0, 0, 0, 0], 1, 5, {Alloc, Exec},
                             [InputReloc(1, PC32, 0, -4)]);
    var table := InputSection(2, Ascii(".llvm_addrsig"), OtherKind, SHT_LLVM_ADDRSIG, [], 1, 0, {}, []);
    var body := InputSection(3, Ascii(".text.g"), Text, 1, code, 1, |code|, {Alloc, Exec}, []);
    var g := InputSymbol(0, [0x67], Local, false, false, false, 2, 0, Some(3), 0, |code|);
    InputObject("", [text, table, body], [g], map[1 := 0, 2 := 1, 3 := 2], map[0 := 0], [])
  }

  /** Two objects each call their own local function of one name, of different code: the callers are
      folded, whatever the digest, and their targets differ. */
  lemma {:induction false} FoldsDifferentTargets(digest: seq<byte> -> nat)
    ensures exists inp: Input, t: AddrTaint, v: View :: inp.digest == digest && FoldsApart(inp, t, v)
  {
    hide ColdCall, Cold, FoldsApart;
    var a, b := ColdCall([0xc3]), ColdCall([0x90, 0xc3]);
    ColdObject([0xc3]);
    ColdObject([0x90, 0xc3]);
    var inp, t := Input([a, b], digest), AddrTaint({}, {}, map[0 := [], 1 := []]);
    var v := ColdFold(inp, t);
  }

  lemma {:induction false} ColdFold(inp: Input, t: AddrTaint) returns (v: View)
    requires |inp.objects| == 2 && Cold(inp.objects[0]) && Cold(inp.objects[1])
    requires t == AddrTaint({}, {}, map[0 := [], 1 := []])
    ensures FoldsApart(inp, t, v)
  {
    hide ColdCall, SectionNames, SectionSections, Significant, Normal, TaintOf, HasTwinBefore;
    v := ByObject(inp.objects[0], inp.objects[1]);
    hide v.Target;
    ColdTaint(inp, t);
    ColdTwin(inp, t);
  }

  lemma {:induction false} ByObject(a: InputObject, b: InputObject) returns (v: View)
    requires a.SymbolPos(0) == Some(0) && |a.symbols| == 1 && a.symbols[0].binding == Local
    requires b.SymbolPos(0) == Some(0) && |b.symbols| == 1 && b.symbols[0].binding == Local
    ensures v.Target(a, 0, 0) == Some(0) && v.Target(b, 1, 0) == Some(1)
  {
    v := View((o: nat, x: nat) => o, (n: Name) => 0);
  }

  lemma {:induction false} ColdTaint(inp: Input, t: AddrTaint)
    requires t == AddrTaint({}, {}, map[0 := [], 1 := []]) && |inp.objects| == 2
    requires forall o | 0 <= o < 2 :: SectionNames(inp.objects[o], inp.objects[o].sections) == {}
    requires forall o | 0 <= o < 2 :: SectionSections(inp.objects[o], inp.objects[o].sections) == {}
    requires forall o | 0 <= o < 2 :: Significant(inp.objects[o]) == Some([])
    ensures TaintOf(inp.objects, 2, t)
  {
    hide Significant, SectionNames, SectionSections;
  }

  lemma {:induction false} ColdTwin(inp: Input, t: AddrTaint)
    requires t == AddrTaint({}, {}, map[0 := [], 1 := []]) && |inp.objects| == 2
    requires inp.Has(Place(0, 0)) && inp.Sec(Place(0, 0)).kind == Text && inp.Sec(Place(0, 0)).data != []
    requires inp.Has(Place(1, 0)) && inp.Sec(Place(1, 0)) == inp.Sec(Place(0, 0))
    requires inp.Relocs(Place(0, 0)).Some? && inp.Relocs(Place(1, 0)) == inp.Relocs(Place(0, 0))
    requires forall o, sym | 0 <= o < 2
             && sym in inp.objects[o].symbols :: sym.section != Some(inp.Sec(Place(0, 0)).index)
    ensures HasTwinBefore(inp, t, Place(1, 0))
  {
    hide Normal;
    assert SameContent(inp, Place(0, 0), Place(1, 0)) && Before(Place(0, 0), Place(1, 0));
    assert !DefinesAddressSignificant(inp.objects[0], 0, 0, t) && !DefinesAddressSignificant(inp.objects[1], 1, 0, t);
    hide DefinesAddressSignificant, SameContent;
    assert inp.FoldKeyFor(Place(0, 0), t).Some?;
  }

  /** What `ColdCall` looks like to the folder. */
  ghost predicate Cold(obj: InputObject) {
    && obj.Indexed() && |obj.sections| == 3 && obj.sections[0] == ColdCall([]).sections[0]
    && obj.sections[0].index == 1 && obj.sections[1].index == 2 && obj.sections[2].index == 3
    && obj.sections[0].kind == Text && obj.sections[0].data != []
    && obj.SymbolPos(0) == Some(0) && |obj.symbols| == 1 && obj.symbols[0].binding == Local
    && obj.symbols[0].section == Some(3)
    && SectionNames(obj, obj.sections) == {} && SectionSections(obj, obj.sections) == {} && Significant(obj) == Some([])
    && Normal(obj, obj.sections[0].relocs) == Some([NormReloc(1, PC32, -4, [0x67])])
  }

  lemma {:induction false} ColdObject(code: seq<byte>)
    ensures Cold(ColdCall(code))
  {
    var obj := ColdCall(code);
    var text, table, body := obj.sections[0], obj.sections[1], obj.sections[2];
    ColdRelocs(obj, text, table, body);
    ColdTable(obj, text, table, body);
    hide SectionNames, SectionSections, Significant, Normal;
  }

  lemma {:induction false} ColdRelocs(obj: InputObject, text: InputSection, table: InputSection, body: InputSection)
    requires obj.sections == [text, table, body] && text.relocs == [InputReloc(1, PC32, 0, -4)]
    requires table.relocs == body.relocs == []
    requires obj.SymbolByIndex(0).Some? && obj.SymbolByIndex(0).value.name == [0x67]
    ensures SectionNames(obj, obj.sections) == {} && SectionSections(obj, obj.sections) == {}
    ensures Normal(obj, text.relocs) == Some([NormReloc(1, PC32, -4, [0x67])])
  {
    hide obj.SymbolByIndex;
    var call := InputReloc(1, PC32, 0, -4);
    var norm := NormReloc(1, PC32, -4, [0x67]);
    assert [call][1..] == [] && Normal(obj, []) == Some([]) && [norm] + [] == [norm];
    assert RelocNames(obj, [call]) == RelocNames(obj, []) == {}
           && RelocSections(obj, [call]) == RelocSections(obj, []) == {};
  }

  lemma {:induction false} ColdTable(obj: InputObject, text: InputSection, table: InputSection, body: InputSection)
    requires obj.sections == [text, table, body] && table.shType == SHT_LLVM_ADDRSIG && table.data == []
    requires text.shType != SHT_LLVM_ADDRSIG
    ensures Significant(obj) == Some([])
  {
    assert obj.sections[0] == text && obj.sections[1..] == [table, body] && TableOf([table, body]) == Some(table);
    assert TableOf(obj.sections) == Some(table) && Listed(obj, [], 0) == Some([]);
  }
}
