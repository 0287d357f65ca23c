/** Which sections are folded, in terms of their symbols and of the relocations of the whole link
    (`peony-layout/src/icf.rs:120-338`). */
module IcfMeaning {
  import opened Bytes
  import opened Reloc
  import opened Objects
  import opened Addrsig
  import opened Icf

  // ── Identity ─────────────────────────────────────────────────────────────

  /** A relocation of object `u` other than a branch takes the address of `sym`. */
  ghost predicate TakenIn(objects: seq<InputObject>, u: nat, sym: InputSymbol) {
    u < |objects| && exists s, r :: s in objects[u].sections && r in s.relocs && TakesIt(objects[u], r, sym)
  }

  predicate TakesIt(obj: InputObject, r: InputReloc, sym: InputSymbol) {
    r.rType !in {NONE, PC32, PLT32} && obj.SymbolByIndex(r.symbol) == Some(sym)
  }

  /** Somewhere in the link an address is taken by this name. */
  ghost predicate NameTaken(objects: seq<InputObject>, n: Name) {
    exists u: nat, sym :: TakenIn(objects, u, sym) && sym.name == n
  }

  /** Somewhere in the object an address into the section is taken. */
  ghost predicate PointedInto(objects: seq<InputObject>, o: nat, index: nat) {
    exists sym :: TakenIn(objects, o, sym) && sym.name == [] && sym.section == Some(index)
  }

  /** C++ wants tables and type information of this name to be unique. */
  predicate UniqueByRule(n: Name) {
    |n| >= 4 && (n[..4] == Ascii("_ZTV") || n[..4] == Ascii("_ZTI") || n[..4] == Ascii("_ZTS"))
  }

  /** The symbol may be told apart by its address: it is weak, or visible outside, or unique by rule, or its address is
      taken. */
  ghost predicate HasIdentity(objects: seq<InputObject>, sym: InputSymbol) {
    && sym.name != []
    && (sym.binding == Weak || (sym.binding == Binding.Global && sym.visibility == 0) || UniqueByRule(sym.name)
        || NameTaken(objects, sym.name))
  }

  /** A symbol that the section defines has an identity, or the compiler lists it. */
  ghost predicate DefinesIdentity(objects: seq<InputObject>, o: nat, index: nat)
    requires o < |objects| && Significant(objects[o]).Some?
  {
    exists i :: 0 <= i < |objects[o].symbols| && Defines(objects[o].symbols[i], index)
                && (i in Significant(objects[o]).value || HasIdentity(objects, objects[o].symbols[i]))
  }

  // ── Taints ───────────────────────────────────────────────────────────────

  lemma {:induction false} TakenIs(obj: InputObject, r: InputReloc, sym: InputSymbol)
    ensures Taken(obj, r) == Some(sym) <==> TakesIt(obj, r, sym)
  {
  }

  lemma {:induction false} NamesExactly(objects: seq<InputObject>, u: nat, n: Name)
    requires u < |objects|
    ensures n in SectionNames(objects[u], objects[u].sections) <==>
              n != [] && exists sym :: TakenIn(objects, u, sym) && sym.name == n
  {
    hide Taken, TakesIt;
    var obj := objects[u];
    if n in SectionNames(obj, obj.sections) {
      var s :| s in obj.sections && n in RelocNames(obj, s.relocs);
      var r :| r in s.relocs && Taken(obj, r).Some? && Taken(obj, r).value.name == n;
      TakenIs(obj, r, Taken(obj, r).value);
      assert TakenIn(objects, u, Taken(obj, r).value);
    }
    if n != [] && exists sym :: TakenIn(objects, u, sym) && sym.name == n {
      var sym :| TakenIn(objects, u, sym) && sym.name == n;
      var s, r :| s in obj.sections && r in s.relocs && TakesIt(obj, r, sym);
      TakenIs(obj, r, sym);
      assert n in RelocNames(obj, s.relocs);
    }
  }

  lemma {:induction false} SectionsExactly(objects: seq<InputObject>, u: nat, index: nat)
    requires u < |objects|
    ensures index in SectionSections(objects[u], objects[u].sections) <==> PointedInto(objects, u, index)
  {
    hide Taken, TakesIt;
    var obj := objects[u];
    if index in SectionSections(obj, obj.sections) {
      var s :| s in obj.sections && index in RelocSections(obj, s.relocs);
      var r :| r in s.relocs && Taken(obj, r).Some? && Taken(obj, r).value.name == []
               && Taken(obj, r).value.section == Some(index);
      TakenIs(obj, r, Taken(obj, r).value);
      assert TakenIn(objects, u, Taken(obj, r).value);
    }
    if PointedInto(objects, u, index) {
      var sym :| TakenIn(objects, u, sym) && sym.name == [] && sym.section == Some(index);
      var s, r :| s in obj.sections && r in s.relocs && TakesIt(obj, r, sym);
      TakenIs(obj, r, sym);
      assert index in RelocSections(obj, s.relocs);
    }
  }

  lemma {:induction false} TaintedNames(objects: seq<InputObject>, t: AddrTaint, n: Name)
    requires TaintOf(objects, |objects|, t)
    ensures n in t.byName <==> n != [] && NameTaken(objects, n)
  {
    hide SectionNames, SectionSections, Significant, TakenIn;
    forall u: nat | u < |objects|
      ensures n in SectionNames(objects[u], objects[u].sections) <==>
              n != [] && exists sym :: TakenIn(objects, u, sym) && sym.name == n
    {
      NamesExactly(objects, u, n);
    }
    forall u: nat, sym | TakenIn(objects, u, sym) ensures u < |objects| { TakenObject(objects, u, sym); }
    if n in t.byName {
      var u: nat :| u < |objects| && n in SectionNames(objects[u], objects[u].sections);
      var sym :| TakenIn(objects, u, sym) && sym.name == n;
      assert NameTaken(objects, n);
    }
    if n != [] && NameTaken(objects, n) {
      var u: nat, sym :| TakenIn(objects, u, sym) && sym.name == n;
      assert n in SectionNames(objects[u], objects[u].sections);
    }
  }

  lemma {:induction false} TakenObject(objects: seq<InputObject>, u: nat, sym: InputSymbol)
    requires TakenIn(objects, u, sym)
    ensures u < |objects|
  {
  }

  lemma {:induction false} UniqueIs(n: Name)
    ensures UniqueByRule(n) <==> StartsWith(n, ZTV) || StartsWith(n, ZTI) || StartsWith(n, ZTS)
  {
    assert Ascii("_ZTV") == ZTV && Ascii("_ZTI") == ZTI && Ascii("_ZTS") == ZTS;
    hide Ascii;
  }

  lemma {:induction false} ForbidsExactly(objects: seq<InputObject>, t: AddrTaint, sym: InputSymbol, listed: bool)
    requires TaintOf(objects, |objects|, t)
    ensures SymbolForbids(sym, listed, t) <==> listed || HasIdentity(objects, sym)
  {
    UniqueIs(sym.name);
    TaintedNames(objects, t, sym.name);
    hide TaintOf, UniqueByRule, NameTaken, StartsWith;
  }

  /** A section is held back exactly when its object has no complete address-significance table, or an address into
      it is taken, or a symbol it defines has an identity. */
  lemma {:induction false} HeldBackExactly(objects: seq<InputObject>, t: AddrTaint, o: nat, pos: nat)
    requires TaintOf(objects, |objects|, t) && o < |objects| && pos < |objects[o].sections|
    ensures DefinesAddressSignificant(objects[o], o, pos, t) <==>
              || Significant(objects[o]).None? || PointedInto(objects, o, objects[o].sections[pos].index)
              || DefinesIdentity(objects, o, objects[o].sections[pos].index)
  {
    hide Significant, SymbolForbids, HasIdentity, SectionNames, SectionSections, PointedInto;
    var obj, index := objects[o], objects[o].sections[pos].index;
    SectionsExactly(objects, o, index);
    assert (o, index) in t.bySection <==> PointedInto(objects, o, index);
    if Significant(obj).Some? {
      forall i | 0 <= i < |obj.symbols|
        ensures SymbolForbids(obj.symbols[i], i in t.tables[o], t) <==>
                i in Significant(obj).value || HasIdentity(objects, obj.symbols[i])
      {
        ForbidsExactly(objects, t, obj.symbols[i], i in t.tables[o]);
      }
      hide TaintOf;
    }
  }

  // ── Equal sections ───────────────────────────────────────────────────────

  /** The relocations agree in place, type and addend and name the same symbol. */
  predicate SameReloc(a: InputObject, r: InputReloc, b: InputObject, q: InputReloc) {
    && r.offset == q.offset && r.rType == q.rType && r.addend == q.addend
    && a.SymbolByIndex(r.symbol).Some? && b.SymbolByIndex(q.symbol).Some?
    && a.SymbolByIndex(r.symbol).value.name == b.SymbolByIndex(q.symbol).value.name
  }

  /** Same flags, bytes and relocations, every one against a symbol. */
  predicate Alike(inp: Icf.Input, a: Place, b: Place)
    requires inp.Has(a) && inp.Has(b)
  {
    var x, y := inp.Sec(a), inp.Sec(b);
    && x.flags == y.flags && x.data == y.data && |x.relocs| == |y.relocs|
    && forall i | 0 <= i < |x.relocs| :: SameReloc(inp.objects[a.obj], x.relocs[i], inp.objects[b.obj], y.relocs[i])
  }

  predicate Resolves(obj: InputObject, relocs: seq<InputReloc>) {
    forall i | 0 <= i < |relocs| :: obj.SymbolByIndex(relocs[i].symbol).Some?
  }

  lemma {:induction false} NormalSome(obj: InputObject, relocs: seq<InputReloc>)
    ensures Normal(obj, relocs).Some? <==> Resolves(obj, relocs)
    decreases |relocs|
  {
    hide obj.SymbolByIndex;
    if relocs != [] { NormalSome(obj, relocs[1..]); }
  }

  lemma {:induction false} NormalSame(a: InputObject, rs: seq<InputReloc>, b: InputObject, qs: seq<InputReloc>)
    ensures Normal(a, rs).Some? && Normal(a, rs) == Normal(b, qs) <==>
              |rs| == |qs| && forall i | 0 <= i < |rs| :: SameReloc(a, rs[i], b, qs[i])
    decreases |rs|
  {
    hide a.SymbolByIndex;
    if rs != [] && qs != [] {
      NormalSame(a, rs[1..], b, qs[1..]);
      if |rs| == |qs| && forall i | 0 <= i < |rs| :: SameReloc(a, rs[i], b, qs[i]) {
        assert forall i | 0 <= i < |rs[1..]| :: rs[1..][i] == rs[i + 1] && qs[1..][i] == qs[i + 1];
      }
      if Normal(a, rs).Some? && Normal(a, rs) == Normal(b, qs) {
        assert Normal(a, rs).value[1..] == Normal(a, rs[1..]).value
               && Normal(b, qs).value[1..] == Normal(b, qs[1..]).value;
        assert SameReloc(a, rs[0], b, qs[0]);
        assert forall i | 0 < i < |rs| :: rs[i] == rs[1..][i - 1] && qs[i] == qs[1..][i - 1];
      }
    }
  }

  // ── Folds ────────────────────────────────────────────────────────────────

  /** Code with bytes, every relocation against a symbol, and nothing that holds it back. */
  ghost predicate Eligible(inp: Icf.Input, a: Place) {
    && inp.Has(a) && inp.Sec(a).kind == Text && inp.Sec(a).data != []
    && Resolves(inp.objects[a.obj], inp.Sec(a).relocs) && Significant(inp.objects[a.obj]).Some?
    && !PointedInto(inp.objects, a.obj, inp.Sec(a).index) && !DefinesIdentity(inp.objects, a.obj, inp.Sec(a).index)
  }

  lemma {:induction false} EligibleExactly(inp: Icf.Input, t: AddrTaint, a: Place)
    requires TaintOf(inp.objects, |inp.objects|, t) && inp.Has(a)
    ensures inp.FoldKeyFor(a, t).Some? <==> Eligible(inp, a)
  {
    HeldBackExactly(inp.objects, t, a.obj, a.pos);
    NormalSome(inp.objects[a.obj], inp.Sec(a).relocs);
    hide TaintOf, DefinesAddressSignificant, PointedInto, DefinesIdentity, Resolves, Normal, Significant;
  }

  lemma {:induction false} ContentExactly(inp: Icf.Input, a: Place, b: Place)
    requires inp.Has(a) && inp.Has(b)
    ensures SameContent(inp, a, b) <==> Alike(inp, a, b)
  {
    NormalSame(inp.objects[a.obj], inp.Sec(a).relocs, inp.objects[b.obj], inp.Sec(b).relocs);
    hide Normal, SameReloc;
  }

  /** An eligible section before `a` is like it. */
  ghost predicate EarlierTwin(inp: Icf.Input, a: Place, b: Place) {
    && Eligible(inp, a) && Eligible(inp, b) && (b.obj < a.obj || (b.obj == a.obj && b.pos < a.pos)) && Alike(inp, b, a)
  }

  lemma {:induction false} TwinExactly(inp: Icf.Input, t: AddrTaint, a: Place)
    requires TaintOf(inp.objects, |inp.objects|, t) && inp.Has(a)
    ensures HasTwinBefore(inp, t, a) <==> exists b :: EarlierTwin(inp, a, b)
  {
    hide TaintOf, inp.FoldKeyFor, SameContent, Alike, Eligible;
    EligibleExactly(inp, t, a);
    forall b | inp.Has(b)
      ensures inp.FoldKeyFor(b, t).Some? <==> Eligible(inp, b)
      ensures SameContent(inp, b, a) <==> Alike(inp, b, a)
    {
      EligibleExactly(inp, t, b);
      ContentExactly(inp, b, a);
    }
    forall b | Eligible(inp, b) ensures inp.Has(b) { EligibleHas(inp, b); }
    if HasTwinBefore(inp, t, a) {
      var b: Place :| inp.Has(b) && Before(b, a) && inp.FoldKeyFor(b, t).Some? && SameContent(inp, b, a);
      assert EarlierTwin(inp, a, b);
    }
    if b :| EarlierTwin(inp, a, b) { assert inp.Has(b) && Before(b, a); }
  }

  lemma {:induction false} EligibleHas(inp: Icf.Input, b: Place)
    requires Eligible(inp, b)
    ensures inp.Has(b)
  {
  }

  /** Section `a` is folded onto its earlier twin `c`, which is not folded itself. */
  ghost predicate OntoTwin(inp: Icf.Input, folds: map<Key, Key>, a: Place, c: Place) {
    && EarlierTwin(inp, a, c) && inp.KeyOf(a) in folds && folds[inp.KeyOf(a)] == inp.KeyOf(c)
    && inp.KeyOf(c) !in folds
  }

  /** A fold map is right: each folded section goes to an earlier twin that is not folded itself; and, when digests
      do not collide, every section with an earlier twin is folded. */
  ghost predicate FoldsTwins(inp: Icf.Input, folds: map<Key, Key>) {
    && (forall a | inp.Has(a) && inp.KeyOf(a) in folds ::
         exists c :: OntoTwin(inp, folds, a, c))
    && (CollisionFree(inp) ==> forall a, b | inp.Has(a) && EarlierTwin(inp, a, b) :: inp.KeyOf(a) in folds)
  }

  /** What is folded by the whole pass. */
  method FoldAll(inp: Icf.Input) returns (folds: map<Key, Key>)
    requires inp.DistinctIndices()
    ensures FoldsTwins(inp, folds)
  {
    hide TaintOf, SoundFolds, HasTwinBefore, CollisionFree, EarlierTwin, inp.KeyOf, inp.DistinctIndices, FoldsTwins;
    ghost var t;
    folds, t := ComputeFoldMap(inp);
    RightFolds(inp, t, folds);
  }

  lemma {:induction false} RightFolds(inp: Icf.Input, t: AddrTaint, folds: map<Key, Key>)
    requires inp.DistinctIndices() && TaintOf(inp.objects, |inp.objects|, t) && SoundFolds(inp, t, folds)
    requires forall a: Place | inp.Has(a) && inp.KeyOf(a) in folds :: HasTwinBefore(inp, t, a)
    requires CollisionFree(inp) ==> forall a: Place | inp.Has(a) && HasTwinBefore(inp, t, a) :: inp.KeyOf(a) in folds
    ensures FoldsTwins(inp, folds)
  {
    hide TaintOf, HasTwinBefore, CollisionFree, EarlierTwin, inp.KeyOf, inp.DistinctIndices;
    forall a | inp.Has(a)
      ensures HasTwinBefore(inp, t, a) <==> exists b :: EarlierTwin(inp, a, b)
    {
      TwinExactly(inp, t, a);
    }
    forall a | inp.Has(a) && inp.KeyOf(a) in folds
      ensures exists c :: OntoTwin(inp, folds, a, c)
    {
      FoldIsTwin(inp, t, folds, a);
    }
  }

  lemma {:induction false} FoldIsTwin(inp: Icf.Input, t: AddrTaint, folds: map<Key, Key>, a: Place)
    requires inp.DistinctIndices() && TaintOf(inp.objects, |inp.objects|, t) && SoundFolds(inp, t, folds)
    requires inp.Has(a) && inp.KeyOf(a) in folds
    ensures exists c :: OntoTwin(inp, folds, a, c)
  {
    hide TaintOf, AddressUnseen, SameContent, inp.FoldKeyFor, Alike, Eligible, inp.DistinctIndices;
    var x, c :| inp.Has(x) && inp.KeyOf(x) == inp.KeyOf(a) && SoundFold(inp, t, folds, x, c);
    if x != a { OtherKeys(inp, x, a); }
    EligibleExactly(inp, t, a);
    EligibleExactly(inp, t, c);
    ContentExactly(inp, a, c);
    AlikeBack(inp, a, c);
    assert OntoTwin(inp, folds, a, c);
  }

  lemma {:induction false} AlikeBack(inp: Icf.Input, a: Place, c: Place)
    requires inp.Has(a) && inp.Has(c) && Alike(inp, a, c)
    ensures Alike(inp, c, a)
  {
    hide inp.objects[a.obj].SymbolByIndex;
  }
}
