/** What the collected rows make the loader do: leave in each word, at any load bias, the address that its relocation
    asks for (`peony-reloc/src/dynamic.rs:245-438`). */
module DynRelocMeaning {
  import opened Bytes
  import opened Reloc
  import opened Objects
  import opened DynReloc
  import opened RelocAction
  import opened RelocMeaning
  import EmittedFields

  /** The symbol lies in the image at the link-time address `target`. */
  ghost predicate InImageAt(v: View, o: nat, sym: InputSymbol, target: nat, ifunc: bool) {
    if sym.binding == Local then
      && sym.isIfunc == ifunc && sym.section.Some?
      && exists va :: v.address(o, sym.section.value) == Some(va) && target == va + sym.value
    else
      exists e :: v.lookup(sym.name) == Some(e) && e.IsDefined() && (e.imported ==> e.copyReloc)
                  && target == e.va && e.isIfunc == ifunc
  }

  /** A library supplies the symbol, which has this `.dynsym` index. */
  ghost predicate FromLibrary(v: View, sym: InputSymbol, index: nat) {
    && sym.binding != Local && index != 0 && v.dynsym(sym.name) == index
    && exists e :: v.lookup(sym.name) == Some(e) && e.imported && !e.copyReloc
  }

  /** A 64-bit relocation against `sym` in a placed section sits at address `at`. */
  ghost predicate Slot(v: View, objects: seq<InputObject>, s: Site, sym: InputSymbol, at: nat) {
    && s.o < |objects| && s.r.rType == R64 && objects[s.o].SymbolByIndex(s.r.symbol) == Some(sym)
    && exists va :: v.address(s.o, s.sec.index) == Some(va) && at == va + s.r.offset
  }

  /** A site is collected for the loader to relocate exactly when it is a 64-bit slot against a symbol in the image;
      the value is the address it would hold at load bias 0, without the addend for a resolver. */
  lemma {:induction false} DataExactly(v: View, objects: seq<InputObject>, s: Site, d: Bias)
    requires s.o < |objects|
    ensures DataAt(v, objects, s) == Some(d) <==>
              exists sym, target: nat :: Slot(v, objects, s, sym, d.site) && InImageAt(v, s.o, sym, target, d.ifunc)
                                    && d.value == if d.ifunc then target else (target + s.r.addend) % TWO64
  {
    match objects[s.o].SymbolByIndex(s.r.symbol)
    case None =>
    case Some(sym) =>
      InImageExactly(v, s.o, sym);
      hide InImage, InImageAt;
      if DataAt(v, objects, s) == Some(d) {
        assert Slot(v, objects, s, sym, d.site) && InImageAt(v, s.o, sym, InImage(v, s.o, sym).value.0, d.ifunc);
      }
  }

  lemma {:induction false} InImageExactly(v: View, o: nat, sym: InputSymbol)
    ensures forall target: nat, ifunc ::
              InImage(v, o, sym) == Some((target, ifunc)) <==> InImageAt(v, o, sym, target, ifunc)
  {
  }

  /** And it is collected against a library's symbol exactly when it is a 64-bit slot against one that has a `.dynsym`
      index; the row has that index and the relocation's own addend. */
  lemma {:induction false} SymbolicExactly(v: View, objects: seq<InputObject>, s: Site, row: Row)
    requires s.o < |objects|
    ensures SymbolicAt(v, objects, s) == Some(row) <==>
              && row.addend == s.r.addend
              && exists sym :: Slot(v, objects, s, sym, row.site) && FromLibrary(v, sym, row.value)
  {
    match objects[s.o].SymbolByIndex(s.r.symbol)
    case None =>
    case Some(sym) =>
      if SymbolicAt(v, objects, s) == Some(row) {
        assert Slot(v, objects, s, sym, row.site) && FromLibrary(v, sym, row.value);
      }
  }

  /** A GOT slot is collected exactly when its symbol lies in the image, with the symbol's address. */
  lemma {:induction false} GotExactly(v: View, i: nat, d: Bias)
    requires i < |v.got|
    ensures GotAt(v, i) == Some(d) <==>
              && d.site == v.gotBase + 8 * i
              && exists n, e :: v.nameById(v.got[i]) == Some(n) && v.lookup(n) == Some(e) && e.IsDefined()
                                && (e.imported ==> e.copyReloc) && d.value == e.va && d.ifunc == e.isIfunc
  {
  }

  // ── Everything is collected ──────────────────────────────────────────────

  /** A relocation of an allocated section. */
  predicate IsSite(objects: seq<InputObject>, s: Site) {
    s.o < |objects| && s.sec in objects[s.o].sections && Alloc in s.sec.flags && s.r in s.sec.relocs
  }

  lemma {:induction false} ObjSitesExactly(o: nat, secs: seq<InputSection>, s: Site)
    ensures s in ObjSites(o, secs) <==> s.o == o && s.sec in secs && Alloc in s.sec.flags && s.r in s.sec.relocs
    decreases |secs|
  {
    if secs != [] {
      var n := |secs| - 1;
      ObjSitesExactly(o, secs[..n], s);
      assert s.sec in secs <==> s.sec in secs[..n] || s.sec == secs[n];
      SecSitesExactly(o, secs[n], s);
      hide SecSites;
    }
  }

  lemma {:induction false} SecSitesExactly(o: nat, sec: InputSection, s: Site)
    ensures s in SecSites(o, sec) <==> s.o == o && s.sec == sec && Alloc in sec.flags && s.r in sec.relocs
  {
    if s.o == o && s.sec == sec && Alloc in sec.flags && s.r in sec.relocs {
      var i :| 0 <= i < |sec.relocs| && sec.relocs[i] == s.r;
      assert SecSites(o, sec)[i] == s;
    }
  }

  lemma {:induction false} SitesExactly(objects: seq<InputObject>, n: nat, s: Site)
    requires n <= |objects|
    ensures s in Sites(objects, n) <==> IsSite(objects, s) && s.o < n
  {
    if n > 0 {
      SitesExactly(objects, n - 1, s);
      ObjSitesExactly(n - 1, objects[n - 1].sections, s);
      hide ObjSites;
    }
  }

  lemma {:induction false} DataRowsExactly(v: View, objects: seq<InputObject>, sites: seq<Site>, ifunc: bool, row: Row)
    requires forall s | s in sites :: s.o < |objects|
    ensures row in DataRows(v, objects, sites, ifunc) <==>
              exists s ::
                s in sites && DataAt(v, objects, s) == Some(Bias(row.site, row.value, ifunc)) && row.addend == 0
    decreases |sites|
  {
    hide DataAt;
    if sites != [] {
      var n := |sites| - 1;
      assert sites[n] in sites;
      DataRowsExactly(v, objects, sites[..n], ifunc, row);
      assert forall s :: s in sites <==> s in sites[..n] || s == sites[n];
    }
  }

  lemma {:induction false} GotRowsExactly(v: View, n: nat, ifunc: bool, row: Row)
    requires n <= |v.got|
    ensures row in GotRows(v, n, ifunc) <==>
              exists i :: 0 <= i < n && GotAt(v, i) == Some(Bias(row.site, row.value, ifunc)) && row.addend == 0
  {
    hide GotAt;
    if n > 0 { GotRowsExactly(v, n - 1, ifunc, row); }
  }

  /** The collected rows are those of the relocations of allocated sections and of the GOT slots. */
  lemma {:induction false} AllDataExactly(v: View, objects: seq<InputObject>, ifunc: bool, row: Row)
    ensures row in AllData(v, objects, ifunc) <==>
              && row.addend == 0
              && ((exists s :: IsSite(objects, s) && DataAt(v, objects, s) == Some(Bias(row.site, row.value, ifunc)))
                  || exists i :: 0 <= i < |v.got| && GotAt(v, i) == Some(Bias(row.site, row.value, ifunc)))
  {
    hide DataAt, GotAt, DataRows, GotRows, Sites;
    forall s ensures s in Sites(objects, |objects|) <==> IsSite(objects, s) { SitesExactly(objects, |objects|, s); }
    DataRowsExactly(v, objects, Sites(objects, |objects|), ifunc, row);
    GotRowsExactly(v, |v.got|, ifunc, row);
  }

  lemma {:induction false} SymbolicRowsExactly(v: View, objects: seq<InputObject>, sites: seq<Site>, row: Row)
    requires forall s | s in sites :: s.o < |objects|
    ensures row in SymbolicRows(v, objects, sites) <==> exists s :: s in sites && SymbolicAt(v, objects, s) == Some(row)
    decreases |sites|
  {
    hide SymbolicAt;
    if sites != [] {
      var n := |sites| - 1;
      assert sites[n] in sites;
      SymbolicRowsExactly(v, objects, sites[..n], row);
      assert forall s :: s in sites <==> s in sites[..n] || s == sites[n];
    }
  }

  lemma {:induction false} AllSymbolicExactly(v: View, objects: seq<InputObject>, row: Row)
    ensures row in AllSymbolic(v, objects) <==> exists s :: IsSite(objects, s) && SymbolicAt(v, objects, s) == Some(row)
  {
    hide SymbolicAt, SymbolicRows, Sites;
    forall s ensures s in Sites(objects, |objects|) <==> IsSite(objects, s) { SitesExactly(objects, |objects|, s); }
    SymbolicRowsExactly(v, objects, Sites(objects, |objects|), row);
  }

  // ── The word that the link leaves and the loader replaces ────────────────

  /** Both passes see the same symbols and addresses. */
  ghost predicate SameView(v: View, a: ApplyView) {
    (forall n :: v.lookup(n) == a.tls.lookup(n)) && forall o, i :: v.address(o, i) == a.address(o, i)
  }

  lemma {:induction false} SameTarget(v: View, a: ApplyView, o: nat, sym: InputSymbol, target: nat, ifunc: bool)
    requires SameView(v, a) && InImageAt(v, o, sym, target, ifunc)
    ensures HasAddress(a, o, sym, target)
  {
  }

  /** The row of a plain slot holds what the relocation stores there: the loader, which adds its bias to the row's
      value, leaves the stored word moved by the bias. */
  lemma {:induction false} RowIsStoredWord(sec: seq<byte>, v: View, objects: seq<InputObject>, s: Site, d: Bias,
          a: ApplyView)
    requires s.o < |objects| && DataAt(v, objects, s) == Some(d) && !d.ifunc && SameView(v, a)
    requires |sec| < TWO63 && s.r.offset + 8 <= |sec|
    ensures var action := ResolveAction(a, objects, s.o, s.r, d.site - s.r.offset);
            && d.site >= s.r.offset && action.Apply?
            && var p := Patched(sec, R64, action.addrs);
               p.outcome.Done? && |p.bytes| == |sec| && FromLe(p.bytes[s.r.offset..s.r.offset + 8]) == d.value
  {
    hide DataAt, InImageAt, HasAddress, ResolveAction, FromLe, Patched, SameView, RelaxedCall;
    DataExactly(v, objects, s, d);
    var sym, target: nat :| Slot(v, objects, s, sym, d.site) && InImageAt(v, s.o, sym, target, d.ifunc)
                            && d.value == if d.ifunc then target else (target + s.r.addend) % TWO64;
    SameTarget(v, a, s.o, sym, target, d.ifunc);
    NeverRelaxed(a, sym);
    AppliedExactly(a, objects, s.o, s.r, d.site - s.r.offset, sym);
    StoresSum(sec, ResolveAction(a, objects, s.o, s.r, d.site - s.r.offset).addrs);
    SumOf(target, s.r.addend);
  }

  lemma {:induction false} NeverRelaxed(a: ApplyView, sym: InputSymbol)
    ensures !RelaxedCall(a, R64, sym)
  {
  }

  lemma {:induction false} SumOf(s: int, a: int)
    ensures (U64(s) + a) % TWO64 == (s + a) % TWO64
  {
    EmittedFields.UnwrappedSame(s);
    AddSame(a, U64(s), s);
    assert a + U64(s) == U64(s) + a && a + s == s + a;
  }

  lemma {:induction false} StoresSum(sec: seq<byte>, a: Addrs)
    requires |sec| < TWO63 && a.offset + 8 <= |sec|
    ensures var p := Patched(sec, R64, a);
            p.outcome.Done? && |p.bytes| == |sec| && FromLe(p.bytes[a.offset..a.offset + 8]) == (a.s + a.a) % TWO64
  {
    Pow256Values();
    FieldReadsBack(sec, R64, a);
    hide FromLe, I64, Le, Splice, Pow256;
  }
}
