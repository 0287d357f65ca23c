/** The counts made before layout reserve no record in vain (`peony-reloc/src/dynamic.rs:28-99`,
    `peony-reloc/src/tls.rs:144-169`). */
module CountsTight {
  import opened Bytes
  import opened Objects
  import opened DynReloc
  import T = TlsReloc

  /** The same symbols, with every section placed and every name in `.dynsym`. */
  function Everywhere(v: View): View {
    v.(address := (o: nat, si: nat) => var at: nat := 0; Some(at), dynsym := (n: Name) => 1)
  }

  /** No indirect function of a library has been copied. */
  ghost predicate NoCopiedIfunc(v: View) {
    forall n :: v.lookup(n).Some? ==> !(v.lookup(n).value.imported && v.lookup(n).value.isIfunc)
  }

  /** `c` counts `rel` RELATIVE or IRELATIVE and `sym` symbolic rows, with at most `irel` IRELATIVE ones. */
  predicate Fills(c: Counts, rel: nat, irel: nat, sym: nat) {
    c.relativeTotal == rel + irel && c.symbolic == sym && c.irelative <= irel
  }

  lemma {:induction false} SiteFills(v: View, objects: seq<InputObject>, s: Site)
    requires s.o < |objects|
    ensures var b, c := Everywhere(v), CountAt(v, objects, s);
            var d := DataAt(b, objects, s);
            Fills(c, |RowsOf(d, false)|, |RowsOf(d, true)|, if SymbolicAt(b, objects, s).Some? then 1 else 0)
            && (NoCopiedIfunc(v) ==> c.irelative == |RowsOf(d, true)|)
  {
  }

  lemma {:induction false} SlotFills(v: View, i: nat)
    requires i < |v.got|
    ensures var c, d := CountGot(v, v.got[i]), GotAt(Everywhere(v), i);
            && Fills(c, |RowsOf(d, false)|, |RowsOf(d, true)|, 0)
            && (NoCopiedIfunc(v) ==> c.irelative == |RowsOf(d, true)|)
  {
  }

  lemma {:induction false} SitesFill(v: View, objects: seq<InputObject>, sites: seq<Site>)
    requires forall s | s in sites :: s.o < |objects|
    ensures var b, c := Everywhere(v), CountSites(v, objects, sites);
            Fills(c, |DataRows(b, objects, sites, false)|, |DataRows(b, objects, sites, true)|,
                  |SymbolicRows(b, objects, sites)|)
            && (NoCopiedIfunc(v) ==> c.irelative == |DataRows(b, objects, sites, true)|)
    decreases |sites|
  {
    hide CountAt, DataAt, SymbolicAt, RowsOf, NoCopiedIfunc, Everywhere;
    if sites != [] {
      assert sites[|sites| - 1] in sites;
      SitesFill(v, objects, sites[..|sites| - 1]);
      SiteFills(v, objects, sites[|sites| - 1]);
    }
  }

  lemma {:induction false} SlotsFill(v: View, n: nat)
    requires n <= |v.got|
    ensures var b, c := Everywhere(v), CountGots(v, v.got[..n]);
            Fills(c, |GotRows(b, n, false)|, |GotRows(b, n, true)|, 0)
            && (NoCopiedIfunc(v) ==> c.irelative == |GotRows(b, n, true)|)
    decreases n
  {
    hide CountGot, GotAt, RowsOf, NoCopiedIfunc;
    if n > 0 {
      SlotsFill(v, n - 1);
      SlotFills(v, n - 1);
      assert v.got[..n][..n - 1] == v.got[..n - 1];
    }
  }

  /** No smaller reservation is enough for all links: where every section is placed and every import is in
      `.dynsym`, which changes no name, every reserved record is used. */
  lemma {:induction false} CountsAreLeast(v: View, objects: seq<InputObject>)
    ensures var b, c := Everywhere(v), AllCounts(v, objects, v.got);
            && AllCounted(v, b)
            && c.relativeTotal == |AllData(b, objects, false)| + |AllData(b, objects, true)|
            && c.symbolic == |AllSymbolic(b, objects)| && c.irelative <= |AllData(b, objects, true)|
            && (NoCopiedIfunc(v) ==> c.irelative == |AllData(b, objects, true)|)
  {
    assert v.got[..|v.got|] == v.got;
    assert Everywhere(v).got == v.got;
    hide CountSites, CountGots, DataRows, SymbolicRows, GotRows, Sites, NoCopiedIfunc, Everywhere;
    SitesFill(v, objects, Sites(objects, |objects|));
    SlotsFill(v, |v.got|);
    SameNames(v);
  }

  lemma {:induction false} SameNames(v: View)
    ensures AllCounted(v, Everywhere(v))
  {
  }

  // ── Thread-local records ─────────────────────────────────────────────────

  /** A variable of this link, in a section that has its place in the TLS block. */
  ghost predicate IsHere(v: T.TlsView, objects: seq<InputObject>, ref: T.TlsRef) {
    match ref
    case LocalRef(o, pos) =>
      && o < |objects| && pos < |objects[o].symbols| && objects[o].symbols[pos].section.Some?
      && v.tlsOffset(o, objects[o].symbols[pos].section.value).Some?
    case GlobalRef(id) =>
      exists n, e :: v.nameById(id) == Some(n) && v.lookup(n) == Some(e)
                     && e.definedIn.Some? && e.section.Some? && v.tlsOffset(e.definedIn.value, e.section.value).Some?
  }

  /** A variable of some library. */
  ghost predicate IsElsewhere(v: T.TlsView, ref: T.TlsRef) {
    ref.GlobalRef? && forall n, e | v.nameById(ref.id) == Some(n) && v.lookup(n) == Some(e) :: e.definedIn.None?
  }

  lemma {:induction false} CountedAsItIs(v: T.TlsView, objects: seq<InputObject>, ref: T.TlsRef)
    requires IsHere(v, objects, ref) || IsElsewhere(v, ref)
    ensures v.CountsAsImported(ref) <==> v.Resolved(objects, ref).1
    ensures !T.Gained(v, v, objects, ref) && !T.Given(v, v, objects, ref)
    ensures v.CountsAsImported(ref) <==> IsElsewhere(v, ref)
  {
  }

  /** Where every General-Dynamic variable is in the TLS block or in a library, a shared object's count is its number
      of records, two for a library's variable and one for its own. */
  lemma {:induction false} TlsCountIsRows(v: T.TlsView, objects: seq<InputObject>, tls: T.TlsGot)
    requires T.AllSlots(v, tls)
    requires forall ref | ref in tls.gd :: IsHere(v, objects, ref) || IsElsewhere(v, ref)
    ensures |T.AllFills(v, objects, tls, true).rows| == T.CountTls(v, tls, true)
    ensures forall ref | ref in tls.gd ::
              |T.FillFor(v, objects, T.Gd, true, ref).rows| == if IsElsewhere(v, ref) then 2 else 1
  {
    hide IsHere, IsElsewhere, T.AllFills, T.CountTls, T.Gained, T.Given;
    forall ref | ref in tls.gd
      ensures !T.Gained(v, v, objects, ref) && !T.Given(v, v, objects, ref)
      ensures |T.FillFor(v, objects, T.Gd, true, ref).rows| == if IsElsewhere(v, ref) then 2 else 1
    {
      CountedAsItIs(v, objects, ref);
    }
    T.TlsCountExactly(v, v, objects, tls);
    assert T.CountGained(v, v, objects, tls.gd) == 0 && T.CountGiven(v, v, objects, tls.gd) == 0;
  }
}
