/** Dynamic data relocations: counting them before layout and collecting them after it
    (`peony-reloc/src/dynamic.rs:28-99`, `245-438`). */
module DynReloc {
  import opened Bytes
  import opened Reloc
  import opened Objects
  import opened Symbols

  /** What the passes read: symbols, `.dynsym` indices, section addresses and GOT slots. */
  datatype View = View(
    lookup: Name -> Option<Resolution>, nameById: nat -> Option<Name>, dynsym: Name -> nat,
    address: (nat, nat) -> Option<nat>, got: seq<nat>, gotBase: nat)

  /** A row of one of the collected lists: site, value or index, addend. */
  datatype Row = Row(site: nat, value: nat, addend: int)

  /** A relocation of an allocated section. */
  datatype Site = Site(o: nat, sec: InputSection, r: InputReloc)

  function SecSites(o: nat, sec: InputSection): (sites: seq<Site>)
    ensures forall s | s in sites :: s.o == o
  {
    if Alloc in sec.flags then seq(|sec.relocs|, i requires 0 <= i < |sec.relocs| => Site(o, sec, sec.relocs[i]))
        else []
  }

  function ObjSites(o: nat, secs: seq<InputSection>): (sites: seq<Site>)
    ensures forall s | s in sites :: s.o == o
    decreases |secs|
  {
    if secs == [] then [] else ObjSites(o, secs[..|secs| - 1]) + SecSites(o, secs[|secs| - 1])
  }

  /** The relocations of the first `n` objects in order. */
  function Sites(objects: seq<InputObject>, n: nat): (sites: seq<Site>)
    requires n <= |objects|
    ensures forall s | s in sites :: s.o < n
  {
    if n == 0 then [] else Sites(objects, n - 1) + ObjSites(n - 1, objects[n - 1].sections)
  }

  // ── The two separate collectors ──────────────────────────────────────────

  /** A relocation to be done by the loader: at `site`, with the link-time `value`, through a resolver
      when `ifunc`. */
  datatype Bias = Bias(site: nat, value: nat, ifunc: bool)

  /** The address a data relocation targets, when that address is in the image. */
  function InImage(v: View, o: nat, sym: InputSymbol): Option<(nat, bool)> {
    if sym.binding == Local then
      match sym.section
      case None => None
      case Some(si) =>
        match v.address(o, si)
        case None => None
        case Some(va) => Some((va + sym.value, sym.isIfunc))
    else
      match v.lookup(sym.name)
      case Some(r) => if r.IsDefined() && (!r.imported || r.copyReloc) then Some((r.va, r.isIfunc)) else None
      case None => None
  }

  /** `collect_dynamic_data_relocs`: sites against in-image targets. A resolver address takes no addend. */
  function DataAt(v: View, objects: seq<InputObject>, s: Site): Option<Bias>
    requires s.o < |objects|
  {
    if s.r.rType != R64 then None
    else
      match objects[s.o].SymbolByIndex(s.r.symbol)
      case None => None
      case Some(sym) =>
        match InImage(v, s.o, sym)
        case None => None
        case Some((target, ifunc)) =>
          match v.address(s.o, s.sec.index)
          case None => None
          case Some(va) =>
            Some(Bias(va + s.r.offset, if ifunc then target else (target + s.r.addend) % TWO64, ifunc))
  }

  /** `collect_symbolic_data_relocs`: sites against imports that have a `.dynsym` index. */
  function SymbolicAt(v: View, objects: seq<InputObject>, s: Site): Option<Row>
    requires s.o < |objects|
  {
    if s.r.rType != R64 then None
    else
      match objects[s.o].SymbolByIndex(s.r.symbol)
      case None => None
      case Some(sym) =>
        if sym.binding == Local then None
        else
          match v.lookup(sym.name)
          case None => None
          case Some(res) =>
            if !res.imported || res.copyReloc || v.dynsym(sym.name) == 0 then None
            else
              match v.address(s.o, s.sec.index)
              case None => None
              case Some(va) => Some(Row(va + s.r.offset, v.dynsym(sym.name), s.r.addend))
  }

  /** The relocation of GOT slot `i`, when it holds an in-image address. */
  function GotAt(v: View, i: nat): Option<Bias>
    requires i < |v.got|
  {
    match v.nameById(v.got[i])
    case None => None
    case Some(name) =>
      match v.lookup(name)
      case None => None
      case Some(res) =>
        if (res.imported && !res.copyReloc) || !res.IsDefined() then None
        else Some(Bias(v.gotBase + i * 8, res.va, res.isIfunc))
  }

  /** The rows that one relocation adds to a list. */
  function RowsOf(d: Option<Bias>, ifunc: bool): seq<Row> {
    if d.Some? && d.value.ifunc == ifunc then [Row(d.value.site, d.value.value, 0)] else []
  }

  function DataRows(v: View, objects: seq<InputObject>, sites: seq<Site>, ifunc: bool): seq<Row>
    requires forall s | s in sites :: s.o < |objects|
    decreases |sites|
  {
    if sites == [] then []
    else
      assert sites[|sites| - 1] in sites;
      DataRows(v, objects, sites[..|sites| - 1], ifunc) + RowsOf(DataAt(v, objects, sites[|sites| - 1]), ifunc)
  }

  function SymbolicRows(v: View, objects: seq<InputObject>, sites: seq<Site>): seq<Row>
    requires forall s | s in sites :: s.o < |objects|
    decreases |sites|
  {
    if sites == [] then []
    else
      assert sites[|sites| - 1] in sites;
      var s := SymbolicAt(v, objects, sites[|sites| - 1]);
      SymbolicRows(v, objects, sites[..|sites| - 1]) + if s.Some? then [s.value] else []
  }

  function GotRows(v: View, n: nat, ifunc: bool): seq<Row>
    requires n <= |v.got|
  {
    if n == 0 then [] else GotRows(v, n - 1, ifunc) + RowsOf(GotAt(v, n - 1), ifunc)
  }

  function AllData(v: View, objects: seq<InputObject>, ifunc: bool): seq<Row> {
    DataRows(v, objects, Sites(objects, |objects|), ifunc) + GotRows(v, |v.got|, ifunc)
  }

  function AllSymbolic(v: View, objects: seq<InputObject>): seq<Row> {
    SymbolicRows(v, objects, Sites(objects, |objects|))
  }

  // ── Sorting ──────────────────────────────────────────────────────────────

  predicate Less(a: Row, b: Row) {
    a.site < b.site || (a.site == b.site && (a.value < b.value || (a.value == b.value && a.addend < b.addend)))
  }

  predicate Ordered(s: seq<Row>) { forall i, j | 0 <= i < j < |s| :: !Less(s[j], s[i]) }

  function Insert(r: Row, s: seq<Row>): seq<Row>
    decreases |s|
  {
    if s == [] || Less(r, s[0]) then [r] + s else [s[0]] + Insert(r, s[1..])
  }

  function Sort(s: seq<Row>): seq<Row>
    decreases |s|
  {
    if s == [] then [] else Insert(s[0], Sort(s[1..]))
  }

  lemma {:induction false} InsertAdds(r: Row, s: seq<Row>)
    ensures multiset(Insert(r, s)) == multiset(s) + multiset{r} && |Insert(r, s)| == |s| + 1
    ensures forall x | x in Insert(r, s) :: x == r || x in s
    decreases |s|
  {
    hide Less;
    if s != [] && !Less(r, s[0]) {
      assert s == [s[0]] + s[1..];
      InsertAdds(r, s[1..]);
    }
  }

  lemma {:induction false} PrependOrdered(r: Row, s: seq<Row>)
    requires Ordered(s) && forall x | x in s :: !Less(x, r)
    ensures Ordered([r] + s)
  {
    hide Less;
  }

  lemma {:induction false} InsertKeeps(r: Row, s: seq<Row>)
    requires Ordered(s)
    ensures Ordered(Insert(r, s))
    decreases |s|
  {
    if s != [] {
      forall x | x in s[1..] ensures !Less(x, s[0]) {
        var i :| 0 <= i < |s| - 1 && s[1..][i] == x;
        assert s[i + 1] == x;
      }
      if Less(r, s[0]) {
        PrependOrdered(r, s);
      } else {
        InsertKeeps(r, s[1..]);
        InsertAdds(r, s[1..]);
        hide Ordered, Less;
        PrependOrdered(s[0], Insert(r, s[1..]));
      }
    }
  }

  lemma {:induction false} SortKeeps(s: seq<Row>)
    ensures multiset(Sort(s)) == multiset(s) && |Sort(s)| == |s| && Ordered(Sort(s))
    decreases |s|
  {
    hide Ordered, Insert;
    if s == [] {
      EmptyOrdered();
    } else {
      assert s == [s[0]] + s[1..];
      SortKeeps(s[1..]);
      InsertKeeps(s[0], Sort(s[1..]));
      InsertAdds(s[0], Sort(s[1..]));
    }
  }

  lemma {:induction false} EmptyOrdered()
    ensures Ordered([])
  {
  }

  lemma {:induction false} FirstIsLeast(a: seq<Row>, b: seq<Row>)
    requires multiset(a) == multiset(b) && Ordered(a) && Ordered(b) && a != []
    ensures b != [] && !Less(b[0], a[0])
  {
    assert a[0] in multiset(b);
    var j :| 0 <= j < |b| && b[j] == a[0];
    assert b[0] in multiset(a);
    var k :| 0 <= k < |a| && a[k] == b[0];
  }

  /** Whatever sort is used, stable or not, the rows come out the same. */
  lemma {:induction false} OneOrder(a: seq<Row>, b: seq<Row>)
    requires multiset(a) == multiset(b) && Ordered(a) && Ordered(b)
    ensures a == b
    decreases |a|
  {
    assert |multiset(a)| == |multiset(b)|;
    if a != [] {
      FirstIsLeast(a, b);
      FirstIsLeast(b, a);
      assert a[0] == b[0];
      TailOrdered(a);
      TailOrdered(b);
      hide Ordered, Less;
      OneOrder(a[1..], b[1..]);
    }
  }

  lemma {:induction false} TailOrdered(s: seq<Row>)
    requires s != [] && Ordered(s)
    ensures Ordered(s[1..]) && multiset(s[1..]) == multiset(s) - multiset{s[0]} && s == [s[0]] + s[1..]
  {
    hide Less;
    assert s == [s[0]] + s[1..];
    assert multiset(s) == multiset{s[0]} + multiset(s[1..]);
  }

  // ── The one-pass collector ───────────────────────────────────────────────

  lemma {:induction false} OneMoreSite(v: View, objects: seq<InputObject>, sites: seq<Site>, s: Site)
    requires s.o < |objects| && forall t | t in sites :: t.o < |objects|
    ensures forall t | t in sites + [s] :: t.o < |objects|
    ensures forall b ::
              DataRows(v, objects, sites + [s], b) == DataRows(v, objects, sites, b) + RowsOf(DataAt(v, objects, s), b)
    ensures SymbolicRows(v, objects, sites + [s])
         == SymbolicRows(v, objects, sites) + match SymbolicAt(v, objects, s) case Some(row) => [row] case None => []
  {
    hide DataAt, SymbolicAt, RowsOf;
    assert (sites + [s])[..|sites|] == sites;
  }

  /** What one site adds: to the biased lists, to the symbolic one, or to none. */
  method AddSite(v: View, objects: seq<InputObject>, o: nat, sec: InputSection, sectionVa: nat, r: InputReloc)
    returns (bias: Option<Bias>, row: Option<Row>)
    requires o < |objects| && v.address(o, sec.index) == Some(sectionVa)
    ensures bias == DataAt(v, objects, Site(o, sec, r)) && row == SymbolicAt(v, objects, Site(o, sec, r))
  {
    bias, row := None, None;
    if r.rType != R64 { return; }
    var found := objects[o].SymbolByIndex(r.symbol);
    if found.None? { return; }
    var sym, site := found.value, sectionVa + r.offset;
    if sym.binding == Local {
      if sym.section.None? || v.address(o, sym.section.value).None? { return; }
      var target := v.address(o, sym.section.value).value + sym.value;
      bias := Some(Bias(site, if sym.isIfunc then target else (target + r.addend) % TWO64, sym.isIfunc));
      return;
    }
    var known := v.lookup(sym.name);
    if known.None? { return; }
    var res := known.value;
    if res.IsDefined() && (!res.imported || res.copyReloc) {
      bias := Some(Bias(site, if res.isIfunc then res.va else (res.va + r.addend) % TWO64, res.isIfunc));
    } else if res.imported && !res.copyReloc && v.dynsym(sym.name) != 0 {
      row := Some(Row(site, v.dynsym(sym.name), r.addend));
    }
  }

  lemma {:induction false} UnplacedSection(v: View, objects: seq<InputObject>, s: Site)
    requires s.o < |objects| && v.address(s.o, s.sec.index).None?
    ensures DataAt(v, objects, s).None? && SymbolicAt(v, objects, s).None?
  {
  }

  /** The rows after a longer run of sites that add nothing. */
  lemma {:induction false} UnplacedSites(v: View, objects: seq<InputObject>, sites: seq<Site>, o: nat,
          sec: InputSection, n: nat)
    requires o < |objects| && v.address(o, sec.index).None? && n <= |SecSites(o, sec)|
    requires forall s | s in sites :: s.o < |objects|
    ensures forall s | s in sites + SecSites(o, sec)[..n] :: s.o < |objects|
    ensures forall b :: DataRows(v, objects, sites + SecSites(o, sec)[..n], b) == DataRows(v, objects, sites, b)
    ensures SymbolicRows(v, objects, sites + SecSites(o, sec)[..n]) == SymbolicRows(v, objects, sites)
    decreases n
  {
    hide DataAt, SymbolicAt, DataRows, SymbolicRows;
    var more := SecSites(o, sec);
    if n == 0 {
      assert sites + more[..0] == sites;
    } else {
      UnplacedSites(v, objects, sites, o, sec, n - 1);
      assert sites + more[..n] == (sites + more[..n - 1]) + [more[n - 1]];
      UnplacedSection(v, objects, more[n - 1]);
      OneMoreSite(v, objects, sites + more[..n - 1], more[n - 1]);
      forall b ensures DataRows(v, objects, sites + more[..n], b) == DataRows(v, objects, sites, b) {
        assert DataRows(v, objects, sites + more[..n - 1], b) + [] == DataRows(v, objects, sites + more[..n - 1], b);
      }
      assert SymbolicRows(v, objects, sites + more[..n - 1]) + [] == SymbolicRows(v, objects, sites + more[..n - 1]);
    }
  }

  ghost predicate Gathered(v: View, objects: seq<InputObject>, sites: seq<Site>, rel: seq<Row>, irel: seq<Row>,
          sym: seq<Row>) {
    && (forall s | s in sites :: s.o < |objects|)
    && rel == DataRows(v, objects, sites, false) && irel == DataRows(v, objects, sites, true)
    && sym == SymbolicRows(v, objects, sites)
  }

  lemma {:induction false} GatherOne(v: View, objects: seq<InputObject>, sites: seq<Site>, rel: seq<Row>,
          irel: seq<Row>, sym: seq<Row>, s: Site)
    requires s.o < |objects| && Gathered(v, objects, sites, rel, irel, sym)
    ensures var d, row := DataAt(v, objects, s), SymbolicAt(v, objects, s);
            Gathered(v, objects, sites + [s], rel + RowsOf(d, false), irel + RowsOf(d, true), if row.Some?
                then sym + [row.value] else sym)
  {
    hide DataAt, SymbolicAt, RowsOf;
    OneMoreSite(v, objects, sites, s);
    hide DataRows, SymbolicRows;
    assert SymbolicRows(v, objects, sites) + [] == SymbolicRows(v, objects, sites);
  }

  lemma {:induction false} GatherNone(v: View, objects: seq<InputObject>, sites: seq<Site>, rel: seq<Row>,
          irel: seq<Row>, sym: seq<Row>, o: nat, sec: InputSection)
    requires o < |objects| && (Alloc !in sec.flags || v.address(o, sec.index).None?)
             && Gathered(v, objects, sites, rel, irel, sym)
    ensures Gathered(v, objects, sites + SecSites(o, sec), rel, irel, sym)
  {
    hide DataAt, SymbolicAt, DataRows, SymbolicRows;
    var more := SecSites(o, sec);
    if Alloc !in sec.flags {
      assert sites + more == sites;
    } else {
      UnplacedSites(v, objects, sites, o, sec, |more|);
      assert more[..|more|] == more;
    }
  }

  /** One walk over the relocations, one symbol lookup a site. */
  method CollectSection(v: View, objects: seq<InputObject>, o: nat, sec: InputSection, ghost sites: seq<Site>,
                        rel0: seq<Row>, irel0: seq<Row>, sym0: seq<Row>)
                            returns (rel: seq<Row>, irel: seq<Row>, sym: seq<Row>)
    requires o < |objects| && Gathered(v, objects, sites, rel0, irel0, sym0)
    ensures Gathered(v, objects, sites + SecSites(o, sec), rel, irel, sym)
  {
    hide Gathered, DataAt, SymbolicAt;
    rel, irel, sym := rel0, irel0, sym0;
    if Alloc !in sec.flags || v.address(o, sec.index).None? {
      GatherNone(v, objects, sites, rel, irel, sym, o, sec);
      return;
    }
    var sectionVa := v.address(o, sec.index).value;
    ghost var more := SecSites(o, sec);
    assert sites + more[..0] == sites;
    for k := 0 to |sec.relocs|
      invariant Gathered(v, objects, sites + more[..k], rel, irel, sym)
    {
      GatherOne(v, objects, sites + more[..k], rel, irel, sym, more[k]);
      assert sites + more[..k + 1] == (sites + more[..k]) + [more[k]];
      var bias, row := AddSite(v, objects, o, sec, sectionVa, sec.relocs[k]);
      rel, irel := rel + RowsOf(bias, false), irel + RowsOf(bias, true);
      if row.Some? { sym := sym + [row.value]; }
    }
    assert more[..|more|] == more;
  }

  method CollectDataAndSymbolic(v: View,
          objects: seq<InputObject>) returns (rel: seq<Row>, irel: seq<Row>, sym: seq<Row>)
    ensures rel == Sort(AllData(v, objects, false)) && irel == Sort(AllData(v, objects, true))
    ensures sym == Sort(AllSymbolic(v, objects))
  {
    hide Gathered, SecSites, ObjSites, Sites, DataRows, SymbolicRows, Sort, RowsOf, GotAt;
    rel, irel, sym := [], [], [];
    NothingGathered(v, objects);
    for o := 0 to |objects|
      invariant Gathered(v, objects, Sites(objects, o), rel, irel, sym)
    {
      ghost var before := Sites(objects, o);
      var secs := objects[o].sections;
      ObjectBegins(before, o, secs);
      for p := 0 to |secs|
        invariant Gathered(v, objects, before + ObjSites(o, secs[..p]), rel, irel, sym)
      {
        NextSection(before, o, secs, p);
        rel, irel, sym := CollectSection(v, objects, o, secs[p], before + ObjSites(o, secs[..p]), rel, irel, sym);
      }
      assert secs[..|secs|] == secs;
      NextObject(objects, o);
    }
    GatheredAll(v, objects, rel, irel, sym);
    for i := 0 to |v.got|
      invariant rel == DataRows(v, objects, Sites(objects, |objects|), false) + GotRows(v, i, false)
      invariant irel == DataRows(v, objects, Sites(objects, |objects|), true) + GotRows(v, i, true)
      invariant sym == AllSymbolic(v, objects)
    {
      var bias := GotAt(v, i);
      rel, irel := rel + RowsOf(bias, false), irel + RowsOf(bias, true);
    }
    rel, irel, sym := Sort(rel), Sort(irel), Sort(sym);
  }

  lemma {:induction false} NothingGathered(v: View, objects: seq<InputObject>)
    ensures Gathered(v, objects, Sites(objects, 0), [], [], [])
  {
  }

  lemma {:induction false} ObjectBegins(before: seq<Site>, o: nat, secs: seq<InputSection>)
    ensures before + ObjSites(o, secs[..0]) == before
  {
  }

  lemma {:induction false} NextSection(before: seq<Site>, o: nat, secs: seq<InputSection>, p: nat)
    requires p < |secs|
    ensures (before + ObjSites(o, secs[..p])) + SecSites(o, secs[p]) == before + ObjSites(o, secs[..p + 1])
  {
    hide SecSites;
    assert secs[..p + 1][..p] == secs[..p];
    assert (before + ObjSites(o, secs[..p])) + SecSites(o, secs[p])
           == before + (ObjSites(o, secs[..p]) + SecSites(o, secs[p]));
  }

  lemma {:induction false} NextObject(objects: seq<InputObject>, o: nat)
    requires o < |objects|
    ensures Sites(objects, o + 1) == Sites(objects, o) + ObjSites(o, objects[o].sections)
  {
    hide ObjSites;
  }

  lemma {:induction false} GatheredAll(v: View, objects: seq<InputObject>, rel: seq<Row>, irel: seq<Row>, sym: seq<Row>)
    requires Gathered(v, objects, Sites(objects, |objects|), rel, irel, sym)
    ensures rel == DataRows(v, objects, Sites(objects, |objects|), false) + GotRows(v, 0, false)
    ensures irel == DataRows(v, objects, Sites(objects, |objects|), true) + GotRows(v, 0, true)
    ensures sym == AllSymbolic(v, objects)
  {
    hide DataRows, SymbolicRows, Sites;
    assert rel + [] == rel && irel + [] == irel;
  }

  // ── Counting before layout ───────────────────────────────────────────────

  datatype Counts = Counts(relativeTotal: nat, irelative: nat, symbolic: nat)
  {
    function Plus(c: Counts): Counts {
      Counts(relativeTotal + c.relativeTotal, irelative + c.irelative, symbolic + c.symbolic)
    }
  }

  const NONE_COUNTED := Counts(0, 0, 0)

  function One(b: bool): nat { if b then 1 else 0 }

  /** What one relocation of an allocated section counts as. */
  function CountAt(v: View, objects: seq<InputObject>, s: Site): Counts
    requires s.o < |objects|
  {
    if s.r.rType != R64 then NONE_COUNTED
    else
      match objects[s.o].SymbolByIndex(s.r.symbol)
      case None => NONE_COUNTED
      case Some(sym) =>
        if sym.binding == Local then
          if sym.section.Some? then Counts(1, One(sym.isIfunc), 0) else NONE_COUNTED
        else
          match v.lookup(sym.name)
          case None => NONE_COUNTED
          case Some(res) =>
            if res.imported && !res.copyReloc then Counts(0, 0, 1)
            else if res.IsDefined() then Counts(1, One(!res.imported && res.isIfunc), 0)
            else NONE_COUNTED
  }

  function CountGot(v: View, id: nat): Counts {
    match v.nameById(id)
    case None => NONE_COUNTED
    case Some(name) =>
      match v.lookup(name)
      case None => NONE_COUNTED
      case Some(res) =>
        if (!res.imported || res.copyReloc) && res.IsDefined() then Counts(1, One(!res.imported && res.isIfunc), 0)
        else NONE_COUNTED
  }

  function CountSites(v: View, objects: seq<InputObject>, sites: seq<Site>): Counts
    requires forall s | s in sites :: s.o < |objects|
    decreases |sites|
  {
    if sites == [] then NONE_COUNTED
    else
      assert sites[|sites| - 1] in sites;
      CountSites(v, objects, sites[..|sites| - 1]).Plus(CountAt(v, objects, sites[|sites| - 1]))
  }

  function CountGots(v: View, ids: seq<nat>): Counts
    decreases |ids|
  {
    if ids == [] then NONE_COUNTED else CountGots(v, ids[..|ids| - 1]).Plus(CountGot(v, ids[|ids| - 1]))
  }

  lemma {:induction false} CountPush(v: View, objects: seq<InputObject>, sites: seq<Site>, s: Site)
    requires (forall t | t in sites :: t.o < |objects|) && s.o < |objects|
    ensures CountSites(v, objects, sites + [s]) == CountSites(v, objects, sites).Plus(CountAt(v, objects, s))
  {
    hide CountAt;
    assert (sites + [s])[..|sites|] == sites;
  }

  lemma {:induction false} PlusAssociates(a: Counts, b: Counts, c: Counts)
    ensures a.Plus(b).Plus(c) == a.Plus(b.Plus(c)) && a.Plus(NONE_COUNTED) == a && NONE_COUNTED.Plus(a) == a
  {
  }

  lemma {:induction false} CountConcat(v: View, objects: seq<InputObject>, a: seq<Site>, b: seq<Site>)
    requires (forall s | s in a :: s.o < |objects|) && (forall s | s in b :: s.o < |objects|)
    ensures CountSites(v, objects, a + b) == CountSites(v, objects, a).Plus(CountSites(v, objects, b))
    decreases |b|
  {
    if b == [] {
      assert a + b == a && CountSites(v, objects, b) == NONE_COUNTED;
      PlusAssociates(CountSites(v, objects, a), NONE_COUNTED, NONE_COUNTED);
    } else {
      hide CountAt, CountSites;
      var front, s := b[..|b| - 1], b[|b| - 1];
      assert b == front + [s] && a + b == (a + front) + [s];
      CountConcat(v, objects, a, front);
      CountPush(v, objects, a + front, s);
      CountPush(v, objects, front, s);
      PlusAssociates(CountSites(v, objects, a), CountSites(v, objects, front), CountAt(v, objects, s));
    }
  }

  lemma {:induction false} CountNext(v: View, objects: seq<InputObject>, sites: seq<Site>, k: nat)
    requires k < |sites| && forall s | s in sites :: s.o < |objects|
    ensures CountSites(v, objects, sites[..k + 1])
            == CountSites(v, objects, sites[..k]).Plus(CountAt(v, objects, sites[k]))
  {
    hide CountAt;
    assert sites[..k + 1][..k] == sites[..k];
  }

  lemma {:induction false} NothingCounted(v: View, objects: seq<InputObject>, o: nat)
    ensures CountSites(v, objects, ObjSites(o, [])) == NONE_COUNTED
            && CountSites(v, objects, Sites(objects, 0)) == NONE_COUNTED
  {
  }

  method CountSection(v: View, objects: seq<InputObject>, o: nat, sec: InputSection) returns (c: Counts)
    requires o < |objects|
    ensures c == CountSites(v, objects, SecSites(o, sec))
  {
    hide CountAt;
    c := NONE_COUNTED;
    if Alloc !in sec.flags { return; }
    ghost var sites := SecSites(o, sec);
    for k := 0 to |sec.relocs|
      invariant c == CountSites(v, objects, sites[..k])
    {
      hide CountSites;
      CountNext(v, objects, sites, k);
      c := c.Plus(CountAt(v, objects, Site(o, sec, sec.relocs[k])));
    }
    assert sites[..|sites|] == sites;
  }

  ghost predicate CountedIn(v: View, objects: seq<InputObject>, o: nat, secs: seq<InputSection>, c: Counts)
    requires o < |objects|
  {
    c == CountSites(v, objects, ObjSites(o, secs))
  }

  lemma {:induction false} CountedNext(v: View, objects: seq<InputObject>, o: nat, secs: seq<InputSection>, p: nat,
          c: Counts)
    requires o < |objects| && p < |secs| && CountedIn(v, objects, o, secs[..p], c)
    ensures CountedIn(v, objects, o, secs[..p + 1], c.Plus(CountSites(v, objects, SecSites(o, secs[p]))))
  {
    assert secs[..p + 1][..p] == secs[..p];
    assert ObjSites(o, secs[..p + 1]) == ObjSites(o, secs[..p]) + SecSites(o, secs[p]);
    hide CountSites, SecSites, ObjSites;
    CountConcat(v, objects, ObjSites(o, secs[..p]), SecSites(o, secs[p]));
  }

  /** The counts of one object; objects are counted apart and added up. */
  method CountObject(v: View, objects: seq<InputObject>, o: nat) returns (c: Counts)
    requires o < |objects|
    ensures CountedIn(v, objects, o, objects[o].sections, c)
  {
    c := NONE_COUNTED;
    var secs := objects[o].sections;
    NothingCounted(v, objects, o);
    assert secs[..0] == [];
    hide CountedIn, SecSites, CountSites, CountAt;
    for p := 0 to |secs|
      invariant CountedIn(v, objects, o, secs[..p], c)
    {
      CountedNext(v, objects, o, secs, p, c);
      var inner := CountSection(v, objects, o, secs[p]);
      c := c.Plus(inner);
    }
    assert secs[..|secs|] == secs;
  }

  ghost predicate CountedObjects(v: View, objects: seq<InputObject>, n: nat, c: Counts)
    requires n <= |objects|
  {
    c == CountSites(v, objects, Sites(objects, n))
  }

  lemma {:induction false} CountedObject(v: View, objects: seq<InputObject>, o: nat, c: Counts, one: Counts)
    requires o < |objects| && CountedObjects(v, objects, o, c) && CountedIn(v, objects, o, objects[o].sections, one)
    ensures CountedObjects(v, objects, o + 1, c.Plus(one))
  {
    hide CountSites, ObjSites;
    CountConcat(v, objects, Sites(objects, o), ObjSites(o, objects[o].sections));
  }

  function AllCounts(v: View, objects: seq<InputObject>, got: seq<nat>): Counts {
    CountSites(v, objects, Sites(objects, |objects|)).Plus(CountGots(v, got))
  }

  method CountDynamicRelocs(v: View, objects: seq<InputObject>, got: seq<nat>) returns (c: Counts)
    ensures c == AllCounts(v, objects, got)
  {
    c := NONE_COUNTED;
    NothingCounted(v, objects, 0);
    hide CountedObjects, CountedIn, CountGot, CountSites;
    for o := 0 to |objects|
      invariant CountedObjects(v, objects, o, c)
    {
      var one := CountObject(v, objects, o);
      CountedObject(v, objects, o, c, one);
      c := c.Plus(one);
    }
    var gots := CountGotSlots(v, got);
    AddGots(v, objects, got, c);
    c := c.Plus(gots);
  }

  lemma {:induction false} AddGots(v: View, objects: seq<InputObject>, got: seq<nat>, c: Counts)
    requires CountedObjects(v, objects, |objects|, c)
    ensures AllCounts(v, objects, got) == c.Plus(CountGots(v, got))
  {
    hide CountSites, CountGots;
  }

  method CountGotSlots(v: View, got: seq<nat>) returns (c: Counts)
    ensures c == CountGots(v, got)
  {
    hide CountGot;
    c := NONE_COUNTED;
    for i := 0 to |got|
      invariant c == CountGots(v, got[..i])
    {
      assert got[..i + 1][..i] == got[..i];
      c := c.Plus(CountGot(v, got[i]));
    }
    assert got[..|got|] == got;
  }

  // ── Counts bound what is collected ───────────────────────────────────────

  /** The image has the symbol's address. */
  predicate IsOurs(r: Option<Resolution>) {
    r.Some? && r.value.IsDefined() && (!r.value.imported || r.value.copyReloc)
  }

  /** A library supplies the symbol. */
  predicate IsForeign(r: Option<Resolution>) { r.Some? && r.value.imported && !r.value.copyReloc }

  /** What is collected as ours was counted as ours, and as a resolver's only if it is collected so. */
  predicate OursCounted(a: Option<Resolution>, b: Option<Resolution>) {
    IsOurs(b) ==> IsOurs(a) && (!a.value.imported && a.value.isIfunc ==> b.value.isIfunc)
  }

  /** From counting with `a` to collecting with `b`, name `n` has gained nothing that needs a record. */
  predicate Counted(a: View, b: View, n: Name) {
    && OursCounted(a.lookup(n), b.lookup(n))
    && (IsForeign(b.lookup(n)) && b.dynsym(n) != 0 ==> IsForeign(a.lookup(n)))
  }

  ghost predicate AllCounted(a: View, b: View) {
    (forall id :: a.nameById(id) == b.nameById(id)) && forall n :: Counted(a, b, n)
  }

  /** The flags that both passes read are the same for each of them. */
  predicate SameFlags(a: Option<Resolution>, b: Option<Resolution>) {
    match (a, b)
    case (Some(x), Some(y)) =>
      x.imported == y.imported && x.copyReloc == y.copyReloc && x.isIfunc == y.isIfunc && x.IsDefined() == y.IsDefined()
    case (None, None) => true
    case _ => false
  }

  ghost predicate Unchanged(a: View, b: View) {
    (forall id :: a.nameById(id) == b.nameById(id)) && forall n :: SameFlags(a.lookup(n), b.lookup(n))
  }

  /** Names whose flags do not change between the passes gain nothing. */
  lemma {:induction false} SameFlagsCounted(a: View, b: View)
    requires Unchanged(a, b)
    ensures AllCounted(a, b)
  {
    forall n ensures Counted(a, b, n) { assert SameFlags(a.lookup(n), b.lookup(n)); }
  }

  /** Collected rows never outnumber counted ones; what is counted as IRELATIVE is never collected as
      RELATIVE. */
  predicate Within(c: Counts, relative: nat, irelative: nat, symbolic: nat) {
    && relative + irelative <= c.relativeTotal
    && relative + c.irelative <= c.relativeTotal
    && symbolic <= c.symbolic
  }

  /** The site is a 64-bit slot of a placed section against a name that gained something. */
  predicate Uncounted(a: View, b: View, objects: seq<InputObject>, s: Site)
    requires s.o < |objects|
  {
    && s.r.rType == R64 && b.address(s.o, s.sec.index).Some?
    && match objects[s.o].SymbolByIndex(s.r.symbol)
       case None => false
       case Some(sym) => sym.binding != Local && !Counted(a, b, sym.name)
  }

  predicate SiteWithin(a: View, b: View, objects: seq<InputObject>, s: Site)
    requires s.o < |objects|
  {
    var d, row := DataAt(b, objects, s), SymbolicAt(b, objects, s);
    Within(CountAt(a, objects, s), |RowsOf(d, false)|, |RowsOf(d, true)|, if row.Some? then 1 else 0)
  }

  /** A site's count covers what it is collected as in exactly these cases. */
  lemma {:induction false} SiteExactly(a: View, b: View, objects: seq<InputObject>, s: Site)
    requires s.o < |objects|
    ensures SiteWithin(a, b, objects, s) <==> !Uncounted(a, b, objects, s)
  {
  }

  /** So does a GOT slot's. */
  lemma {:induction false} SlotExactly(a: View, b: View, i: nat)
    requires i < |b.got| && a.nameById(b.got[i]) == b.nameById(b.got[i])
    ensures var d, name := GotAt(b, i), b.nameById(b.got[i]);
            Within(CountGot(a, b.got[i]), |RowsOf(d, false)|, |RowsOf(d, true)|, 0)
            <==> (name.Some? ==> OursCounted(a.lookup(name.value), b.lookup(name.value)))
  {
  }

  lemma {:induction false} SitesWithin(a: View, b: View, objects: seq<InputObject>, sites: seq<Site>)
    requires AllCounted(a, b) && forall s | s in sites :: s.o < |objects|
    ensures Within(CountSites(a, objects, sites), |DataRows(b, objects, sites, false)|,
            |DataRows(b, objects, sites, true)|, |SymbolicRows(b, objects, sites)|)
    decreases |sites|
  {
    hide Counted, CountAt, DataAt, SymbolicAt, RowsOf;
    if sites != [] {
      assert sites[|sites| - 1] in sites;
      SitesWithin(a, b, objects, sites[..|sites| - 1]);
      SiteExactly(a, b, objects, sites[|sites| - 1]);
    }
  }

  lemma {:induction false} GotsWithin(a: View, b: View, n: nat)
    requires n <= |b.got| && AllCounted(a, b)
    ensures Within(CountGots(a, b.got[..n]), |GotRows(b, n, false)|, |GotRows(b, n, true)|, 0)
    decreases n
  {
    hide OursCounted, IsForeign, CountGot, GotAt, RowsOf;
    if n > 0 {
      GotsWithin(a, b, n - 1);
      SlotExactly(a, b, n - 1);
      var name := b.nameById(b.got[n - 1]);
      if name.Some? { assert Counted(a, b, name.value); }
      assert b.got[..n][..n - 1] == b.got[..n - 1];
    }
  }

  /** The counts made with `a` bound the lists collected with `b`. */
  ghost predicate Bounded(a: View, b: View, objects: seq<InputObject>) {
    Within(AllCounts(a, objects, b.got), |Sort(AllData(b, objects, false))|, |Sort(AllData(b, objects, true))|,
           |Sort(AllSymbolic(b, objects))|)
  }

  lemma {:induction false} CountsBound(a: View, b: View, objects: seq<InputObject>)
    requires AllCounted(a, b)
    ensures Bounded(a, b, objects)
  {
    hide AllCounted, CountSites, CountGots, DataRows, SymbolicRows, GotRows, Sites, Sort;
    SitesWithin(a, b, objects, Sites(objects, |objects|));
    GotsWithin(a, b, |b.got|);
    assert b.got[..|b.got|] == b.got;
    SortKeeps(AllData(b, objects, false));
    SortKeeps(AllData(b, objects, true));
    SortKeeps(AllSymbolic(b, objects));
  }

  /** The counts are enough for every list of objects and every GOT exactly when no name has gained
      anything between the passes. */
  lemma {:induction false} CountsBoundExactly(a: View, b: View)
    requires (forall id :: a.nameById(id) == b.nameById(id)) && b.address(0, 1).Some?
    ensures (forall objects, got :: Bounded(a, b.(got := got), objects)) <==> (forall n :: Counted(a, b, n))
  {
    hide Counted, Bounded;
    if forall n :: Counted(a, b, n) {
      forall objects, got ensures Bounded(a, b.(got := got), objects) {
        SameCounted(a, b, got);
        CountsBound(a, b.(got := got), objects);
      }
    }
    if forall objects, got :: Bounded(a, b.(got := got), objects) {
      forall n ensures Counted(a, b, n) {
        assert Bounded(a, b.(got := []), [OneSlot(n)]);
        OneSlotExactly(a, b.(got := []), n);
        SameCounted(a, b, []);
      }
    }
  }

  lemma {:induction false} SameCounted(a: View, b: View, got: seq<nat>)
    ensures forall n :: Counted(a, b.(got := got), n) <==> Counted(a, b, n)
  {
  }

  /** An object whose only relocation is a 64-bit slot for `name`. */
  function OneSlot(name: Name): InputObject {
    InputObject("", [SLOT_SECTION], [InputSymbol(0, name, Global, true, false, false, 0, 0, None, 0, 0)],
                map[1 := 0], map[0 := 0], [])
  }

  const SLOT_RELOC := InputReloc(0, R64, 0, 0)
  const SLOT_SECTION := InputSection(1, [], OtherKind, 1, Zeros(8), 8, 8, {Alloc, Write}, [SLOT_RELOC])

  lemma {:induction false} OneSlotExactly(a: View, b: View, name: Name)
    requires b.got == [] && b.address(0, 1).Some?
    ensures Bounded(a, b, [OneSlot(name)]) <==> Counted(a, b, name)
  {
    var objects, s := [OneSlot(name)], Site(0, SLOT_SECTION, SLOT_RELOC);
    hide Counted, Sites, AllCounts, AllData, AllSymbolic, CountAt, DataAt, SymbolicAt, RowsOf, Sort, Within;
    SlotIsSite(name);
    CountsOfOne(a, objects, s, b.got);
    RowsOfOne(b, objects, s);
    SortKeeps(AllData(b, objects, false));
    SortKeeps(AllData(b, objects, true));
    SortKeeps(AllSymbolic(b, objects));
    SiteExactly(a, b, objects, s);
  }

  lemma {:induction false} SlotIsSite(name: Name)
    ensures Sites([OneSlot(name)], 1) == [Site(0, SLOT_SECTION, SLOT_RELOC)]
    ensures OneSlot(name).SymbolByIndex(0).Some? && OneSlot(name).SymbolByIndex(0).value.binding == Global
            && OneSlot(name).SymbolByIndex(0).value.name == name
  {
    hide SecSites;
    OneSite([OneSlot(name)], SLOT_SECTION, Site(0, SLOT_SECTION, SLOT_RELOC));
  }

  // ── A name that is defined in between ────────────────────────────────────

  /** Counted with `a`, collected with `b`: the linker defined `name` in between. */
  ghost predicate DefinedInBetween(a: View, b: View, name: Name) {
    a.lookup(name) == Some(UNDEFINED) && b.lookup(name) == Some(UNDEFINED.(definedIn := Some(0)))
  }

  /** A 64-bit slot for a name that is undefined when counted and defined by the linker afterwards is
      collected but not counted. */
  lemma {:induction false} LinkerSymbolUncounted(name: Name)
    ensures exists a: View, b: View ::
              DefinedInBetween(a, b, name) && AllCounts(a, [OneSlot(name)], b.got) == NONE_COUNTED
              && |AllData(b, [OneSlot(name)], false)| == 1
  {
    hide AllCounts, AllData, OneSlot;
    var a := View((n: Name) => Some(UNDEFINED), (i: nat) => None, (n: Name) => 0, (o: nat, s: nat) => Some(4096), [],
        0);
    var b := a.(lookup := (n: Name) => Some(UNDEFINED.(definedIn := Some(0))));
    assert DefinedInBetween(a, b, name) && b.got == [] && b.address(0, 1) == Some(4096);
    SlotUncounted(a, b, name);
  }

  lemma {:induction false} SlotUncounted(a: View, b: View, name: Name)
    requires DefinedInBetween(a, b, name) && b.got == [] && b.address(0, 1).Some?
    ensures AllCounts(a, [OneSlot(name)], b.got) == NONE_COUNTED && |AllData(b, [OneSlot(name)], false)| == 1
  {
    var objects, s := [OneSlot(name)], Site(0, SLOT_SECTION, SLOT_RELOC);
    hide Sites, AllCounts, AllData, AllSymbolic, CountAt, DataAt, SymbolicAt, RowsOf;
    SlotIsSite(name);
    CountsOfOne(a, objects, s, b.got);
    RowsOfOne(b, objects, s);
    UncountedAt(a, b, objects, s);
  }

  lemma {:induction false} UncountedAt(a: View, b: View, objects: seq<InputObject>, s: Site)
    requires s.o < |objects| && s.r.rType == R64 && b.address(s.o, s.sec.index).Some?
    requires var sym := objects[s.o].SymbolByIndex(s.r.symbol);
             sym.Some? && sym.value.binding == Global && DefinedInBetween(a, b, sym.value.name)
    ensures CountAt(a, objects, s) == NONE_COUNTED && |RowsOf(DataAt(b, objects, s), false)| == 1
  {
  }

  lemma {:induction false} CountsOfOne(v: View, objects: seq<InputObject>, s: Site, got: seq<nat>)
    requires |objects| == 1 && s.o == 0 && Sites(objects, 1) == [s] && got == []
    ensures AllCounts(v, objects, got) == CountAt(v, objects, s)
  {
    hide CountAt, Sites;
    assert CountSites(v, objects, []) == NONE_COUNTED && [] + [s] == [s];
    CountPush(v, objects, [], s);
  }

  lemma {:induction false} RowsOfOne(v: View, objects: seq<InputObject>, s: Site)
    requires |objects| == 1 && s.o == 0 && Sites(objects, 1) == [s] && v.got == []
    ensures forall ifunc :: AllData(v, objects, ifunc) == RowsOf(DataAt(v, objects, s), ifunc)
    ensures AllSymbolic(v, objects) == match SymbolicAt(v, objects, s) case Some(row) => [row] case None => []
  {
    hide DataAt, SymbolicAt, Sites, RowsOf;
    assert (forall ifunc :: DataRows(v, objects, [], ifunc) == []) && SymbolicRows(v, objects, []) == []
           && [] + [s] == [s];
    OneMoreSite(v, objects, [], s);
  }

  lemma {:induction false} OneSite(objects: seq<InputObject>, sec: InputSection, s: Site)
    requires |objects| == 1 && objects[0].sections == [sec] && |sec.relocs| == 1 && Alloc in sec.flags
             && s == Site(0, sec, sec.relocs[0])
    ensures Sites(objects, 1) == [s]
  {
    assert [sec][..0] == [];
    assert ObjSites(0, [sec]) == [] + SecSites(0, sec);
    assert Sites(objects, 1) == [] + ObjSites(0, [sec]);
  }
}
