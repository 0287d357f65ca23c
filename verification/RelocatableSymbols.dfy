/** The symbols and relocations of a partial link, and what each relocation means afterwards
    (`peony-emit/src/relocatable.rs:66-96`, `148-276`). */
module RelocatableSymbols {
  import opened Bytes
  import opened Reloc
  import opened Objects
  import opened Symbols
  import opened Tables
  import opened Relocatable

  // ── String table ─────────────────────────────────────────────────────────

  /** A string table that gives equal names one offset. */
  class StrTab {
    var bytes: seq<byte>
    var seen: map<Name, nat>

    /** While offsets fit in 32 bits, every name that was given one can be read there. */
    ghost predicate Valid()
      reads this
    {
      && bytes != [] && bytes[0] == 0
      && (|bytes| <= TWO32 ==> AllRead(bytes, seen))
    }

    constructor ()
      ensures Valid() && bytes == [0] && seen == map[]
    {
      bytes, seen := [0], map[];
    }

    method Intern(s: Name) returns (off: nat)
      requires Valid()
      modifies this
      ensures Valid()
      ensures |bytes| <= TWO32 ==> ReadsString(bytes, off, s)
      ensures old(bytes) <= bytes
      ensures s in old(seen) ==> off == old(seen)[s] || s == []
      ensures seen == if s == [] || s in old(seen) then old(seen) else old(seen)[s := off]
    {
      if s == [] {
        ReadsEmpty(bytes);
        return 0;
      }
      if s in seen { return seen[s]; }
      off := |bytes| % TWO32;
      Grows(bytes, s, seen, off);
      bytes := bytes + s + [0];
      seen := seen[s := off];
    }
  }

  ghost predicate AllRead(bytes: seq<byte>, seen: map<Name, nat>) {
    forall n | n in seen :: ReadsString(bytes, seen[n], n)
  }

  lemma {:induction false} ReadsEmpty(bytes: seq<byte>)
    requires bytes != [] && bytes[0] == 0
    ensures ReadsString(bytes, 0, [])
  {
    assert bytes[0..0] == [];
  }

  lemma {:induction false} Grows(bytes: seq<byte>, s: Name, seen: map<Name, nat>, off: nat)
    requires bytes != [] && bytes[0] == 0 && off == |bytes| % TWO32
    requires |bytes| <= TWO32 ==> AllRead(bytes, seen)
    ensures var now := bytes + s + [0];
            now[0] == 0 && bytes <= now && (|now| <= TWO32 ==> AllRead(now, seen[s := off]) && ReadsString(now, off, s))
  {
    hide ReadsString;
    var now := bytes + s + [0];
    assert now == bytes + (s + [0]);
    if |now| <= TWO32 {
      StringAppended(bytes, s);
      forall n | n in seen ensures ReadsString(now, seen[n], n) {
        StringStays(bytes, s + [0], seen[n], n);
      }
    }
  }

  /** What was read back stays readable as the table grows. */
  lemma {:induction false} StillReads(bytes: seq<byte>, now: seq<byte>, off: nat, n: Name)
    requires bytes <= now && ReadsString(bytes, off, n)
    ensures ReadsString(now, off, n)
  {
    assert now == bytes + now[|bytes|..];
    hide ReadsString;
    StringStays(bytes, now[|bytes|..], off, n);
  }

  // ── Symbols ──────────────────────────────────────────────────────────────

  const SHN_UNDEF := 0
  const SHN_LORESERVE := 0xff00
  const SHN_ABS := 0xfff1
  const SHN_COMMON := 0xfff2
  const STT_FILE := 4

  /** A symbol table entry: name offset, binding and type, visibility, section index, value, size. */
  datatype OutSym = OutSym(name: nat, info: nat, other: nat, shndx: nat, value: nat, size: nat)

  const NULL_SYM := OutSym(0, 0, 0, 0, 0, 0)

  /** Binding in the upper half, type in the lower: LOCAL is 0, GLOBAL 1, WEAK 2. */
  function StInfo(bind: nat, stType: nat): nat { bind * 16 + stType % 16 }

  /** The header index of an output section has 16 bits. */
  function Shndx(i: nat): nat { (i + 1) % TWO16 }

  function PlacedAt(objects: seq<InputObject>, placement: Placements, o: nat, raw: nat): Option<(nat, nat)> {
    if o >= |objects| then None
    else
      match objects[o].SectionPos(raw)
      case None => None
      case Some(pos) => if (o, pos) in placement then Some(placement[(o, pos)]) else None
  }

  /** The entry of a local symbol, but for its name; `None` when its section is not kept. */
  function LocalEntry(objects: seq<InputObject>, placement: Placements, o: nat, sym: InputSymbol): Option<OutSym> {
    var info := StInfo(0, sym.stType);
    if sym.stType == STT_FILE || sym.section.None?
        then Some(OutSym(0, info, sym.visibility, SHN_ABS, sym.value, sym.size))
    else
      match PlacedAt(objects, placement, o, sym.section.value)
      case None => None
      case Some((out, off)) => Some(OutSym(0, info, sym.visibility, Shndx(out), sym.value + off, sym.size))
  }

  /** The entry of a merged global symbol, but for its name. */
  function GlobalEntry(objects: seq<InputObject>, placement: Placements, res: Resolution): OutSym {
    var bind := if res.binding == Weak then 2 else 1;
    var info := StInfo(bind, res.stType);
    var undefined := OutSym(0, StInfo(bind, 0), res.visibility, SHN_UNDEF, 0, 0);
    if res.common.Some? then OutSym(0, StInfo(bind, 1), res.visibility, SHN_COMMON, res.common.value.1,
        res.common.value.0)
    else if res.definedIn.Some? && res.section.Some? then
      match PlacedAt(objects, placement, res.definedIn.value, res.section.value)
      case Some((out, off)) => OutSym(0, info, res.visibility, Shndx(out), res.value + off, res.size)
      case None => undefined
    else if res.definedIn.Some? then OutSym(0, info, res.visibility, SHN_ABS, res.value, res.size)
    else undefined
  }

  /** Entry `i` is `entry`, and its name reads back. */
  predicate EntryIs(syms: seq<OutSym>, strings: seq<byte>, i: nat, name: Name, entry: OutSym) {
    && i < |syms| && syms[i] == entry.(name := syms[i].name)
    && (|strings| <= TWO32 ==> ReadsString(strings, syms[i].name, name))
  }

  predicate LocalDone(objects: seq<InputObject>, placement: Placements, syms: seq<OutSym>, strings: seq<byte>,
                      localMap: map<(nat, nat), nat>, o: nat, pos: nat)
    requires o < |objects| && pos < |objects[o].symbols|
  {
    var sym := objects[o].symbols[pos];
    match LocalEntry(objects, placement, o, sym)
    case None => true
    case Some(entry) =>
      sym.binding == Local ==>
        (o, sym.index) in localMap && EntryIs(syms, strings, localMap[(o, sym.index)], sym.name, entry)
  }

  /** The local symbols before `(o, n)` have their entries; only local symbols do. */
  ghost predicate LocalsDone(objects: seq<InputObject>, placement: Placements, syms: seq<OutSym>, strings: seq<byte>,
                             localMap: map<(nat, nat), nat>, o: nat, n: nat) {
    && (forall u, p | 0 <= u < |objects| && 0 <= p < |objects[u].symbols| && (u < o || (u == o && p < n)) ::
          LocalDone(objects, placement, syms, strings, localMap, u, p))
    && (forall key | key in localMap :: key.0 < |objects| && exists p :: LocalAt(objects[key.0], p, key.1))
  }

  predicate LocalAt(obj: InputObject, p: int, raw: nat) {
    0 <= p < |obj.symbols| && obj.symbols[p].index == raw && obj.symbols[p].binding == Local
  }

  ghost predicate AllIndexed(objects: seq<InputObject>) {
    forall o | 0 <= o < |objects| :: objects[o].Indexed()
  }

  lemma {:induction false} AddLocal(objects: seq<InputObject>, placement: Placements, syms: seq<OutSym>,
          strings: seq<byte>, localMap: map<(nat, nat), nat>, o: nat, n: nat, now: seq<byte>, s: OutSym)
    requires AllIndexed(objects) && LocalsDone(objects, placement, syms, strings, localMap, o, n)
    requires o < |objects| && n < |objects[o].symbols| && strings <= now
    requires var sym := objects[o].symbols[n];
             sym.binding == Local && LocalEntry(objects, placement, o, sym) == Some(s.(name := 0))
             && (|now| <= TWO32 ==> ReadsString(now, s.name, sym.name))
    ensures LocalsDone(objects, placement, syms + [s], now, localMap[(o, objects[o].symbols[n].index) := |syms|], o,
            n + 1)
  {
    var key := (o, objects[o].symbols[n].index);
    var map2 := localMap[key := |syms|];
    forall u, p | 0 <= u < |objects| && 0 <= p < |objects[u].symbols| && (u < o || (u == o && p < n + 1))
      ensures LocalDone(objects, placement, syms + [s], now, map2, u, p)
    {
      if u == o && p == n {
        hide LocalEntry, ReadsString;
      } else {
        assert LocalDone(objects, placement, syms, strings, localMap, u, p);
        hide LocalsDone, LocalEntry;
        DistinctSymbols(objects, u, p, o, n);
        KeepEntry(objects, placement, syms, strings, localMap, u, p, now, s, key);
      }
    }
    hide AllIndexed, LocalDone, LocalEntry;
    assert LocalAt(objects[o], n, key.1);
    forall k | k in map2
      ensures k.0 < |objects| && exists p :: LocalAt(objects[k.0], p, k.1)
    {
    }
  }

  lemma {:induction false} DistinctSymbols(objects: seq<InputObject>, u: nat, p: nat, o: nat, n: nat)
    requires AllIndexed(objects) && u < |objects| && p < |objects[u].symbols| && o < |objects|
             && n < |objects[o].symbols|
    requires (u, p) != (o, n)
    ensures (u, objects[u].symbols[p].index) != (o, objects[o].symbols[n].index)
  {
    assert objects[u].Indexed() && objects[o].Indexed();
    assert objects[u].SymbolPos(objects[u].symbols[p].index) == Some(p)
           && objects[o].SymbolPos(objects[o].symbols[n].index) == Some(n);
  }

  lemma {:induction false} KeepEntry(objects: seq<InputObject>, placement: Placements, syms: seq<OutSym>,
          strings: seq<byte>, localMap: map<(nat, nat), nat>, u: nat, p: nat, now: seq<byte>, s: OutSym,
                                         key: (nat, nat))
    requires u < |objects| && p < |objects[u].symbols| && LocalDone(objects, placement, syms, strings, localMap, u, p)
    requires strings <= now && key != (u, objects[u].symbols[p].index)
    ensures LocalDone(objects, placement, syms + [s], now, localMap[key := |syms|], u, p)
  {
    hide LocalEntry, ReadsString;
    var sym := objects[u].symbols[p];
    var k := (u, sym.index);
    if sym.binding == Local && LocalEntry(objects, placement, u, sym).Some? {
      KeepOne(syms, strings, localMap[k], sym.name, LocalEntry(objects, placement, u, sym).value, now, s);
    }
  }

  lemma {:induction false} KeepOne(syms: seq<OutSym>, strings: seq<byte>, i: nat, name: Name, entry: OutSym,
          now: seq<byte>, s: OutSym)
    requires EntryIs(syms, strings, i, name, entry) && strings <= now
    ensures EntryIs(syms + [s], now, i, name, entry)
  {
    hide ReadsString;
    if |now| <= TWO32 { StillReads(strings, now, syms[i].name, name); }
  }

  lemma {:induction false} SkipLocal(objects: seq<InputObject>, placement: Placements, syms: seq<OutSym>,
          strings: seq<byte>, localMap: map<(nat, nat), nat>, o: nat, n: nat)
    requires LocalsDone(objects, placement, syms, strings, localMap, o, n) && o < |objects|
    ensures n < |objects[o].symbols|
            && (objects[o].symbols[n].binding != Local
               || LocalEntry(objects, placement, o, objects[o].symbols[n]).None?) ==>
              LocalsDone(objects, placement, syms, strings, localMap, o, n + 1)
    ensures n == |objects[o].symbols| ==> LocalsDone(objects, placement, syms, strings, localMap, o + 1, 0)
  {
    hide LocalEntry, EntryIs, LocalAt;
  }

  /** Locals first: one entry for each local symbol whose section is kept. */
  method MergeLocals(objects: seq<InputObject>, placement: Placements, strtab: StrTab)
    returns (syms: seq<OutSym>, localMap: map<(nat, nat), nat>)
    requires AllIndexed(objects) && strtab.Valid()
    modifies strtab
    ensures strtab.Valid() && syms != [] && syms[0] == NULL_SYM
    ensures LocalsDone(objects, placement, syms, strtab.bytes, localMap, |objects|, 0)
  {
    hide LocalsDone, ReadsString, AllRead, AllIndexed, LocalEntry;
    syms, localMap := [NULL_SYM], map[];
    NoLocals(objects, placement, syms, strtab.bytes);
    for o := 0 to |objects|
      invariant strtab.Valid() && syms != [] && syms[0] == NULL_SYM
      invariant LocalsDone(objects, placement, syms, strtab.bytes, localMap, o, 0)
    {
      for n := 0 to |objects[o].symbols|
        invariant strtab.Valid() && syms != [] && syms[0] == NULL_SYM
        invariant LocalsDone(objects, placement, syms, strtab.bytes, localMap, o, n)
      {
        var sym := objects[o].symbols[n];
        SkipLocal(objects, placement, syms, strtab.bytes, localMap, o, n);
        var entry := LocalEntry(objects, placement, o, sym);
        if sym.binding == Local && entry.Some? {
          ghost var was := strtab.bytes;
          var stName := strtab.Intern(sym.name);
          Unnamed(objects, placement, o, sym, stName);
          AddLocal(objects, placement, syms, was, localMap, o, n, strtab.bytes, entry.value.(name := stName));
          localMap := localMap[(o, sym.index) := |syms|];
          syms := syms + [entry.value.(name := stName)];
        }
      }
      SkipLocal(objects, placement, syms, strtab.bytes, localMap, o, |objects[o].symbols|);
    }
  }

  lemma {:induction false} Unnamed(objects: seq<InputObject>, placement: Placements, o: nat, sym: InputSymbol,
          name: nat)
    ensures LocalEntry(objects, placement, o, sym).Some? ==>
              LocalEntry(objects, placement, o, sym).value.(name := name).(name := 0)
                  == LocalEntry(objects, placement, o, sym).value
  {
  }

  lemma {:induction false} NoLocals(objects: seq<InputObject>, placement: Placements, syms: seq<OutSym>,
          strings: seq<byte>)
    ensures LocalsDone(objects, placement, syms, strings, map[], 0, 0)
  {
  }

  // ── Globals ──────────────────────────────────────────────────────────────

  /** The names in `done` have their entries. */
  ghost predicate GlobalsDone(objects: seq<InputObject>, placement: Placements, symbols: map<Name, Resolution>,
          syms: seq<OutSym>, strings: seq<byte>, globalIndex: map<Name, nat>, done: set<Name>) {
    && globalIndex.Keys == done && done <= symbols.Keys
    && forall n | n in globalIndex ::
       EntryIs(syms, strings, globalIndex[n], n, GlobalEntry(objects, placement, symbols[n]))
  }

  lemma {:induction false} AddGlobal(objects: seq<InputObject>, placement: Placements,
          symbols: map<Name, Resolution>, syms: seq<OutSym>,
                                     strings: seq<byte>, globalIndex: map<Name, nat>, done: set<Name>, n: Name,
                                         now: seq<byte>, s: OutSym)
    requires GlobalsDone(objects, placement, symbols, syms, strings, globalIndex, done) && n in symbols && n !in done
    requires strings <= now && s.(name := 0) == GlobalEntry(objects, placement, symbols[n])
    requires |now| <= TWO32 ==> ReadsString(now, s.name, n)
    ensures GlobalsDone(objects, placement, symbols, syms + [s], now, globalIndex[n := |syms|], done + {n})
  {
    hide GlobalEntry, ReadsString;
    var index := globalIndex[n := |syms|];
    forall m | m in index
      ensures EntryIs(syms + [s], now, index[m], m, GlobalEntry(objects, placement, symbols[m]))
    {
      if m != n { KeepOne(syms, strings, globalIndex[m], m, GlobalEntry(objects, placement, symbols[m]), now, s); }
    }
  }

  lemma {:induction false} KeepLocals(objects: seq<InputObject>, placement: Placements, syms: seq<OutSym>,
          strings: seq<byte>, localMap: map<(nat, nat), nat>, now: seq<byte>, s: OutSym)
    requires LocalsDone(objects, placement, syms, strings, localMap, |objects|, 0) && strings <= now
    ensures LocalsDone(objects, placement, syms + [s], now, localMap, |objects|, 0)
  {
    hide LocalEntry, EntryIs, LocalAt;
    forall u, p | 0 <= u < |objects| && 0 <= p < |objects[u].symbols|
      ensures LocalDone(objects, placement, syms + [s], now, localMap, u, p)
    {
      assert LocalDone(objects, placement, syms, strings, localMap, u, p);
      var sym := objects[u].symbols[p];
      if sym.binding == Local && LocalEntry(objects, placement, u, sym).Some? {
        KeepOne(syms, strings, localMap[(u, sym.index)], sym.name, LocalEntry(objects, placement, u, sym).value, now,
            s);
      }
    }
  }

  /** Then one entry for each resolved name, in the table's own order. */
  method MergeSymbols(objects: seq<InputObject>, placement: Placements, symbols: map<Name, Resolution>)
    returns (syms: seq<OutSym>, strings: seq<byte>, localMap: map<(nat, nat), nat>, globalIndex: map<Name, nat>)
    requires AllIndexed(objects)
    ensures syms != [] && syms[0] == NULL_SYM
    ensures LocalsDone(objects, placement, syms, strings, localMap, |objects|, 0)
    ensures GlobalsDone(objects, placement, symbols, syms, strings, globalIndex, symbols.Keys)
  {
    hide LocalsDone, GlobalsDone, ReadsString, AllRead, AllIndexed, GlobalEntry;
    var strtab := new StrTab();
    syms, localMap := MergeLocals(objects, placement, strtab);
    globalIndex := map[];
    var rest := symbols.Keys;
    NoGlobals(objects, placement, symbols, syms, strtab.bytes);
    while rest != {}
      invariant rest <= symbols.Keys && strtab.Valid() && syms != [] && syms[0] == NULL_SYM
      invariant fresh(strtab)
      invariant LocalsDone(objects, placement, syms, strtab.bytes, localMap, |objects|, 0)
      invariant GlobalsDone(objects, placement, symbols, syms, strtab.bytes, globalIndex, symbols.Keys - rest)
      decreases rest
    {
      var name :| name in rest;
      ghost var was := strtab.bytes;
      var stName := strtab.Intern(name);
      var entry := GlobalEntry(objects, placement, symbols[name]).(name := stName);
      UnnamedGlobal(objects, placement, symbols[name], stName);
      AddGlobal(objects, placement, symbols, syms, was, globalIndex, symbols.Keys - rest, name, strtab.bytes, entry);
      KeepLocals(objects, placement, syms, was, localMap, strtab.bytes, entry);
      assert symbols.Keys - rest + {name} == symbols.Keys - (rest - {name});
      globalIndex := globalIndex[name := |syms|];
      syms := syms + [entry];
      rest := rest - {name};
    }
    assert symbols.Keys - {} == symbols.Keys;
    strings := strtab.bytes;
  }

  lemma {:induction false} UnnamedGlobal(objects: seq<InputObject>, placement: Placements, res: Resolution, name: nat)
    ensures GlobalEntry(objects, placement, res).(name := name).(name := 0) == GlobalEntry(objects, placement, res)
  {
  }

  lemma {:induction false} NoGlobals(objects: seq<InputObject>, placement: Placements,
          symbols: map<Name, Resolution>, syms: seq<OutSym>, strings: seq<byte>)
    ensures symbols.Keys - symbols.Keys == {} && GlobalsDone(objects, placement, symbols, syms, strings, map[], {})
  {
  }

  // ── Pass 3: relocations ──────────────────────────────────────────────────

  datatype OutReloc = OutReloc(offset: nat, sym: nat, rType: RType, addend: int)

  /** The merged entry of an input symbol: its own for a kept local, else the one of its name, else none. */
  function OutSymFor(objects: seq<InputObject>, localMap: map<(nat, nat), nat>, globalIndex: map<Name, nat>,
          o: nat, raw: nat): nat
    requires o < |objects|
  {
    if (o, raw) in localMap then localMap[(o, raw)]
    else
      match objects[o].SymbolByIndex(raw)
      case None => 0
      case Some(s) => if s.name in globalIndex then globalIndex[s.name] else 0
  }

  function OutRelocOf(objects: seq<InputObject>, localMap: map<(nat, nat), nat>, globalIndex: map<Name, nat>,
          part: Part, r: InputReloc): OutReloc
    requires part.o < |objects|
  {
    OutReloc(part.offset + r.offset, OutSymFor(objects, localMap, globalIndex, part.o, r.symbol), r.rType, r.addend)
  }

  /** Where the relocations of part `k` begin. */
  function RelocsBefore(objects: seq<InputObject>, parts: seq<Part>, k: nat): nat
    requires k <= |parts| && forall j | 0 <= j < |parts| :: Has(objects, parts[j].o, parts[j].pos)
  {
    if k == 0 then 0
    else
      RelocsBefore(objects, parts, k - 1)
        + |SecAt(objects, parts[k - 1].o, parts[k - 1].pos).relocs|
  }

  ghost predicate RelocsDone(objects: seq<InputObject>, localMap: map<(nat, nat), nat>, globalIndex: map<Name, nat>,
                             parts: seq<Part>, out: seq<OutReloc>, k: nat, n: nat)
    requires k <= |parts| && forall j | 0 <= j < |parts| :: Has(objects, parts[j].o, parts[j].pos)
  {
    && |out| == RelocsBefore(objects, parts, k) + n
    && (k < |parts| ==> n <= |SecAt(objects, parts[k].o, parts[k].pos).relocs|) && (k == |parts| ==> n == 0)
    && forall j, i | 0 <= j <= k && j < |parts| && 0 <= i < |SecAt(objects, parts[j].o, parts[j].pos).relocs|
       && (j < k || i < n) ::
         RelocDone(objects, localMap, globalIndex, parts, out, j, i)
  }

  /** Relocation `i` of part `j` is in its place in the output. */
  predicate RelocDone(objects: seq<InputObject>, localMap: map<(nat, nat), nat>, globalIndex: map<Name, nat>,
                      parts: seq<Part>, out: seq<OutReloc>, j: nat, i: nat)
    requires j < |parts| && forall u | 0 <= u < |parts| :: Has(objects, parts[u].o, parts[u].pos)
    requires i < |SecAt(objects, parts[j].o, parts[j].pos).relocs|
  {
    var at := RelocsBefore(objects, parts, j) + i;
    at < |out| && out[at] == OutRelocOf(objects, localMap, globalIndex, parts[j],
        SecAt(objects, parts[j].o, parts[j].pos).relocs[i])
  }

  lemma {:induction false} RelocStep(objects: seq<InputObject>, localMap: map<(nat, nat), nat>,
          globalIndex: map<Name, nat>,
                                     parts: seq<Part>, out: seq<OutReloc>, k: nat, n: nat)
    requires k < |parts| && forall j | 0 <= j < |parts| :: Has(objects, parts[j].o, parts[j].pos)
    requires RelocsDone(objects, localMap, globalIndex, parts, out, k, n)
    ensures n < |SecAt(objects, parts[k].o, parts[k].pos).relocs| ==>
              RelocsDone(objects, localMap, globalIndex, parts,
                         out + [OutRelocOf(objects, localMap, globalIndex, parts[k],
                             SecAt(objects, parts[k].o, parts[k].pos).relocs[n])], k, n + 1)
    ensures n == |SecAt(objects, parts[k].o, parts[k].pos).relocs| ==>
            RelocsDone(objects, localMap, globalIndex, parts, out, k + 1, 0)
  {
    assert parts[k].o < |objects|;
    hide OutRelocOf, SecAt, Has;
    if n < |SecAt(objects, parts[k].o, parts[k].pos).relocs| {
      var now := out + [OutRelocOf(objects, localMap, globalIndex, parts[k],
          SecAt(objects, parts[k].o, parts[k].pos).relocs[n])];
      forall j, i | 0 <= j <= k && 0 <= i < |SecAt(objects, parts[j].o, parts[j].pos).relocs| && (j < k || i < n + 1)
        ensures RelocDone(objects, localMap, globalIndex, parts, now, j, i)
      {
        if !(j == k && i == n) { assert RelocDone(objects, localMap, globalIndex, parts, out, j, i); }
      }
    }
  }

  /** The relocations of one output section: those of its parts in order, shifted by the part. */
  method BuildRela(objects: seq<InputObject>, out: OutSection, localMap: map<(nat, nat), nat>,
          globalIndex: map<Name, nat>)
    returns (rela: seq<OutReloc>)
    requires forall j | 0 <= j < |out.parts| :: Has(objects, out.parts[j].o, out.parts[j].pos)
    ensures RelocsDone(objects, localMap, globalIndex, out.parts, rela, |out.parts|, 0)
  {
    hide RelocsDone, OutSymFor;
    rela := [];
    NoRelocs(objects, localMap, globalIndex, out.parts);
    for k := 0 to |out.parts|
      invariant RelocsDone(objects, localMap, globalIndex, out.parts, rela, k, 0)
    {
      var sec := SecAt(objects, out.parts[k].o, out.parts[k].pos);
      for n := 0 to |sec.relocs|
        invariant RelocsDone(objects, localMap, globalIndex, out.parts, rela, k, n)
      {
        RelocStep(objects, localMap, globalIndex, out.parts, rela, k, n);
        rela := rela + [OutRelocOf(objects, localMap, globalIndex, out.parts[k], sec.relocs[n])];
      }
      RelocStep(objects, localMap, globalIndex, out.parts, rela, k, |sec.relocs|);
    }
  }

  lemma {:induction false} NoRelocs(objects: seq<InputObject>, localMap: map<(nat, nat), nat>,
          globalIndex: map<Name, nat>, parts: seq<Part>)
    requires forall j | 0 <= j < |parts| :: Has(objects, parts[j].o, parts[j].pos)
    ensures RelocsDone(objects, localMap, globalIndex, parts, [], 0, 0)
  {
  }

  // ── What a relocation means ──────────────────────────────────────────────

  /** The address of an input symbol when the output sections sit at `base` and the input sections where
      they were placed; a global name means its resolution. */
  function InputAddress(base: nat -> int, objects: seq<InputObject>, placement: Placements,
          symbols: map<Name, Resolution>,
                        o: nat, sym: InputSymbol): Option<int> {
    if sym.binding == Local then
      if sym.stType == STT_FILE || sym.section.None? then Some(sym.value)
      else
        match PlacedAt(objects, placement, o, sym.section.value)
        case None => None
        case Some((out, off)) => Some(base(out) + off + sym.value)
    else if sym.name !in symbols then None
    else
      var res := symbols[sym.name];
      if res.common.Some? || res.definedIn.None? then None
      else if res.section.None? then Some(res.value)
      else
        match PlacedAt(objects, placement, res.definedIn.value, res.section.value)
        case None => None
        case Some((out, off)) => Some(base(out) + off + res.value)
  }

  /** The address of an entry of the merged object with the same output sections; indices from
      `SHN_LORESERVE` on name no section (gABI chapter 4, "Sections"). */
  function OutputAddress(base: nat -> int, s: OutSym): Option<int> {
    if s.shndx == SHN_ABS then Some(s.value)
    else if s.shndx == SHN_UNDEF || s.shndx >= SHN_LORESERVE then None
    else Some(base(s.shndx - 1) + s.value)
  }

  /** Section header indices are not confused with the reserved ones. */
  predicate FewSections(outs: seq<OutSection>) { |outs| < SHN_LORESERVE }

  lemma {:induction false} PlacedInside(objects: seq<InputObject>, outs: seq<OutSection>, placement: Placements,
          o: nat, raw: nat)
    requires SectionsMerged(objects, outs, placement)
    ensures match PlacedAt(objects, placement, o, raw) case None => true case Some((out, off)) => out < |outs|
  {
    hide PartOk, PartsApart;
    match PlacedAt(objects, placement, o, raw)
    case None =>
    case Some((out, off)) =>
      var pos := objects[o].SectionPos(raw).value;
      assert IsPart(outs, placement[(o, pos)], o, pos);
  }

  lemma {:induction false} LocalAddress(base: nat -> int, objects: seq<InputObject>, outs: seq<OutSection>,
          placement: Placements, symbols: map<Name, Resolution>, o: nat, sym: InputSymbol)
    requires SectionsMerged(objects, outs, placement) && FewSections(outs) && sym.binding == Local
    ensures LocalEntry(objects, placement, o, sym).Some? <==>
            InputAddress(base, objects, placement, symbols, o, sym).Some?
    ensures match LocalEntry(objects, placement, o, sym) case None => true
            case Some(entry) => OutputAddress(base, entry) == InputAddress(base, objects, placement, symbols, o, sym)
  {
    if sym.section.Some? { PlacedInside(objects, outs, placement, o, sym.section.value); }
    hide PlacedAt, SectionsMerged;
  }

  lemma {:induction false} GlobalAddress(base: nat -> int, objects: seq<InputObject>, outs: seq<OutSection>,
          placement: Placements, symbols: map<Name, Resolution>, o: nat, sym: InputSymbol)
    requires SectionsMerged(objects, outs, placement) && FewSections(outs) && sym.binding != Local
             && sym.name in symbols
    ensures OutputAddress(base, GlobalEntry(objects, placement, symbols[sym.name]))
            == InputAddress(base, objects, placement, symbols, o, sym)
  {
    var res := symbols[sym.name];
    if res.definedIn.Some? && res.section.Some? { PlacedInside(objects, outs, placement, res.definedIn.value,
        res.section.value); }
    hide PlacedAt, SectionsMerged;
  }

  lemma {:induction false} SymbolAddress(base: nat -> int, objects: seq<InputObject>, outs: seq<OutSection>,
          placement: Placements, symbols: map<Name, Resolution>, syms: seq<OutSym>, strings: seq<byte>,
                                         localMap: map<(nat, nat), nat>, globalIndex: map<Name, nat>, o: nat,
                                             raw: nat, sym: InputSymbol)
    requires SectionsMerged(objects, outs, placement) && FewSections(outs) && AllIndexed(objects) && o < |objects|
    requires LocalsDone(objects, placement, syms, strings, localMap, |objects|, 0)
    requires GlobalsDone(objects, placement, symbols, syms, strings, globalIndex, symbols.Keys)
    requires objects[o].SymbolByIndex(raw) == Some(sym) && sym.index == raw
    requires InputAddress(base, objects, placement, symbols, o, sym).Some?
    ensures var i := OutSymFor(objects, localMap, globalIndex, o, raw);
            i < |syms| && OutputAddress(base, syms[i]) == InputAddress(base, objects, placement, symbols, o, sym)
            && (|strings| <= TWO32 ==> ReadsString(strings, syms[i].name, sym.name))
  {
    hide InputAddress, OutputAddress, LocalEntry, GlobalEntry, ReadsString, SectionsMerged, FewSections;
    var pos := objects[o].SymbolPos(raw).value;
    assert LocalDone(objects, placement, syms, strings, localMap, o, pos);
    if sym.binding == Local {
      LocalAddress(base, objects, outs, placement, symbols, o, sym);
      NameApart(base, LocalEntry(objects, placement, o, sym).value);
    } else {
      NotLocal(objects, placement, syms, strings, localMap, o, raw, pos);
      NamedSymbol(base, objects, placement, symbols, o, sym);
      GlobalAddress(base, objects, outs, placement, symbols, o, sym);
      NameApart(base, GlobalEntry(objects, placement, symbols[sym.name]));
    }
  }

  /** The address of an entry does not depend on its name. */
  lemma {:induction false} NameApart(base: nat -> int, entry: OutSym)
    ensures forall name: nat {:trigger entry.(name := name)} ::
            OutputAddress(base, entry.(name := name)) == OutputAddress(base, entry)
  {
  }

  lemma {:induction false} NamedSymbol(base: nat -> int, objects: seq<InputObject>, placement: Placements,
          symbols: map<Name, Resolution>, o: nat, sym: InputSymbol)
    requires InputAddress(base, objects, placement, symbols, o, sym).Some? && sym.binding != Local
    ensures sym.name in symbols
  {
  }

  lemma {:induction false} NotLocal(objects: seq<InputObject>, placement: Placements, syms: seq<OutSym>,
          strings: seq<byte>, localMap: map<(nat, nat), nat>, o: nat, raw: nat, pos: nat)
    requires AllIndexed(objects) && LocalsDone(objects, placement, syms, strings, localMap, |objects|, 0)
             && o < |objects|
    requires pos < |objects[o].symbols| && objects[o].symbols[pos].index == raw
             && objects[o].symbols[pos].binding != Local
    ensures (o, raw) !in localMap
  {
    forall p
      ensures !LocalAt(objects[o], p, raw)
    {
      if 0 <= p < |objects[o].symbols| && p != pos { DistinctSymbols(objects, o, p, o, pos); }
    }
    hide LocalDone, LocalAt;
  }

  /** For every base assignment, a kept relocation whose target is defined in a kept section, or absolute,
      has the same place, type, addend and target after the merge. */
  lemma {:induction false} RelocationMeansTheSame(base: nat -> int, objects: seq<InputObject>,
          outs: seq<OutSection>, placement: Placements,
                                                  symbols: map<Name, Resolution>, syms: seq<OutSym>, strings: seq<byte>,
                                                  localMap: map<(nat, nat), nat>, globalIndex: map<Name, nat>,
                                                  o: nat, pos: nat, i: nat, sym: InputSymbol)
    requires SectionsMerged(objects, outs, placement) && FewSections(outs) && AllIndexed(objects)
    requires LocalsDone(objects, placement, syms, strings, localMap, |objects|, 0)
    requires GlobalsDone(objects, placement, symbols, syms, strings, globalIndex, symbols.Keys)
    requires (o, pos) in placement && Has(objects, o, pos) && i < |SecAt(objects, o, pos).relocs|
    requires var raw := SecAt(objects, o, pos).relocs[i].symbol;
             objects[o].SymbolByIndex(raw) == Some(sym) && sym.index == raw
    requires InputAddress(base, objects, placement, symbols, o, sym).Some?
    ensures var r := SecAt(objects, o, pos).relocs[i];
            var out := placement[(o, pos)].0;
            var k := OutRelocOf(objects, localMap, globalIndex, Part(o, pos, placement[(o, pos)].1), r);
            && out < |outs| && Part(o, pos, placement[(o, pos)].1) in outs[out].parts
            && base(out) + k.offset == base(out) + placement[(o, pos)].1 + r.offset && k.rType == r.rType
               && k.addend == r.addend
            && k.sym < |syms| && OutputAddress(base, syms[k.sym])
               == InputAddress(base, objects, placement, symbols, o, sym)
  {
    assert IsPart(outs, placement[(o, pos)], o, pos);
    hide SectionsMerged, LocalsDone, GlobalsDone, AllIndexed, InputAddress, OutputAddress, FewSections, OutSymFor;
    var r := SecAt(objects, o, pos).relocs[i];
    SymbolAddress(base, objects, outs, placement, symbols, syms, strings, localMap, globalIndex, o, r.symbol, sym);
  }

  // ── Section indices ──────────────────────────────────────────────────────

  /** The place of a symbol that is defined in a kept section. */
  function SymbolPlace(objects: seq<InputObject>, placement: Placements, symbols: map<Name, Resolution>, o: nat,
          sym: InputSymbol): Option<(nat, nat)> {
    if sym.binding == Local then
      if sym.stType == STT_FILE || sym.section.None? then None else PlacedAt(objects, placement, o, sym.section.value)
    else if sym.name !in symbols then None
    else
      var res := symbols[sym.name];
      if res.common.Some? || res.definedIn.None? || res.section.None? then None
      else PlacedAt(objects, placement, res.definedIn.value, res.section.value)
  }

  /** The entry of such a symbol, but for its name. */
  function EntryFor(objects: seq<InputObject>, placement: Placements, symbols: map<Name, Resolution>, o: nat,
          sym: InputSymbol): OutSym
    requires SymbolPlace(objects, placement, symbols, o, sym).Some?
  {
    if sym.binding == Local then LocalEntry(objects, placement, o, sym).value
    else GlobalEntry(objects, placement, symbols[sym.name])
  }

  /** Section `out` at 1 and every other one at 0. */
  function OneAt(out: nat): nat -> int { (x: nat) => if x == out then 1 else 0 }

  lemma {:induction false} IndexExactly(out: nat, entry: OutSym)
    requires entry.shndx == Shndx(out)
    ensures (forall base: nat -> int :: OutputAddress(base, entry) == Some(base(out) + entry.value)) <==>
            out + 1 < SHN_LORESERVE
  {
    var base := OneAt(out);
    assert base(out) == 1;
    if out + 1 >= SHN_LORESERVE {
      assert entry.shndx != out + 1 || entry.shndx >= SHN_LORESERVE;
      assert OutputAddress(base, entry) != Some(base(out) + entry.value);
    } else {
      assert entry.shndx == out + 1;
    }
  }

  /** A symbol's entry has the symbol's address for every base assignment exactly when its output section's
      header index is below the reserved ones: sections 0xfff0 and 0xfff1 read as absolute and common, and
      from 65535 on the 16-bit index wraps. */
  lemma {:induction false} SectionIndexExactly(objects: seq<InputObject>, placement: Placements,
          symbols: map<Name, Resolution>, o: nat, sym: InputSymbol)
    requires SymbolPlace(objects, placement, symbols, o, sym).Some?
    ensures (forall base :: OutputAddress(base, EntryFor(objects, placement, symbols, o, sym))
                            == InputAddress(base, objects, placement, symbols, o, sym))
            <==> SymbolPlace(objects, placement, symbols, o, sym).value.0 + 1 < SHN_LORESERVE
  {
    var out := SymbolPlace(objects, placement, symbols, o, sym).value.0;
    var entry := EntryFor(objects, placement, symbols, o, sym);
    forall base: nat -> int
      ensures InputAddress(base, objects, placement, symbols, o, sym) == Some(base(out) + entry.value)
    {
      PlaceAddress(base, objects, placement, symbols, o, sym);
    }
    PlaceAddress(OneAt(0), objects, placement, symbols, o, sym);
    hide SymbolPlace, EntryFor, InputAddress, OutputAddress;
    IndexExactly(out, entry);
  }

  lemma {:induction false} PlaceAddress(base: nat -> int, objects: seq<InputObject>, placement: Placements,
          symbols: map<Name, Resolution>, o: nat, sym: InputSymbol)
    requires SymbolPlace(objects, placement, symbols, o, sym).Some?
    ensures var (out, off) := SymbolPlace(objects, placement, symbols, o, sym).value;
            var entry := EntryFor(objects, placement, symbols, o, sym);
            entry.shndx == Shndx(out)
            && InputAddress(base, objects, placement, symbols, o, sym) == Some(base(out) + entry.value)
  {
    hide PlacedAt;
  }

  /** What becomes of a local symbol there: absolute in output section 0xfff0, common in 0xfff1, and
      undefined in 65535, whose header index wraps to 0. */
  lemma {:induction false} SectionIndexWraps(base: nat -> int, objects: seq<InputObject>, placement: Placements,
          symbols: map<Name, Resolution>, o: nat, sym: InputSymbol, out: nat, off: nat)
    requires sym.binding == Local && sym.stType != STT_FILE && sym.section.Some?
    requires PlacedAt(objects, placement, o, sym.section.value) == Some((out, off))
    ensures InputAddress(base, objects, placement, symbols, o, sym) == Some(base(out) + off + sym.value)
    ensures LocalEntry(objects, placement, o, sym).Some?
    ensures var entry := LocalEntry(objects, placement, o, sym).value;
            && (out == 0xfff0 ==> OutputAddress(base, entry) == Some(off + sym.value))
            && (out == 0xfff1 ==> entry.shndx == SHN_COMMON && OutputAddress(base, entry).None?)
            && (out == 65535 ==> entry.shndx == SHN_UNDEF && OutputAddress(base, entry).None?)
  {
    hide PlacedAt;
  }
}
