/** Red-green planning of a partial relink (`peony-cache/src/lib.rs:764-839`,
    `peony-cache/src/lib.rs:960-974`, `peony/src/main.rs:1409-1505`). */
module RelinkPlan {
  import opened Bytes
  import opened Objects
  import opened Symbols
  import opened SymbolTables
  import Emit
  import RI = ReverseIndex

  // ── Which relocation sits where, against whom ────────────────────────────

  /** One relocation of an emitted section: its output section, and the id of its non-local target. */
  datatype Entry = Entry(section: string, target: Option<nat>)

  function TargetOf(obj: InputObject, rel: InputReloc, t: Table): Option<nat> {
    match obj.SymbolByIndex(rel.symbol)
    case None => None
    case Some(sym) =>
      if sym.binding == Local then None
      else match t.Lookup(sym.name) case None => None case Some(r) => Some(r.id)
  }

  function RelocEntries(name: string, obj: InputObject, relocs: seq<InputReloc>, t: Table): seq<Entry> {
    if relocs == [] then []
    else [Entry(name, TargetOf(obj, relocs[0], t))] + RelocEntries(name, obj, relocs[1..], t)
  }

  function ContributionEntries(name: string, objects: seq<InputObject>, c: Emit.Contribution, t: Table): seq<Entry> {
    if c.objectId < |objects| && c.sectionPos < |objects[c.objectId].sections|
    then RelocEntries(name, objects[c.objectId], objects[c.objectId].sections[c.sectionPos].relocs, t)
    else []
  }

  function SectionEntries(name: string, objects: seq<InputObject>, cs: seq<Emit.Contribution>, t: Table): seq<Entry> {
    if cs == [] then [] else ContributionEntries(name, objects, cs[0], t) + SectionEntries(name, objects, cs[1..], t)
  }

  function AllEntries(secs: seq<Emit.OutSec>, objects: seq<InputObject>, t: Table): seq<Entry> {
    if secs == [] then []
    else (if secs[0].source.Input? then SectionEntries(secs[0].name, objects, secs[0].contributions, t) else [])
         + AllEntries(secs[1..], objects, t)
  }

  /** The ids of the entries against symbol `s`, newest first. */
  function ChainOf(entries: seq<Entry>, s: nat): (c: seq<nat>)
    ensures forall k: nat :: k in c <==> k < |entries| && entries[k].target == Some(s)
  {
    if entries == [] then []
    else
      var n := |entries| - 1;
      var rest := ChainOf(entries[..n], s);
      if entries[n].target == Some(s) then [n] + rest else rest
  }

  function SectionNames(entries: seq<Entry>): seq<string> {
    seq(|entries|, k requires 0 <= k < |entries| => entries[k].section)
  }

  /** The index holds exactly the entries seen so far, for the symbols it has room for. */
  ghost predicate Indexes(index: RI.RelocReverseIndex, entries: seq<Entry>)
    reads index, index.heads, index.nexts
  {
    && index.Valid() && |entries| <= index.nexts.Length
    && forall s | 0 <= s < |index.chains| :: index.chains[s] == ChainOf(entries, s)
  }

  method AddEntry(index: RI.RelocReverseIndex, ghost entries: seq<Entry>, e: Entry, id: nat)
    requires Indexes(index, entries) && id == |entries| < index.nexts.Length
    modifies index, index.heads, index.nexts
    ensures Indexes(index, entries + [e])
  {
    ghost var now := entries + [e];
    assert now[..|entries|] == entries;
    ghost var was := index.chains;
    forall c | c in index.chains ensures id !in c {
      var s :| 0 <= s < |index.chains| && index.chains[s] == c;
    }
    match e.target
    case None =>
    case Some(s) => index.Insert(s, id);
  }

  method IndexRelocs(index: RI.RelocReverseIndex, name: string, obj: InputObject, relocs: seq<InputReloc>, t: Table,
    ghost before: seq<Entry>, sections: seq<string>) returns (now: seq<string>)
    requires Indexes(index, before) && sections == SectionNames(before)
    requires |before| + |RelocEntries(name, obj, relocs, t)| <= index.nexts.Length
    modifies index, index.heads, index.nexts
    ensures Indexes(index, before + RelocEntries(name, obj, relocs, t))
    ensures now == SectionNames(before + RelocEntries(name, obj, relocs, t))
  {
    hide Indexes, ChainOf, TargetOf;
    ghost var done, all := before, before + RelocEntries(name, obj, relocs, t);
    now := sections;
    for k := 0 to |relocs|
      invariant Indexes(index, done) && now == SectionNames(done)
      invariant all == done + RelocEntries(name, obj, relocs[k..], t)
    {
      assert relocs[k..][1..] == relocs[k + 1..];
      var e := Entry(name, TargetOf(obj, relocs[k], t));
      AddEntry(index, done, e, |now|);
      now := now + [name];
      done := done + [e];
      assert now == SectionNames(done);
    }
    assert relocs[|relocs|..] == [];
    assert all == done + [] == done;
  }

  method IndexSection(index: RI.RelocReverseIndex, name: string, objects: seq<InputObject>, cs: seq<Emit.Contribution>,
    t: Table, ghost before: seq<Entry>, sections: seq<string>) returns (now: seq<string>)
    requires Indexes(index, before) && sections == SectionNames(before)
    requires |before| + |SectionEntries(name, objects, cs, t)| <= index.nexts.Length
    modifies index, index.heads, index.nexts
    ensures Indexes(index, before + SectionEntries(name, objects, cs, t))
    ensures now == SectionNames(before + SectionEntries(name, objects, cs, t))
  {
    hide Indexes, RelocEntries, SectionNames;
    ghost var done, all := before, before + SectionEntries(name, objects, cs, t);
    now := sections;
    for k := 0 to |cs|
      invariant Indexes(index, done) && now == SectionNames(done)
      invariant all == done + SectionEntries(name, objects, cs[k..], t)
    {
      assert cs[k..][1..] == cs[k + 1..];
      ghost var more := ContributionEntries(name, objects, cs[k], t);
      assert all == (done + more) + SectionEntries(name, objects, cs[k + 1..], t);
      var c := cs[k];
      if c.objectId < |objects| && c.sectionPos < |objects[c.objectId].sections| {
        var obj := objects[c.objectId];
        now := IndexRelocs(index, name, obj, obj.sections[c.sectionPos].relocs, t, done, now);
      } else {
        assert done + more == done;
      }
      done := done + more;
    }
    assert cs[|cs|..] == [];
    assert all == done + [] == done;
  }

  /** Sized by the number of entries in the symbol table, as `symbols.len()` is. */
  method RelocationReverseIndex(secs: seq<Emit.OutSec>, objects: seq<InputObject>, t: Table)
    returns (index: RI.RelocReverseIndex, sections: seq<string>)
    requires |AllEntries(secs, objects, t)| <= RI.NO_ENTRY
    ensures fresh(index) && fresh(index.heads) && fresh(index.nexts)
    ensures Indexes(index, AllEntries(secs, objects, t)) && index.heads.Length == |t.resolutions|
    ensures sections == SectionNames(AllEntries(secs, objects, t))
  {
    hide SectionEntries, SectionNames;
    ghost var done, all := [], AllEntries(secs, objects, t);
    index := new RI.RelocReverseIndex(|t.resolutions|, |AllEntries(secs, objects, t)|);
    sections := [];
    assert SectionNames([]) == [] by { NoNames(); }
    assert Indexes(index, []);
    hide Indexes;
    for k := 0 to |secs|
      invariant Indexes(index, done) && sections == SectionNames(done)
      invariant all == done + AllEntries(secs[k..], objects, t)
      invariant fresh(index) && fresh(index.heads) && fresh(index.nexts) && index.nexts.Length == |all|
      invariant index.heads.Length == |t.resolutions|
    {
      assert secs[k..][1..] == secs[k + 1..];
      ghost var more := if secs[k].source.Input? then SectionEntries(secs[k].name, objects, secs[k].contributions, t)
              else [];
      assert all == (done + more) + AllEntries(secs[k + 1..], objects, t);
      if secs[k].source.Input? {
        sections := IndexSection(index, secs[k].name, objects, secs[k].contributions, t, done, sections);
      } else {
        assert done + more == done;
      }
      done := done + more;
    }
    assert secs[|secs|..] == [];
    assert done + [] == done;
  }

  lemma {:induction false} NoNames()
    ensures SectionNames([]) == []
  {
  }

  // ── Moved symbols ────────────────────────────────────────────────────────

  datatype CachedSymbol = CachedSymbol(name: Name, va: nat, gotAddress: nat)

  predicate Moved(c: CachedSymbol, t: Table) {
    c.name in t.resolutions && (t.resolutions[c.name].va != c.va || t.resolutions[c.name].gotAddress != c.gotAddress)
  }

  function MovedSymbolIds(cached: seq<CachedSymbol>, t: Table): (ids: seq<nat>)
    ensures forall c | c in cached && Moved(c, t) :: t.resolutions[c.name].id in ids
    ensures forall id | id in ids :: exists c :: c in cached && Moved(c, t) && t.resolutions[c.name].id == id
  {
    if cached == [] then []
    else
      var rest := MovedSymbolIds(cached[1..], t);
      if Moved(cached[0], t) then [t.resolutions[cached[0].name].id] + rest else rest
  }

  // ── The plan ─────────────────────────────────────────────────────────────

  datatype SectionRecord = SectionRecord(name: string, fileOffset: nat, size: nat, capacity: nat, va: nat)

  datatype PatchSection = PatchSection(name: string, fileOffset: nat, size: nat, va: nat, inputChanged: bool)

  datatype Fallback =
    | MissingSectionMetadata
    | MissingPreviousSection(section: string)
    | FileOffsetChanged(section: string)
    | VirtualAddressChanged(section: string)
    | CapacityExceeded(section: string)
    | SizeChanged(section: string)

  datatype Color = Red | Green

  datatype Plan = Plan(colors: map<string, Color>, red: set<string>, green: set<string>)

  datatype Outcome = Accepted(plan: Plan) | Rejected(reason: Fallback)

  /** The last record of a name wins. */
  function Previous(cached: seq<SectionRecord>): (m: map<string, SectionRecord>)
    ensures forall n | n in m :: m[n] in cached && m[n].name == n
    ensures forall r | r in cached :: r.name in m
  {
    if cached == [] then map[] else Previous(cached[..|cached| - 1])[cached[|cached| - 1].name := cached[|cached| - 1]]
  }

  function Check(previous: map<string, SectionRecord>, c: PatchSection): Option<Fallback> {
    if c.name !in previous then Some(MissingPreviousSection(c.name))
    else
      var p := previous[c.name];
      if p.fileOffset != c.fileOffset then Some(FileOffsetChanged(c.name))
      else if p.va != c.va then Some(VirtualAddressChanged(c.name))
      else if c.size > p.capacity then Some(CapacityExceeded(c.name))
      else if c.size != p.size then Some(SizeChanged(c.name))
      else None
  }

  predicate InPlace(previous: map<string, SectionRecord>, c: PatchSection) {
    && c.name in previous
    && previous[c.name].fileOffset == c.fileOffset && previous[c.name].va == c.va && previous[c.name].size == c.size
    && c.size <= previous[c.name].capacity
  }

  /** Walks each moved symbol's list once and collects the sections it leads to. */
  method MovedRelocSections(ids: seq<nat>, index: RI.RelocReverseIndex, sections: seq<string>,
          ghost entries: seq<Entry>)
    returns (moved: set<string>)
    requires Indexes(index, entries) && sections == SectionNames(entries)
    ensures forall name :: name in moved <==>
              exists k :: 0 <= k < |entries| && entries[k].section == name
                          && entries[k].target.Some? && entries[k].target.value in ids
                          && entries[k].target.value < index.heads.Length
  {
    moved := {};
    for i := 0 to |ids|
      invariant forall name :: name in moved <==>
                  exists k :: 0 <= k < |entries| && entries[k].section == name
                              && entries[k].target.Some? && entries[k].target.value in ids[..i]
                              && entries[k].target.value < index.heads.Length
    {
      var list := index.Iter(ids[i]);
      moved := moved + SectionsOf(list, sections);
      assert ids[..i + 1] == ids[..i] + [ids[i]];
      ReachedBy(index, entries, ids[i], list, sections);
    }
    assert ids[..|ids|] == ids;
  }

  function SectionsOf(list: seq<nat>, sections: seq<string>): set<string> {
    set k | k in list && k < |sections| :: sections[k]
  }

  lemma {:induction false} ReachedBy(index: RI.RelocReverseIndex, entries: seq<Entry>, id: nat, list: seq<nat>,
          sections: seq<string>)
    requires Indexes(index, entries) && sections == SectionNames(entries)
    requires list == if id < index.heads.Length then index.chains[id] else []
    ensures forall name :: name in SectionsOf(list, sections) <==>
              exists k :: 0 <= k < |entries| && entries[k].section == name && entries[k].target == Some(id)
                  && id < index.heads.Length
  {
    forall name
      ensures name in SectionsOf(list, sections) <==>
              exists k :: 0 <= k < |entries| && entries[k].section == name && entries[k].target == Some(id)
                  && id < index.heads.Length
    {
      if id < index.heads.Length {
        assert list == ChainOf(entries, id);
        if k :| 0 <= k < |entries| && entries[k].section == name && entries[k].target == Some(id) {
          assert k in list && sections[k] == name;
        }
        if name in SectionsOf(list, sections) {
          var k :| k in list && k < |sections| && sections[k] == name;
          assert entries[k].section == name;
        }
      }
    }
  }

  /** A relocation in section `name` against one of `ids` that the index had room for. */
  predicate Hit(entries: seq<Entry>, ids: seq<nat>, room: nat, name: string) {
    exists k :: 0 <= k < |entries| && entries[k].section == name
                && entries[k].target.Some? && entries[k].target.value in ids && entries[k].target.value < room
  }

  predicate DistinctNames(current: seq<PatchSection>) {
    forall i, j | 0 <= i < j < |current| :: current[i].name != current[j].name
  }

  predicate IsRed(c: PatchSection, moved: set<string>) { c.inputChanged || c.name in moved }

  function RedNames(current: seq<PatchSection>, moved: set<string>): set<string> {
    set c | c in current && IsRed(c, moved) :: c.name
  }

  function GreenNames(current: seq<PatchSection>, moved: set<string>): set<string> {
    set c | c in current && !IsRed(c, moved) :: c.name
  }

  /** The two sets are exactly the red and the green names. */
  predicate Colored(current: seq<PatchSection>, plan: Plan, moved: set<string>) {
    plan.red == RedNames(current, moved) && plan.green == GreenNames(current, moved)
  }

  /** The map of colors says the same as the two sets. */
  ghost predicate Agrees(plan: Plan) {
    && (forall n :: n in plan.colors <==> n in plan.red || n in plan.green)
    && forall n | n in plan.colors ::
         plan.colors[n] == (if n in plan.red then Red else Green) && (n in plan.red <==> n !in plan.green)
  }

  /** The first section that cannot stay in place decides why a plan is rejected. */
  predicate FirstMisplaced(previous: map<string, SectionRecord>, current: seq<PatchSection>, k: nat, reason: Fallback) {
    && k < |current| && Check(previous, current[k]) == Some(reason)
    && forall i | 0 <= i < k :: InPlace(previous, current[i])
  }

  /** Accepts exactly the in-place relinks. With distinct names the plan partitions the sections: red
      where an input changed or a moved symbol is referenced, green elsewhere. */
  method PlanPartialRelink(cached: seq<SectionRecord>, current: seq<PatchSection>, ids: seq<nat>,
    index: RI.RelocReverseIndex, sections: seq<string>, ghost entries: seq<Entry>)
    returns (r: Outcome)
    requires Indexes(index, entries) && sections == SectionNames(entries) && DistinctNames(current)
    ensures r.Accepted? <==> current != [] && cached != [] && forall c | c in current :: InPlace(Previous(cached), c)
    ensures r.Rejected? && current != [] && cached != [] ==>
            exists k :: FirstMisplaced(Previous(cached), current, k, r.reason)
    ensures r.Accepted? ==>
              && Agrees(r.plan) && r.plan.red + r.plan.green == (set c | c in current :: c.name)
                 && r.plan.red !! r.plan.green
              && forall c | c in current ::
                   c.name in r.plan.red <==> c.inputChanged || Hit(entries, ids, index.heads.Length, c.name)
  {
    if current == [] || cached == [] { return Rejected(MissingSectionMetadata); }
    var previous := Previous(cached);
    var moved := MovedRelocSections(ids, index, sections, entries);
    hide Indexes, Previous, Check, InPlace, Colored, Agrees;
    var plan := Plan(map[], {}, {});
    NoColors(moved);
    for k := 0 to |current|
      invariant Colored(current[..k], plan, moved) && Agrees(plan)
      invariant forall i | 0 <= i < k :: InPlace(previous, current[i])
    {
      var c := current[k];
      var bad := Check(previous, c);
      CheckIsInPlace(previous, c);
      if bad.Some? {
        assert c in current && FirstMisplaced(previous, current, k, bad.value);
        return Rejected(bad.value);
      }
      var red := c.inputChanged || c.name in moved;
      ColorNext(current, k, plan, moved);
      plan := NextPlan(plan, c, red);
    }
    assert current[..|current|] == current;
    Partition(current, moved);
    PlanIs(current, plan, moved);
    r := Accepted(plan);
  }

  function NextPlan(plan: Plan, c: PatchSection, red: bool): Plan {
    Plan(plan.colors[c.name := if red then Red else Green],
         if red then plan.red + {c.name} else plan.red, if red then plan.green else plan.green + {c.name})
  }

  lemma {:induction false} PlanIs(current: seq<PatchSection>, plan: Plan, moved: set<string>)
    requires Colored(current, plan, moved)
    ensures plan.red == RedNames(current, moved) && plan.green == GreenNames(current, moved)
  {
  }

  lemma {:induction false} ColorNext(current: seq<PatchSection>, k: nat, plan: Plan, moved: set<string>)
    requires k < |current| && DistinctNames(current) && Colored(current[..k], plan, moved) && Agrees(plan)
    ensures var next := NextPlan(plan, current[k], IsRed(current[k], moved));
            Colored(current[..k + 1], next, moved) && Agrees(next)
  {
    hide RedNames, GreenNames, DistinctNames, Agrees, IsRed;
    NotColored(current, k, moved);
    AgreesNext(plan, current[k], IsRed(current[k], moved));
    assert current[..k + 1] == current[..k] + [current[k]];
    OneColor(current[..k], current[k], moved);
  }

  lemma {:induction false} AgreesNext(plan: Plan, c: PatchSection, red: bool)
    requires Agrees(plan) && c.name !in plan.red + plan.green
    ensures Agrees(NextPlan(plan, c, red))
  {
  }

  lemma {:induction false} CheckIsInPlace(previous: map<string, SectionRecord>, c: PatchSection)
    ensures Check(previous, c).None? <==> InPlace(previous, c)
  {
  }

  lemma {:induction false} NoColors(moved: set<string>)
    ensures forall current: seq<PatchSection> :: Colored(current[..0], Plan(map[], {}, {}), moved)
    ensures Agrees(Plan(map[], {}, {}))
  {
  }

  lemma {:induction false} OneColor(current: seq<PatchSection>, c: PatchSection, moved: set<string>)
    ensures RedNames(current + [c], moved)
            == if IsRed(c, moved) then RedNames(current, moved) + {c.name} else RedNames(current, moved)
    ensures GreenNames(current + [c], moved)
            == if IsRed(c, moved) then GreenNames(current, moved) else GreenNames(current, moved) + {c.name}
  {
    assert forall x | x in current + [c] :: x in current || x == c;
    assert forall x | x in current :: x in current + [c];
    assert c in current + [c];
  }

  lemma {:induction false} NotColored(current: seq<PatchSection>, k: nat, moved: set<string>)
    requires k < |current| && DistinctNames(current)
    ensures current[k].name !in RedNames(current[..k], moved) + GreenNames(current[..k], moved)
  {
    hide IsRed;
    forall c | c in current[..k] ensures c.name != current[k].name { var i :| 0 <= i < k && current[i] == c; }
  }

  lemma {:induction false} Partition(current: seq<PatchSection>, moved: set<string>)
    requires DistinctNames(current)
    ensures RedNames(current, moved) + GreenNames(current, moved) == (set c | c in current :: c.name)
    ensures RedNames(current, moved) !! GreenNames(current, moved)
    ensures forall c | c in current :: c.name in RedNames(current, moved) <==> c.inputChanged || c.name in moved
  {
    forall c, d | c in current && d in current && c.name == d.name
      ensures c == d
    {
      var i :| 0 <= i < |current| && current[i] == c;
      var j :| 0 <= j < |current| && current[j] == d;
    }
  }

  // ── What red and green mean ──────────────────────────────────────────────

  /** A relocation of section `name` whose non-local target is `c`, and `c` has an id and has moved. */
  ghost predicate RefersToMoved(entries: seq<Entry>, cached: seq<CachedSymbol>, t: Table, name: string) {
    exists k, c :: 0 <= k < |entries| && entries[k].section == name && c in cached && Moved(c, t)
                   && t.resolutions[c.name].id != NO_ID && entries[k].target == Some(t.resolutions[c.name].id)
  }

  /** With ids below the size of the table, the index finds exactly the relocations against moved
      symbols, so green means neither an input change nor such a relocation. */
  lemma {:induction false} HitsAreMoved(entries: seq<Entry>, cached: seq<CachedSymbol>, t: Table, name: string)
    requires |t.resolutions| <= NO_ID
    requires forall n | n in t.resolutions && t.resolutions[n].id != NO_ID :: t.resolutions[n].id < |t.resolutions|
    ensures Hit(entries, MovedSymbolIds(cached, t), |t.resolutions|, name) <==> RefersToMoved(entries, cached, t, name)
  {
    var ids := MovedSymbolIds(cached, t);
    if Hit(entries, ids, |t.resolutions|, name) {
      var k :| 0 <= k < |entries| && entries[k].section == name
               && entries[k].target.Some? && entries[k].target.value in ids
                  && entries[k].target.value < |t.resolutions|;
      var c :| c in cached && Moved(c, t) && t.resolutions[c.name].id == entries[k].target.value;
      assert entries[k].target == Some(t.resolutions[c.name].id);
    }
    if RefersToMoved(entries, cached, t, name) {
      var k, c :| 0 <= k < |entries| && entries[k].section == name && c in cached && Moved(c, t)
                  && t.resolutions[c.name].id != NO_ID && entries[k].target == Some(t.resolutions[c.name].id);
      assert entries[k].target.value in ids;
    }
  }

  /** An id at or beyond the size of the table is not indexed, whatever moved: the planner relies on
      every id being below it. */
  lemma {:induction false} BigIdsAreMissed(entries: seq<Entry>, cached: seq<CachedSymbol>, t: Table, name: string)
    requires forall k | 0 <= k < |entries| && entries[k].section == name && entries[k].target.Some? ::
               entries[k].target.value >= |t.resolutions|
    ensures !Hit(entries, MovedSymbolIds(cached, t), |t.resolutions|, name)
  {
  }

  // ── Why ids stay below the size of the table ─────────────────────────────

  predicate NamesOnce(t: Table) {
    && (forall i, j | 0 <= i < j < |t.names| :: t.names[i] != t.names[j])
    && (forall n | n in t.names :: n in t.resolutions)
  }

  lemma {:induction false} DistinctCount(names: seq<Name>, keys: set<Name>)
    requires (forall i, j | 0 <= i < j < |names| :: names[i] != names[j]) && forall n | n in names :: n in keys
    ensures |names| <= |keys|
  {
    if names != [] {
      var n := |names| - 1;
      assert forall x | x in names[..n] :: x in names && x != names[n];
      DistinctCount(names[..n], keys - {names[n]});
      assert names[n] in keys;
    }
  }

  /** When no name minted twice, every minted id fits the index. */
  lemma {:induction false} IdsFitIndex(t: Table, n: Name)
    requires t.IdsNamed() && NamesOnce(t) && n in t.resolutions && t.resolutions[n].id != NO_ID
    ensures t.resolutions[n].id < |t.resolutions|
  {
    DistinctCount(t.names, t.resolutions.Keys);
  }

  /** Symbols are merged first, shared libraries registered next, and ids handed out last. */
  function Phase(op: Op): nat {
    match op case Merge(_) => 0 case Force(_) => 0 case Register(_, _) => 1 case _ => 2
  }

  predicate Phased(ops: seq<Op>) {
    forall i, j | 0 <= i < j < |ops| :: Phase(ops[i]) <= Phase(ops[j])
  }

  /** Ids are minted once per name, and an entry that `phase` may still bind has none. */
  ghost predicate MintedOnce(t: Table, phase: nat) {
    && t.IdsNamed() && NamesOnce(t)
    && (forall n | n in t.resolutions && t.resolutions[n].id == NO_ID :: n !in t.names)
    && (phase == 0 ==> forall n | n in t.resolutions
       && t.resolutions[n].definedIn.None? :: t.resolutions[n].id == NO_ID)
    && (phase <= 1 ==> forall n | n in t.resolutions && !t.resolutions[n].IsDefined() :: t.resolutions[n].id == NO_ID)
  }

  lemma {:induction false} MintOnce(t: Table, n: Name, m: Merged, phase: nat)
    requires MintedOnce(t, phase) && |t.names| < NO_ID
    requires if m.minted then m.entry.id == |t.names| && n !in t.names
             else m.entry.id == (if t.Lookup(n).Some? then t.Lookup(n).value.id else NO_ID)
    requires m.entry.definedIn.None? && phase == 0 ==> m.entry.id == NO_ID
    requires !m.entry.IsDefined() && phase <= 1 ==> m.entry.id == NO_ID
    ensures MintedOnce(t.With(n, m), phase)
  {
    var now := t.With(n, m);
    if m.minted {
      forall i, j | 0 <= i < j < |now.names|
        ensures now.names[i] != now.names[j]
      {
        assert t.names[i] in t.names;
      }
    }
  }

  lemma {:induction false} MergeMints(e: Option<Resolution>, s: Sym, next: nat)
    requires e.Some? && e.value.definedIn.None? ==> e.value.id == NO_ID
    requires MergeEntry(e, s.obj, s.sym, next).Ok?
    ensures var m := MergeEntry(e, s.obj, s.sym, next).value;
            && (m.minted ==> m.entry.id == next && (e.None? || e.value.id == NO_ID))
            && (!m.minted ==> m.entry.id == (if e.Some? then e.value.id else NO_ID))
            && (m.entry.definedIn.None? ==> m.entry.id == NO_ID)
  {
  }

  lemma {:induction false} ApplyMints(t: Table, op: Op)
    requires MintedOnce(t, Phase(op)) && |t.names| < NO_ID && Apply(t, op).Ok?
    ensures MintedOnce(Apply(t, op).value, Phase(op))
  {
    hide MergeEntry, NamesOnce, Table.IdsNamed;
    match op
    case Merge(s) =>
      MergeMints(t.Lookup(s.sym.name), s, |t.names|);
      NamesKnown(t, s.sym.name);
      MintOnce(t, s.sym.name, MergeEntry(t.Lookup(s.sym.name), s.obj, s.sym, |t.names|).value, 0);
    case Force(n) =>
      NamesKnown(t, n);
      var e := t.Lookup(n);
      if e.None? { MintOnce(t, n, Merged(UNDEFINED, false), 0); }
      else if !e.value.IsDefined() { MintOnce(t, n, Merged(e.value.(binding := Binding.Global), false), 0); }
    case Register(x, soname) =>
      var e := t.Lookup(x.name);
      if e.Some? && !e.value.IsDefined() {
        MintOnce(t, x.name, Merged(e.value.(imported := true, copyReloc := false, id := |t.names|, version := x.version,
                                            soname := Some(soname), size := x.size, stType := x.stType), true), 1);
      }
    case Ensure(n) =>
      var e := t.Lookup(n);
      if e.Some? && e.value.id == NO_ID { MintOnce(t, n, Merged(e.value.(id := |t.names|), true), 2); }
    case Absolute(n, v) =>
      NamesKnown(t, n);
      var e := if n in t.resolutions then t.resolutions[n] else UNDEFINED;
      MintOnce(t, n, Merged(e.(definedIn := Some(0), section := None, value := v, va := v), false), 2);
    case MarkCopy(n) =>
      var e := t.Lookup(n);
      if e.Some? && e.value.imported { MintOnce(t, n, Merged(e.value.(copyReloc := true), false), 2); }
  }

  lemma {:induction false} NamesKnown(t: Table, n: Name)
    requires NamesOnce(t)
    ensures n !in t.resolutions ==> n !in t.names
  {
  }

  /** In a link's order of operations no name is minted twice, so every id fits the index. */
  lemma {:induction false} PhasedRun(ops: seq<Op>)
    requires Phased(ops) && |ops| < NO_ID && ApplyAll(EMPTY, ops).Ok?
    ensures MintedOnce(ApplyAll(EMPTY, ops).value, if ops == [] then 0 else Phase(ops[|ops| - 1]))
  {
    hide Apply;
    if ops != [] {
      hide MintedOnce;
      var n := |ops| - 1;
      PhasedRun(ops[..n]);
      RunIds(ops[..n]);
      var t := ApplyAll(EMPTY, ops[..n]).value;
      Later(t, if n == 0 then 0 else Phase(ops[n - 1]), Phase(ops[n]));
      ApplyMints(t, ops[n]);
    }
  }

  lemma {:induction false} Later(t: Table, p: nat, q: nat)
    requires MintedOnce(t, p) && p <= q
    ensures MintedOnce(t, q)
  {
  }

  /** So after any link, the planner's index has room for every minted id. */
  lemma {:induction false} IndexHasRoom(ops: seq<Op>, n: Name)
    requires Phased(ops) && |ops| < NO_ID && ApplyAll(EMPTY, ops).Ok?
    requires n in ApplyAll(EMPTY, ops).value.resolutions && ApplyAll(EMPTY, ops).value.resolutions[n].id != NO_ID
    ensures ApplyAll(EMPTY, ops).value.resolutions[n].id < |ApplyAll(EMPTY, ops).value.resolutions|
  {
    PhasedRun(ops);
    IdsFitIndex(ApplyAll(EMPTY, ops).value, n);
  }

  // ── One link ─────────────────────────────────────────────────────────────

  lemma {:induction false} EntriesPerOp(ops: seq<Op>)
    requires ApplyAll(EMPTY, ops).Ok?
    ensures |ApplyAll(EMPTY, ops).value.resolutions| <= |ops|
  {
    if ops != [] {
      var n := |ops| - 1;
      EntriesPerOp(ops[..n]);
      hide ApplyAll;
      OneEntry(ApplyAll(EMPTY, ops[..n]).value, ops[n]);
    }
  }

  function NameOfOp(op: Op): Name {
    match op
    case Merge(s) => s.sym.name
    case Force(n) => n
    case Register(x, _) => x.name
    case Ensure(n) => n
    case Absolute(n, _) => n
    case MarkCopy(n) => n
  }

  lemma {:induction false} OneEntry(t: Table, op: Op)
    requires Apply(t, op).Ok?
    ensures |Apply(t, op).value.resolutions| <= |t.resolutions| + 1
  {
    hide MergeEntry;
    var now := Apply(t, op).value.resolutions;
    assert now.Keys <= t.resolutions.Keys + {NameOfOp(op)};
    hide Apply;
    SubsetCount(now.Keys, t.resolutions.Keys + {NameOfOp(op)});
  }

  lemma {:induction false} SubsetCount(a: set<Name>, b: set<Name>)
    requires a <= b
    ensures |a| <= |b|
  {
    assert b == a + (b - a);
  }

  /** Layout gives the resolved symbols addresses and GOT slots, and changes no name or id. */
  predicate Addressed(resolved: Table, t: Table) {
    t.resolutions.Keys == resolved.resolutions.Keys
    && forall n | n in t.resolutions :: t.resolutions[n].id == resolved.resolutions[n].id
  }

  // ── What the plan says of sections and relocations ───────────────────────

  /** Relocation `r` of object `obj` belongs to a contribution of an input section of that name. */
  ghost predicate Sits(secs: seq<Emit.OutSec>, objects: seq<InputObject>, name: string, obj: InputObject,
          r: InputReloc) {
    exists sec: Emit.OutSec, c: Emit.Contribution ::
      && sec in secs && sec.source == Emit.Input && sec.name == name && c in sec.contributions
      && IsInput(objects, c, obj, r)
  }

  predicate IsInput(objects: seq<InputObject>, c: Emit.Contribution, obj: InputObject, r: InputReloc) {
    && c.objectId < |objects| && objects[c.objectId] == obj && c.sectionPos < |obj.sections|
    && r in obj.sections[c.sectionPos].relocs
  }

  /** The relocation is against a symbol that is not local, is cached, has an id, and now has another address or
      another GOT slot. */
  predicate AgainstMoved(obj: InputObject, r: InputReloc, e: CachedSymbol, t: Table) {
    match obj.SymbolByIndex(r.symbol)
    case None => false
    case Some(sym) =>
      && sym.binding != Local && sym.name == e.name && e.name in t.resolutions && t.resolutions[e.name].id != NO_ID
      && (t.resolutions[e.name].va != e.va || t.resolutions[e.name].gotAddress != e.gotAddress)
  }

  ghost predicate NeedsRepair(secs: seq<Emit.OutSec>, objects: seq<InputObject>, cached: seq<CachedSymbol>, t: Table,
          name: string) {
    exists obj, r, e :: Sits(secs, objects, name, obj, r) && e in cached && AgainstMoved(obj, r, e, t)
  }

  lemma {:induction false} RelocEntryExactly(name: string, obj: InputObject, relocs: seq<InputReloc>, t: Table,
          e: Entry)
    ensures e in RelocEntries(name, obj, relocs, t) <==>
              exists r :: r in relocs && e == Entry(name, TargetOf(obj, r, t))
    decreases |relocs|
  {
    hide TargetOf;
    if relocs != [] {
      RelocEntryExactly(name, obj, relocs[1..], t, e);
      assert forall r :: r in relocs <==> r == relocs[0] || r in relocs[1..];
    }
  }

  /** An entry of a contribution is one of its relocations. */
  ghost predicate EntryOf(name: string, objects: seq<InputObject>, c: Emit.Contribution, t: Table, e: Entry) {
    exists obj, r :: IsInput(objects, c, obj, r) && e == Entry(name, TargetOf(obj, r, t))
  }

  lemma {:induction false} ContributionEntryExactly(name: string, objects: seq<InputObject>, c: Emit.Contribution,
          t: Table, e: Entry)
    ensures e in ContributionEntries(name, objects, c, t) <==> EntryOf(name, objects, c, t, e)
  {
    hide RelocEntries, TargetOf;
    if c.objectId < |objects| && c.sectionPos < |objects[c.objectId].sections| {
      var obj := objects[c.objectId];
      RelocEntryExactly(name, obj, obj.sections[c.sectionPos].relocs, t, e);
      assert forall r :: r in obj.sections[c.sectionPos].relocs <==> IsInput(objects, c, obj, r);
    }
  }

  lemma {:induction false} SectionEntryExactly(name: string, objects: seq<InputObject>, cs: seq<Emit.Contribution>,
          t: Table, e: Entry)
    ensures e in SectionEntries(name, objects, cs, t) <==> exists c :: c in cs && EntryOf(name, objects, c, t, e)
    decreases |cs|
  {
    hide ContributionEntries, EntryOf;
    if cs != [] {
      ContributionEntryExactly(name, objects, cs[0], t, e);
      SectionEntryExactly(name, objects, cs[1..], t, e);
      assert forall c :: c in cs <==> c == cs[0] || c in cs[1..];
    }
  }

  ghost predicate EntryIn(secs: seq<Emit.OutSec>, objects: seq<InputObject>, t: Table, e: Entry) {
    exists sec: Emit.OutSec, c: Emit.Contribution ::
      sec in secs && sec.source == Emit.Input && c in sec.contributions && EntryOf(sec.name, objects, c, t, e)
  }

  lemma {:induction false} AllEntriesExactly(secs: seq<Emit.OutSec>, objects: seq<InputObject>, t: Table, e: Entry)
    ensures e in AllEntries(secs, objects, t) <==> EntryIn(secs, objects, t, e)
    decreases |secs|
  {
    hide SectionEntries, EntryOf;
    if secs != [] {
      SectionEntryExactly(secs[0].name, objects, secs[0].contributions, t, e);
      AllEntriesExactly(secs[1..], objects, t, e);
      if EntryIn(secs[1..], objects, t, e) {
        var sec, c :| sec in secs[1..] && sec.source == Emit.Input && c in sec.contributions
                      && EntryOf(sec.name, objects, c, t, e);
        assert sec in secs;
      }
      if EntryIn(secs, objects, t, e) {
        var sec, c :| sec in secs && sec.source == Emit.Input && c in sec.contributions
                      && EntryOf(sec.name, objects, c, t, e);
        if sec != secs[0] { assert sec in secs[1..]; }
      }
    }
  }

  predicate IdsDiffer(t: Table) {
    forall a, b | a in t.resolutions && b in t.resolutions && t.resolutions[a].id == t.resolutions[b].id != NO_ID ::
      a == b
  }

  lemma {:induction false} MovedTarget(obj: InputObject, r: InputReloc, e: CachedSymbol, t: Table)
    requires IdsDiffer(t)
    ensures AgainstMoved(obj, r, e, t) <==>
              Moved(e, t) && t.resolutions[e.name].id != NO_ID && TargetOf(obj, r, t) == Some(t.resolutions[e.name].id)
  {
  }

  /** A section refers to a moved symbol exactly when one of its relocations is against one. */
  lemma {:induction false} RepairExactly(secs: seq<Emit.OutSec>, objects: seq<InputObject>, cached: seq<CachedSymbol>,
          t: Table, name: string)
    requires IdsDiffer(t)
    ensures RefersToMoved(AllEntries(secs, objects, t), cached, t, name)
            <==> NeedsRepair(secs, objects, cached, t, name)
  {
    hide AllEntries, TargetOf, AgainstMoved, IdsDiffer, IsInput;
    var entries := AllEntries(secs, objects, t);
    if RefersToMoved(entries, cached, t, name) {
      var k, e :| 0 <= k < |entries| && entries[k].section == name && e in cached && Moved(e, t)
                  && t.resolutions[e.name].id != NO_ID && entries[k].target == Some(t.resolutions[e.name].id);
      AllEntriesExactly(secs, objects, t, entries[k]);
      var sec, c :| sec in secs && sec.source == Emit.Input && c in sec.contributions
                    && EntryOf(sec.name, objects, c, t, entries[k]);
      var obj, r :| IsInput(objects, c, obj, r) && entries[k] == Entry(sec.name, TargetOf(obj, r, t));
      MovedTarget(obj, r, e, t);
      assert Sits(secs, objects, name, obj, r);
    }
    if NeedsRepair(secs, objects, cached, t, name) {
      var obj, r, e :| Sits(secs, objects, name, obj, r) && e in cached && AgainstMoved(obj, r, e, t);
      var sec, c :| sec in secs && sec.source == Emit.Input && sec.name == name && c in sec.contributions
                    && IsInput(objects, c, obj, r);
      MovedTarget(obj, r, e, t);
      var entry := Entry(name, TargetOf(obj, r, t));
      assert EntryOf(name, objects, c, t, entry);
      AllEntriesExactly(secs, objects, t, entry);
      var k :| 0 <= k < |entries| && entries[k] == entry;
    }
  }

  lemma {:induction false} LinkIdsDiffer(ops: seq<Op>, t: Table)
    requires |ops| < NO_ID && ApplyAll(EMPTY, ops).Ok? && Addressed(ApplyAll(EMPTY, ops).value, t)
    ensures IdsDiffer(t)
  {
    RunIds(ops);
    var was := ApplyAll(EMPTY, ops).value;
    hide ApplyAll, Table.IdsNamed;
    forall a, b | a in t.resolutions && b in t.resolutions && t.resolutions[a].id == t.resolutions[b].id != NO_ID
      ensures a == b
    {
      IdsDistinct(was, a, b);
    }
  }

  /** The whole planning step of a link whose symbols were resolved by `ops`: an accepted plan keeps every
      section in place, and its red sections are exactly those with a changed input or a relocation of one
      of its contributions against a cached non-local symbol whose address or GOT slot is another now. */
  method PlanLink(ghost ops: seq<Op>, t: Table, secs: seq<Emit.OutSec>, objects: seq<InputObject>,
    cachedSymbols: seq<CachedSymbol>, cached: seq<SectionRecord>, current: seq<PatchSection>) returns (r: Outcome)
    requires Phased(ops) && |ops| < NO_ID && ApplyAll(EMPTY, ops).Ok? && Addressed(ApplyAll(EMPTY, ops).value, t)
    requires |AllEntries(secs, objects, t)| <= RI.NO_ENTRY && DistinctNames(current)
    ensures r.Accepted? <==> current != [] && cached != [] && forall c | c in current :: InPlace(Previous(cached), c)
    ensures r.Accepted? ==>
              && Agrees(r.plan) && r.plan.colors.Keys == (set c | c in current :: c.name)
              && forall c | c in current ::
                   r.plan.colors[c.name] == Red <==>
                       c.inputChanged || NeedsRepair(secs, objects, cachedSymbols, t, c.name)
  {
    EntriesPerOp(ops);
    LinkIdsDiffer(ops, t);
    forall n | n in t.resolutions && t.resolutions[n].id != NO_ID
      ensures t.resolutions[n].id < |t.resolutions|
    {
      IndexHasRoom(ops, n);
    }
    hide AllEntries, Indexes, MovedSymbolIds, Previous, InPlace, RefersToMoved, NeedsRepair, IdsDiffer, Hit,
         SectionNames;
    var index, sections := RelocationReverseIndex(secs, objects, t);
    ghost var entries := AllEntries(secs, objects, t);
    r := PlanPartialRelink(cached, current, MovedSymbolIds(cachedSymbols, t), index, sections, entries);
    forall c | c in current
      ensures Hit(entries, MovedSymbolIds(cachedSymbols, t), |t.resolutions|, c.name) <==>
              RefersToMoved(entries, cachedSymbols, t, c.name)
    {
      HitsAreMoved(entries, cachedSymbols, t, c.name);
    }
    forall c | c in current
      ensures RefersToMoved(entries, cachedSymbols, t, c.name) <==>
              NeedsRepair(secs, objects, cachedSymbols, t, c.name)
    {
      RepairExactly(secs, objects, cachedSymbols, t, c.name);
    }
  }
}
