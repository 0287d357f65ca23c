/** Which sections can share a page: those of equal rights (`peony-layout/src/lib.rs:1543-1551`,
    `1923-2067`). */
module SegmentRights {
  import opened Objects
  import opened Placement
  import opened Segments
  import opened Relro
  import opened ImagePlan

  /** Part by part, what a section of the plan may do. */
  lemma {:induction false} RightsOfZone(p: Plan, k: nat)
    requires Permitted(p) && k < |AllBuilders(p)|
    ensures Exec in AllBuilders(p)[k].flags <==> Zone(p, k) == 1
    ensures Zone(p, k) == 0 ==> Write !in AllBuilders(p)[k].flags
    ensures Zone(p, k) >= 2 ==> Write in AllBuilders(p)[k].flags
  {
    var b, a := AllBuilders(p)[k], |p.ro| + |p.rx|;
    if k < |p.ro| { assert b in p.ro; }
    else if k < a { assert b in p.rx; }
    else { assert b == (p.relro + p.rest + p.bss)[k - a]; }
  }

  lemma {:induction false} BackingOfZone(p: Plan, k: nat)
    requires Permitted(p) && k < |AllBuilders(p)|
    ensures Zone(p, k) >= 2 ==>
              (AllBuilders(p)[k].nobits <==> k >= |p.ro| + |p.rx| + |p.relro| + |p.rest|)
  {
    var b, a := AllBuilders(p)[k], |p.ro| + |p.rx|;
    if a <= k < a + |p.relro| + |p.rest| { assert b == (p.relro + p.rest)[k - a]; }
    else if a + |p.relro| + |p.rest| <= k { assert b == p.bss[k - a - |p.relro| - |p.rest|]; }
  }

  /** A writable section that the file does not back is one behind all that it backs, and the other way
      round. */
  lemma {:induction false} WritableBacking(p: Plan, k: nat)
    requires Permitted(p) && k < |PartsOf(p).All()|
    ensures var s := PartsOf(p).All()[k];
            Write in s.flags && Exec !in s.flags ==> (s.nobits <==> k >= |PartsOf(p).FileBacked()|)
  {
    hide PlacedFrom, Permitted;
    PartSizes(p);
    SectionOfBuilder(p, k);
    hide AllBuilders;
    RightsOfZone(p, k);
    BackingOfZone(p, k);
    assert |PartsOf(p).FileBacked()| == |p.ro| + |p.rx| + |p.relro| + |p.rest|;
    hide PartsOf;
  }

  /** Two bytes on one page are of sections that are both executable or both not, and in the latter case
      both writable or both not: no page is mapped with a right that a section on it does not ask for,
      unless that section is executable and another one writable as well. */
  lemma {:induction false} PagesByPermission(p: Plan, j: nat, k: nat, x: nat, y: nat)
    requires Permitted(p) && p.page > 0 && j < |PartsOf(p).All()| && k < |PartsOf(p).All()|
    requires Holds(PartsOf(p).All()[j], x) && Holds(PartsOf(p).All()[k], y) && x / p.page == y / p.page
    ensures Exec in PartsOf(p).All()[j].flags <==> Exec in PartsOf(p).All()[k].flags
    ensures Exec !in PartsOf(p).All()[j].flags ==>
              (Write in PartsOf(p).All()[j].flags <==> Write in PartsOf(p).All()[k].flags)
  {
    hide Permitted, Holds, AllBuilders;
    PartSizes(p);
    SectionOfBuilder(p, j);
    SectionOfBuilder(p, k);
    RightsOfZone(p, j);
    RightsOfZone(p, k);
    hide PartsOf, Zone;
    if Zone(p, j) < Zone(p, k) { ZonesApart(p, j, k, x, y); }
    if Zone(p, k) < Zone(p, j) { ZonesApart(p, k, j, y, x); }
  }

  /** The headers come before every section, in memory and in the file. */
  lemma {:induction false} AfterHeaders(p: Plan, k: nat)
    requires k < |PartsOf(p).All()|
    ensures PartsOf(p).All()[k].addr >= p.base + p.header && PartsOf(p).All()[k].offset >= p.header
  {
    InOrder(p);
    OffsetOfSection(p, k);
    ImageRuns(p);
    assert InRun(PartsOf(p).All()[k], p.base, p.RoStart(), p.MemEnd());
    hide PartsOf, p.RoEnd, p.RxStart, p.RxEnd, p.RwStart, p.RelroEnd, p.RestStart, p.FileEnd, p.MemEnd;
  }

  lemma {:induction false} OffsetOfSection(p: Plan, k: nat)
    requires k < |PartsOf(p).All()|
    ensures PartsOf(p).All()[k].offset + p.base == PartsOf(p).All()[k].addr
  {
    ImageRuns(p);
    hide PartsOf, p.RoStart, p.MemEnd;
    assert InRun(PartsOf(p).All()[k], p.base, p.RoStart(), p.MemEnd());
  }

  /** And a page with headers on it holds no writable and no executable section. */
  lemma {:induction false} HeaderPages(p: Plan, k: nat, x: nat, y: nat)
    requires Permitted(p) && p.page > 0 && k < |PartsOf(p).All()|
    requires x < p.base + p.header && Holds(PartsOf(p).All()[k], y) && x / p.page == y / p.page
    ensures Exec !in PartsOf(p).All()[k].flags && Write !in PartsOf(p).All()[k].flags
  {
    hide Permitted, Holds, AllBuilders;
    PartSizes(p);
    SectionOfBuilder(p, k);
    RightsOfZone(p, k);
    InZone(p, k);
    InOrder(p);
    if Zone(p, k) > 0 { HeadersApart(p, k, x, y); }
  }

  lemma {:induction false} HeadersApart(p: Plan, k: nat, x: nat, y: nat)
    requires p.page > 0 && k < |AllBuilders(p)| == |PartsOf(p).All()| && Zone(p, k) > 0
    requires x < p.base + p.header && Holds(PartsOf(p).All()[k], y)
    ensures x / p.page != y / p.page
  {
    InZone(p, k);
    InOrder(p);
    ZoneStarts(p, k, 0);
    hide PartsOf, p.RoEnd, p.RxStart, p.RxEnd, p.RwStart, p.RelroEnd, p.RestStart, p.FileEnd, p.MemEnd, Zone;
    PageBetween(x, y, ZoneStart(p, Zone(p, k)), p.page);
  }
}
