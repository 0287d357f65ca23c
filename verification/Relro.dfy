/** What the placed image guarantees page by page: segments never share a page, and no page of the
    `PT_GNU_RELRO` span holds a byte of another section (`peony-layout/src/lib.rs:1960-2067`, `3002-3058`). */
module Relro {
  import opened Bytes
  import opened Objects
  import opened Grouping
  import opened Placement
  import opened Segments

  // ── The span ─────────────────────────────────────────────────────────────

  datatype Span = Span(lo: nat, hi: nat, offset: nat)

  predicate IsRw(s: Sec) { Alloc in s.flags && Write in s.flags }

  /** The writable allocated sections; placement leaves them in address order. */
  function RwOf(secs: seq<Sec>): (rw: seq<Sec>)
    ensures forall s :: s in rw <==> s in secs && IsRw(s)
    decreases |secs|
  {
    if secs == [] then []
    else RwOf(secs[..|secs| - 1]) + if IsRw(secs[|secs| - 1]) then [secs[|secs| - 1]] else []
  }

  /** What the scan does from position `i` on. */
  function Scan(rw: seq<Sec>, i: nat, span: Option<Span>): Option<Span>
    requires i <= |rw|
    decreases |rw| - i
  {
    if i == |rw| then span
    else if IsRelro(rw[i].name) then
      match span
      case None => Scan(rw, i + 1, Some(Span(rw[i].addr, rw[i].addr + rw[i].size, rw[i].offset)))
      case Some(s) => if s.hi == rw[i].addr then Scan(rw, i + 1, Some(s.(hi := rw[i].addr + rw[i].size))) else span
    else if span.Some? then span
    else Scan(rw, i + 1, span)
  }

  /** The run of adjacent RELRO sections that starts at the first one. */
  method RelroSpan(secs: seq<Sec>) returns (span: Option<Span>)
    ensures span == Scan(RwOf(secs), 0, None)
  {
    hide IsRelro;
    var rw := RwOf(secs);
    span := None;
    for i := 0 to |rw|
      invariant Scan(rw, 0, None) == Scan(rw, i, span)
    {
      if IsRelro(rw[i].name) {
        match span
        case None => span := Some(Span(rw[i].addr, rw[i].addr + rw[i].size, rw[i].offset));
        case Some(s) =>
          if s.hi != rw[i].addr { return; }
          span := Some(s.(hi := rw[i].addr + rw[i].size));
      } else if span.Some? {
        return;
      }
    }
  }

  predicate Holds(s: Sec, x: nat) { s.addr <= x < s.addr + s.size }

  /** Section `k` is a RELRO section, and so are all from the first one on to it. */
  predicate OnRun(rw: seq<Sec>, k: nat) {
    k < |rw| && IsRelro(rw[k].name) && forall m, n | 0 <= m <= n <= k && IsRelro(rw[m].name) :: IsRelro(rw[n].name)
  }

  ghost predicate RelroByte(rw: seq<Sec>, x: nat) {
    exists k: nat :: OnRun(rw, k) && Holds(rw[k], x)
  }

  /** Every byte of the span belongs to a section of the run. */
  ghost predicate Covered(rw: seq<Sec>, span: Option<Span>) {
    span.Some? ==> forall x | span.value.lo <= x < span.value.hi :: RelroByte(rw, x)
  }

  /** No RELRO section before `i` without a span, and only those after the first with one. */
  predicate Scanned(rw: seq<Sec>, i: nat, span: Option<Span>)
    requires i <= |rw|
  {
    if span.None? then forall m | 0 <= m < i :: !IsRelro(rw[m].name)
    else forall m, n | 0 <= m <= n < i && IsRelro(rw[m].name) :: IsRelro(rw[n].name)
  }

  lemma {:induction false} ScanCovered(rw: seq<Sec>, i: nat, span: Option<Span>)
    requires i <= |rw| && Covered(rw, span) && Scanned(rw, i, span)
    ensures Covered(rw, Scan(rw, i, span))
    ensures Scan(rw, i, span).None? ==> span.None? && forall k | i <= k < |rw| :: !IsRelro(rw[k].name)
    decreases |rw| - i
  {
    hide IsRelro;
    if i < |rw| {
      if IsRelro(rw[i].name) {
        assert OnRun(rw, i);
        assert forall x: nat | Holds(rw[i], x) :: RelroByte(rw, x);
        if span.None? {
          ScanCovered(rw, i + 1, Some(Span(rw[i].addr, rw[i].addr + rw[i].size, rw[i].offset)));
        } else if span.value.hi == rw[i].addr {
          var longer := span.value.(hi := rw[i].addr + rw[i].size);
          assert Covered(rw, Some(longer)) by {
            forall x | longer.lo <= x < longer.hi ensures RelroByte(rw, x) {
              if x >= rw[i].addr { assert Holds(rw[i], x); }
            }
          }
          ScanCovered(rw, i + 1, Some(longer));
        }
      } else if span.None? {
        ScanCovered(rw, i + 1, span);
      }
    }
  }

  // ── Pages ────────────────────────────────────────────────────────────────

  /** A page boundary between two bytes puts them on different pages. */
  lemma {:induction false} PageBetween(x: nat, y: nat, boundary: nat, page: nat)
    requires page > 0 && boundary % page == 0 && x < boundary <= y
    ensures x / page < y / page
  {
    var k := boundary / page;
    var a, b := x / page, y / page;
    assert boundary == page * k && x == page * a + x % page && y == page * b + y % page;
    assert page * (a - k + 1) == page * a - page * k + page && page * (k - b) == page * k - page * b;
    MulAtLeast(page, a - k + 1);
    MulAtLeast(page, k - b);
  }

  lemma {:induction false} RunHolds(secs: seq<Sec>, base: nat, lo: nat, hi: nat, i: nat)
    requires Run(secs, base, lo, hi) && i < |secs|
    ensures lo <= secs[i].addr && secs[i].addr + secs[i].size <= hi
  {
    assert InRun(secs[i], base, lo, hi);
  }

  /** Placing keeps names, flags and contents. */
  lemma {:induction false} PlacedKeeps(bs: seq<Builder>, va: nat, base: nat, i: nat)
    requires base <= va && i < |bs|
    ensures var s := PlacedFrom(bs, va, base)[i];
            s.name == bs[i].name && s.flags == bs[i].flags && s.size == bs[i].size && s.align == bs[i].align
            && s.contributions == bs[i].contributions && s.nobits == bs[i].nobits
    decreases |bs|
  {
    hide AlignUp, EndVa;
    if i < |bs| - 1 { PlacedKeeps(bs[..|bs| - 1], va, base, i); }
  }

  function AllBuilders(p: Plan): seq<Builder> { p.ro + p.rx + p.relro + p.rest + p.bss }

  lemma {:induction false} SectionOfBuilder(p: Plan, k: nat)
    requires k < |AllBuilders(p)|
    ensures |PartsOf(p).All()| == |AllBuilders(p)|
    ensures var s, b := PartsOf(p).All()[k], AllBuilders(p)[k];
            s.name == b.name && s.flags == b.flags && s.contributions == b.contributions && s.size == b.size
            && s.align == b.align && s.nobits == b.nobits
  {
    InOrder(p);
    hide PlacedFrom, EndVa, AlignUp, p.RxStart, p.RwStart, p.RestStart, p.FileEnd;
    var a := |p.ro|;
    var b := a + |p.rx|;
    var c := b + |p.relro|;
    var d := c + |p.rest|;
    if k < a {
      PlacedKeeps(p.ro, p.RoStart(), p.base, k);
    } else if k < b {
      PlacedKeeps(p.rx, p.RxStart(), p.base, k - a);
    } else if k < c {
      PlacedKeeps(p.relro, p.RwStart(), p.base, k - b);
    } else if k < d {
      PlacedKeeps(p.rest, p.RestStart(), p.base, k - c);
    } else {
      PlacedKeeps(p.bss, p.FileEnd(), p.base, k - d);
    }
  }

  // ── Zones ────────────────────────────────────────────────────────────────

  /** Read-only, executable, RELRO, and the rest with `.bss`: a page boundary lies between any two. */
  function Zone(p: Plan, k: nat): nat {
    if k < |p.ro| then 0
    else if k < |p.ro| + |p.rx| then 1
    else if k < |p.ro| + |p.rx| + |p.relro| then 2
    else 3
  }

  function ZoneStart(p: Plan, z: nat): nat {
    if z == 0 then p.RoStart() else if z == 1 then p.RxStart() else if z == 2 then p.RwStart() else p.RestStart()
  }

  function ZoneEnd(p: Plan, z: nat): nat {
    if z == 0 then p.RoEnd() else if z == 1 then p.RxEnd() else if z == 2 then p.RelroEnd() else p.MemEnd()
  }

  lemma {:induction false} InZone(p: Plan, k: nat)
    requires k < |AllBuilders(p)| == |PartsOf(p).All()|
    ensures var s := PartsOf(p).All()[k];
            ZoneStart(p, Zone(p, k)) <= s.addr && s.addr + s.size <= ZoneEnd(p, Zone(p, k))
  {
    InOrder(p);
    PartsRun(p);
    PartSizes(p);
    var q := PartsOf(p);
    var a := |p.ro|;
    var b := a + |p.rx|;
    var c := b + |p.relro|;
    var d := c + |p.rest|;
    hide Run, PartsOf, p.RoStart, p.RoEnd, p.RxStart, p.RxEnd, p.RwStart, p.RelroEnd, p.RestStart, p.FileEnd, p.MemEnd;
    if k < a {
      RunHolds(q.ro, p.base, p.RoStart(), p.RoEnd(), k);
    } else if k < b {
      RunHolds(q.rx, p.base, p.RxStart(), p.RxEnd(), k - a);
    } else if k < c {
      RunHolds(q.relro, p.base, p.RwStart(), p.RelroEnd(), k - b);
    } else if k < d {
      RunHolds(q.rest, p.base, p.RestStart(), p.FileEnd(), k - c);
    } else {
      RunHolds(q.bss, p.base, p.FileEnd(), p.MemEnd(), k - d);
    }
  }

  lemma {:induction false} PartSizes(p: Plan)
    ensures var q := PartsOf(p);
            |q.ro| == |p.ro| && |q.rx| == |p.rx| && |q.relro| == |p.relro| && |q.rest| == |p.rest| && |q.bss| == |p.bss|
    ensures |PartsOf(p).All()| == |AllBuilders(p)|
  {
    InOrder(p);
  }

  /** A zone with something in it starts on a page of its own. */
  lemma {:induction false} ZoneStarts(p: Plan, k: nat, z: nat)
    requires p.page > 0 && k < |AllBuilders(p)| && z < Zone(p, k)
    ensures ZoneEnd(p, z) <= ZoneStart(p, Zone(p, k)) && ZoneStart(p, Zone(p, k)) % p.page == 0
  {
    InOrder(p);
    hide p.RoStart, p.RoEnd, p.RxStart, p.RxEnd, p.RwStart, p.RelroEnd, p.RestStart, p.FileEnd, p.MemEnd;
  }

  lemma {:induction false} ZonesApart(p: Plan, i: nat, j: nat, x: nat, y: nat)
    requires p.page > 0 && i < |AllBuilders(p)| && j < |AllBuilders(p)| == |PartsOf(p).All()|
    requires Zone(p, i) < Zone(p, j) && Holds(PartsOf(p).All()[i], x) && Holds(PartsOf(p).All()[j], y)
    ensures x / p.page != y / p.page
  {
    InZone(p, i);
    InZone(p, j);
    ZoneStarts(p, j, Zone(p, i));
    hide PartsOf, ZoneStart, ZoneEnd, Zone;
    PageBetween(x, y, ZoneStart(p, Zone(p, j)), p.page);
  }

  // ── Where writable sections lie in the scan ──────────────────────────────

  /** The place in the scan of section `i`, when it is writable. */
  function ScanPos(all: seq<Sec>, i: nat): nat
    requires i <= |all|
  {
    |RwOf(all[..i])|
  }

  lemma {:induction false} RwConcat(a: seq<Sec>, b: seq<Sec>)
    ensures RwOf(a + b) == RwOf(a) + RwOf(b)
    decreases |b|
  {
    hide IsRw;
    if b == [] {
      assert a + b == a && RwOf(a) + [] == RwOf(a);
    } else {
      assert (a + b)[..|a + b| - 1] == a + b[..|b| - 1];
      RwConcat(a, b[..|b| - 1]);
    }
  }

  lemma {:induction false} ScanPosAt(all: seq<Sec>, i: nat)
    requires i < |all| && IsRw(all[i])
    ensures ScanPos(all, i) < |RwOf(all)| && RwOf(all)[ScanPos(all, i)] == all[i]
    ensures ScanPos(all, i + 1) == ScanPos(all, i) + 1
  {
    hide IsRw;
    assert all == (all[..i] + [all[i]]) + all[i + 1..] && all[..i + 1] == all[..i] + [all[i]];
    assert RwOf([all[i]]) == [all[i]] by { assert [all[i]][..0] == []; }
    RwConcat(all[..i], [all[i]]);
    RwConcat(all[..i] + [all[i]], all[i + 1..]);
    hide RwOf;
  }

  lemma {:induction false} ScanPosGrows(all: seq<Sec>, i: nat, j: nat)
    requires i <= j <= |all|
    ensures ScanPos(all, i) <= ScanPos(all, j)
  {
    assert all[..j] == all[..i] + all[i..j];
    RwConcat(all[..i], all[i..j]);
    hide RwOf;
  }

  /** Every section of the scan is one of the image. */
  lemma {:induction false} Unscan(all: seq<Sec>, a: nat) returns (i: nat)
    requires a < |RwOf(all)|
    ensures i < |all| && IsRw(all[i]) && ScanPos(all, i) == a
    decreases |all|
  {
    hide IsRw;
    var n := |all| - 1;
    var front := all[..n];
    if a < |RwOf(front)| {
      i := Unscan(front, a);
      assert front[..i] == all[..i];
    } else {
      i := n;
    }
  }

  // ── When the pages of the span are its own ───────────────────────────────

  /** A RELRO name on a writable section. */
  predicate IsStray(b: Builder) { IsRelro(b.name) && Alloc in b.flags && Write in b.flags }

  ghost predicate HasStray(bs: seq<Builder>) { exists k | 0 <= k < |bs| :: IsStray(bs[k]) }

  ghost predicate HasOther(bs: seq<Builder>) { exists k | 0 <= k < |bs| :: !IsRelro(bs[k].name) }

  /** What bucketing and splitting make of permissions and names; `rx` may hold writable sections. */
  ghost predicate Formed(p: Plan) {
    && (forall b | b in p.ro :: Write !in b.flags)
    && (forall b | b in p.relro + p.rest + p.bss :: Alloc in b.flags && Write in b.flags)
    && (forall b | b in p.relro :: IsRelro(b.name)) && (forall b | b in p.rest :: !IsRelro(b.name))
  }

  /** The executable segment holds a writable section with a RELRO name and one without a RELRO name; or
      `.bss` holds one with a RELRO name, something behind the RELRO sections has no such name, and the
      scan gets there: it has met no RELRO section before, or nothing but RELRO sections. */
  ghost predicate Mixes(p: Plan) {
    || (HasStray(p.rx) && HasOther(p.rx))
    || (HasStray(p.bss) && HasOther(p.rest + p.bss)
        && ((!HasStray(p.rx) && p.relro == []) || (p.rest == [] && IsRelro(p.bss[0].name))))
  }

  ghost predicate InSpan(p: Plan, x: nat) {
    var span := Scan(RwOf(PartsOf(p).All()), 0, None); span.Some? && span.value.lo <= x < span.value.hi
  }

  /** The section of the run that holds a byte of the span. */
  lemma {:induction false} SpanSection(p: Plan, x: nat) returns (k: nat)
    requires InSpan(p, x)
    ensures var all := PartsOf(p).All();
            && k < |all| && IsRw(all[k]) && Holds(all[k], x) && IsRelro(all[k].name)
            && OnRunTo(p, k)
  {
    hide IsRelro, RwOf, PartsOf, IsRw;
    var all, rw := PartsOf(p).All(), RwOf(PartsOf(p).All());
    ScanCovered(rw, 0, None);
    assert RelroByte(rw, x);
    var a: nat :| OnRun(rw, a) && Holds(rw[a], x);
    k := Unscan(all, a);
    ScanPosAt(all, k);
    forall m, n | 0 <= m <= n <= k && IsRw(all[m]) && IsRw(all[n]) && IsRelro(all[m].name)
      ensures IsRelro(all[n].name)
    {
      ScanPosAt(all, m);
      ScanPosAt(all, n);
      ScanPosGrows(all, m, n);
      ScanPosGrows(all, n, k);
    }
  }

  /** Section `k` is built from builder `k`, with its name and flags. */
  lemma {:induction false} NamedAlike(p: Plan, k: nat)
    requires k < |AllBuilders(p)|
    ensures k < |PartsOf(p).All()|
    ensures var s, b := PartsOf(p).All()[k], AllBuilders(p)[k];
            s.name == b.name && (IsRw(s) <==> Alloc in b.flags && Write in b.flags)
  {
    SectionOfBuilder(p, k);
    hide PartsOf, AllBuilders;
  }

  /** No byte of another section lies on a page with a byte of the span, unless the names mix. */
  lemma {:induction false} RelroPagesAreOwn(p: Plan, x: nat, s: Sec, y: nat)
    requires p.page > 0 && Formed(p) && !Mixes(p) && InSpan(p, x)
    requires s in PartsOf(p).All() && !IsRelro(s.name) && Holds(s, y)
    ensures x / p.page != y / p.page
  {
    hide IsRelro, RwOf, PartsOf, Formed, Mixes, IsRw, OnRunTo;
    var all := PartsOf(p).All();
    PartSizes(p);
    var k := SpanSection(p, x);
    var j :| 0 <= j < |all| && all[j] == s;
    NamedAlike(p, k);
    NamedAlike(p, j);
    if Zone(p, k) == Zone(p, j) {
      hide InSpan;
      SameZone(p, k, j);
    } else if Zone(p, k) < Zone(p, j) {
      ZonesApart(p, k, j, x, y);
    } else {
      ZonesApart(p, j, k, y, x);
    }
  }

  lemma {:induction false} RoFacts(p: Plan, k: nat)
    requires Formed(p) && k < |p.ro|
    ensures Write !in AllBuilders(p)[k].flags
  {
    hide IsRelro;
    assert p.ro[k] in p.ro;
  }

  lemma {:induction false} RelroFacts(p: Plan, k: nat)
    requires Formed(p) && |p.ro| + |p.rx| <= k < |p.ro| + |p.rx| + |p.relro| + |p.rest|
    ensures IsRelro(AllBuilders(p)[k].name) <==> k < |p.ro| + |p.rx| + |p.relro|
  {
    hide IsRelro;
    var i := k - |p.ro| - |p.rx|;
    if i < |p.relro| { assert p.relro[i] in p.relro; } else { assert p.rest[i - |p.relro|] in p.rest; }
  }

  /** The run up to section `k` has no section without a RELRO name. */
  ghost predicate OnRunTo(p: Plan, k: nat)
    requires k < |PartsOf(p).All()|
  {
    var all := PartsOf(p).All();
    forall m, n | 0 <= m <= n <= k && IsRw(all[m]) && IsRw(all[n]) && IsRelro(all[m].name) :: IsRelro(all[n].name)
  }

  /** In one zone a section of the run and another section mix the names. */
  lemma {:induction false} SameZone(p: Plan, k: nat, j: nat)
    requires Formed(p) && k < |AllBuilders(p)| == |PartsOf(p).All()| && j < |AllBuilders(p)| && OnRunTo(p, k)
    requires IsStray(AllBuilders(p)[k]) && !IsRelro(AllBuilders(p)[j].name) && Zone(p, k) == Zone(p, j)
    ensures Mixes(p)
  {
    hide IsRelro, PartsOf, Formed, OnRunTo, Mixes;
    var b := |p.ro| + |p.rx|;
    var d := b + |p.relro| + |p.rest|;
    if k < |p.ro| {
      RoFacts(p, k);
    } else if k < b {
      MixedRx(p, k, j);
    } else if k < d {
      RelroFacts(p, k);
      if Zone(p, k) == 2 { RelroFacts(p, j); }
    } else {
      MixedBss(p, k, j);
    }
  }

  lemma {:induction false} MixedRx(p: Plan, k: nat, j: nat)
    requires |p.ro| <= k < |p.ro| + |p.rx| && |p.ro| <= j < |p.ro| + |p.rx|
    requires IsStray(AllBuilders(p)[k]) && !IsRelro(AllBuilders(p)[j].name)
    ensures Mixes(p)
  {
    hide IsRelro;
    assert IsStray(p.rx[k - |p.ro|]) && !IsRelro(p.rx[j - |p.ro|].name);
  }

  lemma {:induction false} MixedBss(p: Plan, k: nat, j: nat)
    requires Formed(p) && k < |AllBuilders(p)| == |PartsOf(p).All()| && j < |AllBuilders(p)| && OnRunTo(p, k)
    requires |p.ro| + |p.rx| + |p.relro| + |p.rest| <= k && |p.ro| + |p.rx| + |p.relro| <= j
    requires IsStray(AllBuilders(p)[k]) && !IsRelro(AllBuilders(p)[j].name)
    ensures Mixes(p)
  {
    hide IsRelro, PartsOf, OnRunTo, Formed;
    var c := |p.ro| + |p.rx| + |p.relro|;
    assert IsStray(p.bss[k - c - |p.rest|]) && !IsRelro((p.rest + p.bss)[j - c].name);
    RunThrough(p, k);
    if p.rest != [] { RelroFacts(p, c); }
  }

  /** After a RELRO section the run gets behind the RELRO zone only over another one. */
  lemma {:induction false} RunThrough(p: Plan, k: nat)
    requires Formed(p) && k < |AllBuilders(p)| == |PartsOf(p).All()| && OnRunTo(p, k)
    requires |p.ro| + |p.rx| + |p.relro| <= k
    ensures HasStray(p.rx) || p.relro != [] ==> IsRelro(AllBuilders(p)[|p.ro| + |p.rx| + |p.relro|].name)
  {
    hide IsRelro, PartsOf, IsRw;
    if HasStray(p.rx) || p.relro != [] {
      var m := RelroBefore(p);
      var n := |p.ro| + |p.rx| + |p.relro|;
      WritableThere(p, n);
      NamedAlike(p, m);
      NamedAlike(p, n);
    }
  }

  /** A RELRO section before those behind the RELRO zone. */
  lemma {:induction false} RelroBefore(p: Plan) returns (m: nat)
    requires Formed(p) && (HasStray(p.rx) || p.relro != [])
    ensures m < |p.ro| + |p.rx| + |p.relro| && IsStray(AllBuilders(p)[m])
  {
    hide IsRelro;
    if HasStray(p.rx) {
      var i :| 0 <= i < |p.rx| && IsStray(p.rx[i]);
      m := |p.ro| + i;
    } else {
      assert p.relro[0] in p.relro && p.relro[0] in p.relro + p.rest + p.bss;
      m := |p.ro| + |p.rx|;
    }
  }

  lemma {:induction false} WritableThere(p: Plan, n: nat)
    requires Formed(p) && |p.ro| + |p.rx| <= n < |AllBuilders(p)|
    ensures Alloc in AllBuilders(p)[n].flags && Write in AllBuilders(p)[n].flags
  {
    hide IsRelro;
    assert AllBuilders(p)[n] == (p.relro + p.rest + p.bss)[n - |p.ro| - |p.rx|];
    assert AllBuilders(p)[n] in p.relro + p.rest + p.bss;
  }

  /** Bytes of different segments, headers included in the first, lie on different pages. */
  lemma {:induction false} SegmentsApart(p: Plan, x: nat, y: nat)
    requires p.page > 0
    ensures p.rx != [] && x < p.RoEnd() && p.RxStart() <= y ==> x / p.page != y / p.page
    ensures p.HasRw() && x < p.RxEnd() && p.RwStart() <= y ==> x / p.page != y / p.page
  {
    InOrder(p);
    hide p.RoEnd, p.RxStart, p.RxEnd, p.RwStart;
    if p.rx != [] && x < p.RoEnd() && p.RxStart() <= y { PageBetween(x, y, p.RxStart(), p.page); }
    if p.HasRw() && x < p.RxEnd() && p.RwStart() <= y { PageBetween(x, y, p.RwStart(), p.page); }
  }

  // ── Input sections ───────────────────────────────────────────────────────

  /** The grouped builder itself, possibly with a larger alignment, as the first TLS section gets. */
  predicate Raised(b: Builder, grouped: Builder) {
    b == grouped.(align := b.align) && IsPow2(b.align) && grouped.align <= b.align
  }

  /** The plan holds every grouped builder once; what else it holds has no contributions. */
  ghost predicate PlanOf(p: Plan, builders: map<Name, Builder>, at: map<Name, nat>) {
    && at.Keys == builders.Keys
    && (forall n | n in builders :: at[n] < |AllBuilders(p)| && Raised(AllBuilders(p)[at[n]], builders[n]))
    && (forall k | 0 <= k < |AllBuilders(p)| && AllBuilders(p)[k].contributions != [] :: exists n ::
         n in builders && at[n] == k)
  }

  predicate DistinctIndices(objects: seq<InputObject>) {
    forall o, i, j | 0 <= o < |objects| && 0 <= i < j < |objects[o].sections| ::
      objects[o].sections[i].index != objects[o].sections[j].index
  }

  lemma {:induction false} KeyIsPlace(inp: Grouping.Input, q: Grouping.Place, r: Grouping.Place)
    requires DistinctIndices(inp.objects) && inp.Has(q.o, q.pos) && inp.Has(r.o, r.pos)
    requires q.o == r.o && inp.Sec(q.o, q.pos).index == inp.Sec(r.o, r.pos).index
    ensures q == r
  {
  }

  lemma {:induction false} GroupPlace(inp: Grouping.Input, places: seq<Grouping.Place>, order: seq<Name>,
          builders: map<Name, Builder>, n: Name, i: nat)
    returns (r: Grouping.Place)
    requires Grouped(inp, places, order, builders) && n in builders && i < |builders[n].contributions|
    ensures r in places && inp.Has(r.o, r.pos) && ComesFrom(builders[n], i, r)
            && Contributes(inp, builders[n], r, builders[n].contributions[i])
    ensures inp.NameOf(r.o, r.pos) == n
  {
    hide inp.NameOf, inp.Has, Contributes;
    assert GroupOf(inp, places, n, builders[n]);
    var under := Under(inp, places, n);
    r := under[i];
    assert r in under && Contributes(inp, builders[n], r, builders[n].contributions[i]);
    AtPlace(inp, builders[n], under, i);
  }

  /** The address of section `q` is that of its contribution to section `out`, aligned as `q` asks, inside
      that section. */
  ghost predicate GoodAddress(inp: Grouping.Input, secs: seq<Sec>, addr: nat, out: nat, q: Grouping.Place)
    requires inp.Has(q.o, q.pos)
  {
    && out < |secs|
    && addr % inp.AlignOf(q.o, q.pos) == 0
    && secs[out].addr <= addr && addr + inp.Sec(q.o, q.pos).size <= secs[out].addr + secs[out].size
    && exists i :: 0 <= i < |secs[out].contributions| && IsContribution(secs[out], i, q, addr)
  }

  predicate IsContribution(s: Sec, i: int, q: Grouping.Place, addr: nat)
    requires 0 <= i < |s.contributions|
  {
    s.contributions[i].objectId == q.o && s.contributions[i].sectionPos == q.pos
        && addr == s.addr + s.contributions[i].offset
  }

  /** Every emitted input section has one address. */
  lemma {:induction false} InputSectionAddress(inp: Grouping.Input, order: seq<Name>, builders: map<Name, Builder>,
          p: Plan, at: map<Name, nat>, addresses: map<Key, nat>, secToOut: map<Key, nat>,
                                                   q: Grouping.Place)
    requires Grouped(inp, Kept(inp), order, builders) && DistinctIndices(inp.objects)
    requires PlanOf(p, builders, at) && Addressed(PartsOf(p).All(), addresses, secToOut)
    requires q in Kept(inp) && inp.Has(q.o, q.pos)
    ensures var key := (q.o, inp.Sec(q.o, q.pos).index);
            key in addresses && key in secToOut && GoodAddress(inp, PartsOf(p).All(), addresses[key], secToOut[key], q)
  {
    hide Grouped, DistinctIndices, PlanOf, PartsOf, Addressed, Kept, AllBuilders, IsPow2, inp.NameOf, inp.Sec,
         inp.AlignOf, inp.Has, Contributes,
         GoodAddress, AddressFrom, Raised;
    var key := (q.o, inp.Sec(q.o, q.pos).index);
    var n0, i0 := HomeOf(inp, order, builders, q);
    var k, i := KeyEntered(inp, order, builders, p, at, addresses, secToOut, q, n0, i0);
    ConcludeAddress(inp, order, builders, p, at, key, addresses[key], secToOut[key], q, k, i);
  }

  lemma {:induction false} ConcludeAddress(inp: Grouping.Input, order: seq<Name>, builders: map<Name, Builder>, p: Plan,
                                           at: map<Name, nat>, key: Key, addr: nat, out: nat, q: Grouping.Place,
                                               k: nat, i: nat)
    requires Grouped(inp, Kept(inp), order, builders) && DistinctIndices(inp.objects) && PlanOf(p, builders, at)
    requires inp.Has(q.o, q.pos) && key == (q.o, inp.Sec(q.o, q.pos).index)
             && AddressFrom(PartsOf(p).All(), k, i, key, addr, out)
    ensures GoodAddress(inp, PartsOf(p).All(), addr, out, q)
  {
    hide Grouped, DistinctIndices, PlanOf, PartsOf, Kept, AllBuilders, IsPow2, inp.NameOf, inp.Sec, inp.AlignOf,
         inp.Has, Contributes, Raised;
    var n, r := Origin(inp, order, builders, p, at, k, i);
    PartSizes(p);
    KeyIsPlace(inp, q, r);
    AddressAligned(inp, p, builders[n], r, k, i);
    assert IsContribution(PartsOf(p).All()[k], i, q, addr);
  }

  lemma {:induction false} HomeOf(inp: Grouping.Input, order: seq<Name>, builders: map<Name, Builder>,
          q: Grouping.Place)
    returns (n: Name, i: nat)
    requires Grouped(inp, Kept(inp), order, builders) && q in Kept(inp) && inp.Has(q.o, q.pos)
    ensures n in builders && ComesFrom(builders[n], i, q)
            && Contributes(inp, builders[n], q, builders[n].contributions[i])
  {
    OneHome(inp, order, builders, q);
    hide Kept, Grouped, inp.NameOf, Contributes, inp.Has;
    var m, k :| m in builders && ComesFrom(builders[m], k, q);
    n, i := m, k;
    var r := GroupPlace(inp, Kept(inp), order, builders, n, i);
  }

  lemma {:induction false} KeyEntered(inp: Grouping.Input, order: seq<Name>, builders: map<Name, Builder>, p: Plan,
          at: map<Name, nat>,
                                      addresses: map<Key, nat>, secToOut: map<Key, nat>, q: Grouping.Place, n: Name,
                                          i: nat)
    returns (k: nat, j: nat)
    requires PlanOf(p, builders, at) && Addressed(PartsOf(p).All(), addresses, secToOut) && n in builders
    requires inp.Has(q.o, q.pos) && ComesFrom(builders[n], i, q)
             && Contributes(inp, builders[n], q, builders[n].contributions[i])
    ensures var key := (q.o, inp.Sec(q.o, q.pos).index);
            key in addresses && key in secToOut
            && AddressFrom(PartsOf(p).All(), k, j, key, addresses[key], secToOut[key])
  {
    hide PartsOf, inp.AlignOf, inp.Has, inp.Sec, IsPow2, AllBuilders;
    SectionOfBuilder(p, at[n]);
    assert Raised(AllBuilders(p)[at[n]], builders[n]);
    var s := PartsOf(p).All()[at[n]];
    assert KeyOf(s.contributions[i]) in addresses;
    var key := (q.o, inp.Sec(q.o, q.pos).index);
    var x, y :| AddressFrom(PartsOf(p).All(), x, y, key, addresses[key], secToOut[key]);
    k, j := x, y;
  }

  /** Every contribution has its own address in the map. */
  lemma {:induction false} ContributionAddress(inp: Grouping.Input, order: seq<Name>, builders: map<Name, Builder>,
          p: Plan, at: map<Name, nat>, addresses: map<Key, nat>, secToOut: map<Key, nat>, k: nat, i: nat)
    requires Grouped(inp, Kept(inp), order, builders) && DistinctIndices(inp.objects)
    requires PlanOf(p, builders, at) && Addressed(PartsOf(p).All(), addresses, secToOut)
    requires k < |PartsOf(p).All()| && i < |PartsOf(p).All()[k].contributions|
    ensures var s := PartsOf(p).All()[k];
            var key := KeyOf(s.contributions[i]);
            && key in addresses && key in secToOut
            && addresses[key] == s.addr + s.contributions[i].offset && secToOut[key] == k
  {
    hide Grouped, DistinctIndices, PlanOf, PartsOf, Kept, AllBuilders, Contributes, Raised, inp.Has, inp.Sec,
         inp.NameOf;
    var s := PartsOf(p).All()[k];
    var key := KeyOf(s.contributions[i]);
    assert key in addresses;
    var x, y :| AddressFrom(PartsOf(p).All(), x, y, key, addresses[key], secToOut[key]);
    SamePlace(inp, order, builders, p, at, k, i, x, y);
  }

  /** Contributions with one key are one contribution. */
  lemma {:induction false} SamePlace(inp: Grouping.Input, order: seq<Name>, builders: map<Name, Builder>, p: Plan,
          at: map<Name, nat>, k: nat, i: nat, x: nat, y: nat)
    requires Grouped(inp, Kept(inp), order, builders) && DistinctIndices(inp.objects) && PlanOf(p, builders, at)
    requires var all := PartsOf(p).All();
             && k < |all| && i < |all[k].contributions| && x < |all| && y < |all[x].contributions|
             && KeyOf(all[k].contributions[i]) == KeyOf(all[x].contributions[y])
    ensures x == k && y == i
  {
    hide Grouped, DistinctIndices, PlanOf, PartsOf, Kept, AllBuilders, Contributes, Raised, inp.Has, inp.Sec,
         inp.NameOf;
    var n, r := Origin(inp, order, builders, p, at, k, i);
    var m, q := Origin(inp, order, builders, p, at, x, y);
    KeyIsPlace(inp, r, q);
    OneHome(inp, order, builders, r);
    assert ComesFrom(builders[n], i, r) && ComesFrom(builders[m], y, r);
    assert at[n] == k && at[m] == x;
  }

  /** Where an output section's contribution comes from. */
  lemma {:induction false} Origin(inp: Grouping.Input, order: seq<Name>, builders: map<Name, Builder>, p: Plan,
          at: map<Name, nat>, k: nat, i: nat)
    returns (n: Name, r: Grouping.Place)
    requires Grouped(inp, Kept(inp), order, builders) && PlanOf(p, builders, at)
    requires k < |PartsOf(p).All()| && i < |PartsOf(p).All()[k].contributions|
    ensures n in builders && inp.Has(r.o, r.pos) && k < |AllBuilders(p)| && Raised(AllBuilders(p)[k], builders[n])
    ensures i < |builders[n].contributions| && builders[n].contributions[i] == PartsOf(p).All()[k].contributions[i]
    ensures n in at && at[n] == k
    ensures Contributes(inp, builders[n], r, builders[n].contributions[i])
    ensures var c := builders[n].contributions[i];
            c.objectId == r.o && c.sectionPos == r.pos && c.sectionIndex == inp.Sec(r.o, r.pos).index
  {
    hide PartsOf, inp.AlignOf, inp.Has, inp.Sec, inp.NameOf, IsPow2, AllBuilders, Grouped, Kept;
    PartSizes(p);
    SectionOfBuilder(p, k);
    assert AllBuilders(p)[k].contributions != [];
    var m :| m in builders && at[m] == k;
    n := m;
    assert Raised(AllBuilders(p)[at[n]], builders[n]);
    r := GroupPlace(inp, Kept(inp), order, builders, n, i);
  }

  lemma {:induction false} AddressAligned(inp: Grouping.Input, p: Plan, grouped: Builder, r: Grouping.Place,
          k: nat, i: nat)
    requires inp.Has(r.o, r.pos) && k < |AllBuilders(p)| == |PartsOf(p).All()| && Raised(AllBuilders(p)[k], grouped)
    requires i < |grouped.contributions| && Contributes(inp, grouped, r, grouped.contributions[i])
    ensures var s := PartsOf(p).All()[k];
            && (s.addr + grouped.contributions[i].offset) % inp.AlignOf(r.o, r.pos) == 0
            && s.addr + grouped.contributions[i].offset + inp.Sec(r.o, r.pos).size <= s.addr + s.size
  {
    SectionAligned(p, k);
    SectionOfBuilder(p, k);
    hide PartsOf, AllBuilders, inp.Sec, inp.Has, inp.AlignOf, IsPow2;
    var s := PartsOf(p).All()[k];
    Pow2Positive(s.align);
    AlignedSum(s.addr, s.align, grouped.contributions[i].offset, inp.AlignOf(r.o, r.pos));
  }

  lemma {:induction false} Pow2Positive(a: nat)
    requires IsPow2(a)
    ensures a > 0
  {
  }

  lemma {:induction false} SectionAligned(p: Plan, k: nat)
    requires k < |PartsOf(p).All()|
    ensures var s := PartsOf(p).All()[k]; s.align > 0 ==> s.addr % s.align == 0
  {
    ImageRuns(p);
    hide PartsOf, p.RoStart, p.MemEnd;
    assert InRun(PartsOf(p).All()[k], p.base, p.RoStart(), p.MemEnd());
  }
}
