/** Exactly which names let another section's byte onto a page of the `PT_GNU_RELRO` span
    (`peony-layout/src/lib.rs:1923-2067`, `3010-3058`). */
module RelroExact {
  import opened Bytes
  import opened Objects
  import opened Grouping
  import opened Placement
  import opened Segments
  import opened Relro

  /** No page of the span holds a byte of a section without a RELRO name. */
  ghost predicate PagesOwn(p: Plan) {
    p.page > 0 && forall x: nat, s: Sec, y: nat |
      InSpan(p, x) && s in PartsOf(p).All() && !IsRelro(s.name) && Holds(s, y) :: x / p.page != y / p.page
  }

  /** The same sections with other contents: names, flags and order stay, sizes and alignments may not. */
  ghost predicate Resized(now: seq<Builder>, was: seq<Builder>) {
    && |now| == |was|
    && forall i | 0 <= i < |was| ::
         IsPow2(now[i].align)
         && now[i] == was[i].(size := now[i].size, align := now[i].align, contributions := now[i].contributions)
  }

  ghost predicate Resizes(q: Plan, p: Plan) {
    && q.base == p.base && q.header == p.header && q.page == p.page
    && Resized(q.ro, p.ro) && Resized(q.rx, p.rx) && Resized(q.relro, p.relro) && Resized(q.rest, p.rest)
    && Resized(q.bss, p.bss)
  }

  // ── No mixed names: every content is safe ────────────────────────────────

  lemma {:induction false} SameHas(now: seq<Builder>, was: seq<Builder>)
    requires Resized(now, was)
    ensures (HasStray(now) <==> HasStray(was)) && (HasOther(now) <==> HasOther(was))
  {
    hide IsRelro, IsPow2;
    forall k | 0 <= k < |was|
      ensures (IsStray(now[k]) <==> IsStray(was[k])) && (IsRelro(now[k].name) <==> IsRelro(was[k].name))
    {
    }
    if HasStray(was) { var k :| 0 <= k < |was| && IsStray(was[k]); assert IsStray(now[k]); }
    if HasOther(was) { var k :| 0 <= k < |was| && !IsRelro(was[k].name); assert !IsRelro(now[k].name); }
  }

  lemma {:induction false} JoinResized(a: seq<Builder>, b: seq<Builder>, c: seq<Builder>, d: seq<Builder>)
    requires Resized(a, c) && Resized(b, d)
    ensures Resized(a + b, c + d)
  {
    hide IsPow2;
  }

  lemma {:induction false} ResizedIn(now: seq<Builder>, was: seq<Builder>, b: Builder)
    requires Resized(now, was) && b in now
    ensures exists w :: w in was && w.name == b.name && w.flags == b.flags
  {
    hide IsPow2;
    var i :| 0 <= i < |now| && now[i] == b;
    assert was[i] in was;
  }

  lemma {:induction false} SameForm(q: Plan, p: Plan)
    requires Resizes(q, p) && Formed(p)
    ensures Formed(q) && (Mixes(q) <==> Mixes(p))
  {
    JoinResized(q.rest, q.bss, p.rest, p.bss);
    JoinResized(q.relro, q.rest, p.relro, p.rest);
    JoinResized(q.relro + q.rest, q.bss, p.relro + p.rest, p.bss);
    SameHas(q.rx, p.rx);
    SameHas(q.bss, p.bss);
    SameHas(q.rest + q.bss, p.rest + p.bss);
    assert q.bss != [] ==> q.bss[0].name == p.bss[0].name;
    hide IsRelro, IsPow2, Resized, HasStray, HasOther;
    forall b | b in q.ro ensures Write !in b.flags { ResizedIn(q.ro, p.ro, b); }
    forall b | b in q.relro ensures IsRelro(b.name) { ResizedIn(q.relro, p.relro, b); }
    forall b | b in q.rest ensures !IsRelro(b.name) { ResizedIn(q.rest, p.rest, b); }
    forall b | b in q.relro + q.rest + q.bss ensures Alloc in b.flags && Write in b.flags {
      ResizedIn(q.relro + q.rest + q.bss, p.relro + p.rest + p.bss, b);
    }
    SameLengths(q, p);
  }

  lemma {:induction false} SameLengths(q: Plan, p: Plan)
    requires Resizes(q, p)
    ensures |q.ro| == |p.ro| && |q.rx| == |p.rx| && |q.relro| == |p.relro| && |q.rest| == |p.rest| && |q.bss| == |p.bss|
  {
  }

  lemma {:induction false} UnmixedOwn(p: Plan)
    requires p.page > 0 && Formed(p) && !Mixes(p)
    ensures PagesOwn(p)
  {
    hide Formed, Mixes, PartsOf, IsRelro, InSpan, Holds;
    forall x: nat, s: Sec, y: nat | InSpan(p, x) && s in PartsOf(p).All() && !IsRelro(s.name) && Holds(s, y)
      ensures x / p.page != y / p.page
    {
      RelroPagesAreOwn(p, x, s, y);
    }
  }

  // ── Mixed names: two bytes are enough ────────────────────────────────────

  predicate OneOf(i: int, k: nat, j: nat) { i == k || i == j }

  /** The builders from number `off` on, all empty but numbers `k` and `j`, which hold one byte. */
  function Shrunk(bs: seq<Builder>, off: nat, k: nat, j: nat): (s: seq<Builder>)
    ensures |s| == |bs|
  {
    seq(|bs|, i requires 0 <= i < |bs| =>
      bs[i].(size := if OneOf(off + i, k, j) then 1 else 0, align := 1, contributions := []))
  }

  /** How many of the two are among `n` builders from number `off` on. */
  function Count(off: nat, n: nat, k: nat, j: nat): (c: nat)
    ensures c <= n
  {
    if n == 0 then 0 else Count(off, n - 1, k, j) + if OneOf(off + n - 1, k, j) then 1 else 0
  }

  lemma {:induction false} CountSplit(off: nat, n: nat, m: nat, k: nat, j: nat)
    ensures Count(off, n + m, k, j) == Count(off, n, k, j) + Count(off + n, m, k, j)
    decreases m
  {
    if m > 0 { CountSplit(off, n, m - 1, k, j); }
  }

  lemma {:induction false} CountIs(off: nat, n: nat, k: nat, j: nat)
    ensures Count(off, n, k, j) == (if off <= k < off + n then 1 else 0) + if j != k && off <= j < off + n then 1 else 0
    decreases n
  {
    if n > 0 { CountIs(off, n - 1, k, j); }
  }

  lemma {:induction false} ShrunkFront(bs: seq<Builder>, off: nat, k: nat, j: nat)
    requires bs != []
    ensures Shrunk(bs, off, k, j)[..|bs| - 1] == Shrunk(bs[..|bs| - 1], off, k, j)
    ensures var b := Shrunk(bs, off, k, j)[|bs| - 1];
            b.align == 1 && b.size == if OneOf(off + |bs| - 1, k, j) then 1 else 0
  {
    hide OneOf;
  }

  lemma {:induction false} AlignOne(v: nat)
    ensures AlignUp(v, 1) == v
  {
  }

  lemma {:induction false} ShrunkEnd(bs: seq<Builder>, off: nat, k: nat, j: nat, va: nat)
    ensures EndVa(Shrunk(bs, off, k, j), va) == va + Count(off, |bs|, k, j)
    decreases |bs|
  {
    hide AlignUp, OneOf, Shrunk;
    if bs != [] {
      ShrunkFront(bs, off, k, j);
      ShrunkEnd(bs[..|bs| - 1], off, k, j, va);
      AlignOne(EndVa(Shrunk(bs[..|bs| - 1], off, k, j), va));
    }
  }

  lemma {:induction false} ShrunkPlaced(bs: seq<Builder>, off: nat, k: nat, j: nat, va: nat, base: nat, i: nat)
    requires base <= va && i < |bs|
    ensures PlacedFrom(Shrunk(bs, off, k, j), va, base)[i].addr == va + Count(off, i, k, j)
    decreases |bs|
  {
    hide AlignUp, OneOf, Shrunk;
    ShrunkFront(bs, off, k, j);
    var front := bs[..|bs| - 1];
    if i < |bs| - 1 {
      ShrunkPlaced(front, off, k, j, va, base, i);
    } else {
      ShrunkEnd(front, off, k, j, va);
      AlignOne(EndVa(Shrunk(front, off, k, j), va));
    }
  }

  /** The plan with all sections empty but `k` and `j`. */
  function Tiny(p: Plan, k: nat, j: nat): Plan {
    var a := |p.ro|;
    var b := a + |p.rx|;
    var c := b + |p.relro|;
    p.(ro := Shrunk(p.ro, 0, k, j), rx := Shrunk(p.rx, a, k, j), relro := Shrunk(p.relro, b, k, j),
       rest := Shrunk(p.rest, c, k, j), bss := Shrunk(p.bss, c + |p.rest|, k, j))
  }

  lemma {:induction false} ShrunkResizes(bs: seq<Builder>, off: nat, k: nat, j: nat)
    ensures Resized(Shrunk(bs, off, k, j), bs)
  {
    assert IsPow2(1);
    hide IsPow2;
  }

  lemma {:induction false} TinyResizes(p: Plan, k: nat, j: nat)
    ensures Resizes(Tiny(p, k, j), p) && |AllBuilders(Tiny(p, k, j))| == |AllBuilders(p)|
  {
    hide Resized, Shrunk;
    ShrunkResizes(p.ro, 0, k, j);
    ShrunkResizes(p.rx, |p.ro|, k, j);
    ShrunkResizes(p.relro, |p.ro| + |p.rx|, k, j);
    ShrunkResizes(p.rest, |p.ro| + |p.rx| + |p.relro|, k, j);
    ShrunkResizes(p.bss, |p.ro| + |p.rx| + |p.relro| + |p.rest|, k, j);
  }

  /** Builder `i` of the tiny plan. */
  lemma {:induction false} TinyBuilder(p: Plan, k: nat, j: nat, i: nat)
    requires i < |AllBuilders(p)|
    ensures |AllBuilders(Tiny(p, k, j))| == |AllBuilders(p)|
    ensures var now, was := AllBuilders(Tiny(p, k, j))[i], AllBuilders(p)[i];
            now.name == was.name && now.flags == was.flags && now.size == if OneOf(i, k, j) then 1 else 0
  {
    hide OneOf;
  }

  // ── Where the two bytes lie ──────────────────────────────────────────────

  lemma {:induction false} AllAt(q: Plan, i: nat)
    requires i < |AllBuilders(q)| == |PartsOf(q).All()|
    ensures q.base <= q.RxStart() && q.base <= q.RwStart() && q.base <= q.RestStart() && q.base <= q.FileEnd()
    ensures var all := PartsOf(q).All();
            var a := |q.ro|;
            var b := a + |q.rx|;
            var c := b + |q.relro|;
            var d := c + |q.rest|;
            && (a <= i < b ==> all[i] == PlacedFrom(q.rx, q.RxStart(), q.base)[i - a])
            && (b <= i < c ==> all[i] == PlacedFrom(q.relro, q.RwStart(), q.base)[i - b])
            && (c <= i < d ==> all[i] == PlacedFrom(q.rest, q.RestStart(), q.base)[i - c])
            && (d <= i ==> all[i] == PlacedFrom(q.bss, q.FileEnd(), q.base)[i - d])
  {
    InOrder(q);
    hide PlacedFrom, EndVa, AlignUp, q.RoStart, q.RxStart, q.RwStart, q.RestStart, q.FileEnd;
  }

  lemma {:induction false} SameCount(p: Plan, k: nat, j: nat)
    ensures |PartsOf(Tiny(p, k, j)).All()| == |AllBuilders(p)| == |AllBuilders(Tiny(p, k, j))|
  {
    PartSizes(Tiny(p, k, j));
    TinyResizes(p, k, j);
    hide PartsOf, Tiny, AllBuilders;
  }

  /** Addresses in the executable and in the RELRO zone. */
  lemma {:induction false} TinyAddr(p: Plan, k: nat, j: nat, i: nat)
    requires |p.ro| <= i < |p.ro| + |p.rx| + |p.relro|
    ensures i < |PartsOf(Tiny(p, k, j)).All()|
    ensures var q, addr := Tiny(p, k, j), PartsOf(Tiny(p, k, j)).All()[i].addr;
            var a := |p.ro|;
            var b := a + |p.rx|;
            && (i < b ==> addr == q.RxStart() + Count(a, i - a, k, j))
            && (b <= i ==> addr == q.RwStart() + Count(b, i - b, k, j))
  {
    var q := Tiny(p, k, j);
    var a := |p.ro|;
    var b := a + |p.rx|;
    SameCount(p, k, j);
    hide PartsOf, Shrunk, PlacedFrom, q.RoStart, q.RxStart, q.RwStart, q.RestStart, q.FileEnd, Count;
    AllAt(q, i);
    if i < b {
      ShrunkPlaced(p.rx, a, k, j, q.RxStart(), q.base, i - a);
    } else {
      ShrunkPlaced(p.relro, b, k, j, q.RwStart(), q.base, i - b);
    }
  }

  /** Addresses behind the RELRO zone. */
  lemma {:induction false} TinyBehind(p: Plan, k: nat, j: nat, i: nat)
    requires |p.ro| + |p.rx| + |p.relro| <= i < |AllBuilders(p)|
    ensures i < |PartsOf(Tiny(p, k, j)).All()|
    ensures var q, c := Tiny(p, k, j), |p.ro| + |p.rx| + |p.relro|;
            PartsOf(q).All()[i].addr == q.RestStart() + Count(c, i - c, k, j)
  {
    var q := Tiny(p, k, j);
    var c := |p.ro| + |p.rx| + |p.relro|;
    var d := c + |p.rest|;
    SameCount(p, k, j);
    EndsAre(q);
    hide PartsOf, Shrunk, PlacedFrom, EndVa, q.RoStart, q.RxStart, q.RwStart, q.RestStart, q.FileEnd, q.RoEnd, q.RxEnd,
         q.RelroEnd, q.MemEnd, Count;
    AllAt(q, i);
    if i < d {
      ShrunkPlaced(p.rest, c, k, j, q.RestStart(), q.base, i - c);
    } else {
      ShrunkPlaced(p.bss, d, k, j, q.FileEnd(), q.base, i - d);
      ShrunkEnd(p.rest, c, k, j, q.RestStart());
      CountSplit(c, |p.rest|, i - d, k, j);
    }
  }

  lemma {:induction false} RxPage(p: Plan, k: nat, j: nat)
    requires p.page > 0 && p.rx != []
    ensures Tiny(p, k, j).RxStart() % p.page == 0
  {
    InOrder(Tiny(p, k, j));
    hide Tiny(p, k, j).RxStart;
  }

  /** With empty executable and RELRO zones, all zones after the read-only one start at one address. */
  lemma {:induction false} EmptyStarts(q: Plan)
    requires q.page > 0 && (q.rest != [] || q.bss != [])
    requires EndVa(q.rx, q.RxStart()) == q.RxStart() && EndVa(q.relro, q.RwStart()) == q.RwStart()
    ensures q.RwStart() == q.RestStart() && q.RestStart() % q.page == 0 && (q.rx != [] ==> q.RxStart() == q.RestStart())
  {
    InOrder(q);
    EndsAre(q);
    StartsAre(q);
    AlignUpLeast(q.RelroEnd(), q.page);
    AlignUpLeast(q.RxEnd(), q.page);
    hide EndVa, AlignUp, q.RoStart, q.RoEnd, q.RxStart, q.RxEnd, q.RwStart, q.RelroEnd, q.RestStart, q.FileEnd,
         q.MemEnd;
  }

  lemma {:induction false} TinyStarts(p: Plan, k: nat, j: nat)
    requires p.page > 0 && |p.ro| + |p.rx| + |p.relro| <= k < |AllBuilders(p)| && |p.ro| + |p.rx| + |p.relro| <= j
    ensures var q := Tiny(p, k, j);
            q.RwStart() == q.RestStart() && q.RestStart() % p.page == 0 && (p.rx != [] ==> q.RxStart() == q.RestStart())
  {
    var q := Tiny(p, k, j);
    var a := |p.ro|;
    var b := a + |p.rx|;
    hide Shrunk, EndVa, q.RoStart, q.RxStart, q.RwStart, q.RestStart, Count;
    ShrunkEnd(p.rx, a, k, j, q.RxStart());
    ShrunkEnd(p.relro, b, k, j, q.RwStart());
    CountIs(a, |p.rx|, k, j);
    CountIs(b, |p.relro|, k, j);
    EmptyStarts(q);
  }

  lemma {:induction false} StartsAre(q: Plan)
    requires q.rest != [] || q.bss != []
    ensures q.RwStart() == AlignUp(q.RxEnd(), q.page) && q.RestStart() == AlignUp(q.RelroEnd(), q.page)
  {
  }

  lemma {:induction false} TwoBytes(start: nat, page: nat, x: nat, y: nat)
    requires page >= 2 && start % page == 0 && start <= x <= start + 1 && start <= y <= start + 1
    ensures x / page == y / page
  {
    assert start == page * (start / page);
    OnPage(start, page, x);
    OnPage(start, page, y);
  }

  lemma {:induction false} OnPage(start: nat, page: nat, x: nat)
    requires page >= 2 && start % page == 0 && start <= x <= start + 1
    ensures x / page == start / page
  {
    var m, r := start / page, x - start;
    assert x == page * m + r && 0 <= r < page;
    ModUnique(x, page, m, r);
    MulCancel(page, x / page, m);
  }

  // ── The scan gets there ──────────────────────────────────────────────────

  lemma {:induction false} ScanGrows(rw: seq<Sec>, i: nat, span: Span)
    requires i <= |rw|
    ensures var r := Scan(rw, i, Some(span)); r.Some? && r.value.lo == span.lo && r.value.hi >= span.hi
    decreases |rw| - i
  {
    hide IsRelro;
    if i < |rw| && IsRelro(rw[i].name) && span.hi == rw[i].addr {
      ScanGrows(rw, i + 1, span.(hi := rw[i].addr + rw[i].size));
    }
  }

  /** Up to section `a` the scan has met empty RELRO sections at its address only, if any. */
  predicate Before(rw: seq<Sec>, i: nat, a: nat) {
    && i <= a < |rw| && IsRelro(rw[a].name)
    && (forall m | i <= m < a && IsRelro(rw[m].name) :: rw[m].size == 0 && rw[m].addr == rw[a].addr)
    && (forall m, n | i <= m <= n <= a && IsRelro(rw[m].name) :: IsRelro(rw[n].name))
  }

  lemma {:induction false} ScanTo(rw: seq<Sec>, i: nat, a: nat, span: Option<Span>)
    requires Before(rw, i, a)
    requires span.Some? ==> span.value.lo == span.value.hi == rw[a].addr && IsRelro(rw[i].name)
    ensures var r := Scan(rw, i, span);
            r.Some? && r.value.lo == rw[a].addr && r.value.hi >= rw[a].addr + rw[a].size
    decreases a - i
  {
    hide IsRelro;
    if i == a {
      var s := if span.Some? then span.value.(hi := rw[a].addr + rw[a].size)
               else Span(rw[a].addr, rw[a].addr + rw[a].size, rw[a].offset);
      ScanGrows(rw, a + 1, s);
    } else if IsRelro(rw[i].name) {
      var s := if span.Some? then span.value else Span(rw[i].addr, rw[i].addr, rw[i].offset);
      ScanTo(rw, i + 1, a, Some(s));
    } else {
      ScanTo(rw, i + 1, a, span);
    }
  }

  /** The writable sections with RELRO names before section `k` are empty and at its address, and none
      without such a name comes between. */
  ghost predicate Reached(p: Plan, k: nat)
    requires k < |PartsOf(p).All()|
  {
    var all := PartsOf(p).All();
    && IsRw(all[k]) && IsRelro(all[k].name)
    && (forall m | 0 <= m < k && IsRw(all[m]) && IsRelro(all[m].name) :: all[m].size == 0 && all[m].addr == all[k].addr)
    && OnRunTo(p, k)
  }

  lemma {:induction false} ReachedInSpan(p: Plan, k: nat)
    requires k < |PartsOf(p).All()| && Reached(p, k) && PartsOf(p).All()[k].size > 0
    ensures InSpan(p, PartsOf(p).All()[k].addr)
  {
    hide IsRelro, PartsOf, IsRw, RwOf;
    var all, rw := PartsOf(p).All(), RwOf(PartsOf(p).All());
    ScanPosAt(all, k);
    var a := ScanPos(all, k);
    ReachedBefore(p, k);
    hide Reached;
    ScanTo(rw, 0, a, None);
  }

  lemma {:induction false} Lower(all: seq<Sec>, m: nat, k: nat)
    requires m < |all| && k < |all| && IsRw(all[k]) && ScanPos(all, m) < ScanPos(all, k)
    ensures m < k
  {
    hide ScanPos;
    if k <= m { ScanPosGrows(all, k, m); }
  }

  lemma {:induction false} Ordered(all: seq<Sec>, m: nat, n: nat)
    requires m < |all| && n < |all| && IsRw(all[n]) && IsRw(all[m]) && ScanPos(all, m) <= ScanPos(all, n)
    ensures m <= n
  {
    ScanPosAt(all, n);
    hide ScanPos;
    if n < m { ScanPosGrows(all, n + 1, m); }
  }

  lemma {:induction false} ReachedBefore(p: Plan, k: nat)
    requires k < |PartsOf(p).All()| && Reached(p, k)
    ensures Before(RwOf(PartsOf(p).All()), 0, ScanPos(PartsOf(p).All(), k))
  {
    hide IsRelro, PartsOf, IsRw, RwOf, ScanPos;
    var all, rw := PartsOf(p).All(), RwOf(PartsOf(p).All());
    ScanPosAt(all, k);
    var a := ScanPos(all, k);
    forall m | 0 <= m < a && IsRelro(rw[m].name)
      ensures rw[m].size == 0 && rw[m].addr == rw[a].addr
    {
      var i := Unscan(all, m);
      ScanPosAt(all, i);
      Lower(all, i, k);
    }
    forall m, n | 0 <= m <= n <= a && IsRelro(rw[m].name)
      ensures IsRelro(rw[n].name)
    {
      var i := Unscan(all, m);
      var h := Unscan(all, n);
      ScanPosAt(all, i);
      ScanPosAt(all, h);
      Ordered(all, i, h);
      Ordered(all, h, k);
    }
  }

  // ── A content that fails ─────────────────────────────────────────────────

  /** Two one-byte sections in one zone, of which the first is reached, break the property. */
  lemma {:induction false} BytesClash(q: Plan, k: nat, j: nat)
    requires q.page > 0 && k < |PartsOf(q).All()| && j < |PartsOf(q).All()| && Reached(q, k)
    requires var all := PartsOf(q).All();
             && all[k].size == 1 == all[j].size && !IsRelro(all[j].name)
             && all[k].addr / q.page == all[j].addr / q.page
    ensures !PagesOwn(q)
  {
    hide IsRelro, PartsOf, Reached, InSpan;
    ReachedInSpan(q, k);
    var all := PartsOf(q).All();
    assert all[j] in all && Holds(all[j], all[j].addr);
  }

  /** In the tiny plan names, flags and sizes are known. */
  lemma {:induction false} TinySection(p: Plan, k: nat, j: nat, i: nat)
    requires i < |AllBuilders(p)|
    ensures i < |PartsOf(Tiny(p, k, j)).All()|
    ensures var s, b := PartsOf(Tiny(p, k, j)).All()[i], AllBuilders(p)[i];
            && s.name == b.name && (IsRw(s) <==> Alloc in b.flags && Write in b.flags)
            && s.size == if OneOf(i, k, j) then 1 else 0
  {
    TinyBuilder(p, k, j, i);
    NamedAlike(Tiny(p, k, j), i);
    SectionOfBuilder(Tiny(p, k, j), i);
    hide PartsOf, AllBuilders, Tiny, OneOf, IsRw;
  }

  /** Section `k` is writable with a RELRO name, and between an earlier one and it all are. */
  ghost predicate Leads(p: Plan, k: nat) {
    && k < |AllBuilders(p)| && IsStray(AllBuilders(p)[k])
    && forall m, n | 0 <= m <= n <= k && IsStray(AllBuilders(p)[m]) && Alloc in AllBuilders(p)[n].flags
                     && Write in AllBuilders(p)[n].flags :: IsRelro(AllBuilders(p)[n].name)
  }

  /** In the tiny plan the scan reaches such a section if the earlier ones are at its address. */
  lemma {:induction false} TinyReached(p: Plan, k: nat, j: nat)
    requires Leads(p, k) && j < |AllBuilders(p)| && !IsRelro(AllBuilders(p)[j].name)
    requires |PartsOf(Tiny(p, k, j)).All()| == |AllBuilders(p)|
    requires forall m | 0 <= m < k && IsStray(AllBuilders(p)[m]) ::
               PartsOf(Tiny(p, k, j)).All()[m].addr == PartsOf(Tiny(p, k, j)).All()[k].addr
    ensures Reached(Tiny(p, k, j), k)
  {
    hide IsRelro, PartsOf, Tiny, AllBuilders, IsRw;
    var all := PartsOf(Tiny(p, k, j)).All();
    TinySection(p, k, j, k);
    forall m | 0 <= m < k && IsRw(all[m]) && IsRelro(all[m].name)
      ensures all[m].size == 0 && all[m].addr == all[k].addr
    {
      TinySection(p, k, j, m);
      assert m != j;
    }
    forall m, n | 0 <= m <= n <= k && IsRw(all[m]) && IsRw(all[n]) && IsRelro(all[m].name)
      ensures IsRelro(all[n].name)
    {
      TinySection(p, k, j, m);
      TinySection(p, k, j, n);
    }
  }

  /** Mixed names in the executable segment. */
  lemma {:induction false} RxClash(p: Plan, k: nat, j: nat)
    requires p.page >= 2 && Leads(p, k) && |p.ro| <= k < |p.ro| + |p.rx| && |p.ro| <= j < |p.ro| + |p.rx|
    requires !IsRelro(AllBuilders(p)[j].name) && forall m | 0 <= m < k :: !IsStray(AllBuilders(p)[m])
    ensures !PagesOwn(Tiny(p, k, j))
  {
    hide IsRelro, PartsOf, AllBuilders, Leads, PagesOwn, Reached, Count;
    var q, a := Tiny(p, k, j), |p.ro|;
    SameCount(p, k, j);
    RxRange(p);
    TinyReached(p, k, j);
    TinySection(p, k, j, k);
    TinySection(p, k, j, j);
    TinyAddr(p, k, j, k);
    TinyAddr(p, k, j, j);
    CountIs(a, k - a, k, j);
    CountIs(a, j - a, k, j);
    RxPage(p, k, j);
    hide q.RxStart, Shrunk;
    TwoBytes(q.RxStart(), p.page, PartsOf(q).All()[k].addr, PartsOf(q).All()[j].addr);
    BytesClash(q, k, j);
  }

  lemma {:induction false} RxRange(p: Plan)
    ensures |p.ro| + |p.rx| <= |AllBuilders(p)|
  {
  }

  /** Mixed names behind the RELRO zone: every earlier section of the run is empty, at the same address. */
  lemma {:induction false} BehindClash(p: Plan, k: nat, j: nat)
    requires p.page >= 2 && k < |AllBuilders(p)| && j < |AllBuilders(p)| && Leads(p, k)
    requires !IsRelro(AllBuilders(p)[j].name)
    requires |p.ro| + |p.rx| + |p.relro| <= k && |p.ro| + |p.rx| + |p.relro| <= j
    requires forall m | 0 <= m < |p.ro| :: !IsStray(AllBuilders(p)[m])
    requires (forall m | 0 <= m < k :: !IsStray(AllBuilders(p)[m])) || k == |p.ro| + |p.rx| + |p.relro|
    ensures !PagesOwn(Tiny(p, k, j))
  {
    hide IsRelro, PartsOf, AllBuilders, Leads, PagesOwn, Reached, Count, IsStray;
    var q, c := Tiny(p, k, j), |p.ro| + |p.rx| + |p.relro|;
    SameCount(p, k, j);
    TinyStarts(p, k, j);
    TinyBehind(p, k, j, k);
    TinyBehind(p, k, j, j);
    CountIs(c, k - c, k, j);
    CountIs(c, j - c, k, j);
    hide q.RxStart, q.RwStart, q.RestStart, Shrunk;
    forall m | 0 <= m < k && IsStray(AllBuilders(p)[m])
      ensures PartsOf(q).All()[m].addr == PartsOf(q).All()[k].addr
    {
      TinyAddr(p, k, j, m);
      CountIs(|p.ro|, m - |p.ro|, k, j);
      if |p.ro| + |p.rx| <= m { CountIs(|p.ro| + |p.rx|, m - |p.ro| - |p.rx|, k, j); }
    }
    TinyReached(p, k, j);
    TinySection(p, k, j, k);
    TinySection(p, k, j, j);
    TwoBytes(q.RestStart(), p.page, PartsOf(q).All()[k].addr, PartsOf(q).All()[j].addr);
    BytesClash(q, k, j);
  }

  /** The first writable section with a RELRO name. */
  lemma {:induction false} FirstStray(bs: seq<Builder>) returns (k: nat)
    requires HasStray(bs)
    ensures k < |bs| && IsStray(bs[k]) && forall m | 0 <= m < k :: !IsStray(bs[m])
  {
    hide IsStray;
    var some :| 0 <= some < |bs| && IsStray(bs[some]);
    k := 0;
    while !IsStray(bs[k])
      invariant k <= some && forall m | 0 <= m < k :: !IsStray(bs[m])
      decreases some - k
    {
      k := k + 1;
    }
  }

  lemma {:induction false} FirstLeads(p: Plan, k: nat)
    requires k < |AllBuilders(p)| && IsStray(AllBuilders(p)[k]) && forall m | 0 <= m < k :: !IsStray(AllBuilders(p)[m])
    ensures Leads(p, k)
  {
    hide IsRelro, AllBuilders;
  }

  lemma {:induction false} NoRoStray(p: Plan, m: nat)
    requires Formed(p) && m < |p.ro|
    ensures !IsStray(AllBuilders(p)[m])
  {
    RoFacts(p, m);
    hide IsRelro, Formed, AllBuilders;
  }

  /** Mixed names in the executable segment can clash. */
  lemma {:induction false} MixedRxClash(p: Plan) returns (q: Plan)
    requires p.page >= 2 && Formed(p) && HasStray(p.rx) && HasOther(p.rx)
    ensures Resizes(q, p) && !PagesOwn(q)
  {
    hide IsRelro, Formed, PagesOwn, Leads, Resizes, Tiny;
    var i := FirstStray(p.rx);
    var h :| 0 <= h < |p.rx| && !IsRelro(p.rx[h].name);
    var a := |p.ro|;
    var k, j := a + i, a + h;
    RxRange(p);
    forall m | 0 <= m < k
      ensures !IsStray(AllBuilders(p)[m])
    {
      if m < a { NoRoStray(p, m); } else { assert AllBuilders(p)[m] == p.rx[m - a]; }
    }
    assert AllBuilders(p)[k] == p.rx[i] && AllBuilders(p)[j] == p.rx[h];
    hide IsStray, AllBuilders;
    FirstLeads(p, k);
    RxClash(p, k, j);
    TinyResizes(p, k, j);
    q := Tiny(p, k, j);
  }

  /** So can names behind the RELRO zone when no RELRO section comes before. */
  lemma {:induction false} LoneBssClash(p: Plan) returns (q: Plan)
    requires p.page >= 2 && Formed(p) && HasStray(p.bss) && HasOther(p.rest + p.bss) && !HasStray(p.rx) && p.relro == []
    ensures Resizes(q, p) && !PagesOwn(q)
  {
    hide IsRelro, Formed, PagesOwn, Leads, Resizes, Tiny;
    var i := FirstStray(p.bss);
    var h :| 0 <= h < |p.rest + p.bss| && !IsRelro((p.rest + p.bss)[h].name);
    var a := |p.ro|;
    var c := a + |p.rx|;
    var d := c + |p.rest|;
    var k, j := d + i, c + h;
    forall m | 0 <= m < k
      ensures !IsStray(AllBuilders(p)[m])
    {
      if m < a {
        NoRoStray(p, m);
      } else if m < c {
        assert AllBuilders(p)[m] == p.rx[m - a];
      } else if m < d {
        RelroFacts(p, m);
      } else {
        assert AllBuilders(p)[m] == p.bss[m - d];
      }
    }
    assert AllBuilders(p)[k] == p.bss[i] && AllBuilders(p)[j] == (p.rest + p.bss)[h];
    assert j < |AllBuilders(p)|;
    forall m | 0 <= m < a ensures !IsStray(AllBuilders(p)[m]) { NoRoStray(p, m); }
    hide IsStray, AllBuilders;
    FirstLeads(p, k);
    BehindClash(p, k, j);
    TinyResizes(p, k, j);
    q := Tiny(p, k, j);
  }

  /** And when nothing but RELRO sections does. */
  lemma {:induction false} NextBssClash(p: Plan) returns (q: Plan)
    requires p.page >= 2 && Formed(p) && HasOther(p.bss) && p.rest == [] && p.bss != [] && IsRelro(p.bss[0].name)
    requires HasStray(p.rx) ==> !HasOther(p.rx)
    ensures Resizes(q, p) && !PagesOwn(q)
  {
    hide IsRelro, Formed, PagesOwn, Leads, Resizes, Tiny;
    var h :| 0 <= h < |p.bss| && !IsRelro(p.bss[h].name);
    var c := |p.ro| + |p.rx| + |p.relro|;
    assert AllBuilders(p)[c] == p.bss[0] && AllBuilders(p)[c + h] == p.bss[h] && c + h < |AllBuilders(p)|;
    WritableThere(p, c);
    OnlyRelro(p);
    forall m | 0 <= m < |p.ro| ensures !IsStray(AllBuilders(p)[m]) { NoRoStray(p, m); }
    hide AllBuilders;
    BehindClash(p, c, c + h);
    TinyResizes(p, c, c + h);
    q := Tiny(p, c, c + h);
  }

  lemma {:induction false} OnlyRelro(p: Plan)
    requires Formed(p) && p.rest == [] && p.bss != [] && IsRelro(p.bss[0].name) && (HasStray(p.rx) ==> !HasOther(p.rx))
    ensures Leads(p, |p.ro| + |p.rx| + |p.relro|)
  {
    hide IsRelro, Formed;
    var a := |p.ro|;
    var b := a + |p.rx|;
    var c := b + |p.relro|;
    assert AllBuilders(p)[c] == p.bss[0];
    WritableThere(p, c);
    forall m, n | 0 <= m <= n <= c && IsStray(AllBuilders(p)[m]) && Alloc in AllBuilders(p)[n].flags
                  && Write in AllBuilders(p)[n].flags
      ensures IsRelro(AllBuilders(p)[n].name)
    {
      if n < a {
        RoFacts(p, n);
      } else if n < b {
        if m < a { RoFacts(p, m); }
        RxNames(p, m, n);
      } else if n < c {
        RelroFacts(p, n);
      }
    }
  }

  lemma {:induction false} RxNames(p: Plan, m: nat, n: nat)
    requires (HasStray(p.rx) ==> !HasOther(p.rx)) && m <= n && |p.ro| <= n < |p.ro| + |p.rx|
    requires m >= |p.ro| && IsStray(AllBuilders(p)[m])
    ensures IsRelro(AllBuilders(p)[n].name)
  {
    hide IsRelro;
    var a := |p.ro|;
    assert AllBuilders(p)[m] == p.rx[m - a] && AllBuilders(p)[n] == p.rx[n - a];
    assert HasStray(p.rx);
  }

  lemma {:induction false} OtherIn(p: Plan)
    ensures p.rest == [] ==> (HasOther(p.rest + p.bss) <==> HasOther(p.bss))
    ensures HasStray(p.bss) ==> p.bss != []
  {
    hide IsRelro;
    if p.rest == [] { assert p.rest + p.bss == p.bss; }
  }

  /** Whatever the sections hold, no page of the span holds a byte of a section without a RELRO name, if
      and only if the names do not mix. */
  lemma {:induction false} RelroPagesExactly(p: Plan)
    requires p.page >= 2 && Formed(p)
    ensures (forall q | Resizes(q, p) :: PagesOwn(q)) <==> !Mixes(p)
  {
    OtherIn(p);
    hide IsRelro, Formed, PagesOwn, Resizes, HasStray, HasOther;
    if !Mixes(p) {
      forall q | Resizes(q, p) ensures PagesOwn(q) {
        SamePage(q, p);
        SameForm(q, p);
        UnmixedOwn(q);
      }
    } else {
      var q;
      if HasStray(p.rx) && HasOther(p.rx) {
        q := MixedRxClash(p);
      } else if !HasStray(p.rx) && p.relro == [] {
        q := LoneBssClash(p);
      } else {
        q := NextBssClash(p);
      }
    }
  }

  /** Without a script only the executable segment can mix names. */
  lemma {:induction false} UnscriptedExactly(p: Plan)
    requires p.page >= 2 && Formed(p) && !HasStray(p.bss)
    ensures (forall q | Resizes(q, p) :: PagesOwn(q)) <==> !(HasStray(p.rx) && HasOther(p.rx))
  {
    hide IsRelro, Formed, PagesOwn, Resizes, HasStray, HasOther;
    RelroPagesExactly(p);
  }

  lemma {:induction false} SamePage(q: Plan, p: Plan)
    requires Resizes(q, p)
    ensures q.page == p.page
  {
  }
}
