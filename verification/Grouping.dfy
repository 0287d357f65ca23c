/** Grouping input sections into output sections (`peony-layout/src/lib.rs:1433-1536`, `3757-3761`). */
module Grouping {
  import opened Bytes
  import opened Objects

  // ── Alignment ────────────────────────────────────────────────────────────

  predicate IsPow2(a: nat) { a == 1 || (a > 1 && a % 2 == 0 && IsPow2(a / 2)) }

  /** Rounds up to a multiple of a power of two; masking off the low bits is dividing and multiplying. */
  function AlignUp(v: nat, align: nat): nat {
    var a := Max(align, 1);
    (v + a - 1) / a * a
  }

  lemma {:induction false} AlignUpLeast(v: nat, a: nat)
    requires a > 0
    ensures AlignUp(v, a) % a == 0 && v <= AlignUp(v, a) < v + a
    ensures v % a == 0 ==> AlignUp(v, a) == v
  {
    var q, r := (v + a - 1) / a, (v + a - 1) % a;
    assert v + a - 1 == a * q + r;
    assert q * a == a * q;
    ModUnique(a * q, a, q, 0);
    if v % a == 0 {
      var k := v / a;
      assert v == a * k;
      assert a * (q - k) == a - 1 - r;
      MulAtLeast(a, q - k);
    }
  }

  /** An alignment of 0 counts as 1. */
  lemma {:induction false} AlignUpAny(v: nat, align: nat)
    ensures v <= AlignUp(v, align) && (align > 0 ==> AlignUp(v, align) % align == 0)
    ensures AlignUp(v, align) < v + Max(align, 1)
  {
    AlignUpLeast(v, Max(align, 1));
  }

  /** The smaller of two powers of two divides the larger. */
  lemma {:induction false} Pow2Divides(a: nat, b: nat)
    requires IsPow2(a) && IsPow2(b) && a <= b
    ensures b % a == 0
    decreases a
  {
    if a > 1 {
      Pow2Divides(a / 2, b / 2);
      var k := (b / 2) / (a / 2);
      assert b / 2 == (a / 2) * k;
      assert b == a * k;
      ModUnique(b, a, k, 0);
    } else {
      ModUnique(b, 1, b, 0);
    }
  }

  lemma {:induction false} Multiple(x: nat, m: nat) returns (k: nat)
    requires m > 0 && x % m == 0
    ensures x == m * k
  {
    k := x / m;
  }

  lemma {:induction false} MultipleOfMultiple(x: nat, big: nat, small: nat)
    requires big > 0 && small > 0 && x % big == 0 && big % small == 0
    ensures x % small == 0
  {
    var k := Multiple(x, big);
    var m := Multiple(big, small);
    assert (small * m) * k == small * (m * k);
    ModUnique(x, small, m * k, 0);
  }

  lemma {:induction false} SumOfMultiples(x: nat, y: nat, m: nat)
    requires m > 0 && x % m == 0 && y % m == 0
    ensures (x + y) % m == 0
  {
    var k := Multiple(x, m);
    var n := Multiple(y, m);
    assert m * k + m * n == m * (k + n);
    ModUnique(x + y, m, k + n, 0);
  }

  /** A multiple of a large power of two, moved by a multiple of a small one, is a multiple of the small. */
  lemma {:induction false} AlignedSum(addr: nat, big: nat, off: nat, small: nat)
    requires IsPow2(big) && IsPow2(small) && small <= big && addr % big == 0 && off % small == 0
    ensures (addr + off) % small == 0
  {
    Pow2Divides(small, big);
    assert big > 0 && small > 0;
    hide IsPow2;
    MultipleOfMultiple(addr, big, small);
    SumOfMultiples(addr, off, small);
  }

  // ── Which sections are emitted ───────────────────────────────────────────

  datatype Perm = Ro | Rx | Rw

  function PermOf(flags: set<Flag>): Perm {
    if Exec in flags then Rx else if Write in flags then Rw else Ro
  }

  datatype Contribution = Contribution(objectId: nat, sectionIndex: nat, sectionPos: nat, offset: nat, size: nat)

  datatype Builder = Builder(
    name: Name, kind: SectionKind, flags: set<Flag>, align: nat, size: nat, perm: Perm, nobits: bool,
        contributions: seq<Contribution>)

  const NOTE: Name := [0x2e, 0x6e, 0x6f, 0x74, 0x65]

  predicate IsAllocatable(sec: InputSection) {
    Alloc in sec.flags && sec.kind != Debug && !StartsWith(sec.name, NOTE)
  }

  /** The inputs of grouping: `emits` and `folded` are the section filter and the fold map, `outName` the
      script or default naming. */
  datatype Input = Input(
    objects: seq<InputObject>, emits: (nat, nat) -> bool, folded: (nat, nat) -> bool, outName: Name -> Name)
  {
    predicate Has(o: nat, pos: nat) { o < |objects| && pos < |objects[o].sections| }

    function Sec(o: nat, pos: nat): InputSection
      requires Has(o, pos)
    {
      objects[o].sections[pos]
    }

    /** Some symbol is defined in the section. */
    predicate Anchored(o: nat, pos: nat)
      requires Has(o, pos)
    {
      exists i | 0 <= i < |objects[o].symbols| :: objects[o].symbols[i].section == Some(Sec(o, pos).index)
    }

    predicate Keeps(o: nat, pos: nat)
      requires Has(o, pos)
    {
      && IsAllocatable(Sec(o, pos))
      && (Sec(o, pos).size != 0 || Anchored(o, pos))
      && emits(o, Sec(o, pos).index) && !folded(o, Sec(o, pos).index)
    }

    function AlignOf(o: nat, pos: nat): nat
      requires Has(o, pos)
    {
      Max(Sec(o, pos).align, 1)
    }

    function NameOf(o: nat, pos: nat): Name
      requires Has(o, pos)
    {
      outName(Sec(o, pos).name)
    }
  }

  /** An input section by object and position. */
  datatype Place = Place(o: nat, pos: nat)

  function KeptIn(inp: Input, o: nat, n: nat): (ps: seq<Place>)
    requires o < |inp.objects| && n <= |inp.objects[o].sections|
    ensures forall p | p in ps :: inp.Has(p.o, p.pos) && p.o == o && p.pos < n && inp.Keeps(p.o, p.pos)
  {
    if n == 0 then [] else KeptIn(inp, o, n - 1) + if inp.Keeps(o, n - 1) then [Place(o, n - 1)] else []
  }

  /** The kept sections of the first `n` objects, in order. */
  function KeptUpTo(inp: Input, n: nat): (ps: seq<Place>)
    requires n <= |inp.objects|
    ensures forall p | p in ps :: inp.Has(p.o, p.pos) && p.o < n && inp.Keeps(p.o, p.pos)
  {
    if n == 0 then [] else KeptUpTo(inp, n - 1) + KeptIn(inp, n - 1, |inp.objects[n - 1].sections|)
  }

  function Kept(inp: Input): seq<Place> { KeptUpTo(inp, |inp.objects|) }

  // ── Builders ─────────────────────────────────────────────────────────────

  /** The contributions are the given sections in order, each aligned, none overlapping, all within the
      size. */
  ghost predicate Laid(inp: Input, b: Builder, places: seq<Place>) {
    && |b.contributions| == |places| && IsPow2(b.align)
    && (forall i | 0 <= i < |places| ::
         inp.Has(places[i].o, places[i].pos) && Contributes(inp, b, places[i], b.contributions[i]))
    && (forall i, j | 0 <= i < j < |places| ::
          b.contributions[i].offset + b.contributions[i].size <= b.contributions[j].offset)
  }

  predicate Contributes(inp: Input, b: Builder, p: Place, c: Contribution)
    requires inp.Has(p.o, p.pos)
  {
    && c.objectId == p.o && c.sectionPos == p.pos && c.sectionIndex == inp.Sec(p.o, p.pos).index
       && c.size == inp.Sec(p.o, p.pos).size
    && IsPow2(inp.AlignOf(p.o, p.pos)) && inp.AlignOf(p.o, p.pos) <= b.align
    && c.offset % inp.AlignOf(p.o, p.pos) == 0 && c.offset + c.size <= b.size
  }

  function MaxAlign(a: nat, b: nat): nat { if a < b then b else a }

  function Extended(b: Builder, sec: InputSection, o: nat, pos: nat, align: nat): Builder {
    var off := AlignUp(b.size, align);
    b.(contributions := b.contributions + [Contribution(o, sec.index, pos, off, sec.size)],
       size := off + sec.size, align := MaxAlign(b.align, align))
  }

  lemma {:induction false} ExtendLaid(inp: Input, b: Builder, places: seq<Place>, p: Place)
    requires Laid(inp, b, places) && inp.Has(p.o, p.pos) && IsPow2(inp.AlignOf(p.o, p.pos))
    ensures Laid(inp, Extended(b, inp.Sec(p.o, p.pos), p.o, p.pos, inp.AlignOf(p.o, p.pos)), places + [p])
  {
    var align := inp.AlignOf(p.o, p.pos);
    AlignUpLeast(b.size, align);
    hide AlignUp, IsPow2, inp.AlignOf, inp.Sec, inp.Has;
  }

  // ── The pass ─────────────────────────────────────────────────────────────

  /** The kept sections that go under one name. */
  function Under(inp: Input, places: seq<Place>, name: Name): (ps: seq<Place>)
    requires forall p | p in places :: inp.Has(p.o, p.pos)
    ensures forall p :: p in ps <==> p in places && inp.NameOf(p.o, p.pos) == name
    decreases |places|
  {
    if places == [] then []
    else
      var last := places[|places| - 1];
      assert last in places;
      Under(inp, places[..|places| - 1], name) + if inp.NameOf(last.o, last.pos) == name then [last] else []
  }

  /** One builder for each name met so far, in order of first appearance, holding what goes under it. */
  ghost predicate Grouped(inp: Input, places: seq<Place>, order: seq<Name>, builders: map<Name, Builder>) {
    && (forall p | p in places :: inp.Has(p.o, p.pos))
    && (forall n :: n in order <==> n in builders)
    && (forall i, j | 0 <= i < j < |order| :: order[i] != order[j])
    && (forall n | n in builders :: GroupOf(inp, places, n, builders[n]))
    && (forall p | p in places :: inp.NameOf(p.o, p.pos) in builders)
  }

  ghost predicate GroupOf(inp: Input, places: seq<Place>, n: Name, b: Builder)
    requires forall p | p in places :: inp.Has(p.o, p.pos)
  {
    && b.name == n && Under(inp, places, n) != [] && Laid(inp, b, Under(inp, places, n))
    && OpenedBy(inp, b, Under(inp, places, n)[0])
  }

  /** Kind, flags, permission and contents are those of section `p`. */
  predicate OpenedBy(inp: Input, b: Builder, p: Place) {
    && inp.Has(p.o, p.pos)
    && var sec := inp.Sec(p.o, p.pos);
       && b.kind == sec.kind && b.flags == sec.flags * {Alloc, Write, Exec, Tls} && b.perm == PermOf(sec.flags)
       && (b.nobits <==> sec.kind == Bss || sec.kind == Tbss)
  }

  /** An empty builder takes its properties from the first section. */
  function NewBuilder(name: Name, sec: InputSection, align: nat): Builder {
    Builder(name, sec.kind, sec.flags * {Alloc, Write, Exec, Tls}, align, 0, PermOf(sec.flags), sec.kind == Bss
        || sec.kind == Tbss, [])
  }

  function BuilderFor(inp: Input, builders: map<Name, Builder>, p: Place): Builder
    requires inp.Has(p.o, p.pos)
  {
    var name := inp.NameOf(p.o, p.pos);
    if name in builders then builders[name] else NewBuilder(name, inp.Sec(p.o, p.pos), inp.AlignOf(p.o, p.pos))
  }

  lemma {:induction false} OwnGroup(inp: Input, places: seq<Place>, order: seq<Name>, builders: map<Name, Builder>,
          p: Place)
    requires Grouped(inp, places, order, builders) && inp.Has(p.o, p.pos) && IsPow2(inp.AlignOf(p.o, p.pos))
    ensures forall q | q in places + [p] :: inp.Has(q.o, q.pos)
    ensures GroupOf(inp, places + [p], inp.NameOf(p.o, p.pos),
                    Extended(BuilderFor(inp, builders, p), inp.Sec(p.o, p.pos), p.o, p.pos, inp.AlignOf(p.o, p.pos)))
  {
    var name, sec, align := inp.NameOf(p.o, p.pos), inp.Sec(p.o, p.pos), inp.AlignOf(p.o, p.pos);
    var b := BuilderFor(inp, builders, p);
    NoneUnder(inp, places, order, builders, name);
    NewIsLaid(inp, name, sec, align);
    NewIsOpened(inp, p);
    assert b.name == name;
    hide Laid, OpenedBy, Extended, NewBuilder, inp.AlignOf, inp.Sec, inp.NameOf, inp.Has, Under, IsPow2;
    ExtendLaid(inp, b, Under(inp, places, name), p);
    UnderMore(inp, places, p, name);
    ExtendedKeeps(inp, b, sec, p, align, Under(inp, places + [p], name)[0]);
  }

  lemma {:induction false} NewIsOpened(inp: Input, p: Place)
    requires inp.Has(p.o, p.pos)
    ensures OpenedBy(inp, NewBuilder(inp.NameOf(p.o, p.pos), inp.Sec(p.o, p.pos), inp.AlignOf(p.o, p.pos)), p)
  {
    hide inp.NameOf, inp.Sec, inp.AlignOf;
  }

  lemma {:induction false} ExtendedKeeps(inp: Input, b: Builder, sec: InputSection, p: Place, align: nat, first: Place)
    requires OpenedBy(inp, b, first)
    ensures Extended(b, sec, p.o, p.pos, align).name == b.name
    ensures OpenedBy(inp, Extended(b, sec, p.o, p.pos, align), first)
  {
    hide AlignUp, MaxAlign, inp.Sec, inp.Has;
  }

  lemma {:induction false} OtherGroup(inp: Input, places: seq<Place>, p: Place, n: Name, b: Builder)
    requires (forall q | q in places :: inp.Has(q.o, q.pos)) && inp.Has(p.o, p.pos) && inp.NameOf(p.o, p.pos) != n
    requires GroupOf(inp, places, n, b)
    ensures forall q | q in places + [p] :: inp.Has(q.o, q.pos)
    ensures GroupOf(inp, places + [p], n, b)
  {
    hide Laid, inp.NameOf, inp.Has, Under;
    UnderMore(inp, places, p, n);
    assert Under(inp, places, n) + [] == Under(inp, places, n);
  }

  lemma {:induction false} GroupOne(inp: Input, places: seq<Place>, order: seq<Name>, builders: map<Name, Builder>,
          p: Place)
    requires Grouped(inp, places, order, builders) && inp.Has(p.o, p.pos) && IsPow2(inp.AlignOf(p.o, p.pos))
    ensures var name := inp.NameOf(p.o, p.pos);
            Grouped(inp, places + [p], if name in builders then order else order + [name],
                    builders[name := Extended(BuilderFor(inp, builders, p), inp.Sec(p.o, p.pos), p.o, p.pos,
                        inp.AlignOf(p.o, p.pos))])
  {
    hide GroupOf, Extended, BuilderFor, inp.AlignOf, inp.Sec, inp.NameOf, inp.Has, Under, IsPow2;
    var name := inp.NameOf(p.o, p.pos);
    OwnGroup(inp, places, order, builders, p);
    var now := builders[name := Extended(BuilderFor(inp, builders, p), inp.Sec(p.o, p.pos), p.o, p.pos,
        inp.AlignOf(p.o, p.pos))];
    forall n | n in now
      ensures GroupOf(inp, places + [p], n, now[n])
    {
      if n != name { OtherGroup(inp, places, p, n, builders[n]); }
    }
  }

  lemma {:induction false} UnderMore(inp: Input, places: seq<Place>, p: Place, n: Name)
    requires (forall q | q in places :: inp.Has(q.o, q.pos)) && inp.Has(p.o, p.pos)
    ensures forall q | q in places + [p] :: inp.Has(q.o, q.pos)
    ensures Under(inp, places + [p], n) == Under(inp, places, n) + if inp.NameOf(p.o, p.pos) == n then [p] else []
  {
    hide inp.NameOf, inp.Has;
    assert (places + [p])[..|places|] == places;
  }

  lemma {:induction false} NoneUnder(inp: Input, places: seq<Place>, order: seq<Name>,
          builders: map<Name, Builder>, n: Name)
    requires Grouped(inp, places, order, builders)
    ensures n !in builders ==> Under(inp, places, n) == []
  {
    hide Laid, inp.NameOf, inp.Has;
    if Under(inp, places, n) != [] { assert Under(inp, places, n)[0] in places; }
  }

  lemma {:induction false} NewIsLaid(inp: Input, name: Name, sec: InputSection, align: nat)
    requires IsPow2(align)
    ensures Laid(inp, NewBuilder(name, sec, align), [])
  {
  }

  datatype Result<+T> = Ok(value: T) | BadAlignment(align: nat, path: string)

  /** `is_power_of_two`, by halving. */
  method CheckPow2(a: nat) returns (ok: bool)
    ensures ok <==> IsPow2(a)
  {
    if a == 0 { return false; }
    var n := a;
    while n > 1 && n % 2 == 0
      invariant n > 0 && (IsPow2(a) <==> IsPow2(n))
    {
      n := n / 2;
    }
    ok := n == 1;
  }

  /** A kept section has this alignment, which is not a power of two. */
  ghost predicate SomeBad(inp: Input, align: nat) {
    exists p :: p in Kept(inp) && inp.Has(p.o, p.pos) && !IsPow2(inp.AlignOf(p.o, p.pos))
        && inp.AlignOf(p.o, p.pos) == align
  }

  lemma {:induction false} KeptSoFar(inp: Input, o: nat, n: nat, p: Place)
    requires o < |inp.objects| && n < |inp.objects[o].sections| && p == Place(o, n) && inp.Keeps(o, n)
    ensures p in Kept(inp)
  {
    hide inp.Keeps;
    assert p in KeptIn(inp, o, n + 1);
    KeptInGrows(inp, o, n + 1, |inp.objects[o].sections|, p);
    assert p in KeptUpTo(inp, o + 1);
    KeptGrows(inp, o + 1, |inp.objects|, p);
  }

  lemma {:induction false} KeptInGrows(inp: Input, o: nat, n: nat, m: nat, p: Place)
    requires o < |inp.objects| && n <= m <= |inp.objects[o].sections| && p in KeptIn(inp, o, n)
    ensures p in KeptIn(inp, o, m)
    decreases m
  {
    hide inp.Keeps;
    if n < m { KeptInGrows(inp, o, n, m - 1, p); }
  }

  lemma {:induction false} KeptGrows(inp: Input, n: nat, m: nat, p: Place)
    requires n <= m <= |inp.objects| && p in KeptUpTo(inp, n)
    ensures p in KeptUpTo(inp, m)
    decreases m
  {
    hide inp.Keeps, KeptIn;
    if n < m { KeptGrows(inp, n, m - 1, p); }
  }

  /** Every kept section in order goes to the end of the builder of its name; a bad alignment stops. */
  method GroupSections(inp: Input) returns (r: Result<(seq<Name>, map<Name, Builder>)>)
    ensures r.Ok? ==> Grouped(inp, Kept(inp), r.value.0, r.value.1)
    ensures r.Ok? ==> forall p | p in Kept(inp) :: inp.Has(p.o, p.pos) && IsPow2(inp.AlignOf(p.o, p.pos))
    ensures r.BadAlignment? ==> SomeBad(inp, r.align)
  {
    hide Grouped, SomeBad, GroupOf, Extended, IsPow2, inp.Keeps, KeptIn, KeptUpTo, Under;
    var order: seq<Name>, builders: map<Name, Builder> := [], map[];
    NothingGrouped(inp);
    for o := 0 to |inp.objects|
      invariant Grouped(inp, KeptUpTo(inp, o), order, builders)
      invariant forall p | p in KeptUpTo(inp, o) :: inp.Has(p.o, p.pos) && IsPow2(inp.AlignOf(p.o, p.pos))
    {
      ghost var before := KeptUpTo(inp, o);
      NoneKept(inp, o);
      for pos := 0 to |inp.objects[o].sections|
        invariant Grouped(inp, before + KeptIn(inp, o, pos), order, builders)
        invariant forall p | p in before + KeptIn(inp, o, pos) :: inp.Has(p.o, p.pos) && IsPow2(inp.AlignOf(p.o, p.pos))
      {
        NextKept(inp, o, pos);
        if inp.Keeps(o, pos) {
          var p, align := Place(o, pos), inp.AlignOf(o, pos);
          var ok := CheckPow2(align);
          if !ok {
            StopsAt(inp, p);
            return BadAlignment(align, inp.objects[o].path);
          }
          GroupOne(inp, before + KeptIn(inp, o, pos), order, builders, p);
          assert before + (KeptIn(inp, o, pos) + [p]) == (before + KeptIn(inp, o, pos)) + [p];
          var name := inp.NameOf(o, pos);
          var b := BuilderFor(inp, builders, p);
          if name !in builders { order := order + [name]; }
          builders := builders[name := Extended(b, inp.Sec(o, pos), o, pos, align)];
        }
      }
      NextKeptObject(inp, o);
    }
    r := Ok((order, builders));
  }

  lemma {:induction false} NothingGrouped(inp: Input)
    ensures KeptUpTo(inp, 0) == [] && Grouped(inp, [], [], map[])
  {
  }

  lemma {:induction false} NoneKept(inp: Input, o: nat)
    requires o < |inp.objects|
    ensures KeptIn(inp, o, 0) == [] && KeptUpTo(inp, o) + [] == KeptUpTo(inp, o)
  {
  }

  lemma {:induction false} NextKept(inp: Input, o: nat, pos: nat)
    requires o < |inp.objects| && pos < |inp.objects[o].sections|
    ensures KeptIn(inp, o, pos + 1) == KeptIn(inp, o, pos) + if inp.Keeps(o, pos) then [Place(o, pos)] else []
    ensures !inp.Keeps(o, pos) ==> KeptIn(inp, o, pos + 1) == KeptIn(inp, o, pos)
  {
    hide inp.Keeps;
    assert KeptIn(inp, o, pos) + [] == KeptIn(inp, o, pos);
  }

  lemma {:induction false} NextKeptObject(inp: Input, o: nat)
    requires o < |inp.objects|
    ensures KeptUpTo(inp, o + 1) == KeptUpTo(inp, o) + KeptIn(inp, o, |inp.objects[o].sections|)
  {
    hide KeptIn;
  }

  lemma {:induction false} StopsAt(inp: Input, p: Place)
    requires inp.Has(p.o, p.pos) && inp.Keeps(p.o, p.pos) && !IsPow2(inp.AlignOf(p.o, p.pos))
    ensures SomeBad(inp, inp.AlignOf(p.o, p.pos))
  {
    hide inp.Keeps, IsPow2;
    KeptSoFar(inp, p.o, p.pos, p);
    hide Kept;
  }

  // ── What grouping keeps ──────────────────────────────────────────────────

  predicate Ascending(ps: seq<Place>) {
    forall i, j | 0 <= i < j < |ps| :: ps[i].o < ps[j].o || (ps[i].o == ps[j].o && ps[i].pos < ps[j].pos)
  }

  lemma {:induction false} KeptInAscends(inp: Input, o: nat, n: nat)
    requires o < |inp.objects| && n <= |inp.objects[o].sections|
    ensures Ascending(KeptIn(inp, o, n))
  {
    hide inp.Keeps;
    if n > 0 {
      KeptInAscends(inp, o, n - 1);
      var front := KeptIn(inp, o, n - 1);
      assert forall i | 0 <= i < |front| :: front[i] in front;
    }
  }

  lemma {:induction false} KeptAscends(inp: Input, n: nat)
    requires n <= |inp.objects|
    ensures Ascending(KeptUpTo(inp, n))
  {
    hide inp.Keeps, KeptIn;
    if n > 0 {
      KeptAscends(inp, n - 1);
      KeptInAscends(inp, n - 1, |inp.objects[n - 1].sections|);
      var front, more := KeptUpTo(inp, n - 1), KeptIn(inp, n - 1, |inp.objects[n - 1].sections|);
      assert forall i | 0 <= i < |front| :: front[i] in front;
      assert forall i | 0 <= i < |more| :: more[i] in more;
    }
  }

  lemma {:induction false} UnderAscends(inp: Input, places: seq<Place>, name: Name)
    requires (forall p | p in places :: inp.Has(p.o, p.pos)) && Ascending(places)
    ensures Ascending(Under(inp, places, name))
    decreases |places|
  {
    hide inp.Has, inp.NameOf;
    if places != [] {
      var front := places[..|places| - 1];
      UnderAscends(inp, front, name);
      var before := Under(inp, front, name);
      forall i | 0 <= i < |before| ensures before[i] in front {
        assert before[i] in before;
      }
    }
  }

  /** Every kept section contributes to exactly one builder, once. */
  lemma {:induction false} OneHome(inp: Input, order: seq<Name>, builders: map<Name, Builder>, p: Place)
    requires Grouped(inp, Kept(inp), order, builders) && inp.Has(p.o, p.pos)
    ensures p in Kept(inp) <==> exists n, i :: n in builders && ComesFrom(builders[n], i, p)
    ensures forall n, i | n in builders && ComesFrom(builders[n], i, p) :: n == inp.NameOf(p.o, p.pos)
    ensures forall n, i, j | n in builders && ComesFrom(builders[n], i, p) && ComesFrom(builders[n], j, p) :: i == j
  {
    hide Kept, inp.NameOf, inp.Has, Under, Contributes;
    KeptAscends(inp, |inp.objects|);
    forall n, i | n in builders && ComesFrom(builders[n], i, p)
      ensures p in Kept(inp) && n == inp.NameOf(p.o, p.pos)
    {
      assert GroupOf(inp, Kept(inp), n, builders[n]);
      FromPlace(inp, builders[n], Under(inp, Kept(inp), n), i, p);
    }
    forall n, i, j | n in builders && ComesFrom(builders[n], i, p) && ComesFrom(builders[n], j, p)
      ensures i == j
    {
      assert GroupOf(inp, Kept(inp), n, builders[n]);
      assert Ascending(Kept(inp)) by { KeptIsAll(inp); }
      UnderAscends(inp, Kept(inp), n);
      OnePlace(inp, builders[n], Under(inp, Kept(inp), n), i, j, p);
    }
    if p in Kept(inp) {
      var n := inp.NameOf(p.o, p.pos);
      assert GroupOf(inp, Kept(inp), n, builders[n]);
      assert p in Under(inp, Kept(inp), n);
      var i :| 0 <= i < |Under(inp, Kept(inp), n)| && Under(inp, Kept(inp), n)[i] == p;
      AtPlace(inp, builders[n], Under(inp, Kept(inp), n), i);
    }
  }

  lemma {:induction false} KeptIsAll(inp: Input)
    ensures Kept(inp) == KeptUpTo(inp, |inp.objects|)
  {
    hide KeptUpTo;
  }

  lemma {:induction false} OnePlace(inp: Input, b: Builder, places: seq<Place>, i: int, j: int, p: Place)
    requires Laid(inp, b, places) && Ascending(places) && ComesFrom(b, i, p) && ComesFrom(b, j, p)
    ensures i == j
  {
    assert places[i] == p && places[j] == p;
  }

  predicate ComesFrom(b: Builder, i: int, p: Place) {
    0 <= i < |b.contributions| && b.contributions[i].objectId == p.o && b.contributions[i].sectionPos == p.pos
  }

  lemma {:induction false} FromPlace(inp: Input, b: Builder, places: seq<Place>, i: int, p: Place)
    requires Laid(inp, b, places) && ComesFrom(b, i, p)
    ensures p in places
  {
    assert places[i] == p;
  }

  lemma {:induction false} AtPlace(inp: Input, b: Builder, places: seq<Place>, i: int)
    requires Laid(inp, b, places) && 0 <= i < |places|
    ensures ComesFrom(b, i, places[i])
  {
  }
}
