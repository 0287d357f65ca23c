/** Steps of concrete layouts: opening a builder, sorting what is sorted, placing one more section. */
module SmallLayouts {
  import opened Bytes
  import opened Objects
  import opened Grouping
  import opened Placement
  import opened PlanOrder
  import opened SectionNames

  // ── Names ────────────────────────────────────────────────────────────────

  /** A dot, the byte `c`, and more. */
  predicate Starts(n: Name, c: byte) { |n| > 2 && n[0] == 0x2e && n[1] == c }

  lemma {:induction false} NotNote(n: Name, c: byte)
    requires Starts(n, c) && c != 0x6e
    ensures !StartsWith(n, NOTE)
  {
    if |NOTE| <= |n| { assert n[..|NOTE|][1] == c; }
  }

  lemma {:induction false} SecondByte(a: Name, x: byte, b: Name, y: byte)
    requires Starts(a, x) && Starts(b, y) && x != y
    ensures NameLess(a, b) <==> x < y
  {
    assert a[1..][0] == a[1] && b[1..][0] == b[1];
  }

  lemma {:induction false} OtherPrefix(n: Name, c: byte, prefix: Name)
    requires Starts(n, c) && |prefix| > 1 && prefix[1] != c
    ensures !StartsWith(n, prefix) && n != prefix
  {
    if |prefix| <= |n| { assert n[..|prefix|][1] == n[1]; }
  }

  lemma {:induction false} NoDebugName(n: Name, c: byte)
    requires Starts(n, c) && c != 0x64 && c != 0x7a && c != 0x67
    ensures !IsDebugName(n)
  {
    assert Ascii(".debug")[1] == 0x64 && Ascii(".debug_")[1] == 0x64 && Ascii(".zdebug_")[1] == 0x7a
           && Ascii(".gnu.debuglto_")[1] == 0x67;
    hide Ascii, StartsWith;
    OtherPrefix(n, c, Ascii(".debug"));
    OtherPrefix(n, c, Ascii(".debug_"));
    OtherPrefix(n, c, Ascii(".zdebug_"));
    OtherPrefix(n, c, Ascii(".gnu.debuglto_"));
  }

  function Utf8(): Name -> bool { (n: Name) => true }

  /** A name without a second dot is its own output name. */
  lemma {:induction false} OwnName(n: Name, c: byte)
    requires Starts(n, c) && c != 0x6e && forall k | 1 <= k < |n| :: n[k] != 0x2e
    ensures OutputSectionName(Utf8(), n) == n
  {
    assert Ascii(".note.")[1] == 0x6e;
    OtherPrefix(n, c, Ascii(".note."));
  }

  // ── Grouping ─────────────────────────────────────────────────────────────

  lemma {:induction false} SmallPowers()
    ensures IsPow2(1) && IsPow2(8) && IsPow2(64)
  {
    assert IsPow2(4) && IsPow2(2) && IsPow2(16) && IsPow2(32);
  }

  /** `b` is the builder that section `p` opens. */
  predicate Opens(inp: Grouping.Input, p: Place, b: Builder) {
    && inp.Has(p.o, p.pos) && inp.Sec(p.o, p.pos).align > 0 && IsPow2(inp.Sec(p.o, p.pos).align)
    && var sec := inp.Sec(p.o, p.pos);
       b == Builder(inp.NameOf(p.o, p.pos), sec.kind, sec.flags * {Alloc, Write, Exec, Tls}, sec.align, sec.size,
                    PermOf(sec.flags), sec.kind == SectionKind.Bss || sec.kind == Tbss,
                    [Contribution(p.o, sec.index, p.pos, 0, sec.size)])
  }

  lemma {:induction false} Opened(name: Name, sec: InputSection, o: nat, pos: nat)
    requires sec.align > 0
    ensures Extended(NewBuilder(name, sec, sec.align), sec, o, pos, sec.align)
            == Builder(name, sec.kind, sec.flags * {Alloc, Write, Exec, Tls}, sec.align, sec.size, PermOf(sec.flags),
                       sec.kind == SectionKind.Bss || sec.kind == Tbss, [Contribution(o, sec.index, pos, 0, sec.size)])
  {
    ModUnique(0, sec.align, 0, 0);
    AlignUpLeast(0, sec.align);
    hide AlignUp;
    assert [] + [Contribution(o, sec.index, pos, 0, sec.size)] == [Contribution(o, sec.index, pos, 0, sec.size)];
  }

  /** The first section under a name is a builder of its own. */
  lemma {:induction false} GroupFirst(inp: Grouping.Input, places: seq<Place>, order: seq<Name>,
          builders: map<Name, Builder>, p: Place, b: Builder)
    requires Grouped(inp, places, order, builders) && Opens(inp, p, b) && b.name !in builders
    ensures Grouped(inp, places + [p], order + [b.name], builders[b.name := b])
  {
    hide Grouped, IsPow2, AlignUp, Extended, NewBuilder;
    assert inp.AlignOf(p.o, p.pos) == inp.Sec(p.o, p.pos).align;
    GroupOne(inp, places, order, builders, p);
    Opened(inp.NameOf(p.o, p.pos), inp.Sec(p.o, p.pos), p.o, p.pos);
  }

  // ── Sorting ──────────────────────────────────────────────────────────────

  predicate InOrderBy(less: Order, s: seq<Builder>) { forall i, j | 0 <= i < j < |s| :: !less(s[j], s[i]) }

  lemma {:induction false} InsertLast(less: Order, b: Builder, s: seq<Builder>)
    requires forall x | x in s :: !less(b, x)
    ensures InsertBy(less, b, s) == s + [b]
    decreases |s|
  {
    if s != [] {
      InsertLast(less, b, s[1..]);
      assert s == [s[0]] + s[1..];
    }
  }

  lemma {:induction false} SortedStays(less: Order, s: seq<Builder>)
    requires InOrderBy(less, s)
    ensures SortBy(less, s) == s
    decreases |s|
  {
    hide InsertBy;
    if s != [] {
      var n := |s| - 1;
      assert forall i | 0 <= i < n :: s[..n][i] == s[i];
      SortedStays(less, s[..n]);
      InsertLast(less, s[n], s[..n]);
      assert s == s[..n] + [s[n]];
    }
  }

  function NoScript(): Script { (n: Name) => None }

  /** Without a script, builders in name order with synthetic ones that fit at the end stay as they are. */
  lemma {:induction false} ArrangedStays(grouped: seq<Builder>, synthetic: seq<Builder>)
    requires InOrderBy(ByName, grouped) && InOrderBy(ByName, grouped + synthetic)
    ensures Arranged(NoScript(), grouped, synthetic) == grouped + synthetic
  {
    var less := (a, b) => ScriptLess(NoScript(), a, b);
    assert InOrderBy(less, grouped + synthetic);
    hide ScriptLess, ByName, NoScript, InOrderBy, SortBy;
    SortedStays(ByName, grouped);
    SortedStays(less, grouped + synthetic);
  }

  // ── Placing ──────────────────────────────────────────────────────────────

  lemma {:induction false} UpTo(v: nat, a: nat, r: nat)
    requires a > 0 && r % a == 0 && v <= r < v + a
    ensures AlignUp(v, a) == r
  {
    var k := Multiple(r, a);
    ModUnique(v + a - 1, a, k, v + a - 1 - r);
    assert k * a == a * k;
  }

  lemma {:induction false} PlaceMore(bs: seq<Builder>, b: Builder, va: nat, base: nat, end: nat, addr: nat)
    requires base <= va && EndVa(bs, va) == end && AlignUp(end, b.align) == addr
    ensures EndVa(bs + [b], va) == addr + b.size && base <= addr
    ensures PlacedFrom(bs + [b], va, base) == PlacedFrom(bs, va, base) + [SecOf(b, addr, base)]
  {
    AlignUpAny(end, b.align);
    hide AlignUp;
    assert (bs + [b])[..|bs|] == bs;
  }

  lemma {:induction false} PlaceOne(b: Builder, va: nat, base: nat, addr: nat)
    requires base <= va && AlignUp(va, b.align) == addr
    ensures EndVa([b], va) == addr + b.size && base <= addr && PlacedFrom([b], va, base) == [SecOf(b, addr, base)]
  {
    hide AlignUp;
    assert [] + [b] == [b];
    PlaceMore([], b, va, base, va, addr);
    hide EndVa, PlacedFrom, SecOf;
    PlaceNone(va, base);
    assert [] + [SecOf(b, addr, base)] == [SecOf(b, addr, base)];
  }

  lemma {:induction false} PlaceNone(va: nat, base: nat)
    requires base <= va
    ensures EndVa([], va) == va && PlacedFrom([], va, base) == []
  {
  }
}
