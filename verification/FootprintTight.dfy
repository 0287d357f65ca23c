/** The footprint of a relocation type holds no byte in vain, and every byte that its patch reads or writes
    (`peony-emit/src/input_work/footprints.rs:12-47`, `peony-reloc/src/apply.rs:301-802`). */
module FootprintTight {
  import opened Bytes
  import opened Reloc

  /** Patching changes byte `i`. */
  predicate Changes(sec: seq<byte>, t: RType, a: Addrs, i: nat)
    requires |sec| < TWO63
  {
    i < |sec| && |Patched(sec, t, a).bytes| == |sec| && Patched(sec, t, a).bytes[i] != sec[i]
  }

  /** What patching makes of byte `j` depends on byte `i`. */
  predicate Decides(sec: seq<byte>, t: RType, a: Addrs, i: nat, b: byte, j: nat)
    requires |sec| < TWO63
  {
    && i < |sec| && j < |sec| && i != j
    && |Patched(sec, t, a).bytes| == |Patched(sec[i := b], t, a).bytes| == |sec|
    && Patched(sec[i := b], t, a).bytes[j] != Patched(sec, t, a).bytes[j]
  }

  ghost predicate MattersIn(sec: seq<byte>, t: RType, a: Addrs, i: nat) {
    |sec| < TWO63 && (Changes(sec, t, a, i) || exists b: byte, j: nat :: Decides(sec, t, a, i, b, j))
  }

  /** Some patch of this type at this offset reads or writes byte `i`. */
  ghost predicate Matters(t: RType, offset: u64, i: nat) {
    exists sec: seq<byte>, a: Addrs :: a.offset == offset && MattersIn(sec, t, a, i)
  }

  // ── Every byte of the footprint matters ──────────────────────────────────

  /** An executable's addresses, all 0 but for the addend. */
  function OnlyAddend(x: int, offset: u64): Addrs {
    Addrs(0, x, 0, 0, 0, 0, 0, 0, 0, offset, false, 0, 0, 0, 0, false)
  }

  /** A section of 0xff bytes that begins with `code` at `start`. */
  function Filled(n: nat, start: nat, code: seq<byte>): (s: seq<byte>)
    ensures |s| == n
  {
    seq(n, j => if start <= j < start + |code| then code[j - start] else 0xff)
  }

  lemma {:induction false} AddendIsValue(t: RType, x: int, offset: u64)
    requires FieldOf(t, OnlyAddend(x, offset)).Some?
    ensures AbiValue(t, OnlyAddend(x, offset)) == x
  {
  }

  lemma {:induction false} FieldStored(sec: seq<byte>, t: RType, a: Addrs, f: Field, v: int)
    requires |sec| < TWO63 && FieldOf(t, a) == Some(f) && AbiValue(t, a) == v && -TWO63 <= v < TWO63
    requires f.lo <= v < f.hi && a.offset + f.width <= |sec|
    ensures Patched(sec, t, a).bytes == Splice(sec, a.offset, Le(v, f.width))
  {
    hide AbiValue, FieldOf;
    assert I64(v) == v;
  }

  lemma {:induction false} OneAt(k: nat, w: nat)
    requires k < w
    ensures Le(Pow256(k), w)[k] == 1
  {
    var p := Pow256(k);
    assert p / p == 1;
  }

  lemma {:induction false} FieldRange(t: RType, offset: u64, k: nat)
    requires FieldOf(t, OnlyAddend(0, offset)).Some? && k < FieldOf(t, OnlyAddend(0, offset)).value.width
    ensures var f := FieldOf(t, OnlyAddend(0, offset)).value; f.lo <= Pow256(k) < f.hi && Pow256(k) < TWO63
  {
    Pow256Values();
  }

  lemma {:induction false} SameField(t: RType, x: int, offset: u64)
    ensures FieldOf(t, OnlyAddend(x, offset)) == FieldOf(t, OnlyAddend(0, offset))
  {
  }

  lemma {:induction false} PlainMatters(t: RType, offset: u64, i: nat)
    requires FieldOf(t, OnlyAddend(0, offset)).Some? && offset < TWO63 - 16
    requires offset <= i < offset + FieldOf(t, OnlyAddend(0, offset)).value.width <= offset + 8
    ensures Matters(t, offset, i)
  {
    hide AbiValue, FieldOf, Pow256, Le, Patched;
    var k, f := i - offset, FieldOf(t, OnlyAddend(0, offset)).value;
    var a, sec := OnlyAddend(Pow256(k), offset), Zeros(offset + f.width);
    SameField(t, Pow256(k), offset);
    AddendIsValue(t, Pow256(k), offset);
    FieldRange(t, offset, k);
    FieldStored(sec, t, a, f, Pow256(k));
    OneAt(k, f.width);
    assert Splice(sec, offset, Le(Pow256(k), f.width))[offset..offset + f.width][k] == 1;
    assert Changes(sec, t, a, i);
    assert MattersIn(sec, t, a, i);
  }

  lemma {:induction false} GdPatched(sec: seq<byte>, a: Addrs, start: nat)
    requires 4 <= a.offset < TWO63 - 16 && start == a.offset - 4 && |sec| == a.offset + 12
    requires !a.shared && !a.tlsImported && LeOffset(a) == 0
    ensures Patched(sec, TLSGD, a).bytes ==
      if sec[start] == 0x66 && sec[start + 1] == 0x48 && sec[start + 2] == 0x8d
      then Splice(sec, start, GD_TO_LE + Le(0, 4)) else sec
  {
    hide LeOffset, Splice, Le;
    WrapFacts(sec, a.offset, 4, 16);
    assert Patched(sec, TLSGD, a) == RelaxGd(sec, a.offset, GD_TO_LE, 0);
  }

  lemma {:induction false} GdMatters(offset: u64, i: nat)
    requires 4 <= offset < TWO63 - 16 && offset - 4 <= i < offset + 12
    ensures Matters(TLSGD, offset, i)
  {
    hide Patched;
    var start := offset - 4;
    var sec, a := Filled(offset + 12, start, [0x66, 0x48, 0x8d]), OnlyAddend(-4, offset);
    assert LeOffset(a) == 0 && Le(0, 4) == [0, 0, 0, 0];
    hide LeOffset, Le;
    GdPatched(sec, a, start);
    var p := Splice(sec, start, GD_TO_LE + Le(0, 4));
    assert p[start..start + 16][i - start] == (GD_TO_LE + Le(0, 4))[i - start];
    if i < offset - 1 {
      assert p[start..start + 16][5] == 0;
      var other := sec[i := 0];
      GdPatched(other, a, start);
      assert Decides(sec, TLSGD, a, i, 0, offset + 1);
    } else {
      assert Changes(sec, TLSGD, a, i);
    }
    assert MattersIn(sec, TLSGD, a, i);
  }

  lemma {:induction false} LdMatters(offset: u64, i: nat)
    requires 3 <= offset < TWO63 - 16 && offset - 3 <= i < offset + 9
    ensures Matters(TLSLD, offset, i)
  {
    var start := offset - 3;
    var sec, a := Filled(offset + 9, start, []), OnlyAddend(0, offset);
    WrapFacts(sec, offset, 3, 12);
    var p := Splice(sec, start, LD_TO_LE);
    assert Patched(sec, TLSLD, a).bytes == p;
    assert p[start..start + 12][i - start] == LD_TO_LE[i - start];
    assert Changes(sec, TLSLD, a, i);
    assert MattersIn(sec, TLSLD, a, i);
  }

  lemma {:induction false} DescPatched(sec: seq<byte>, a: Addrs, start: nat)
    requires 3 <= a.offset < TWO63 - 16 && start == a.offset - 3 && |sec| == a.offset + 4
    requires !a.shared && !a.tlsImported && LeOffset(a) == 0
    ensures Patched(sec, GOTPC32_TLSDESC, a).bytes ==
      if sec[start] == 0x48 && sec[start + 1] == 0x8d
      then Splice(Splice(sec, start, DESC_TO_LE), a.offset, Le(0, 4)) else sec
  {
    hide LeOffset, Splice, Le;
    WrapFacts(sec, a.offset, 3, 7);
    assert Patched(sec, GOTPC32_TLSDESC, a) == RelaxDesc(sec, a.offset, DESC_TO_LE, 0, 0);
  }

  lemma {:induction false} DescMatters(offset: u64, i: nat)
    requires 3 <= offset < TWO63 - 16 && offset - 3 <= i < offset + 4
    ensures Matters(GOTPC32_TLSDESC, offset, i)
  {
    hide Patched;
    var start := offset - 3;
    var sec, a := Filled(offset + 4, start, [0x48, 0x8d]), OnlyAddend(-4, offset);
    assert LeOffset(a) == 0 && Le(0, 4) == [0, 0, 0, 0];
    hide LeOffset, Le;
    DescPatched(sec, a, start);
    var q := Splice(sec, start, DESC_TO_LE);
    var p := Splice(q, offset, Le(0, 4));
    assert p[offset..offset + 4][0] == 0;
    if i == start {
      var other := sec[i := 0];
      DescPatched(other, a, start);
      assert Decides(sec, GOTPC32_TLSDESC, a, i, 0, offset);
    } else {
      if i < offset { assert q[start..start + 7][i - start] == DESC_TO_LE[i - start]; }
      else { assert p[offset..offset + 4][i - offset] == 0; }
      assert Changes(sec, GOTPC32_TLSDESC, a, i);
    }
    assert MattersIn(sec, GOTPC32_TLSDESC, a, i);
  }

  lemma {:induction false} CallMatters(offset: u64, i: nat)
    requires offset < TWO63 - 16 && offset <= i < offset + 2
    ensures Matters(TLSDESC_CALL, offset, i)
  {
    var sec, a := Filled(offset + 2, offset, []), OnlyAddend(0, offset);
    var p := Splice(sec, offset, [0x66, 0x90]);
    assert Patched(sec, TLSDESC_CALL, a).bytes == p;
    assert p[offset..offset + 2][i - offset] == [0x66, 0x90][i - offset];
    assert Changes(sec, TLSDESC_CALL, a, i);
    assert MattersIn(sec, TLSDESC_CALL, a, i);
  }

  /** Some patch reads or writes every byte that is reserved for its type. */
  lemma {:induction false} FootprintMatters(t: RType, offset: u64, i: nat)
    requires offset < TWO63 - 16 && InFootprint(t, offset, i)
    ensures Matters(t, offset, i)
  {
    hide Matters;
    match t
    case TLSGD => GdMatters(offset, i);
    case TLSLD => LdMatters(offset, i);
    case GOTPC32_TLSDESC => DescMatters(offset, i);
    case TLSDESC_CALL => CallMatters(offset, i);
    case _ => PlainMatters(t, offset, i);
  }

  // ── And no other byte does ───────────────────────────────────────────────

  /** A store elsewhere does not see byte `i`. */
  lemma {:induction false} SpliceApart(sec: seq<byte>, off: nat, data: seq<byte>, i: nat, b: byte)
    requires off + |data| <= |sec| && i < |sec| && !(off <= i < off + |data|)
    ensures Splice(sec[i := b], off, data) == Splice(sec, off, data)[i := b]
  {
    var x, y := Splice(sec[i := b], off, data), Splice(sec, off, data)[i := b];
    forall k | 0 <= k < |sec| ensures x[k] == y[k] {
      if off <= k < off + |data| {
        assert x[off..off + |data|][k - off] == Splice(sec, off, data)[off..off + |data|][k - off];
      }
    }
  }

  lemma {:induction false} StoreApart(sec: seq<byte>, off: nat, v: int, f: Field, i: nat, b: byte)
    requires i < |sec| && !(off <= i < off + f.width)
    ensures StoreIn(sec[i := b], off, v, f.width, f.lo, f.hi).bytes
         == StoreIn(sec, off, v, f.width, f.lo, f.hi).bytes[i := b]
  {
    hide Splice, Le;
    if off + f.width <= |sec| { SpliceApart(sec, off, Le(v, f.width), i, b); }
  }

  lemma {:induction false} GdApart(sec: seq<byte>, off: u64, code: seq<byte>, imm: int, i: nat, b: byte)
    requires |code| == 12 && i < |sec| < TWO63 && off >= 4 && !(off - 4 <= i < off + 12)
    ensures RelaxGd(sec[i := b], off, code, imm).bytes == RelaxGd(sec, off, code, imm).bytes[i := b]
  {
    hide Splice, Le;
    WrapFacts(sec, off, 4, 16);
    if off + 12 <= |sec| { SpliceApart(sec, off - 4, code + Le(imm, 4), i, b); }
  }

  lemma {:induction false} LdApart(sec: seq<byte>, off: u64, i: nat, b: byte)
    requires i < |sec| < TWO63 && off >= 3 && !(off - 3 <= i < off + 9)
    ensures RelaxLd(sec[i := b], off).bytes == RelaxLd(sec, off).bytes[i := b]
  {
    hide Splice;
    WrapFacts(sec, off, 3, 12);
    if off + 9 <= |sec| { SpliceApart(sec, off - 3, LD_TO_LE, i, b); }
  }

  lemma {:induction false} DescApart(sec: seq<byte>, off: u64, code: seq<byte>, at: nat, imm: int, i: nat, b: byte)
    requires at + |code| <= 7 && i < |sec| < TWO63 && off >= 3 && !(off - 3 <= i < off + 4)
    ensures RelaxDesc(sec[i := b], off, code, at, imm).bytes == RelaxDesc(sec, off, code, at, imm).bytes[i := b]
  {
    hide Splice, Le;
    WrapFacts(sec, off, 3, 7);
    if off + 4 <= |sec| {
      SpliceApart(sec, off - 3 + at, code, i, b);
      StoreApart(Splice(sec, off - 3 + at, code), off, imm, FI32, i, b);
    }
  }

  lemma {:induction false} CallApart(sec: seq<byte>, off: u64, shared: bool, i: nat, b: byte)
    requires i < |sec| < TWO63 && !(off <= i < off + 2)
    ensures RelaxCall(sec[i := b], off, shared).bytes == RelaxCall(sec, off, shared).bytes[i := b]
  {
    hide Splice;
    if off + 2 <= |sec| { SpliceApart(sec, off, [0x66, 0x90], i, b); }
  }

  /** A byte outside the footprint takes no part in the patch. */
  lemma {:induction false} PatchIsLocal(sec: seq<byte>, t: RType, a: Addrs, i: nat, b: byte)
    requires i < |sec| < TWO63 && !RelocationFootprint(t, a.offset).BeforeSection? && !InFootprint(t, a.offset, i)
    ensures Patched(sec[i := b], t, a).bytes == Patched(sec, t, a).bytes[i := b]
  {
    hide RelaxGd, RelaxLd, RelaxDesc, RelaxCall, StoreIn, AbiValue, LeOffset, IeDisplacement;
    var f := FieldOf(t, a);
    if f.Some? {
      FieldInFootprint(t, a);
      StoreApart(sec, a.offset, I64(AbiValue(t, a)), f.value, i, b);
    } else {
      match t
      case TLSGD =>
        GdApart(sec, a.offset, GD_TO_IE, IeDisplacement(a, 8), i, b);
        GdApart(sec, a.offset, GD_TO_LE, LeOffset(a), i, b);
      case TLSLD => LdApart(sec, a.offset, i, b);
      case GOTPC32_TLSDESC =>
        DescApart(sec, a.offset, [0x8b], 1, IeDisplacement(a, 0), i, b);
        DescApart(sec, a.offset, DESC_TO_LE, 0, LeOffset(a), i, b);
      case TLSDESC_CALL => CallApart(sec, a.offset, a.shared, i, b);
      case _ =>
    }
  }

  /** The emitter reserves exactly the bytes that patches of a type read or write: less would let two items
      race, more would refuse links that are sound. */
  lemma {:induction false} FootprintExactly(t: RType, offset: u64, i: nat)
    requires offset < TWO63 - 16 && !RelocationFootprint(t, offset).BeforeSection?
    ensures InFootprint(t, offset, i) <==> Matters(t, offset, i)
  {
    hide Patched, InFootprint, RelocationFootprint;
    if InFootprint(t, offset, i) { FootprintMatters(t, offset, i); }
    else if Matters(t, offset, i) {
      var sec: seq<byte>, a: Addrs :| a.offset == offset && MattersIn(sec, t, a, i);
      NothingMatters(sec, t, a, i);
    }
  }

  lemma {:induction false} NothingMatters(sec: seq<byte>, t: RType, a: Addrs, i: nat)
    requires !RelocationFootprint(t, a.offset).BeforeSection? && !InFootprint(t, a.offset, i)
    ensures !MattersIn(sec, t, a, i)
  {
    hide Patched, InFootprint, RelocationFootprint;
    if i < |sec| < TWO63 {
      OutsideFootprint(sec, t, a, i);
      forall b: byte, j: nat ensures !Decides(sec, t, a, i, b, j) { PatchIsLocal(sec, t, a, i, b); }
    }
  }
}
