/** What the stored fields mean to the running program: where a PC-relative field leads, what address an absolute
    one gives, and where a thread-pointer offset points (`peony-reloc/src/apply.rs:301-520`). */
module RelocMeaning {
  import opened Bytes
  import opened Reloc

  /** A field of `w` bytes read in two's complement. */
  function Signed(v: nat, w: nat): int { if 2 * v >= Pow256(w) then v - Pow256(w) else v }

  lemma {:induction false} SignedReads(v: int, w: nat)
    requires w in {4, 8} && 0 - Pow256(w) <= 2 * v < Pow256(w)
    ensures Signed(v % Pow256(w), w) == v
  {
    Pow256Values();
    var m := Pow256(w);
    hide Pow256;
    if v < 0 { ModUnique(v, m, -1, v + m); } else { ModUnique(v, m, 0, v); }
  }

  /** Equal as 64-bit addresses. */
  predicate SameAddress(x: int, y: int) { x % TWO64 == y % TWO64 }

  lemma {:induction false} WrappedIsSame(x: int)
    ensures SameAddress(I64(x), x)
  {
    ModShift(x, TWO64, -((x + TWO63) / TWO64));
  }

  lemma {:induction false} AddSame(p: int, x: int, y: int)
    requires SameAddress(x, y)
    ensures SameAddress(p + x, p + y)
  {
    var k := x / TWO64 - y / TWO64;
    assert x == y + TWO64 * k;
    ModShift(p + y, TWO64, k);
  }

  /** The field that relocation `t` has stored, read back with its sign. */
  function Read(sec: seq<byte>, t: RType, a: Addrs): int
    requires |sec| < TWO63 && FieldOf(t, a).Some? && Patched(sec, t, a).outcome.Done?
  {
    var w := FieldOf(t, a).value.width;
    FieldReadsBack(sec, t, a);
    Signed(FromLe(Patched(sec, t, a).bytes[a.offset..a.offset + w]), w)
  }

  /** A signed 32-bit or a 64-bit field reads as the formula's value. */
  lemma {:induction false} ReadsValue(sec: seq<byte>, t: RType, a: Addrs)
    requires |sec| < TWO63 && FieldOf(t, a) in {Some(F64), Some(FI32)} && Patched(sec, t, a).outcome.Done?
    ensures SameAddress(Read(sec, t, a), AbiValue(t, a))
  {
    FieldReadsBack(sec, t, a);
    var f, v := FieldOf(t, a).value, I64(AbiValue(t, a));
    hide Patched, AbiValue, FieldOf, FromLe;
    Pow256Values();
    assert f.lo <= v < f.hi;
    LowBytes(AbiValue(t, a), f.width);
    hide Pow256, I64;
    SignedReads(v, f.width);
    WrappedIsSame(AbiValue(t, a));
  }

  /** What a PC-relative relocation refers to: the symbol, its PLT stub, its GOT slot, its TLS slots, or the GOT. */
  function Destination(t: RType, a: Addrs): Option<u64> {
    match t
    case PC32 | PC64 => Some(a.s)
    case PLT32 => Some(if a.l != 0 then a.l else a.s)
    case GOTPCREL | GOTPCRELX | REX_GOTPCRELX => Some(a.g)
    case GOTPC32 => Some(a.gotBase)
    case GOTTPOFF => Some(a.tlsIe)
    case TLSGD => Some(a.tlsGd)
    case TLSLD => Some(a.tlsLdm)
    case GOTPC32_TLSDESC => Some(a.tlsDesc)
    case _ => None
  }

  lemma {:induction false} FormulaLeadsTo(t: RType, a: Addrs)
    requires Destination(t, a).Some?
    ensures a.p + AbiValue(t, a) - a.a == Destination(t, a).value
  {
  }

  /** From the place on, a PC-relative field leads to what it refers to, moved by the addend. */
  lemma {:induction false} FieldLeadsTo(sec: seq<byte>, t: RType, a: Addrs)
    requires |sec| < TWO63 && FieldOf(t, a) in {Some(F64), Some(FI32)} && Patched(sec, t, a).outcome.Done?
    requires Destination(t, a).Some?
    ensures SameAddress(a.p + Read(sec, t, a), Destination(t, a).value + a.a)
  {
    hide Read, Patched, FieldOf, AbiValue, SameAddress, Destination;
    ReadsValue(sec, t, a);
    AddSame(a.p, Read(sec, t, a), AbiValue(t, a));
    FormulaLeadsTo(t, a);
    assert a.p + AbiValue(t, a) == Destination(t, a).value + a.a;
  }

  lemma {:induction false} FormulaAddresses(t: RType, a: Addrs)
    ensures var v := AbiValue(t, a) - a.a;
            && (t == R64 || t == R32S ==> v == a.s) && (t == GOTOFF64 ==> a.gotBase + v == a.s)
            && (t == SIZE64 ==> v == a.z) && (t == TPOFF32 || t == TPOFF64 ==> a.tlsSize + v == a.tls)
            && ((t == DTPOFF32 || t == DTPOFF64) && !a.shared ==> a.tlsSize + v == a.tls)
            && ((t == DTPOFF32 || t == DTPOFF64) && a.shared ==> v == a.tls)
  {
  }

  /** An absolute field is the symbol's address and the addend, also from the GOT's start on. */
  lemma {:induction false} FieldAddresses(sec: seq<byte>, t: RType, a: Addrs)
    requires |sec| < TWO63 && FieldOf(t, a) in {Some(F64), Some(FI32)} && Patched(sec, t, a).outcome.Done?
    ensures var v := Read(sec, t, a) - a.a;
            && (t == R64 || t == R32S ==> SameAddress(v, a.s)) && (t == GOTOFF64 ==> SameAddress(a.gotBase + v, a.s))
            && (t == SIZE64 ==> SameAddress(v, a.z))
  {
    hide Read, Patched, FieldOf, AbiValue, SameAddress;
    ReadsValue(sec, t, a);
    FormulaAddresses(t, a);
    var r := Read(sec, t, a);
    var from := if t == GOTOFF64 then a.gotBase else 0;
    AddSame(from - a.a, r, AbiValue(t, a));
    assert from - a.a + r == from + (r - a.a);
  }

  /** A thread-pointer offset points from the end of the TLS block to the symbol in it, and so does an offset in the
      block of an executable, whose accesses start at the thread pointer; a shared object's starts at the block. */
  lemma {:induction false} ThreadOffsets(sec: seq<byte>, t: RType, a: Addrs, block: int)
    requires |sec| < TWO63 && FieldOf(t, a) in {Some(F64), Some(FI32)} && Patched(sec, t, a).outcome.Done?
    requires t in {TPOFF32, TPOFF64, DTPOFF32, DTPOFF64}
    ensures var v, toBlock := Read(sec, t, a) - a.a, a.shared && t in {DTPOFF32, DTPOFF64};
            SameAddress((if toBlock then block else block + a.tlsSize) + v, block + a.tls)
  {
    hide Read, Patched, FieldOf, AbiValue, SameAddress;
    ReadsValue(sec, t, a);
    FormulaAddresses(t, a);
    var from := if a.shared && t in {DTPOFF32, DTPOFF64} then block else block + a.tlsSize;
    var r := Read(sec, t, a);
    AddSame(from - a.a, r, AbiValue(t, a));
    assert from - a.a + r == from + (r - a.a) && from - a.a + AbiValue(t, a) == block + a.tls;
  }

  lemma {:induction false} FormulaNarrow(t: RType, a: Addrs)
    ensures var f, v := FieldOf(t, a), AbiValue(t, a);
            && (t in {R32, SIZE32, GOT32} ==> f == Some(FU32)) && (t in {R16, PC16} ==> f == Some(F16))
            && (t in {R8, PC8} ==> f == Some(F8))
            && (t in {R32, R16, R8} ==> v == a.s + a.a) && (t == SIZE32 ==> v == a.z + a.a)
            && (t == GOT32 ==> v == a.g - a.gotBase + a.a) && (t in {PC16, PC8} ==> v == a.s + a.a - a.p)
  {
  }

  /** The narrow fields hold the same sums cut to their width. */
  lemma {:induction false} NarrowFields(sec: seq<byte>, t: RType, a: Addrs)
    requires |sec| < TWO63 && FieldOf(t, a).Some? && Patched(sec, t, a).outcome.Done?
    ensures var w := FieldOf(t, a).value.width;
            var v := FromLe(Patched(sec, t, a).bytes[a.offset..a.offset + w]);
            && (t == R32 ==> w == 4 && v == (a.s + a.a) % TWO32) && (t == SIZE32 ==> w == 4 && v == (a.z + a.a) % TWO32)
            && (t == GOT32 ==> w == 4 && v == (a.g - a.gotBase + a.a) % TWO32)
            && (t == R16 ==> w == 2 && v == (a.s + a.a) % TWO16) && (t == R8 ==> w == 1 && v == (a.s + a.a) % 256)
            && (t == PC16 ==> w == 2 && v == (a.s + a.a - a.p) % TWO16)
            && (t == PC8 ==> w == 1 && v == (a.s + a.a - a.p) % 256)
  {
    hide Patched, FromLe, Pow256, AbiValue, FieldOf;
    FieldReadsBack(sec, t, a);
    Pow256Values();
    FormulaNarrow(t, a);
  }
}
