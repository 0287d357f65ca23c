/** Relocation application (`peony-reloc/src/apply.rs`) and the byte footprint that the emitter
    reserves for each relocation type (`peony-emit/src/input_work/footprints.rs`). */
module Reloc {
  import opened Bytes

  /** x86-64 relocation types the linker names; every other number is `Other`. */
  datatype RType =
    | NONE | R64 | PC32 | GOT32 | PLT32 | GOTPCREL | R32 | R32S | R16 | PC16 | R8 | PC8
    | DTPMOD64 | DTPOFF64 | TPOFF64 | TLSGD | TLSLD | DTPOFF32 | GOTTPOFF | TPOFF32 | PC64
    | GOTOFF64 | GOTPC32 | SIZE32 | SIZE64 | GOTPC32_TLSDESC | TLSDESC_CALL | TLSDESC
    | GOTPCRELX | REX_GOTPCRELX | Other(code: nat)

  /** Addresses used when computing a relocation value. */
  datatype Addrs = Addrs(
    s: u64, a: int, p: u64, g: u64, l: u64, z: u64, gotBase: u64,
    tls: u64, tlsSize: u64, offset: u64, shared: bool,
    tlsGd: u64, tlsIe: u64, tlsDesc: u64, tlsLdm: u64, tlsImported: bool)

  /** `Panicked` is Rust's slice-bounds panic: the store is not made. */
  datatype Outcome = Done | Overflow(value: int) | Panicked

  datatype Patch = Patch(bytes: seq<byte>, outcome: Outcome)

  /** Wrapping to `i64`. */
  function I64(x: int): (r: int)
    ensures -TWO63 <= r < TWO63
  {
    x - TWO64 * ((x + TWO63) / TWO64)
  }

  // ── Width-checked stores ─────────────────────────────────────────────────

  function Store(sec: seq<byte>, off: nat, v: int, w: nat): Patch {
    if off + w <= |sec| then Patch(Splice(sec, off, Le(v, w)), Done) else Patch(sec, Panicked)
  }

  function StoreIn(sec: seq<byte>, off: nat, v: int, w: nat, lo: int, hi: int): Patch {
    if lo <= v < hi then Store(sec, off, v, w) else Patch(sec, Overflow(v))
  }

  // ── Plain fields: one store of one value ─────────────────────────────────

  /** Field width and accepted value range; 64-bit fields accept every `i64`. */
  datatype Field = Field(width: nat, lo: int, hi: int)

  const F64 := Field(8, -TWO63, TWO63)
  const FI32 := Field(4, -TWO31, TWO31)
  const FU32 := Field(4, -TWO31, TWO32)
  const F16 := Field(2, -0x8000, TWO16)
  const F8 := Field(1, -0x80, 0x100)

  function FieldOf(t: RType, a: Addrs): Option<Field> {
    match t
    case R64 | PC64 | GOTOFF64 | SIZE64 | TPOFF64 | DTPOFF64 => Some(F64)
    case R32 | SIZE32 | GOT32 => Some(FU32)
    case R32S | PC32 | PLT32 | GOTPCREL | GOTPCRELX | REX_GOTPCRELX | GOTPC32 | TPOFF32 | DTPOFF32 | GOTTPOFF =>
      Some(FI32)
    case TLSGD | TLSLD | GOTPC32_TLSDESC => if a.shared then Some(FI32) else None
    case R16 | PC16 => Some(F16)
    case R8 | PC8 => Some(F8)
    case _ => None
  }

  /** The psABI formula of each plain field, over unbounded integers. The code computes it with wrapping `i64`
      additions and subtractions, a chain of which is the exact sum wrapped once. */
  function AbiValue(t: RType, a: Addrs): int {
    match t
    case R64 | R32 | R32S | R16 | R8 => a.s + a.a
    case PC64 | PC32 | PC16 | PC8 => a.s + a.a - a.p
    case GOTOFF64 => a.s + a.a - a.gotBase
    case SIZE64 | SIZE32 => a.z + a.a
    case PLT32 => (if a.l != 0 then a.l else a.s) + a.a - a.p
    case GOTPCREL | GOTPCRELX | REX_GOTPCRELX => a.g + a.a - a.p
    case GOT32 => a.g + a.a - a.gotBase
    case GOTPC32 => a.gotBase + a.a - a.p
    case TPOFF32 | TPOFF64 => a.tls + a.a - a.tlsSize
    case DTPOFF32 | DTPOFF64 => if a.shared then a.tls + a.a else a.tls + a.a - a.tlsSize
    case TLSGD => a.tlsGd + a.a - a.p
    case TLSLD => a.tlsLdm + a.a - a.p
    case GOTTPOFF => a.tlsIe + a.a - a.p
    case GOTPC32_TLSDESC => a.tlsDesc + a.a - a.p
    case _ => 0
  }

  // ── TLS relaxations: instruction rewrites in an executable ───────────────

  const GD_TO_LE: seq<byte> := [0x64, 0x48, 0x8b, 0x04, 0x25, 0, 0, 0, 0, 0x48, 0x8d, 0x80]
  const GD_TO_IE: seq<byte> := [0x64, 0x48, 0x8b, 0x04, 0x25, 0, 0, 0, 0, 0x48, 0x03, 0x05]
  const LD_TO_LE: seq<byte> := [0x66, 0x66, 0x66, 0x64, 0x48, 0x8b, 0x04, 0x25, 0, 0, 0, 0]
  const DESC_TO_LE: seq<byte> := [0x48, 0xc7, 0xc0, 0, 0, 0, 0]

  /** `off.wrapping_sub(prefix)` on `usize`. */
  function WrappedStart(off: u64, prefix: nat): (start: u64) { (off - prefix) % TWO64 }

  /** The guard `start + len <= buf.len()`, on wrapping `usize`. */
  predicate SpanGuard(sec: seq<byte>, off: u64, prefix: nat, len: nat) {
    (WrappedStart(off, prefix) + len) % TWO64 <= |sec|
  }

  function RelaxGd(sec: seq<byte>, off: u64, code: seq<byte>, imm: int): Patch
    requires |code| == 12 && |sec| < TWO63
  {
    var start := WrappedStart(off, 4);
    if !SpanGuard(sec, off, 4, 16) then Patch(sec, Done)
    else if start + 16 > |sec| then Patch(sec, Panicked)
    else if sec[start] != 0x66 || sec[start + 1] != 0x48 || sec[start + 2] != 0x8d then Patch(sec, Done)
    else if !(-TWO31 <= imm < TWO31) then Patch(sec, Overflow(imm))
    else Patch(Splice(sec, start, code + Le(imm, 4)), Done)
  }

  function RelaxLd(sec: seq<byte>, off: u64): Patch
    requires |sec| < TWO63
  {
    var start := WrappedStart(off, 3);
    if !SpanGuard(sec, off, 3, 12) then Patch(sec, Done)
    else if start + 12 > |sec| then Patch(sec, Panicked)
    else Patch(Splice(sec, start, LD_TO_LE), Done)
  }

  /** TLSDESC: rewrites the `lea` to `code`, then stores the 32-bit operand, which may overflow after
      the opcode has already been replaced. */
  function RelaxDesc(sec: seq<byte>, off: u64, code: seq<byte>, at: nat, imm: int): Patch
    requires at + |code| <= 7 && |sec| < TWO63
  {
    var start := WrappedStart(off, 3);
    if !SpanGuard(sec, off, 3, 7) then Patch(sec, Done)
    else if start + 7 > |sec| then Patch(sec, Panicked)
    else if sec[start] != 0x48 || sec[start + 1] != 0x8d then Patch(sec, Done)
    else StoreIn(Splice(sec, start + at, code), off, imm, 4, -TWO31, TWO31)
  }

  function RelaxCall(sec: seq<byte>, off: u64, shared: bool): Patch
    requires |sec| < TWO63
  {
    if shared || off + 2 > |sec| then Patch(sec, Done) else Patch(Splice(sec, off, [0x66, 0x90]), Done)
  }

  /** Local-Exec operand of the General-Dynamic and descriptor relaxations. */
  function LeOffset(a: Addrs): int { I64(a.tls + a.a + 4 - a.tlsSize) }

  /** Operand of the relaxations that load a loader-filled Initial-Exec slot. */
  function IeDisplacement(a: Addrs, back: nat): int { I64(a.tlsIe + a.a - a.p - back) }

  /** What one relocation of type `t` does to the bytes of its section. */
  function Patched(sec: seq<byte>, t: RType, a: Addrs): (r: Patch)
    requires |sec| < TWO63
  {
    match FieldOf(t, a)
    case Some(f) => StoreIn(sec, a.offset, I64(AbiValue(t, a)), f.width, f.lo, f.hi)
    case None =>
      match t
      case TLSGD =>
        if a.tlsImported then RelaxGd(sec, a.offset, GD_TO_IE, IeDisplacement(a, 8))
        else RelaxGd(sec, a.offset, GD_TO_LE, LeOffset(a))
      case TLSLD => RelaxLd(sec, a.offset)
      case GOTPC32_TLSDESC =>
        if a.tlsImported then RelaxDesc(sec, a.offset, [0x8b], 1, IeDisplacement(a, 0))
        else RelaxDesc(sec, a.offset, DESC_TO_LE, 0, LeOffset(a))
      case TLSDESC_CALL => RelaxCall(sec, a.offset, a.shared)
      case _ => Patch(sec, Done)
  }

  // ── The footprint the emitter checks before any byte is written ──────────

  datatype Footprint = NoBytes | BeforeSection(prefix: nat) | Span(start: nat, len: nat)

  function RelocationFootprint(t: RType, offset: u64): Footprint {
    var (prefix, len) :=
      match t
      case R64 | PC64 | GOTOFF64 | SIZE64 | TPOFF64 | DTPOFF64 => (0, 8)
      case R32 | R32S | PC32 | SIZE32 | PLT32 | GOTPCREL | GOTPCRELX | REX_GOTPCRELX | GOT32 => (0, 4)
      case GOTPC32 | TPOFF32 | DTPOFF32 | GOTTPOFF => (0, 4)
      case R16 | PC16 => (0, 2)
      case R8 | PC8 => (0, 1)
      case TLSGD => (4, 16)
      case TLSLD => (3, 12)
      case GOTPC32_TLSDESC => (3, 7)
      case TLSDESC_CALL => (0, 2)
      case _ => (0, 0);
    if len == 0 then NoBytes
    else if offset < prefix then BeforeSection(prefix)
    else Span(offset - prefix, len)
  }

  predicate InFootprint(t: RType, offset: u64, i: int) {
    var f := RelocationFootprint(t, offset);
    f.Span? && f.start <= i < f.start + f.len
  }

  /** `r` has the length of `sec` and agrees with it outside `[lo, hi)`. */
  predicate ChangesOnly(sec: seq<byte>, r: Patch, lo: int, hi: int) {
    |r.bytes| == |sec| && forall i | 0 <= i < |sec| && !(lo <= i < hi) :: r.bytes[i] == sec[i]
  }

  lemma {:induction false} StoreFrame(sec: seq<byte>, off: nat, v: int, f: Field)
    ensures ChangesOnly(sec, StoreIn(sec, off, v, f.width, f.lo, f.hi), off, off + f.width)
  {
  }

  /** Below `prefix` the wrapped start lies beyond any section; otherwise it is the plain difference. */
  lemma {:induction false} WrapFacts(sec: seq<byte>, off: u64, prefix: nat, len: nat)
    requires |sec| < TWO63 && prefix <= len <= 16
    ensures off < prefix ==> WrappedStart(off, prefix) > |sec|
    ensures off >= prefix ==> WrappedStart(off, prefix) == off - prefix
  {
  }

  lemma {:induction false} GdFrame(sec: seq<byte>, off: u64, code: seq<byte>, imm: int)
    requires |code| == 12 && |sec| < TWO63
    ensures ChangesOnly(sec, RelaxGd(sec, off, code, imm), off - 4, off + 12)
    ensures off < 4 ==> RelaxGd(sec, off, code, imm).bytes == sec
  {
    WrapFacts(sec, off, 4, 16);
  }

  lemma {:induction false} LdFrame(sec: seq<byte>, off: u64)
    requires |sec| < TWO63
    ensures ChangesOnly(sec, RelaxLd(sec, off), off - 3, off + 9)
    ensures off < 3 ==> RelaxLd(sec, off).bytes == sec
  {
    WrapFacts(sec, off, 3, 12);
  }

  lemma {:induction false} DescFrame(sec: seq<byte>, off: u64, code: seq<byte>, at: nat, imm: int)
    requires at + |code| <= 7 && |sec| < TWO63
    ensures ChangesOnly(sec, RelaxDesc(sec, off, code, at, imm), off - 3, off + 4)
    ensures off < 3 ==> RelaxDesc(sec, off, code, at, imm).bytes == sec
  {
    WrapFacts(sec, off, 3, 7);
    if off >= 3 && off + 4 <= |sec| {
      StoreFrame(Splice(sec, off - 3 + at, code), off, imm, FI32);
    }
  }

  /** Every plain field lies in the footprint of its type. */
  lemma {:induction false} FieldInFootprint(t: RType, a: Addrs)
    requires FieldOf(t, a).Some?
    ensures var f := RelocationFootprint(t, a.offset);
            match f
            case NoBytes => false
            case Span(start, len) => start <= a.offset && a.offset + FieldOf(t, a).value.width <= start + len
            case BeforeSection(_) => a.shared && FieldOf(t, a).value.width == 4
  {
  }

  /** `r` changes no byte outside the footprint of the relocation. A footprint that starts before the
      section is refused by the emitter; even then an executable's relaxation writes nothing. */
  predicate Confined(sec: seq<byte>, r: Patch, t: RType, a: Addrs) {
    match RelocationFootprint(t, a.offset)
    case NoBytes => r == Patch(sec, Done)
    case Span(start, len) => ChangesOnly(sec, r, start, start + len)
    case BeforeSection(_) => if a.shared then ChangesOnly(sec, r, a.offset, a.offset + 4) else r.bytes == sec
  }

  lemma {:induction false} StoreConfined(sec: seq<byte>, t: RType, a: Addrs, v: int)
    requires FieldOf(t, a).Some?
    ensures var f := FieldOf(t, a).value; Confined(sec, StoreIn(sec, a.offset, v, f.width, f.lo, f.hi), t, a)
  {
    StoreFrame(sec, a.offset, v, FieldOf(t, a).value);
    FieldInFootprint(t, a);
  }

  lemma {:induction false} RelaxationConfined(sec: seq<byte>, t: RType, a: Addrs)
    requires |sec| < TWO63 && FieldOf(t, a).None?
    ensures Confined(sec, Patched(sec, t, a), t, a)
  {
    hide RelaxGd, RelaxLd, RelaxDesc, Le, Splice, I64, LeOffset, IeDisplacement;
    match t {
      case TLSGD =>
        var code, imm := if a.tlsImported then GD_TO_IE else GD_TO_LE,
                         if a.tlsImported then IeDisplacement(a, 8) else LeOffset(a);
        assert Patched(sec, t, a) == RelaxGd(sec, a.offset, code, imm);
        GdFrame(sec, a.offset, code, imm);
      case TLSLD => LdFrame(sec, a.offset);
      case GOTPC32_TLSDESC =>
        DescFrame(sec, a.offset, [0x8b], 1, IeDisplacement(a, 0));
        DescFrame(sec, a.offset, DESC_TO_LE, 0, LeOffset(a));
      case _ =>
    }
  }

  /** Whatever the type, the addresses and the bytes, a relocation keeps the section's length and
      changes no byte outside its footprint. */
  lemma {:induction false} PatchStaysInFootprint(sec: seq<byte>, t: RType, a: Addrs)
    requires |sec| < TWO63
    ensures |Patched(sec, t, a).bytes| == |sec|
    ensures Confined(sec, Patched(sec, t, a), t, a)
  {
    match FieldOf(t, a)
    case Some(f) => StoreConfined(sec, t, a, I64(AbiValue(t, a)));
    case None => RelaxationConfined(sec, t, a);
  }

  /** Byte by byte: a relocation that the emitter lets through changes footprint bytes only. */
  lemma {:induction false} OutsideFootprint(sec: seq<byte>, t: RType, a: Addrs, i: nat)
    requires i < |sec| < TWO63 && !RelocationFootprint(t, a.offset).BeforeSection? && !InFootprint(t, a.offset, i)
    ensures |Patched(sec, t, a).bytes| == |sec| && Patched(sec, t, a).bytes[i] == sec[i]
  {
    hide Patched;
    PatchStaysInFootprint(sec, t, a);
  }

  // ── What the fields hold ─────────────────────────────────────────────────

  lemma {:induction false} LowBytes(x: int, w: nat)
    requires w in {1, 2, 4, 8}
    ensures I64(x) % Pow256(w) == x % Pow256(w)
  {
    Pow256Values();
    var k := -((x + TWO63) / TWO64);
    var rest := if w == 8 then 1 else if w == 4 then TWO32 else if w == 2 then 0x1_0000_0000_0000
        else 0x100_0000_0000_0000;
    assert I64(x) == x + Pow256(w) * (rest * k);
    ModShift(x, Pow256(w), rest * k);
  }

  /** A plain relocation stores the psABI value, truncated to the field; it reports overflow exactly
      when the wrapped value leaves the field's range, and never for a 64-bit field. */
  lemma {:induction false} FieldReadsBack(sec: seq<byte>, t: RType, a: Addrs)
    requires |sec| < TWO63 && FieldOf(t, a).Some?
    ensures var f, r, v := FieldOf(t, a).value, Patched(sec, t, a), I64(AbiValue(t, a));
            && (r.outcome == Overflow(v) <==> !(f.lo <= v < f.hi))
            && (r.outcome == Panicked <==> f.lo <= v < f.hi && a.offset + f.width > |sec|)
            && (r.outcome.Done? ==>
                  a.offset + f.width <= |sec| == |r.bytes|
                  && FromLe(r.bytes[a.offset..a.offset + f.width]) == AbiValue(t, a) % Pow256(f.width))
  {
    var f := FieldOf(t, a).value;
    LeRoundTrip(I64(AbiValue(t, a)), f.width);
    LowBytes(AbiValue(t, a), f.width);
  }

  /** An executable's General-Dynamic access becomes `mov %fs:0,%rax` plus the thread-pointer offset
      of the symbol (or a load of its Initial-Exec slot when a library owns it). */
  lemma {:induction false} RelaxedGdReadsBack(sec: seq<byte>, a: Addrs)
    requires |sec| < TWO63 && !a.shared && 4 <= a.offset && a.offset + 12 <= |sec|
    requires sec[a.offset - 4] == 0x66 && sec[a.offset - 3] == 0x48 && sec[a.offset - 2] == 0x8d
    requires Patched(sec, TLSGD, a).outcome.Done?
    ensures var r := Patched(sec, TLSGD, a).bytes;
            && |r| == |sec|
            && r[a.offset - 4..a.offset + 8] == (if a.tlsImported then GD_TO_IE else GD_TO_LE)
            && FromLe(r[a.offset + 8..a.offset + 12])
               == (if a.tlsImported then a.tlsIe + a.a - (a.p + 8) else a.tls + a.a + 4 - a.tlsSize) % TWO32
  {
    hide Le, FromLe, Splice, Pow256;
    var code := if a.tlsImported then GD_TO_IE else GD_TO_LE;
    var value := if a.tlsImported then a.tlsIe + a.a - (a.p + 8) else a.tls + a.a + 4 - a.tlsSize;
    var start := a.offset - 4;
    WrapFacts(sec, a.offset, 4, 16);
    var r := RelaxGd(sec, a.offset, code, I64(value));
    assert Patched(sec, TLSGD, a) == r;
    assert r.bytes == Splice(sec, start, code + Le(I64(value), 4));
    GdReadsBack(sec, start, code, value);
  }

  lemma {:induction false} GdReadsBack(sec: seq<byte>, start: nat, code: seq<byte>, value: int)
    requires |code| == 12 && start + 16 <= |sec|
    ensures var r := Splice(sec, start, code + Le(I64(value), 4));
            r[start..start + 12] == code && FromLe(r[start + 12..start + 16]) == value % TWO32
  {
    var text := code + Le(I64(value), 4);
    var r := Splice(sec, start, text);
    assert r[start..start + 12] == text[..12] == code;
    assert r[start + 12..start + 16] == text[12..] == Le(I64(value), 4);
    LeRoundTrip(I64(value), 4);
    Pow256Values();
    LowBytes(value, 4);
  }

  // ── In place ─────────────────────────────────────────────────────────────

  /** `patch_buf` on the window `[lo, lo + n)` of the output buffer. */
  method PatchBuf(buf: array<byte>, lo: nat, n: nat, t: RType, a: Addrs) returns (outcome: Outcome)
    requires lo + n <= buf.Length && n < TWO63
    modifies buf
    ensures var r := Patched(old(buf[lo..lo + n]), t, a);
            && outcome == r.outcome
            && |r.bytes| == n
            && buf[..] == Splice(old(buf[..]), lo, r.bytes)
  {
    hide Le, Splice, I64, StoreIn, RelaxGd, RelaxLd, RelaxDesc, Confined, AbiValue, LeOffset, IeDisplacement;
    ghost var was, sec := buf[..], buf[lo..lo + n];
    SpliceSelf(was, lo, n);
    PatchStaysInFootprint(sec, t, a);
    var off := a.offset;
    var field := FieldOf(t, a);
    if field.Some? {
      var v := I64(AbiValue(t, a));
      outcome := StoreChecked(buf, lo, n, off, v, field.value);
      return;
    }
    match t {
      case TLSGD =>
        var code, imm := if a.tlsImported then GD_TO_IE else GD_TO_LE,
                         if a.tlsImported then IeDisplacement(a, 8) else LeOffset(a);
        outcome := RewriteGd(buf, lo, n, off, code, imm);
      case TLSLD => outcome := RewriteLd(buf, lo, n, off);
      case GOTPC32_TLSDESC =>
        if a.tlsImported {
          outcome := RewriteDesc(buf, lo, n, off, [0x8b], 1, IeDisplacement(a, 0));
        } else {
          outcome := RewriteDesc(buf, lo, n, off, DESC_TO_LE, 0, LeOffset(a));
        }
      case TLSDESC_CALL =>
        if !a.shared && off + 2 <= n {
          SpliceWindow(was, lo, n, off, [0x66, 0x90]);
          StoreAt(buf, lo + off, [0x66, 0x90]);
        }
        outcome := Done;
      case _ => outcome := Done;
    }
  }

  method StoreChecked(buf: array<byte>, lo: nat, n: nat, off: nat, v: int, f: Field) returns (outcome: Outcome)
    requires lo + n <= buf.Length
    modifies buf
    ensures var r := StoreIn(old(buf[lo..lo + n]), off, v, f.width, f.lo, f.hi);
            outcome == r.outcome && |r.bytes| == n && buf[..] == Splice(old(buf[..]), lo, r.bytes)
  {
    hide Le, Pow256, Splice;
    ghost var was := buf[..];
    SpliceSelf(was, lo, n);
    if !(f.lo <= v < f.hi) { return Overflow(v); }
    if off + f.width > n { return Panicked; }
    SpliceWindow(was, lo, n, off, Le(v, f.width));
    StoreAt(buf, lo + off, Le(v, f.width));
    return Done;
  }

  method RewriteGd(buf: array<byte>, lo: nat, n: nat, off: u64, code: seq<byte>, imm: int) returns (outcome: Outcome)
    requires lo + n <= buf.Length && n < TWO63 && |code| == 12
    modifies buf
    ensures var r := RelaxGd(old(buf[lo..lo + n]), off, code, imm);
            outcome == r.outcome && |r.bytes| == n && buf[..] == Splice(old(buf[..]), lo, r.bytes)
  {
    hide Le, Pow256, Splice;
    ghost var was := buf[..];
    SpliceSelf(was, lo, n);
    var start := WrappedStart(off, 4);
    if (start + 16) % TWO64 > n { return Done; }
    if start + 16 > n { return Panicked; }
    var at := lo + start;
    if buf[at] != 0x66 || buf[at + 1] != 0x48 || buf[at + 2] != 0x8d { return Done; }
    if !(-TWO31 <= imm < TWO31) { return Overflow(imm); }
    SpliceWindow(was, lo, n, start, code + Le(imm, 4));
    StoreAt(buf, at, code + Le(imm, 4));
    return Done;
  }

  method RewriteLd(buf: array<byte>, lo: nat, n: nat, off: u64) returns (outcome: Outcome)
    requires lo + n <= buf.Length && n < TWO63
    modifies buf
    ensures var r := RelaxLd(old(buf[lo..lo + n]), off);
            outcome == r.outcome && |r.bytes| == n && buf[..] == Splice(old(buf[..]), lo, r.bytes)
  {
    hide Le, Pow256, Splice;
    ghost var was := buf[..];
    SpliceSelf(was, lo, n);
    var start := WrappedStart(off, 3);
    if (start + 12) % TWO64 > n { return Done; }
    if start + 12 > n { return Panicked; }
    SpliceWindow(was, lo, n, start, LD_TO_LE);
    StoreAt(buf, lo + start, LD_TO_LE);
    return Done;
  }

  method RewriteDesc(buf: array<byte>, lo: nat, n: nat, off: u64, code: seq<byte>, at: nat, imm: int)
    returns (outcome: Outcome)
    requires lo + n <= buf.Length && n < TWO63 && at + |code| <= 7
    modifies buf
    ensures var r := RelaxDesc(old(buf[lo..lo + n]), off, code, at, imm);
            outcome == r.outcome && |r.bytes| == n && buf[..] == Splice(old(buf[..]), lo, r.bytes)
  {
    hide Le, Pow256, Splice, StoreIn;
    ghost var was, sec := buf[..], buf[lo..lo + n];
    SpliceSelf(was, lo, n);
    var start := WrappedStart(off, 3);
    WrapFacts(sec, off, 3, 7);
    if (start + 7) % TWO64 > n { return Done; }
    if start + 7 > n { return Panicked; }
    if buf[lo + start] != 0x48 || buf[lo + start + 1] != 0x8d { return Done; }
    assert buf[lo + start] == sec[start] && buf[lo + start + 1] == sec[start + 1];
    outcome := StoreCodeAndOperand(buf, lo, n, start + at, code, off, imm);
  }

  method StoreCodeAndOperand(buf: array<byte>, lo: nat, n: nat, k: nat, code: seq<byte>, off: nat, imm: int)
    returns (outcome: Outcome)
    requires lo + n <= buf.Length && k + |code| <= n
    modifies buf
    ensures var r := StoreIn(Splice(old(buf[lo..lo + n]), k, code), off, imm, 4, -TWO31, TWO31);
            outcome == r.outcome && |r.bytes| == n && buf[..] == Splice(old(buf[..]), lo, r.bytes)
  {
    hide Le, Pow256, Splice;
    ghost var was, sec := buf[..], buf[lo..lo + n];
    ghost var mid := Splice(sec, k, code);
    SpliceWindow(was, lo, n, k, code);
    StoreAt(buf, lo + k, code);
    assert buf[lo..lo + n] == buf[..][lo..lo + n] == mid;
    outcome := StoreChecked(buf, lo, n, off, imm, FI32);
    SpliceTwice(was, lo, mid, StoreIn(mid, off, imm, 4, -TWO31, TWO31).bytes);
  }
}
