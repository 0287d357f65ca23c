/** The instructions that the TLS relaxations write, run on a small machine: each leaves in `%rax` what the sequence
    it replaces computes (`peony-reloc/src/apply.rs:520-802`). */
module RelaxedTls {
  import opened Bytes
  import opened Reloc
  import opened RelocMeaning

  // ── The machine ──────────────────────────────────────────────────────────

  /** The thread pointer, 64-bit words of memory, and the address of the code. */
  datatype Machine = Machine(tp: u64, memory: u64 -> u64, start: u64)
  {
    /** `%fs:0` holds the thread pointer itself. */
    ghost predicate SelfPointer() { memory(tp) == tp }
  }

  predicate Op3(code: seq<byte>, pc: nat, a: byte, b: byte, c: byte) {
    pc + 7 <= |code| && code[pc] == a && code[pc + 1] == b && code[pc + 2] == c
  }

  /** A load through `%fs`, from an absolute offset. */
  predicate FsLoad(code: seq<byte>, pc: nat) {
    && pc + 9 <= |code| && code[pc] == 0x64 && code[pc + 1] == 0x48 && code[pc + 2] == 0x8b && code[pc + 3] == 0x04
    && code[pc + 4] == 0x25
  }

  function Operand(code: seq<byte>, pc: nat): int
    requires pc + 4 <= |code|
  {
    Signed(FromLe(code[pc..pc + 4]), 4)
  }

  /** The next position and `%rax` after the instruction at `pc`, if it is one of those the relaxations use. */
  function Step(m: Machine, code: seq<byte>, pc: nat, rax: u64): (r: Option<(nat, u64)>)
    ensures r.Some? ==> pc < r.value.0 <= |code|
  {
    if pc >= |code| then None
    else if FsLoad(code, pc) then Some((pc + 9, m.memory((m.tp + Operand(code, pc + 5)) % TWO64)))
    else if Op3(code, pc, 0x48, 0x8d, 0x80) then Some((pc + 7, (rax + Operand(code, pc + 3)) % TWO64))
    else if Op3(code, pc, 0x48, 0x03, 0x05) then
      Some((pc + 7, (rax + m.memory((m.start + pc + 7 + Operand(code, pc + 3)) % TWO64)) % TWO64))
    else if Op3(code, pc, 0x48, 0xc7, 0xc0) then Some((pc + 7, Operand(code, pc + 3) % TWO64))
    else if Op3(code, pc, 0x48, 0x8b, 0x05) then
      Some((pc + 7, m.memory((m.start + pc + 7 + Operand(code, pc + 3)) % TWO64)))
    else if code[pc] == 0x66 || code[pc] == 0x90 then Some((pc + 1, rax))
    else None
  }

  /** `%rax` at the end of the code. */
  function Run(m: Machine, code: seq<byte>, pc: nat, rax: u64): Option<u64>
    requires pc <= |code|
    decreases |code| - pc
  {
    if pc == |code| then Some(rax)
    else match Step(m, code, pc, rax) case None => None case Some(next) => Run(m, code, next.0, next.1)
  }

  // ── General-Dynamic ──────────────────────────────────────────────────────

  lemma {:induction false} ZeroOperand(code: seq<byte>, pc: nat)
    requires pc + 4 <= |code| && code[pc] == code[pc + 1] == code[pc + 2] == code[pc + 3] == 0
    ensures Operand(code, pc) == 0
  {
    var s := code[pc..pc + 4];
    assert s == [0, 0, 0, 0] && s[1..] == [0, 0, 0] && [0, 0, 0][1..] == [0, 0] && [0, 0][1..] == [0] && [0][1..] == [];
    assert FromLe(s) == 0;
    Pow256Values();
  }

  /** The load of the thread pointer at `pc`. */
  lemma {:induction false} LoadsTp(m: Machine, code: seq<byte>, pc: nat, rax: u64)
    requires FsLoad(code, pc) && code[pc + 5] == code[pc + 6] == code[pc + 7] == code[pc + 8] == 0 && m.SelfPointer()
    ensures Step(m, code, pc, rax) == Some((pc + 9, m.tp))
  {
    ZeroOperand(code, pc + 5);
    hide Operand;
  }

  lemma {:induction false} TwoSteps(m: Machine, code: seq<byte>, pc: nat, rax: u64, mid: u64, r: u64)
    requires 0 < pc < |code| && Step(m, code, 0, rax) == Some((pc, mid)) && Step(m, code, pc, mid) == Some((|code|, r))
    ensures Run(m, code, 0, rax) == Some(r)
  {
    hide Step;
    assert Run(m, code, |code|, r) == Some(r);
    assert Run(m, code, pc, mid) == Some(r);
  }

  /** `mov %fs:0,%rax; lea imm(%rax),%rax`. */
  lemma {:induction false} RunGdToLe(m: Machine, code: seq<byte>, rax: u64)
    requires |code| == 16 && code[..12] == GD_TO_LE && m.SelfPointer()
    ensures Run(m, code, 0, rax) == Some((m.tp + Operand(code, 12)) % TWO64)
  {
    assert forall i | 0 <= i < 12 :: code[i] == code[..12][i];
    hide Operand;
    LoadsTp(m, code, 0, rax);
    var r := (m.tp + Operand(code, 12)) % TWO64;
    assert Step(m, code, 9, m.tp) == Some((16, r));
    hide Step;
    TwoSteps(m, code, 9, rax, m.tp, r);
  }

  /** `mov %fs:0,%rax; add imm(%rip),%rax`. */
  lemma {:induction false} RunGdToIe(m: Machine, code: seq<byte>, rax: u64)
    requires |code| == 16 && code[..12] == GD_TO_IE && m.SelfPointer()
    ensures Run(m, code, 0, rax) == Some((m.tp + m.memory((m.start + 16 + Operand(code, 12)) % TWO64)) % TWO64)
  {
    assert forall i | 0 <= i < 12 :: code[i] == code[..12][i];
    hide Operand;
    LoadsTp(m, code, 0, rax);
    var r := (m.tp + m.memory((m.start + 16 + Operand(code, 12)) % TWO64)) % TWO64;
    assert Step(m, code, 9, m.tp) == Some((16, r));
    hide Step;
    TwoSteps(m, code, 9, rax, m.tp, r);
  }

  // ── What the relaxed code leaves ─────────────────────────────────────────

  /** A relaxation that finds the sequence it expects. */
  predicate Relaxes(sec: seq<byte>, t: RType, a: Addrs, before: nat, len: nat) {
    |sec| < TWO63 && !a.shared && before <= a.offset && a.offset - before + len <= |sec|
      && Patched(sec, t, a).outcome.Done?
  }

  lemma {:induction false} OperandReads(code: seq<byte>, pc: nat, v: int, x: int)
    requires pc + 4 <= |code| && -TWO31 <= v < TWO31 && FromLe(code[pc..pc + 4]) == v % TWO32 && SameAddress(v, x)
    ensures SameAddress(Operand(code, pc), x)
  {
    Pow256Values();
    SignedReads(v, 4);
  }

  /** The General-Dynamic sequence computed the address of the variable: where the block starts plus its offset. So
      does its replacement: from the thread pointer for a variable of the executable, whose block ends there, and
      from the thread pointer and the loader's Initial-Exec slot for a library's. The addend of the sequence is -4. */
  lemma {:induction false} RelaxedGd(sec: seq<byte>, a: Addrs, m: Machine, rax: u64)
    requires Relaxes(sec, TLSGD, a, 4, 16) && a.a == -4 && m.SelfPointer() && SameAddress(m.start, a.p - 4)
    requires sec[a.offset - 4] == 0x66 && sec[a.offset - 3] == 0x48 && sec[a.offset - 2] == 0x8d
    ensures var code := Patched(sec, TLSGD, a).bytes[a.offset - 4..a.offset + 12];
            && (!a.tlsImported ==> Run(m, code, 0, rax) == Some((m.tp - a.tlsSize + a.tls) % TWO64))
            && (a.tlsImported ==> Run(m, code, 0, rax) == Some((m.tp + m.memory(a.tlsIe)) % TWO64))
  {
    hide Patched, Run, Operand, FromLe;
    GdOperand(sec, a);
    var code := Patched(sec, TLSGD, a).bytes[a.offset - 4..a.offset + 12];
    if a.tlsImported {
      RunGdToIe(m, code, rax);
      SlotAddress(m.start, a.p - 4, 16, Operand(code, 12), a.tlsIe);
    } else {
      RunGdToLe(m, code, rax);
      AddSame(m.tp, Operand(code, 12), a.tls + a.a + 4 - a.tlsSize);
    }
  }

  /** A displacement that counts from the end of an instruction leads to its slot. */
  lemma {:induction false} SlotAddress(start: u64, here: int, len: nat, operand: int, slot: u64)
    requires SameAddress(start, here) && SameAddress(operand, slot - here - len)
    ensures (start + len + operand) % TWO64 == slot
  {
    AddSame(len, start, here);
    SumSame(start + len, here + len, operand, slot - here - len);
  }

  lemma {:induction false} SumSame(x: int, y: int, u: int, v: int)
    requires SameAddress(x, y) && SameAddress(u, v)
    ensures SameAddress(x + u, y + v)
  {
    AddSame(u, x, y);
    AddSame(y, u, v);
    assert u + x == x + u && u + y == y + u;
  }

  /** Code and operand of the replacement. */
  lemma {:induction false} GdOperand(sec: seq<byte>, a: Addrs)
    requires Relaxes(sec, TLSGD, a, 4, 16)
    requires sec[a.offset - 4] == 0x66 && sec[a.offset - 3] == 0x48 && sec[a.offset - 2] == 0x8d
    ensures |Patched(sec, TLSGD, a).bytes| == |sec|
    ensures var code := Patched(sec, TLSGD, a).bytes[a.offset - 4..a.offset + 12];
            && code[..12] == (if a.tlsImported then GD_TO_IE else GD_TO_LE)
            && SameAddress(Operand(code, 12),
                           if a.tlsImported then a.tlsIe + a.a - (a.p + 8) else a.tls + a.a + 4 - a.tlsSize)
  {
    RelaxedGdReadsBack(sec, a);
    GdInRange(sec, a);
    var r := Patched(sec, TLSGD, a).bytes;
    var code := r[a.offset - 4..a.offset + 12];
    var value := if a.tlsImported then a.tlsIe + a.a - (a.p + 8) else a.tls + a.a + 4 - a.tlsSize;
    hide Patched, FromLe, Operand;
    assert code[..12] == r[a.offset - 4..a.offset + 8] && code[12..16] == r[a.offset + 8..a.offset + 12];
    Pow256Values();
    LowBytes(value, 4);
    WrappedIsSame(value);
    hide I64, SameAddress;
    OperandReads(code, 12, I64(value), value);
  }

  lemma {:induction false} GdInRange(sec: seq<byte>, a: Addrs)
    requires Relaxes(sec, TLSGD, a, 4, 16)
    requires sec[a.offset - 4] == 0x66 && sec[a.offset - 3] == 0x48 && sec[a.offset - 2] == 0x8d
    ensures var value := if a.tlsImported then a.tlsIe + a.a - (a.p + 8) else a.tls + a.a + 4 - a.tlsSize;
            -TWO31 <= I64(value) < TWO31
  {
    hide I64, Le, Splice;
    WrapFacts(sec, a.offset, 4, 16);
  }

  // ── Local-Dynamic and descriptors ────────────────────────────────────────

  lemma {:induction false} RunLd(m: Machine, rax: u64)
    requires m.SelfPointer()
    ensures Run(m, LD_TO_LE, 0, rax) == Some(m.tp)
  {
    LoadsTp(m, LD_TO_LE, 3, rax);
    assert Step(m, LD_TO_LE, 0, rax) == Some((1, rax)) && Step(m, LD_TO_LE, 1, rax) == Some((2, rax))
           && Step(m, LD_TO_LE, 2, rax) == Some((3, rax));
    hide Step;
    assert Run(m, LD_TO_LE, 12, m.tp) == Some(m.tp);
    assert Run(m, LD_TO_LE, 3, rax) == Some(m.tp);
    assert Run(m, LD_TO_LE, 2, rax) == Some(m.tp);
    assert Run(m, LD_TO_LE, 1, rax) == Some(m.tp);
  }

  /** The Local-Dynamic sequence computed a base that offsets in the block are added to; an executable's offsets count
      from the thread pointer, and its replacement leaves just that. */
  lemma {:induction false} RelaxedLd(sec: seq<byte>, a: Addrs, m: Machine, rax: u64)
    requires Relaxes(sec, TLSLD, a, 3, 12) && m.SelfPointer()
    ensures |Patched(sec, TLSLD, a).bytes| == |sec|
    ensures Run(m, Patched(sec, TLSLD, a).bytes[a.offset - 3..a.offset + 9], 0, rax) == Some(m.tp)
  {
    hide Run;
    WrapFacts(sec, a.offset, 3, 12);
    RunLd(m, rax);
  }

  lemma {:induction false} RunDesc(m: Machine, code: seq<byte>, rax: u64)
    requires |code| == 7
    ensures code[..3] == [0x48, 0xc7, 0xc0] ==> Run(m, code, 0, rax) == Some(Operand(code, 3) % TWO64)
    ensures code[..3] == [0x48, 0x8b, 0x05] ==>
              Run(m, code, 0, rax) == Some(m.memory((m.start + 7 + Operand(code, 3)) % TWO64))
  {
    hide Operand;
    assert forall i | 0 <= i < 3 :: code[i] == code[..3][i];
    if code[..3] == [0x48, 0xc7, 0xc0] {
      assert Step(m, code, 0, rax) == Some((7, Operand(code, 3) % TWO64));
      assert Run(m, code, 7, Operand(code, 3) % TWO64) == Some(Operand(code, 3) % TWO64);
    }
    if code[..3] == [0x48, 0x8b, 0x05] {
      var r := m.memory((m.start + 7 + Operand(code, 3)) % TWO64);
      assert Step(m, code, 0, rax) == Some((7, r));
      assert Run(m, code, 7, r) == Some(r);
    }
  }

  /** Replacing `lea` by `mov` leaves the offset from the thread pointer that the descriptor's call returned, and
      loading the Initial-Exec slot leaves the one that the loader put there; the call itself leaves `%rax` alone. */
  lemma {:induction false} RelaxedDesc(sec: seq<byte>, a: Addrs, m: Machine, rax: u64)
    requires Relaxes(sec, GOTPC32_TLSDESC, a, 3, 7) && a.a == -4 && SameAddress(m.start, a.p - 3)
    requires sec[a.offset - 3] == 0x48 && sec[a.offset - 2] == 0x8d && sec[a.offset - 1] == 0x05
    ensures |Patched(sec, GOTPC32_TLSDESC, a).bytes| == |sec|
    ensures var code := Patched(sec, GOTPC32_TLSDESC, a).bytes[a.offset - 3..a.offset + 4];
            && (!a.tlsImported ==> Run(m, code, 0, rax) == Some((a.tls - a.tlsSize) % TWO64))
            && (a.tlsImported ==> Run(m, code, 0, rax) == Some(m.memory(a.tlsIe)))
  {
    hide Patched, Operand, Run;
    DescOperand(sec, a);
    var code := Patched(sec, GOTPC32_TLSDESC, a).bytes[a.offset - 3..a.offset + 4];
    RunDesc(m, code, rax);
    if a.tlsImported { SlotAddress(m.start, a.p - 3, 7, Operand(code, 3), a.tlsIe); }
  }

  function DescText(a: Addrs): seq<byte> { if a.tlsImported then [0x8b] else DESC_TO_LE }

  function DescAt(a: Addrs): int { if a.tlsImported then a.offset - 2 else a.offset - 3 }

  function DescValue(a: Addrs): int { if a.tlsImported then a.tlsIe + a.a - a.p else a.tls + a.a + 4 - a.tlsSize }

  lemma {:induction false} DescWrites(sec: seq<byte>, a: Addrs)
    requires Relaxes(sec, GOTPC32_TLSDESC, a, 3, 7) && sec[a.offset - 3] == 0x48 && sec[a.offset - 2] == 0x8d
    ensures -TWO31 <= I64(DescValue(a)) < TWO31
    ensures Patched(sec, GOTPC32_TLSDESC, a).bytes
            == Splice(Splice(sec, DescAt(a), DescText(a)), a.offset, Le(I64(DescValue(a)), 4))
  {
    WrapFacts(sec, a.offset, 3, 7);
    hide Le, I64, Splice;
  }

  lemma {:induction false} DescOperand(sec: seq<byte>, a: Addrs)
    requires Relaxes(sec, GOTPC32_TLSDESC, a, 3, 7) && a.a == -4
    requires sec[a.offset - 3] == 0x48 && sec[a.offset - 2] == 0x8d && sec[a.offset - 1] == 0x05
    ensures |Patched(sec, GOTPC32_TLSDESC, a).bytes| == |sec|
    ensures var code := Patched(sec, GOTPC32_TLSDESC, a).bytes[a.offset - 3..a.offset + 4];
            && code[..3] == (if a.tlsImported then [0x48, 0x8b, 0x05] else [0x48, 0xc7, 0xc0])
            && SameAddress(Operand(code, 3), if a.tlsImported then a.tlsIe + a.a - a.p else a.tls - a.tlsSize)
  {
    hide Patched, Le, FromLe, Operand, I64, SameAddress, Pow256;
    DescWrites(sec, a);
    var off, v := a.offset, I64(DescValue(a));
    DescCode(sec, off, DescAt(a), DescText(a), Le(v, 4));
    LeRoundTrip(v, 4);
    Pow256Values();
    WrappedIsSame(DescValue(a));
    var code := Splice(Splice(sec, DescAt(a), DescText(a)), off, Le(v, 4))[off - 3..off + 4];
    OperandReads(code, 3, v, DescValue(a));
  }

  lemma {:induction false} DescCode(sec: seq<byte>, off: nat, at: nat, text: seq<byte>, operand: seq<byte>)
    requires 3 <= off && off + 4 <= |sec| && |operand| == 4
    requires sec[off - 3] == 0x48 && sec[off - 2] == 0x8d && sec[off - 1] == 0x05
    requires (at == off - 2 && text == [0x8b]) || (at == off - 3 && text == DESC_TO_LE)
    ensures var code := Splice(Splice(sec, at, text), off, operand)[off - 3..off + 4];
            && code[..3] == (if at == off - 2 then [0x48, 0x8b, 0x05] else [0x48, 0xc7, 0xc0])
            && code[3..7] == operand
  {
    var one := Splice(sec, at, text);
    if at == off - 2 { assert one[at..at + 1][0] == text[0]; } else { assert one[at..at + 7] == text; }
    var r := Splice(one, off, operand);
    hide Splice;
    assert r[off..off + 4] == operand && r[off - 3..off + 4][3..7] == r[off..off + 4];
    assert one[off - 3] == 0x48 && one[off - 2] == (if at == off - 2 then 0x8b else 0xc7)
           && one[off - 1] == if at == off - 2 then 0x05 else 0xc0;
  }

  lemma {:induction false} RelaxedCall(sec: seq<byte>, a: Addrs, m: Machine, rax: u64)
    requires Relaxes(sec, TLSDESC_CALL, a, 0, 2)
    ensures |Patched(sec, TLSDESC_CALL, a).bytes| == |sec|
    ensures Run(m, Patched(sec, TLSDESC_CALL, a).bytes[a.offset..a.offset + 2], 0, rax) == Some(rax)
  {
    var code := Patched(sec, TLSDESC_CALL, a).bytes[a.offset..a.offset + 2];
    assert code == [0x66, 0x90];
    assert Step(m, code, 0, rax) == Some((1, rax)) && Step(m, code, 1, rax) == Some((2, rax));
    hide Step, Patched;
    assert Run(m, code, 2, rax) == Some(rax);
    assert Run(m, code, 1, rax) == Some(rax);
  }
}
