/** The hash of the System V ABI, chapter 5, "Hash Table", restated without its branch, and some of its
    values (`peony-layout/src/lib.rs:1057-1068`). */
module HashMeaning {
  import opened Bytes
  import opened Objects
  import opened SysvHash

  /** The top four bits of a sum folded into bits 4 to 7. */
  function Folded(sum: bv32): bv32 { (sum & 0x0fff_ffff) ^ ((sum >> 28) << 4) }

  /** The same, as one step does it. */
  function Mixed(sum: bv32, g: bv32): bv32 { (if g != 0 then sum ^ (g >> 24) else sum) & !g }

  lemma {:induction false} FoldBits(sum: bv32)
    ensures (sum ^ ((sum & 0xf000_0000) >> 24)) & !(sum & 0xf000_0000) == (sum & 0x0fff_ffff) ^ ((sum >> 28) << 4)
  {
  }

  lemma {:induction false} NothingFolded(sum: bv32, g: bv32)
    requires g == 0
    ensures sum == sum ^ (g >> 24)
  {
  }

  lemma {:induction false} Unbranched(sum: bv32, g: bv32)
    ensures Mixed(sum, g) == (sum ^ (g >> 24)) & !g
  {
    if g == 0 { NothingFolded(sum, g); }
  }

  lemma {:induction false} MixedFolds(sum: bv32)
    ensures Mixed(sum, sum & 0xf000_0000) == Folded(sum)
  {
    hide Mixed;
    Unbranched(sum, sum & 0xf000_0000);
    FoldBits(sum);
  }

  lemma {:induction false} StepMixes(h: bv32, b: byte)
    ensures HashStep(h, b) == Mixed((h << 4) + b as bv32, ((h << 4) + b as bv32) & 0xf000_0000)
  {
  }

  /** Sixteen times the hash and the byte, modulo 2^32, and folded. */
  lemma {:induction false} StepFolds(h: bv32, b: byte)
    ensures HashStep(h, b) == Folded((h << 4) + b as bv32)
  {
    hide Mixed, Folded, HashStep;
    StepMixes(h, b);
    MixedFolds((h << 4) + b as bv32);
  }

  lemma {:induction false} Hashed(name: Name, b: byte, longer: Name)
    requires longer == name + [b]
    ensures HashBits(longer) == HashStep(HashBits(name), b)
  {
    hide HashStep;
    assert longer[..|name|] == name;
  }

  lemma {:induction false} KnownSteps()
    ensures HashStep(0x0, 0x65) == 0x65
    ensures HashStep(0x65, 0x78) == 0x6c8
    ensures HashStep(0x6c8, 0x69) == 0x6ce9
    ensures HashStep(0x6ce9, 0x74) == 0x6cf04
    ensures HashStep(0x0, 0x70) == 0x70
    ensures HashStep(0x70, 0x72) == 0x772
    ensures HashStep(0x772, 0x69) == 0x7789
    ensures HashStep(0x7789, 0x6e) == 0x778fe
    ensures HashStep(0x778fe, 0x74) == 0x779054
    ensures HashStep(0x779054, 0x66) == 0x77905a6
    ensures HashStep(0x0, 0x73) == 0x73
    ensures HashStep(0x73, 0x79) == 0x7a9
    ensures HashStep(0x7a9, 0x73) == 0x7b03
    ensures HashStep(0x7b03, 0x63) == 0x7b093
    ensures HashStep(0x7b093, 0x61) == 0x7b0991
    ensures HashStep(0x7b0991, 0x6c) == 0x7b0997c
    ensures HashStep(0x7b0997c, 0x6c) == 0xb09985c
  {
  }

  lemma {:induction false} Nothing()
    ensures HashBits([]) == 0
  {
  }

  lemma {:induction false} BitsExit()
    ensures HashBits([0x65, 0x78, 0x69, 0x74]) == 0x6cf04
  {
    hide HashStep, HashBits;
    Nothing();
    KnownSteps();
    Hashed([], 0x65, [0x65]);
    Hashed([0x65], 0x78, [0x65, 0x78]);
    Hashed([0x65, 0x78], 0x69, [0x65, 0x78, 0x69]);
    Hashed([0x65, 0x78, 0x69], 0x74, [0x65, 0x78, 0x69, 0x74]);
  }

  lemma {:induction false} BitsPrintf()
    ensures HashBits([0x70, 0x72, 0x69, 0x6e, 0x74, 0x66]) == 0x77905a6
  {
    hide HashStep, HashBits;
    Nothing();
    KnownSteps();
    Hashed([], 0x70, [0x70]);
    Hashed([0x70], 0x72, [0x70, 0x72]);
    Hashed([0x70, 0x72], 0x69, [0x70, 0x72, 0x69]);
    Hashed([0x70, 0x72, 0x69], 0x6e, [0x70, 0x72, 0x69, 0x6e]);
    Hashed([0x70, 0x72, 0x69, 0x6e], 0x74, [0x70, 0x72, 0x69, 0x6e, 0x74]);
    Hashed([0x70, 0x72, 0x69, 0x6e, 0x74], 0x66, [0x70, 0x72, 0x69, 0x6e, 0x74, 0x66]);
  }

  lemma {:induction false} BitsSyscall()
    ensures HashBits([0x73, 0x79, 0x73, 0x63, 0x61, 0x6c, 0x6c]) == 0xb09985c
  {
    hide HashStep, HashBits;
    Nothing();
    KnownSteps();
    Hashed([], 0x73, [0x73]);
    Hashed([0x73], 0x79, [0x73, 0x79]);
    Hashed([0x73, 0x79], 0x73, [0x73, 0x79, 0x73]);
    Hashed([0x73, 0x79, 0x73], 0x63, [0x73, 0x79, 0x73, 0x63]);
    Hashed([0x73, 0x79, 0x73, 0x63], 0x61, [0x73, 0x79, 0x73, 0x63, 0x61]);
    Hashed([0x73, 0x79, 0x73, 0x63, 0x61], 0x6c, [0x73, 0x79, 0x73, 0x63, 0x61, 0x6c]);
    Hashed([0x73, 0x79, 0x73, 0x63, 0x61, 0x6c], 0x6c, [0x73, 0x79, 0x73, 0x63, 0x61, 0x6c, 0x6c]);
  }

  /** `exit`, `printf` and `syscall` hash as everywhere else; the last is long enough to fold. */
  lemma {:induction false} KnownHashes()
    ensures HashOf(Ascii("exit")) == 0x0006_cf04
    ensures HashOf(Ascii("printf")) == 0x0779_05a6
    ensures HashOf(Ascii("syscall")) == 0x0b09_985c
  {
    hide HashBits;
    BitsExit();
    BitsPrintf();
    BitsSyscall();
    assert Ascii("exit") == [0x65, 0x78, 0x69, 0x74];
    assert Ascii("printf") == [0x70, 0x72, 0x69, 0x6e, 0x74, 0x66];
    assert Ascii("syscall") == [0x73, 0x79, 0x73, 0x63, 0x61, 0x6c, 0x6c];
  }

  // ── Looking names up ─────────────────────────────────────────────────────

  /** Entry `y` of `.dynsym` is a copied import or an export of that name: imports come first, from 1 on. */
  predicate IsEntry(d: DynSyms, y: nat, name: Name) {
    || (0 < y <= |d.imports| && d.imports[y - 1] == name && name in d.copied)
    || (|d.imports| < y <= |d.imports| + |d.exports| && d.exports[y - 1 - |d.imports|] == name)
  }

  lemma {:induction false} EntryIsFindable(d: DynSyms, y: nat, name: Name)
    ensures IsEntry(d, y, name) <==> d.Findable(y) && d.NameOf(y) == name
  {
  }

  lemma {:induction false} OfferedEntry(d: DynSyms, name: Name)
    ensures (exists y: nat :: IsEntry(d, y, name)) <==> name in d.exports || (name in d.imports && name in d.copied)
  {
    if name in d.exports {
      var j :| 0 <= j < |d.exports| && d.exports[j] == name;
      assert IsEntry(d, |d.imports| + 1 + j, name);
    }
    if name in d.imports && name in d.copied {
      var j :| 0 <= j < |d.imports| && d.imports[j] == name;
      assert IsEntry(d, j + 1, name);
    }
  }

  /** Whoever looks a name up meets only exports and copied imports, and one of that name exactly when it is
      exported, or imported and copied: a plain import is never taken for a definition. */
  lemma {:induction false} LookupExactly(d: DynSyms, nb: nat, blob: seq<byte>, name: Name, ys: seq<nat>)
    requires nb > 0 && Finds(d, nb, blob, HashOf(name) % nb)
    requires Visits(blob, HeadOf(blob, HashOf(name) % nb), ys)
    ensures forall y | y in ys :: exists n :: IsEntry(d, y, n)
    ensures (exists y :: y in ys && IsEntry(d, y, name))
            <==> name in d.exports || (name in d.imports && name in d.copied)
  {
    LookupFindsName(d, nb, blob, name, ys);
    OfferedEntry(d, name);
    hide Finds, Visits, HashOf, HeadOf, IsEntry;
    forall y: nat ensures IsEntry(d, y, name) <==> d.Findable(y) && d.NameOf(y) == name {
      EntryIsFindable(d, y, name);
    }
    forall y | y in ys ensures exists n :: IsEntry(d, y, n) { EntryIsFindable(d, y, d.NameOf(y)); }
  }
}
