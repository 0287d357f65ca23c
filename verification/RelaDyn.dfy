/** Assembling `.rela.dyn` and correcting the `.dynamic` entries that describe it
    (`peony-layout/src/lib.rs:778-984`, `1725-1735`). */
module RelaDyn {
  import opened Bytes
  import opened Objects
  import opened Tables
  import opened DynReloc
  import opened TlsReloc

  const RELA_SIZE := 24
  const R_X86_64_64 := 1
  const R_X86_64_RELATIVE := 8
  const R_X86_64_IRELATIVE := 37

  /** One `Elf64_Rela`. */
  datatype Rela = Rela(site: nat, info: nat, addend: int)

  function RelaBytes(r: Rela): (s: seq<byte>)
    ensures |s| == 24
  {
    Le(r.site, 8) + Le(r.info, 8) + Le(r.addend, 8)
  }

  function RelasBytes(rs: seq<Rela>): (s: seq<byte>)
    ensures |s| == 24 * |rs|
    decreases |rs|
  {
    if rs == [] then [] else RelasBytes(rs[..|rs| - 1]) + RelaBytes(rs[|rs| - 1])
  }

  /** The numbers of the relocation types used for thread-local slots. */
  function TlsCode(t: Reloc.RType): nat {
    match t case DTPMOD64 => 16 case DTPOFF64 => 17 case TPOFF64 => 18 case TLSDESC => 36 case _ => 0
  }

  // ── Rows to records ──────────────────────────────────────────────────────

  function Relatives(rows: seq<Row>): (rs: seq<Rela>)
    ensures |rs| == |rows|
  {
    seq(|rows|, i requires 0 <= i < |rows| => Rela(rows[i].site, R_X86_64_RELATIVE, rows[i].value))
  }

  function Irelatives(rows: seq<Row>): (rs: seq<Rela>)
    ensures |rs| == |rows|
  {
    seq(|rows|, i requires 0 <= i < |rows| => Rela(rows[i].site, R_X86_64_IRELATIVE, rows[i].value))
  }

  function TlsRelas(rows: seq<TlsRow>): (rs: seq<Rela>)
    ensures |rs| == |rows|
  {
    seq(|rows|, i requires 0 <= i < |rows| => Rela(rows[i].site, rows[i].sym * TWO32 + TlsCode(rows[i].rType),
        rows[i].addend))
  }

  function Symbolics(rows: seq<Row>): (rs: seq<Rela>)
    ensures |rs| == |rows|
  {
    seq(|rows|, i requires 0 <= i < |rows| => Rela(rows[i].site, rows[i].value * TWO32 + R_X86_64_64, rows[i].addend))
  }

  function AllRelas(relative: seq<Row>, irelative: seq<Row>, tls: seq<TlsRow>, symbolic: seq<Row>): seq<Rela> {
    Relatives(relative) + Irelatives(irelative) + TlsRelas(tls) + Symbolics(symbolic)
  }

  /** The records that fit in `room` bytes. */
  function Fitting(rs: seq<Rela>, room: nat): seq<Rela> {
    rs[..Min(|rs|, room / RELA_SIZE)]
  }

  // ── Tags of `.dynamic` ───────────────────────────────────────────────────

  const DT_NULL := 0
  const DT_RELASZ := 8
  const DT_RELACOUNT := 0x6fff_fff9

  /** The first entry with the tag, before the terminating one. */
  function DtAt(dyn: seq<byte>, tag: nat, i: nat): Option<nat>
    decreases |dyn| - i
  {
    if i + 16 > |dyn| then None
    else if Field(dyn, i, 8) == tag then Some(i)
    else if Field(dyn, i, 8) == DT_NULL then None
    else DtAt(dyn, tag, i + 16)
  }

  function DtValue(dyn: seq<byte>, tag: nat): Option<nat> {
    match DtAt(dyn, tag, 0) case None => None case Some(i) => Some(Field(dyn, i + 8, 8))
  }

  lemma {:induction false} DtAtFits(dyn: seq<byte>, tag: nat, i: nat)
    ensures match DtAt(dyn, tag, i) case None => true
            case Some(k) => i <= k && k + 16 <= |dyn| && Field(dyn, k, 8) == tag && (k - i) % 16 == 0
    decreases |dyn| - i
  {
    hide Field;
    if i + 16 <= |dyn| && Field(dyn, i, 8) != tag && Field(dyn, i, 8) != DT_NULL { DtAtFits(dyn, tag, i + 16); }
  }

  function Patched(dyn: seq<byte>, tag: nat, value: nat): seq<byte> {
    match DtAt(dyn, tag, 0)
    case None => dyn
    case Some(i) => DtAtFits(dyn, tag, 0); Splice(dyn, i + 8, Le(value, 8))
  }

  lemma {:induction false} SpliceField(dyn: seq<byte>, at: nat, value: nat, k: nat)
    requires at + 8 <= |dyn| && k + 8 <= |dyn| && value < TWO64
    ensures k == at ==> Field(Splice(dyn, at, Le(value, 8)), k, 8) == value
    ensures k + 8 <= at || at + 8 <= k ==> Field(Splice(dyn, at, Le(value, 8)), k, 8) == Field(dyn, k, 8)
  {
    hide FromLe, Splice;
    var now := Splice(dyn, at, Le(value, 8));
    if k == at {
      Pow256Values();
      LeExact(value, 8);
    } else if k + 8 <= at || at + 8 <= k {
      assert now[k..k + 8] == dyn[k..k + 8];
    }
  }

  /** Storing a value leaves the walk over the tags as it was. */
  lemma {:induction false} WalkUnchanged(dyn: seq<byte>, at: nat, value: nat, tag: nat, i: nat)
    requires at % 16 == 8 && at + 8 <= |dyn| && i % 16 == 0 && value < TWO64
    ensures DtAt(Splice(dyn, at, Le(value, 8)), tag, i) == DtAt(dyn, tag, i)
    decreases |dyn| - i
  {
    hide Field, Splice;
    if i + 16 <= |dyn| {
      assert i + 8 <= at || at + 8 <= i;
      SpliceField(dyn, at, value, i);
      WalkUnchanged(dyn, at, value, tag, i + 16);
    }
  }

  /** Only the patched tag reads differently, and only if it is present. */
  lemma {:induction false} PatchedReads(dyn: seq<byte>, tag: nat, value: nat, other: nat)
    requires value < TWO64
    ensures |Patched(dyn, tag, value)| == |dyn|
    ensures DtValue(Patched(dyn, tag, value), other)
         == if other == tag && DtValue(dyn, tag).Some? then Some(value) else DtValue(dyn, other)
  {
    hide Field, DtAt, Splice;
    DtAtFits(dyn, tag, 0);
    DtAtFits(dyn, other, 0);
    if DtAt(dyn, tag, 0).Some? {
      var i := DtAt(dyn, tag, 0).value;
      WalkUnchanged(dyn, i + 8, value, other, 0);
      if DtAt(dyn, other, 0).Some? {
        var k := DtAt(dyn, other, 0).value;
        SpliceField(dyn, i + 8, value, k + 8);
      }
    }
  }

  // ── Fitting ──────────────────────────────────────────────────────────────

  lemma {:induction false} RelasConcat(a: seq<Rela>, b: seq<Rela>)
    ensures RelasBytes(a + b) == RelasBytes(a) + RelasBytes(b)
    decreases |b|
  {
    hide RelaBytes;
    if b == [] {
      assert a + b == a;
    } else {
      assert (a + b)[..|a + b| - 1] == a + b[..|b| - 1];
      RelasConcat(a, b[..|b| - 1]);
    }
  }

  /** Filling a list after another is filling them joined. */
  lemma {:induction false} FittingConcat(a: seq<Rela>, b: seq<Rela>, room: nat)
    ensures 24 * |Fitting(a, room)| <= room
    ensures Fitting(a + b, room) == Fitting(a, room) + Fitting(b, room - 24 * |Fitting(a, room)|)
  {
    var k := |Fitting(a, room)|;
    assert (room - 24 * k) / RELA_SIZE == room / RELA_SIZE - k;
  }

  /** Records while they leave `limit` unpassed. */
  method AppendRelas(bytes: seq<byte>, rs: seq<Rela>, limit: nat) returns (r: seq<byte>, written: nat)
    requires |bytes| <= limit
    ensures r == bytes + RelasBytes(Fitting(rs, limit - |bytes|)) && |r| <= limit
    ensures written == |Fitting(rs, limit - |bytes|)|
  {
    hide RelaBytes;
    r, written := bytes, 0;
    assert rs[..0] == [] && bytes + [] == bytes;
    while written < |rs|
      invariant written <= |rs| && r == bytes + RelasBytes(rs[..written]) && |r| <= limit
    {
      if |r| + RELA_SIZE > limit { break; }
      assert rs[..written + 1][..written] == rs[..written];
      r := r + RelaBytes(rs[written]);
      written := written + 1;
    }
  }

  /** The four lists in order, as far as `limit` lets them. */
  method AssembleRelas(relative: seq<Row>, irelative: seq<Row>, tls: seq<TlsRow>, symbolic: seq<Row>, limit: nat)
    returns (bytes: seq<byte>, written: nat)
    ensures bytes == RelasBytes(Fitting(AllRelas(relative, irelative, tls, symbolic), limit)) && |bytes| <= limit
    ensures written == Min(|relative|, limit / RELA_SIZE)
  {
    hide Relatives, Irelatives, TlsRelas, Symbolics, RelasBytes;
    FourLists(Relatives(relative), Irelatives(irelative), TlsRelas(tls), Symbolics(symbolic), limit);
    bytes, written := AppendRelas([], Relatives(relative), limit);
    assert written == Min(|relative|, limit / RELA_SIZE);
    hide Fitting;
    StartEmpty(RelasBytes(Fitting(Relatives(relative), limit)));
    var writtenIrel, writtenTls, writtenSym;
    bytes, writtenIrel := AppendRelas(bytes, Irelatives(irelative), limit);
    bytes, writtenTls := AppendRelas(bytes, TlsRelas(tls), limit);
    bytes, writtenSym := AppendRelas(bytes, Symbolics(symbolic), limit);
  }

  lemma {:induction false} StartEmpty(s: seq<byte>)
    ensures [] + s == s
  {
  }

  /** The part of a layout that holds the dynamic tables. */
  class DynTables {
    var relaDyn: seq<byte>
    var relaGlobDat: seq<byte>
    var relaCopy: seq<byte>
    var dynamic: seq<byte>
    /** Header size of the `.rela.dyn` section, when there is one. */
    var relaDynSize: Option<nat>

    constructor (globDat: seq<byte>, copy: seq<byte>, dynamic: seq<byte>, size: Option<nat>)
      ensures relaDyn == [] && relaGlobDat == globDat && relaCopy == copy && this.dynamic == dynamic
              && relaDynSize == size
    {
      relaDyn, relaGlobDat, relaCopy, this.dynamic, relaDynSize := [], globDat, copy, dynamic, size;
    }

    function Capacity(): nat
      reads this
    {
      match relaDynSize case Some(n) => n case None => 0
    }

    method PatchDtTag(tag: nat, value: nat)
      modifies this`dynamic
      ensures dynamic == Patched(old(dynamic), tag, value)
    {
      hide Field, Splice;
      var i := 0;
      while i + 16 <= |dynamic|
        invariant dynamic == old(dynamic) && DtAt(dynamic, tag, 0) == DtAt(dynamic, tag, i)
        decreases |dynamic| - i
      {
        var t := Field(dynamic, i, 8);
        if t == tag {
          dynamic := Splice(dynamic, i + 8, Le(value, 8));
          return;
        }
        if t == DT_NULL { return; }
        i := i + 16;
      }
    }

    /** RELATIVE first, then IRELATIVE, thread-local and symbolic records, then the stashed suffix. */
    method AppendAllDynamicRelocs(relative: seq<Row>, irelative: seq<Row>, tls: seq<TlsRow>, symbolic: seq<Row>)
      requires |relaGlobDat| + |relaCopy| <= Capacity()
      modifies this
      ensures var all, room := AllRelas(relative, irelative, tls, symbolic),
              old(Capacity() - |relaGlobDat| - |relaCopy|);
              && relaDyn == RelasBytes(Fitting(all, room)) + old(relaGlobDat) + old(relaCopy)
              && dynamic == Patched(Patched(old(dynamic), DT_RELACOUNT, Min(|relative|, room / RELA_SIZE)), DT_RELASZ,
                 |relaDyn|)
      ensures relaGlobDat == [] && relaCopy == []
      ensures relaDynSize == if old(relaDynSize).Some? then Some(|relaDyn|) else None
    {
      hide AllRelas, RelasBytes, Patched, Fitting;
      var limit: nat := Capacity() - |relaGlobDat| - |relaCopy|;
      var bytes, written := AssembleRelas(relative, irelative, tls, symbolic, limit);
      bytes := bytes + relaGlobDat + relaCopy;
      relaGlobDat, relaCopy := [], [];
      relaDyn := bytes;
      PatchDtTag(DT_RELACOUNT, written);
      PatchDtTag(DT_RELASZ, |bytes|);
      if relaDynSize.Some? { relaDynSize := Some(|bytes|); }
    }
  }

  lemma {:induction false} FourLists(a: seq<Rela>, b: seq<Rela>, c: seq<Rela>, d: seq<Rela>, room: nat)
    ensures var fa := RelasBytes(Fitting(a, room));
            |fa| <= room &&
            var fb := fa + RelasBytes(Fitting(b, room - |fa|));
            |fb| <= room &&
            var fc := fb + RelasBytes(Fitting(c, room - |fb|));
            |fc| <= room &&
            fc + RelasBytes(Fitting(d, room - |fc|)) == RelasBytes(Fitting(a + b + c + d, room))
  {
    FittingConcat(a, b, room);
    FittingConcat(a + b, c, room);
    FittingConcat(a + b + c, d, room);
    var ra := Fitting(a, room);
    var rab, rabc := Fitting(a + b, room), Fitting(a + b + c, room);
    RelasConcat(ra, Fitting(b, room - 24 * |ra|));
    RelasConcat(rab, Fitting(c, room - 24 * |rab|));
    RelasConcat(rabc, Fitting(d, room - 24 * |rabc|));
    hide RelasBytes, Fitting;
  }

  // ── What a loader finds ──────────────────────────────────────────────────

  /** Record `i` of a table holds `r`; a 64-bit addend is stored in two's complement. */
  predicate RecordAt(table: seq<byte>, i: nat, r: Rela) {
    && Field(table, RELA_SIZE * i, 8) == r.site && Field(table, RELA_SIZE * i + 8, 8) == r.info
    && Field(table, RELA_SIZE * i + 16, 8) == r.addend % TWO64
  }

  lemma {:induction false} RelaFields(r: Rela)
    requires r.site < TWO64 && r.info < TWO64
    ensures RecordAt(RelaBytes(r), 0, r)
  {
    hide Field;
    Pow256Values();
    hide Pow256;
    var s, f, a := Le(r.site, 8), Le(r.info, 8), Le(r.addend, 8);
    hide Le;
    assert s + f + a == [] + s + (f + a) == s + f + a == (s + f) + a + [];
    FieldOf([], r.site, 8, f + a);
    FieldOf(s, r.info, 8, a);
    FieldModulo(s + f, r.addend, 8, []);
  }

  /** A table splits at record `i`. */
  lemma {:induction false} RelaSplit(rs: seq<Rela>, i: nat)
    requires i < |rs|
    ensures RelasBytes(rs) == RelasBytes(rs[..i]) + RelaBytes(rs[i]) + RelasBytes(rs[i + 1..])
  {
    var r := rs[i];
    assert RelasBytes([r]) == RelaBytes(r) by {
      assert [r][..0] == [] && [] + RelaBytes(r) == RelaBytes(r);
    }
    hide RelasBytes, RelaBytes;
    assert rs == rs[..i] + [r] + rs[i + 1..];
    RelasConcat(rs[..i], [r]);
    RelasConcat(rs[..i] + [r], rs[i + 1..]);
  }

  lemma {:induction false} RelaAt(rs: seq<Rela>, post: seq<byte>, i: nat)
    requires i < |rs| && rs[i].site < TWO64 && rs[i].info < TWO64
    ensures RecordAt(RelasBytes(rs) + post, i, rs[i])
  {
    hide Field, RelaBytes;
    var r := rs[i];
    var front, rest := RelasBytes(rs[..i]), RelasBytes(rs[i + 1..]);
    RelaSplit(rs, i);
    hide RelasBytes;
    RelaFields(r);
    assert (front + RelaBytes(r) + rest) + post == front + RelaBytes(r) + (rest + post);
    FieldInside(front, RelaBytes(r), rest + post, 0, 8);
    FieldInside(front, RelaBytes(r), rest + post, 8, 8);
    FieldInside(front, RelaBytes(r), rest + post, 16, 8);
  }

  predicate SmallRows(relative: seq<Row>, irelative: seq<Row>, tls: seq<TlsRow>, symbolic: seq<Row>) {
    && (forall i | 0 <= i < |relative| :: relative[i].site < TWO64)
    && (forall i | 0 <= i < |irelative| :: irelative[i].site < TWO64)
    && (forall i | 0 <= i < |tls| :: tls[i].site < TWO64 && tls[i].sym < TWO32)
    && (forall i | 0 <= i < |symbolic| :: symbolic[i].site < TWO64 && symbolic[i].value < TWO32)
  }

  lemma {:induction false} InfoAt(relative: seq<Row>, irelative: seq<Row>, tls: seq<TlsRow>, symbolic: seq<Row>, i: nat)
    requires i < |AllRelas(relative, irelative, tls, symbolic)| && SmallRows(relative, irelative, tls, symbolic)
    ensures var r := AllRelas(relative, irelative, tls, symbolic)[i];
            r.site < TWO64 && r.info < TWO64 && (r.info == R_X86_64_RELATIVE <==> i < |relative|)
  {
    var a, b, c, d := |relative|, |irelative|, |tls|, |symbolic|;
    var all := AllRelas(relative, irelative, tls, symbolic);
    if i < a {
      assert all[i] == Relatives(relative)[i];
    } else if i < a + b {
      assert all[i] == Irelatives(irelative)[i - a];
    } else if i < a + b + c {
      assert all[i] == TlsRelas(tls)[i - a - b];
    } else {
      assert all[i] == Symbolics(symbolic)[i - a - b - c];
    }
  }

  /** Reserved as the counts say, `.rela.dyn` has room for every collected row. */
  lemma {:induction false} NothingDropped(c: Counts, nGlob: nat, copies: nat, nTls: nat, globLen: nat, copyLen: nat,
                                          relative: seq<Row>, irelative: seq<Row>, tls: seq<TlsRow>, symbolic: seq<Row>)
    requires globLen <= RELA_SIZE * nGlob && copyLen <= RELA_SIZE * copies
    requires Within(c, |relative|, |irelative|, |symbolic|) && |tls| <= nTls
    ensures var cap := (nGlob + c.relativeTotal + nTls + copies + c.symbolic) * RELA_SIZE;
            var all := AllRelas(relative, irelative, tls, symbolic);
            globLen + copyLen <= cap && Fitting(all, cap - globLen - copyLen) == all
            && Min(|relative|, (cap - globLen - copyLen) / RELA_SIZE) == |relative|
            && (c.relativeTotal > c.irelative || relative == [])
  {
    var cap := (nGlob + c.relativeTotal + nTls + copies + c.symbolic) * RELA_SIZE;
    assert cap - globLen - copyLen >= RELA_SIZE * (|relative| + |irelative| + |tls| + |symbolic|);
  }

  /** Assembled with room for everything, the table holds every row in order, starts with exactly
      `DT_RELACOUNT` RELATIVE records, and the tags tell the truth. */
  lemma {:induction false} TableIsTrue(relative: seq<Row>, irelative: seq<Row>, tls: seq<TlsRow>, symbolic: seq<Row>,
                                       suffix: seq<byte>, dyn: seq<byte>)
    requires SmallRows(relative, irelative, tls, symbolic)
    requires RELA_SIZE * |AllRelas(relative, irelative, tls, symbolic)| + |suffix| < TWO64
    ensures var all := AllRelas(relative, irelative, tls, symbolic);
            var table := RelasBytes(all) + suffix;
            var now := Patched(Patched(dyn, DT_RELACOUNT, |relative|), DT_RELASZ, |table|);
            && (forall i: nat | i < |all| ::
                 RecordAt(table, i, all[i]) && (all[i].info == R_X86_64_RELATIVE <==> i < |relative|))
            && (DtValue(dyn, DT_RELACOUNT).Some? ==> DtValue(now, DT_RELACOUNT) == Some(|relative|))
            && (DtValue(dyn, DT_RELASZ).Some? ==> DtValue(now, DT_RELASZ) == Some(|table|))
  {
    RowsShorter(relative, irelative, tls, symbolic);
    hide AllRelas, RelasBytes, RecordAt, Patched, DtValue, SmallRows;
    var all := AllRelas(relative, irelative, tls, symbolic);
    var table := RelasBytes(all) + suffix;
    forall i: nat | i < |all|
      ensures RecordAt(table, i, all[i]) && (all[i].info == R_X86_64_RELATIVE <==> i < |relative|)
    {
      InfoAt(relative, irelative, tls, symbolic, i);
      RelaAt(all, suffix, i);
    }
    PatchedReads(dyn, DT_RELACOUNT, |relative|, DT_RELACOUNT);
    PatchedReads(dyn, DT_RELACOUNT, |relative|, DT_RELASZ);
    var once := Patched(dyn, DT_RELACOUNT, |relative|);
    PatchedReads(once, DT_RELASZ, |table|, DT_RELACOUNT);
    PatchedReads(once, DT_RELASZ, |table|, DT_RELASZ);
  }

  lemma {:induction false} RowsShorter(relative: seq<Row>, irelative: seq<Row>, tls: seq<TlsRow>, symbolic: seq<Row>)
    ensures |relative| <= |AllRelas(relative, irelative, tls, symbolic)|
  {
  }

  /** From counting to assembly: when no name and no thread-local reference gains a record, the section
      reserved before layout holds every row collected after it. */
  lemma {:induction false} CollectedRowsFit(a: View, b: View, objects: seq<InputObject>, ta: TlsView, tb: TlsView,
          tls: TlsGot, shared: bool, nGlob: nat, copies: nat, globLen: nat, copyLen: nat)
    requires AllCounted(a, b) && (shared ==> Placed(ta, tb, objects, tls))
    requires globLen <= RELA_SIZE * nGlob && copyLen <= RELA_SIZE * copies
    ensures var c := AllCounts(a, objects, b.got);
            var cap := (nGlob + c.relativeTotal + CountTls(ta, tls, shared) + copies + c.symbolic) * RELA_SIZE;
            var all := AllRelas(Sort(AllData(b, objects, false)), Sort(AllData(b, objects, true)),
                                AllFills(tb, objects, tls, shared).rows, Sort(AllSymbolic(b, objects)));
            globLen + copyLen <= cap && Fitting(all, cap - globLen - copyLen) == all
  {
    hide AllCounts, CountTls, AllData, AllSymbolic, AllFills, AllRelas, Fitting, AllCounted, Placed, Within, Sort;
    CountsBound(a, b, objects);
    TlsCountBounds(ta, tb, objects, tls, shared);
    NothingDropped(AllCounts(a, objects, b.got), nGlob, copies, CountTls(ta, tls, shared), globLen, copyLen,
                   Sort(AllData(b, objects, false)), Sort(AllData(b, objects, true)),
                   AllFills(tb, objects, tls, shared).rows, Sort(AllSymbolic(b, objects)));
  }

  /** So it does when no name's flags change in between. */
  lemma {:induction false} UnchangedRowsFit(a: View, b: View, objects: seq<InputObject>, ta: TlsView, tb: TlsView,
          tls: TlsGot, shared: bool, nGlob: nat, copies: nat, globLen: nat, copyLen: nat)
    requires Unchanged(a, b) && (shared ==> Placed(ta, tb, objects, tls))
    requires globLen <= RELA_SIZE * nGlob && copyLen <= RELA_SIZE * copies
    ensures var c := AllCounts(a, objects, b.got);
            var cap := (nGlob + c.relativeTotal + CountTls(ta, tls, shared) + copies + c.symbolic) * RELA_SIZE;
            var all := AllRelas(Sort(AllData(b, objects, false)), Sort(AllData(b, objects, true)),
                                AllFills(tb, objects, tls, shared).rows, Sort(AllSymbolic(b, objects)));
            globLen + copyLen <= cap && Fitting(all, cap - globLen - copyLen) == all
  {
    hide *;
    SameFlagsCounted(a, b);
    CollectedRowsFit(a, b, objects, ta, tb, tls, shared, nGlob, copies, globLen, copyLen);
  }
}
