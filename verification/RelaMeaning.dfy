/** What the loader finds in the assembled `.rela.dyn`: site, type, symbol and addend of each collected row
    (`peony-layout/src/lib.rs:778-984`). */
module RelaMeaning {
  import opened Bytes
  import opened Tables
  import opened DynReloc
  import opened TlsReloc
  import opened RelaDyn
  import Reloc

  /** The parts of record `i` as a loader reads them: the type is the low half of the info word, the symbol the high. */
  predicate Reads(table: seq<byte>, i: nat, site: nat, rType: nat, sym: nat, addend: int) {
    && 24 * i + 24 <= |table| && Field(table, 24 * i, 8) == site && Field(table, 24 * i + 8, 4) == rType
    && Field(table, 24 * i + 12, 4) == sym && Field(table, 24 * i + 16, 8) == addend % TWO64
  }

  lemma {:induction false} FromLeConcat(a: seq<byte>, b: seq<byte>)
    ensures FromLe(a + b) == FromLe(a) + Pow256(|a|) * FromLe(b)
    decreases |a|
  {
    if a == [] {
      assert a + b == b;
    } else {
      assert (a + b)[1..] == a[1..] + b;
      FromLeConcat(a[1..], b);
      assert 256 * (Pow256(|a| - 1) * FromLe(b)) == Pow256(|a|) * FromLe(b) by { Regroup(Pow256(|a| - 1), FromLe(b)); }
    }
  }

  lemma {:induction false} Regroup(p: nat, x: nat)
    ensures 256 * (p * x) == (256 * p) * x
  {
  }

  lemma {:induction false} FieldBound(s: seq<byte>)
    ensures FromLe(s) < Pow256(|s|)
    decreases |s|
  {
    if s != [] { FieldBound(s[1..]); }
  }

  /** The halves of a 64-bit word. */
  lemma {:induction false} Halves(d: seq<byte>, p: nat)
    requires p + 8 <= |d|
    ensures Field(d, p, 8) == Field(d, p, 4) + TWO32 * Field(d, p + 4, 4)
    ensures Field(d, p, 4) < TWO32 && Field(d, p + 4, 4) < TWO32
  {
    assert d[p..p + 8] == d[p..p + 4] + d[p + 4..p + 8];
    FromLeConcat(d[p..p + 4], d[p + 4..p + 8]);
    FieldBound(d[p..p + 4]);
    FieldBound(d[p + 4..p + 8]);
    Pow256Values();
    hide FromLe, Pow256;
  }

  lemma {:induction false} InfoHalves(lo: nat, hi: nat, rType: nat, sym: nat)
    requires lo + TWO32 * hi == sym * TWO32 + rType && lo < TWO32 && rType < TWO32
    ensures lo == rType && hi == sym
  {
  }

  lemma {:induction false} RecordReads(all: seq<Rela>, suffix: seq<byte>, i: nat, rType: nat, sym: nat)
    requires i < |all| && all[i].site < TWO64 && rType < TWO32 && sym < TWO32 && all[i].info == sym * TWO32 + rType
    ensures Reads(RelasBytes(all) + suffix, i, all[i].site, rType, sym, all[i].addend)
  {
    hide Field, RelasBytes;
    RelaAt(all, suffix, i);
    var table := RelasBytes(all) + suffix;
    Halves(table, 24 * i + 8);
    InfoHalves(Field(table, 24 * i + 8, 4), Field(table, 24 * i + 12, 4), rType, sym);
  }

  /** The psABI numbers of the types that thread-local rows have. */
  predicate TlsNumber(t: Reloc.RType, n: nat) {
    (t == Reloc.DTPMOD64 && n == 16) || (t == Reloc.DTPOFF64 && n == 17) || (t == Reloc.TPOFF64 && n == 18)
    || (t == Reloc.TLSDESC && n == 36)
  }

  ghost predicate TlsReads(table: seq<byte>, i: nat, row: TlsRow) {
    exists n :: TlsNumber(row.rType, n) && Reads(table, i, row.site, n, row.sym, row.addend)
  }

  ghost predicate Numbered(row: TlsRow) { exists n :: TlsNumber(row.rType, n) }

  /** Assembled with room for everything, the table holds the RELATIVE rows (type 8), the IRELATIVE ones (37), the
      thread-local ones and those against a symbol (1), each with its site, symbol and addend, in that order. */
  lemma {:induction false} LoaderReads(relative: seq<Row>, irelative: seq<Row>, tls: seq<TlsRow>, symbolic: seq<Row>,
          suffix: seq<byte>)
    requires SmallRows(relative, irelative, tls, symbolic)
    requires forall k | 0 <= k < |tls| :: Numbered(tls[k])
    ensures var table := RelasBytes(AllRelas(relative, irelative, tls, symbolic)) + suffix;
            var a := |relative|;
            var b := a + |irelative|;
            var c := b + |tls|;
            && |table| == 24 * (c + |symbolic|) + |suffix|
            && (forall k | 0 <= k < |relative| :: Reads(table, k, relative[k].site, 8, 0, relative[k].value))
            && (forall k | 0 <= k < |irelative| :: Reads(table, a + k, irelative[k].site, 37, 0, irelative[k].value))
            && (forall k | 0 <= k < |tls| :: TlsReads(table, b + k, tls[k]))
            && forall k | 0 <= k < |symbolic| ::
                 Reads(table, c + k, symbolic[k].site, 1, symbolic[k].value, symbolic[k].addend)
  {
    hide RelasBytes, Reads;
    var all := AllRelas(relative, irelative, tls, symbolic);
    var a := |relative|;
    var b := a + |irelative|;
    var c := b + |tls|;
    forall k | 0 <= k < |relative|
      ensures Reads(RelasBytes(all) + suffix, k, relative[k].site, 8, 0, relative[k].value)
    {
      assert all[k] == Relatives(relative)[k];
      RecordReads(all, suffix, k, 8, 0);
    }
    forall k | 0 <= k < |irelative|
      ensures Reads(RelasBytes(all) + suffix, a + k, irelative[k].site, 37, 0, irelative[k].value)
    {
      assert all[a + k] == Irelatives(irelative)[k];
      RecordReads(all, suffix, a + k, 37, 0);
    }
    forall k | 0 <= k < |tls|
      ensures TlsReads(RelasBytes(all) + suffix, b + k, tls[k])
    {
      assert Numbered(tls[k]);
      var n :| TlsNumber(tls[k].rType, n);
      assert all[b + k] == TlsRelas(tls)[k] && TlsCode(tls[k].rType) == n;
      RecordReads(all, suffix, b + k, n, tls[k].sym);
    }
    forall k | 0 <= k < |symbolic|
      ensures Reads(RelasBytes(all) + suffix, c + k, symbolic[k].site, 1, symbolic[k].value, symbolic[k].addend)
    {
      assert all[c + k] == Symbolics(symbolic)[k];
      RecordReads(all, suffix, c + k, 1, symbolic[k].value);
    }
  }

  // ── Tags ─────────────────────────────────────────────────────────────────

  /** The tag's entry is the one at `k`: no entry before has the tag or ends the table. */
  predicate EntryAt(dyn: seq<byte>, tag: nat, k: nat) {
    && k % 16 == 0 && k + 16 <= |dyn| && Field(dyn, k, 8) == tag
    && forall j | 0 <= j < k && j % 16 == 0 :: Field(dyn, j, 8) != tag && Field(dyn, j, 8) != 0
  }

  lemma {:induction false} WalkFinds(dyn: seq<byte>, tag: nat, i: nat, k: nat)
    requires i % 16 == 0 && forall j | 0 <= j < i && j % 16 == 0 :: Field(dyn, j, 8) != tag && Field(dyn, j, 8) != 0
    ensures DtAt(dyn, tag, i) == Some(k) <==> EntryAt(dyn, tag, k)
    decreases |dyn| - i
  {
    hide Field;
    if i + 16 <= |dyn| && Field(dyn, i, 8) != tag && Field(dyn, i, 8) != 0 {
      forall j | 0 <= j < i + 16 && j % 16 == 0
        ensures Field(dyn, j, 8) != tag && Field(dyn, j, 8) != 0
      {
        if j >= i { assert j == i; }
      }
      WalkFinds(dyn, tag, i + 16, k);
    }
  }

  /** The value of a tag is that of its first entry before the terminating one. */
  lemma {:induction false} ValueExactly(dyn: seq<byte>, tag: nat, value: nat)
    ensures DtValue(dyn, tag) == Some(value) <==> exists k: nat :: EntryAt(dyn, tag, k) && Field(dyn, k + 8, 8) == value
  {
    hide Field, DtAt;
    forall k: nat ensures DtAt(dyn, tag, 0) == Some(k) <==> EntryAt(dyn, tag, k) { WalkFinds(dyn, tag, 0, k); }
  }
}
