/** What the search table tells an unwinder: one row for each FDE record, with the address that the record's relocated
    field refers to (`peony-object/src/eh_frame.rs:61-87`, `peony-emit/src/eh_frame.rs:9-94`). */
module EhTable {
  import opened Bytes
  import opened EhFrame
  import opened RelocMeaning

  // ── Records ──────────────────────────────────────────────────────────────

  function Field(data: seq<byte>, pos: nat): nat
    requires pos + 4 <= |data|
  {
    FromLe(data[pos..pos + 4])
  }

  /** From the record or terminator at `p` the listing goes on at `q`. */
  predicate Follows(data: seq<byte>, p: nat, q: nat) {
    && p + 4 <= |data|
    && var len := Field(data, p);
       if len == 0 then q == p + 4
       else len != 0xffff_ffff && p + 12 <= |data| && q == p + 4 + len && q <= |data|
  }

  /** Positions from `pos` to `at`, each following the one before. */
  predicate Chain(data: seq<byte>, ps: seq<nat>, pos: nat, at: nat) {
    && ps != [] && ps[0] == pos && ps[|ps| - 1] == at
    && forall i | 0 < i < |ps| :: Follows(data, ps[i - 1], ps[i])
  }

  ghost predicate Reaches(data: seq<byte>, pos: nat, at: nat) { exists ps :: Chain(data, ps, pos, at) }

  /** The record at `at` is whole and refers to a CIE. */
  ghost predicate RefersToCie(data: seq<byte>, at: nat) {
    && at + 12 <= |data| && Field(data, at) != 0 && Field(data, at + 4) != 0 && exists q: nat :: Follows(data, at, q)
  }

  /** An FDE among the records of the section. */
  ghost predicate IsFde(data: seq<byte>, at: nat) { Reaches(data, 0, at) && RefersToCie(data, at) }

  lemma {:induction false} FourBytes(a: byte, b: byte, c: byte, d: byte)
    ensures FromLe([a, b, c, d]) == a + 0x100 * b + 0x1_0000 * c + 0x100_0000 * d
  {
    assert [a, b, c, d][1..] == [b, c, d] && [b, c, d][1..] == [c, d] && [c, d][1..] == [d] && [d][1..] == [];
    assert FromLe([d]) == d && FromLe([c, d]) == c + 256 * FromLe([d]);
    assert FromLe([b, c, d]) == b + 256 * FromLe([c, d]);
  }

  lemma {:induction false} WordIsField(data: seq<byte>, pos: nat)
    requires pos + 4 <= |data|
    ensures Word(data, pos) == Field(data, pos)
    ensures SignedWord(data, pos) == Signed(Field(data, pos), 4)
  {
    assert data[pos..pos + 4] == [data[pos], data[pos + 1], data[pos + 2], data[pos + 3]];
    FourBytes(data[pos], data[pos + 1], data[pos + 2], data[pos + 3]);
    Pow256Values();
    hide FromLe;
  }

  lemma {:induction false} FollowsIsStep(data: seq<byte>, pos: nat)
    requires pos <= |data|
    ensures match StepAt(data, pos)
            case Stop => forall q: nat :: !Follows(data, pos, q)
            case Move(next, tally) =>
              && (tally == TERMINATOR <==> Field(data, pos) == 0)
              && (Follows(data, pos, next) <==> tally == TERMINATOR || pos + 12 <= |data|)
              && (forall q: nat | Follows(data, pos, q) :: q == next)
              && (tally == FDE ==> Field(data, pos + 4) != 0) && (tally == CIE ==> Field(data, pos + 4) == 0)
              && (tally == TERMINATOR || tally == FDE || tally == CIE)
              && pos + 4 <= |data| && (tally != TERMINATOR ==> pos + 8 <= |data|)
  {
    if pos + 4 <= |data| { WordIsField(data, pos); }
    if pos + 8 <= |data| { WordIsField(data, pos + 4); }
    hide Word, Field;
  }

  lemma {:induction false} ReachesNext(data: seq<byte>, pos: nat, at: nat)
    ensures Reaches(data, pos, at) <==> at == pos || exists q: nat :: Follows(data, pos, q) && Reaches(data, q, at)
  {
    hide Follows;
    if at == pos { assert Chain(data, [pos], pos, at); }
    if q: nat :| Follows(data, pos, q) && Reaches(data, q, at) {
      var ps :| Chain(data, ps, q, at);
      assert Chain(data, [pos] + ps, pos, at);
    }
    if Reaches(data, pos, at) && at != pos {
      var ps :| Chain(data, ps, pos, at);
      assert Follows(data, ps[0], ps[1]);
      assert Chain(data, ps[1..], ps[1], at);
    }
  }

  /** The listing from `pos` on holds the FDEs that can be reached from there. */
  lemma {:induction false} ListsFrom(data: seq<byte>, pos: nat, f: Fde)
    requires pos <= |data|
    ensures f in FdesFrom(data, pos) <==>
              Reaches(data, pos, f.at) && RefersToCie(data, f.at) && IsEntry(data, f)
    decreases |data| - pos
  {
    hide StepAt, Word, Field, Reaches, Follows, RefersToCie, IsEntry;
    FdesStep(data, pos);
    FollowsIsStep(data, pos);
    ReachesNext(data, pos, f.at);
    Refers(data, pos);
    match StepAt(data, pos)
    case Stop =>
    case Move(next, tally) =>
      ListsFrom(data, next, f);
      if pos + 12 <= |data| { EntryIs(data, pos, f); }
  }

  /** The entry names the record's `PC begin` field and holds it. */
  predicate IsEntry(data: seq<byte>, f: Fde) {
    f.at + 12 <= |data| && f.pcBegin == f.at + 8 && f.rel == Signed(Field(data, f.at + 8), 4)
  }

  lemma {:induction false} EntryIs(data: seq<byte>, pos: nat, f: Fde)
    requires pos + 12 <= |data|
    ensures f == Fde(pos, pos + 8, SignedWord(data, pos + 8)) <==> f.at == pos && IsEntry(data, f)
  {
    WordIsField(data, pos + 8);
    hide Field, SignedWord;
  }

  lemma {:induction false} Refers(data: seq<byte>, pos: nat)
    requires pos <= |data|
    ensures RefersToCie(data, pos) <==> StepAt(data, pos).Move? && StepAt(data, pos).tally == FDE && pos + 12 <= |data|
  {
    FollowsIsStep(data, pos);
    hide StepAt, Field, Follows;
    if StepAt(data, pos).Move? && pos + 12 <= |data| { assert Follows(data, pos, StepAt(data, pos).next); }
  }

  /** The listing holds exactly the FDEs of the section, each with its `PC begin` field. */
  lemma {:induction false} ListsExactly(data: seq<byte>, f: Fde)
    ensures f in FdesFrom(data, 0) <==> IsFde(data, f.at) && IsEntry(data, f)
  {
    hide FdesFrom, Reaches, RefersToCie, IsEntry;
    ListsFrom(data, 0, f);
  }

  // ── Rows ─────────────────────────────────────────────────────────────────

  /** Where the function of an FDE starts: its relocated field counts from itself. */
  function FunctionOf(ehVa: nat, eh: seq<byte>, at: nat): int
    requires at + 12 <= |eh|
  {
    ehVa + at + 8 + Signed(Field(eh, at + 8), 4)
  }

  /** Row `i` of the table leads from the header to the FDE at `at` and to its function, as 32-bit addresses. */
  predicate RowLeadsTo(ehVa: nat, hdrVa: nat, eh: seq<byte>, table: seq<byte>, i: nat, at: nat) {
    && 20 + 8 * i <= |table| && at + 12 <= |eh|
    && (hdrVa + Field(table, 12 + 8 * i) - FunctionOf(ehVa, eh, at)) % TWO32 == 0
    && (hdrVa + Field(table, 16 + 8 * i) - (ehVa + at)) % TWO32 == 0
  }

  ghost predicate RowHasFde(ehVa: nat, hdrVa: nat, eh: seq<byte>, table: seq<byte>, i: nat) {
    exists at :: IsFde(eh, at) && RowLeadsTo(ehVa, hdrVa, eh, table, i, at)
  }

  lemma {:induction false} BackToSum(base: int, x: int)
    ensures (base + (x - base) % TWO32 - x) % TWO32 == 0
  {
    var k := (x - base) / TWO32;
    assert base + (x - base) % TWO32 - x == TWO32 * (-k);
    ModUnique(TWO32 * (-k), TWO32, -k, 0);
  }

  lemma {:induction false} RowIs(ehVa: nat, hdrVa: nat, eh: seq<byte>, i: nat, f: Fde)
    requires i < |FdesFrom(eh, 0)| < TWO32 && f in FdesFrom(eh, 0)
    requires i < |SortEntries(EntriesOf(ehVa, FdesFrom(eh, 0)))|
    requires SortEntries(EntriesOf(ehVa, FdesFrom(eh, 0)))[i] == EhFrame.Entry(ehVa + f.pcBegin + f.rel, ehVa + f.at)
    ensures IsFde(eh, f.at) && RowLeadsTo(ehVa, hdrVa, eh, HdrBytes(ehVa, hdrVa, eh), i, f.at)
  {
    hide FdesFrom, SortEntries, EntriesOf, HdrBytes, IsFde;
    ListsExactly(eh, f);
    HdrReadsBack(ehVa, hdrVa, eh, i, 12 + 8 * i);
    BackToSum(hdrVa, ehVa + f.pcBegin + f.rel);
    BackToSum(hdrVa, ehVa + f.at);
    HdrLength(ehVa, hdrVa, eh);
    hide FromLe;
  }

  lemma {:induction false} HdrLength(ehVa: nat, hdrVa: nat, eh: seq<byte>)
    ensures |HdrBytes(ehVa, hdrVa, eh)| == 12 + 8 * |FdesFrom(eh, 0)|
  {
    hide FdesFrom;
  }

  lemma {:induction false} EntryHasFde(ehVa: nat, fdes: seq<Fde>, e: EhFrame.Entry) returns (f: Fde)
    requires e in EntriesOf(ehVa, fdes)
    ensures f in fdes && e == EhFrame.Entry(ehVa + f.pcBegin + f.rel, ehVa + f.at)
  {
    var j :| 0 <= j < |fdes| && EntriesOf(ehVa, fdes)[j] == e;
    f := fdes[j];
  }

  lemma {:induction false} FdeHasEntry(ehVa: nat, fdes: seq<Fde>, f: Fde)
    requires f in fdes
    ensures EhFrame.Entry(ehVa + f.pcBegin + f.rel, ehVa + f.at) in EntriesOf(ehVa, fdes)
  {
    var j :| 0 <= j < |fdes| && fdes[j] == f;
    assert EntriesOf(ehVa, fdes)[j] == EhFrame.Entry(ehVa + f.pcBegin + f.rel, ehVa + f.at);
  }

  lemma {:induction false} SameElements(a: seq<EhFrame.Entry>, b: seq<EhFrame.Entry>)
    requires multiset(a) == multiset(b)
    ensures forall e :: e in a <==> e in b
  {
    forall e ensures e in a <==> e in b { assert e in a <==> e in multiset(a); assert e in b <==> e in multiset(b); }
  }

  /** Every row leads to an FDE of the section and to the function that its relocated field refers to, and every FDE has
      a row. */
  lemma {:induction false} TableExactly(ehVa: nat, hdrVa: nat, eh: seq<byte>)
    requires |FdesFrom(eh, 0)| < TWO32
    ensures var table, n := HdrBytes(ehVa, hdrVa, eh), |FdesFrom(eh, 0)|;
            && |table| == 12 + 8 * n && Field(table, 8) == n
            && (forall i: nat | i < n :: RowHasFde(ehVa, hdrVa, eh, table, i))
            && forall at | IsFde(eh, at) :: exists i: nat :: i < n && RowLeadsTo(ehVa, hdrVa, eh, table, i, at)
  {
    hide FdesFrom, SortEntries, EntriesOf, HdrBytes, IsFde, Field, RowLeadsTo;
    var fdes, table := FdesFrom(eh, 0), HdrBytes(ehVa, hdrVa, eh);
    var es := SortEntries(EntriesOf(ehVa, fdes));
    SortSorts(EntriesOf(ehVa, fdes));
    SameElements(es, EntriesOf(ehVa, fdes));
    HdrLength(ehVa, hdrVa, eh);
    CountField(ehVa, hdrVa, eh);
    forall i: nat | i < |fdes|
      ensures RowHasFde(ehVa, hdrVa, eh, table, i)
    {
      var f := EntryHasFde(ehVa, fdes, es[i]);
      RowIs(ehVa, hdrVa, eh, i, f);
    }
    forall at | IsFde(eh, at)
      ensures exists i: nat :: i < |fdes| && RowLeadsTo(ehVa, hdrVa, eh, table, i, at)
    {
      var f := TheFde(eh, at);
      FdeHasEntry(ehVa, fdes, f);
      var i :| 0 <= i < |es| && es[i] == EhFrame.Entry(ehVa + f.pcBegin + f.rel, ehVa + f.at);
      RowIs(ehVa, hdrVa, eh, i, f);
    }
  }

  lemma {:induction false} TheFde(eh: seq<byte>, at: nat) returns (f: Fde)
    requires IsFde(eh, at)
    ensures f in FdesFrom(eh, 0) && f.at == at
  {
    f := Fde(at, at + 8, Signed(Field(eh, at + 8), 4));
    ListsExactly(eh, f);
  }

  lemma {:induction false} CountField(ehVa: nat, hdrVa: nat, eh: seq<byte>)
    requires |FdesFrom(eh, 0)| < TWO32
    ensures |HdrBytes(ehVa, hdrVa, eh)| >= 12 && Field(HdrBytes(ehVa, hdrVa, eh), 8) == |FdesFrom(eh, 0)|
  {
    hide FdesFrom, EntriesOf, SortEntries, Le, FromLe, TableBytes;
    var n := |FdesFrom(eh, 0)|;
    var front := HDR_FIXED + Le(ehVa - (hdrVa + 4), 4) + Le(n, 4);
    SortSorts(EntriesOf(ehVa, FdesFrom(eh, 0)));
    assert HdrBytes(ehVa, hdrVa, eh) == front + TableBytes(hdrVa, SortEntries(EntriesOf(ehVa, FdesFrom(eh, 0))));
    assert HdrBytes(ehVa, hdrVa, eh)[8..12] == front[8..12] == Le(n, 4);
    Pow256Values();
    LeExact(n, 4);
  }

  /** The header leads to the section, in the encodings of version 1: PC-relative and data-relative signed words, and
      an unsigned count. */
  lemma {:induction false} HeaderLeadsToSection(ehVa: nat, hdrVa: nat, eh: seq<byte>)
    ensures var table := HdrBytes(ehVa, hdrVa, eh);
            && |table| >= 12 && table[..4] == [1, 0x10 + 0x0b, 0x03, 0x30 + 0x0b]
            && (hdrVa + 4 + Field(table, 4) - ehVa) % TWO32 == 0
  {
    hide FdesFrom, EntriesOf, SortEntries, Le, FromLe, TableBytes;
    var n := |FdesFrom(eh, 0)|;
    var front := HDR_FIXED + Le(ehVa - (hdrVa + 4), 4) + Le(n, 4);
    SortSorts(EntriesOf(ehVa, FdesFrom(eh, 0)));
    assert HdrBytes(ehVa, hdrVa, eh) == front + TableBytes(hdrVa, SortEntries(EntriesOf(ehVa, FdesFrom(eh, 0))));
    assert HdrBytes(ehVa, hdrVa, eh)[4..8] == front[4..8] == Le(ehVa - (hdrVa + 4), 4);
    assert HdrBytes(ehVa, hdrVa, eh)[..4] == front[..4] == HDR_FIXED;
    LeRoundTrip(ehVa - (hdrVa + 4), 4);
    Pow256Values();
    BackToSum(hdrVa + 4, ehVa);
  }
}
