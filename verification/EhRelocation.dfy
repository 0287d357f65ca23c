/** Relocating `.eh_frame` leaves its records as layout counted them, so the search table that was reserved
    before layout has room for all of them (`peony-layout/src/lib.rs:1671-1693`,
    `peony-emit/src/eh_frame.rs:48-94`). */
module EhRelocation {
  import opened Bytes
  import opened Reloc
  import opened Objects
  import opened InputWork
  import opened EhFrame

  // ── Bytes that hold the record structure ─────────────────────────────────

  /** Byte `i` is in the length word or the CIE pointer of a record at or after `pos`, or in the words that
      stop the scan. */
  predicate HeaderByte(data: seq<byte>, pos: nat, i: int)
    requires pos <= |data|
    decreases |data| - pos
  {
    match StepAt(data, pos)
    case Stop => pos <= i < pos + 8
    case Move(next, tally) => pos <= i < pos + (if tally == TERMINATOR then 4 else 8) || HeaderByte(data, next, i)
  }

  lemma {:induction false} SameWord(a: seq<byte>, b: seq<byte>, pos: nat)
    requires |a| == |b| && pos + 4 <= |a| && forall i | pos <= i < pos + 4 :: a[i] == b[i]
    ensures Word(a, pos) == Word(b, pos)
  {
  }

  /** Two sections of one length that agree in the header bytes have the same records. */
  lemma {:induction false} SameRecords(a: seq<byte>, b: seq<byte>, pos: nat)
    requires |a| == |b| && pos <= |a| && forall i | 0 <= i < |a| && HeaderByte(a, pos, i) :: a[i] == b[i]
    ensures SameHeaders(a, b, pos)
    decreases |a| - pos
  {
    SameStep(a, b, pos);
    hide StepAt, Word;
    match StepAt(a, pos)
    case Stop =>
    case Move(next, _) => SameRecords(a, b, next);
  }

  lemma {:induction false} SameStep(a: seq<byte>, b: seq<byte>, pos: nat)
    requires |a| == |b| && pos <= |a| && forall i | 0 <= i < |a| && HeaderByte(a, pos, i) :: a[i] == b[i]
    ensures StepAt(a, pos) == StepAt(b, pos)
  {
    if pos + 4 <= |a| {
      assert forall i | pos <= i < pos + 4 :: HeaderByte(a, pos, i);
      SameWord(a, b, pos);
      if pos + 8 <= |a| && Word(a, pos) != 0 {
        assert forall i | pos <= i < pos + 8 :: HeaderByte(a, pos, i);
        SameWord(a, b, pos + 4);
      }
    }
  }

  // ── Relocations that miss them ───────────────────────────────────────────

  /** The section passed range validation, and no relocation's footprint reaches a header byte. */
  predicate SparesHeaders(item: WorkItem) {
    && item.Len() < TWO63
    && (forall r | r in item.isec.relocs :: RelocFits(r, item.Len()))
    && forall r, i | r in item.isec.relocs && 0 <= i < item.Len() && HeaderByte(item.isec.data, 0, i) ::
         !InFootprint(r.rType, r.offset, i)
  }

  lemma {:induction false} RelocSpares(lookup: Lookup, item: WorkItem, r: InputReloc, sec: seq<byte>, i: nat)
    requires i < |sec| < TWO63 && !RelocationFootprint(r.rType, r.offset).BeforeSection?
             && !InFootprint(r.rType, r.offset, i)
    ensures ApplyReloc(lookup, item, r, sec).bytes[i] == sec[i]
  {
    hide Patched, InFootprint, RelocationFootprint;
    match lookup(item.objId, r, item.sectionVa)
    case Skip =>
    case Undefined =>
    case Apply(addrs) => OutsideFootprint(sec, r.rType, addrs.(offset := r.offset), i);
  }

  /** Byte `i` is in no footprint of the item's relocations, all of which fit. */
  predicate Missed(item: WorkItem, i: int) {
    forall r | r in item.isec.relocs :: RelocFits(r, item.Len()) && !InFootprint(r.rType, r.offset, i)
  }

  /** However far the relocations of an item got, a byte they miss is that of the input. */
  lemma {:induction false} StageMisses(lookup: Lookup, item: WorkItem, k: nat, i: nat)
    requires item.Len() < TWO63 && k <= |item.isec.relocs| && i < item.Len() && Missed(item, i)
    ensures Stage(lookup, item, k).bytes[i] == item.isec.data[i]
    decreases k
  {
    hide InFootprint, RelocationFootprint, ApplyReloc;
    if k > 0 {
      var r := item.isec.relocs[k - 1];
      assert r in item.isec.relocs;
      StageMisses(lookup, item, k - 1, i);
      var s := Stage(lookup, item, k - 1);
      NotBefore(r, item.Len());
      hide Missed, RelocFits;
      if s.ok { RelocSpares(lookup, item, r, s.bytes, i); }
    }
  }

  lemma {:induction false} StageSpares(lookup: Lookup, item: WorkItem, k: nat, i: nat)
    requires SparesHeaders(item) && k <= |item.isec.relocs| && i < item.Len() && HeaderByte(item.isec.data, 0, i)
    ensures Stage(lookup, item, k).bytes[i] == item.isec.data[i]
  {
    hide HeaderByte, InFootprint, Stage;
    StageMisses(lookup, item, k, i);
  }

  lemma {:induction false} NotBefore(r: InputReloc, len: nat)
    requires RelocFits(r, len)
    ensures !RelocationFootprint(r.rType, r.offset).BeforeSection?
  {
  }

  /** Relocation keeps the scan of a section: counts, leftover and where it stops. */
  lemma {:induction false} RelocatedScan(lookup: Lookup, item: WorkItem)
    requires SparesHeaders(item)
    ensures SameHeaders(item.isec.data, ItemBytes(lookup, item).bytes, 0)
    ensures ScanFrom(ItemBytes(lookup, item).bytes, 0) == ScanFrom(item.isec.data, 0)
  {
    hide HeaderByte, SameHeaders, ScanFrom, Stage, FdesFrom;
    var now := ItemBytes(lookup, item).bytes;
    forall i | 0 <= i < item.Len() && HeaderByte(item.isec.data, 0, i)
      ensures now[i] == item.isec.data[i]
    {
      StageSpares(lookup, item, |item.isec.relocs|, i);
    }
    hide SparesHeaders, ItemBytes;
    SameRecords(item.isec.data, now, 0);
    HeadersDecideScan(item.isec.data, now, 0);
  }

  // ── The reserved table ───────────────────────────────────────────────────

  /** One input section of the merged `.eh_frame`, after padding. */
  datatype EhItem = EhItem(padWords: nat, item: WorkItem)

  /** The pieces as layout counted them. */
  function Inputs(items: seq<EhItem>): (pieces: seq<Piece>)
    ensures |pieces| == |items|
  {
    seq(|items|, i requires 0 <= i < |items| => Piece(items[i].padWords, items[i].item.isec.data))
  }

  /** The pieces as the emitter leaves them. */
  function Relocated(lookup: Lookup, items: seq<EhItem>): (pieces: seq<Piece>)
    requires forall i | 0 <= i < |items| :: items[i].item.Len() < TWO63
    ensures |pieces| == |items|
  {
    seq(|items|, i requires 0 <= i < |items| => Piece(items[i].padWords, ItemBytes(lookup, items[i].item).bytes))
  }

  ghost predicate AllSpare(items: seq<EhItem>) { forall i | 0 <= i < |items| :: SparesHeaders(items[i].item) }

  lemma {:induction false} SealedScan(a: seq<byte>, b: seq<byte>, pos: nat)
    requires |a| == |b| && pos <= |a| && SameHeaders(a, b, pos)
    ensures StopAt(a, pos) == StopAt(b, pos)
    decreases |a| - pos
  {
    hide StepAt;
    match StepAt(a, pos)
    case Stop =>
    case Move(next, _) => SealedScan(a, b, next);
  }

  /** A sealed section stays sealed: the words that stop its scan are header bytes. */
  lemma {:induction false} RelocatedSealed(lookup: Lookup, item: WorkItem)
    requires SparesHeaders(item) && Sealed(item.isec.data)
    ensures Sealed(ItemBytes(lookup, item).bytes)
  {
    hide HeaderByte, SameHeaders, Stage, StepAt;
    RelocatedScan(lookup, item);
    var data, now := item.isec.data, ItemBytes(lookup, item).bytes;
    SealedScan(data, now, 0);
    var stop := StopAt(data, 0);
    if stop + 4 <= |data| {
      forall i | stop <= i < stop + 4
        ensures now[i] == data[i]
      {
        StopBytes(data, 0, i);
        StageSpares(lookup, item, |item.isec.relocs|, i);
      }
      SameWord(data, now, stop);
    }
    hide Word;
  }

  lemma {:induction false} StopBytes(data: seq<byte>, pos: nat, i: int)
    requires pos <= |data| && StopAt(data, pos) <= i < StopAt(data, pos) + 8
    ensures HeaderByte(data, pos, i)
    decreases |data| - pos
  {
    hide Word;
    match StepAt(data, pos)
    case Stop =>
    case Move(next, _) => StopBytes(data, next, i);
  }

  lemma {:induction false} RelocatedTotal(lookup: Lookup, items: seq<EhItem>)
    requires AllSpare(items)
    ensures TotalFdes(Relocated(lookup, items)) == TotalFdes(Inputs(items))
    decreases |items|
  {
    assert forall i | 0 <= i < |items| :: items[i].item.Len() < TWO63;
    hide SparesHeaders, ScanFrom, ItemBytes;
    if items != [] {
      assert SparesHeaders(items[0].item);
      RelocatedScan(lookup, items[0].item);
      var rest := items[1..];
      assert forall i | 0 <= i < |rest| :: rest[i] == items[i + 1];
      assert Relocated(lookup, items)[1..] == Relocated(lookup, rest) && Inputs(items)[1..] == Inputs(rest);
      RelocatedTotal(lookup, rest);
    }
  }

  /** The merged `.eh_frame` lists no more FDEs after relocation than the table was reserved for, whatever
      the relocations store, if they miss the header bytes and every input section but the last is sealed. */
  lemma {:induction false} TableNeverTruncated(lookup: Lookup, items: seq<EhItem>)
    requires AllSpare(items) && SealedButLast(Inputs(items))
    ensures |FdesFrom(Merged(Relocated(lookup, items)), 0)| <= TotalFdes(Inputs(items))
  {
    var pieces := Relocated(lookup, items);
    forall i | 0 <= i < |pieces| - 1
      ensures Sealed(pieces[i].bytes)
    {
      assert SparesHeaders(items[i].item) && Sealed(Inputs(items)[i].bytes);
      RelocatedSealed(lookup, items[i].item);
    }
    hide AllSpare, Sealed, Merged, ScanFrom, FdesFrom, Relocated, Inputs;
    RelocatedTotal(lookup, items);
    MergedBound(pieces);
    ListingWithinCount(Merged(pieces), 0);
  }

  /** So too when every input section scans with no leftover. */
  lemma {:induction false} CleanTableNeverTruncated(lookup: Lookup, items: seq<EhItem>)
    requires AllSpare(items) && Clean(Inputs(items))
    ensures |FdesFrom(Merged(Relocated(lookup, items)), 0)| <= TotalFdes(Inputs(items))
  {
    var pieces := Inputs(items);
    hide AllSpare, Sealed, Merged, ScanFrom, FdesFrom, Relocated, Inputs;
    forall i | 0 <= i < |pieces| - 1
      ensures Sealed(pieces[i].bytes)
    {
      assert pieces[i] in pieces;
      CleanIsSealed(pieces[i].bytes);
    }
    TableNeverTruncated(lookup, items);
  }
}
