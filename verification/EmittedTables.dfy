/** What a full emit leaves in the sections that the linker makes itself: the `.eh_frame` search table, the TLS words
    of `.got`, the build id and the other stores (`peony-emit/src/lib.rs:317-423`). */
module EmittedTables {
  import opened Bytes
  import opened Objects
  import opened InputWork
  import opened Dispatch
  import opened EhFrame
  import opened Emit
  import opened EmittedImage

  /** The image before the build id and after the TLS words. */
  ghost function Slotted(l: Layout, objects: seq<InputObject>, lookup: Lookup, base: seq<byte>): (img: seq<byte>)
    requires Faultless(l, objects, lookup, |base|)
    ensures |img| == |base|
  {
    WriteTlsGot(SerialImage(Work(l, objects, lookup), Prefix(base, l), |Work(l, objects, lookup).items|), l)
  }

  /** Outside the input sections the data is what the sections' own stores left. */
  lemma {:induction false} DataOutside(l: Layout, objects: seq<InputObject>, lookup: Lookup, base: seq<byte>,
          sec: OutSec, x: nat)
    requires Faultless(l, objects, lookup, |base|) && sec in l.sections && !sec.source.Bss? && !sec.source.Input?
    requires sec.Holds(x)
    ensures x < |base|
    ensures SerialImage(Work(l, objects, lookup), Prefix(base, l), |Work(l, objects, lookup).items|)[x]
            == Prefix(base, l)[x]
  {
    assert sec.End() <= |base|;
    var job := Work(l, objects, lookup);
    forall k | 0 <= k < |job.items|
      ensures !Covers(job.items[k], x)
    {
      OtherNotCovered(l, objects, lookup, sec, x, k);
    }
    hide CollectInputWorkItems, SerialImage, Prefix;
    SerialOutside(job, Prefix(base, l), |job.items|, x);
  }

  lemma {:induction false} OtherNotCovered(l: Layout, objects: seq<InputObject>, lookup: Lookup, sec: OutSec, x: nat,
          k: nat)
    requires Fits(l, objects) && sec in l.sections && !sec.source.Bss? && !sec.source.Input? && sec.Holds(x)
    requires forall a, b | a in l.sections && b in l.sections && a != b :: Separate(a, b)
    requires k < |Work(l, objects, lookup).items|
    ensures !Covers(Work(l, objects, lookup).items[k], x)
  {
    hide CollectInputWorkItems, Fits;
    var items := Work(l, objects, lookup).items;
    ItemsInside(l, l.sections, objects, items[k]);
    var t :| t in l.sections && t.source.Input? && t.off <= items[k].fileOff && items[k].End() <= t.End();
    assert Separate(t, sec);
  }

  // ── The search table ─────────────────────────────────────────────────────

  lemma {:induction false} EhBytesStay(l: Layout, objects: seq<InputObject>, lookup: Lookup, base: seq<byte>,
          eh: OutSec)
    requires Faultless(l, objects, lookup, |base|) && FindName(l.sections, ".eh_frame") == Some(eh)
    ensures eh.End() <= |base|
    ensures Full(l, objects, lookup, base)[eh.off..eh.End()] == Slotted(l, objects, lookup, base)[eh.off..eh.End()]
  {
    assert eh.source.Input? && eh.End() <= |base|;
    var img, tls := Full(l, objects, lookup, base), Slotted(l, objects, lookup, base);
    hide CollectInputWorkItems, SerialImage, Prefix, FullImage, WriteTlsGot, Tidy, Fits, Settled;
    forall x | eh.off <= x < eh.End()
      ensures img[x] == tls[x]
    {
      FullByte(Work(l, objects, lookup), base, l, eh, x);
      SettledInside(l, |base|, eh, x);
      FinishSettled(SerialImage(Work(l, objects, lookup), Prefix(base, l), |Work(l, objects, lookup).items|), l, x);
    }
  }

  /** Byte `x` of the header section, before the build id. */
  lemma {:induction false} HdrByte(l: Layout, objects: seq<InputObject>, lookup: Lookup, base: seq<byte>, hdr: OutSec,
          x: nat)
    requires Faultless(l, objects, lookup, |base|) && hdr in l.sections && hdr.source.EhFrameHdr? && hdr.Holds(x)
    ensures x < |base|
    ensures Full(l, objects, lookup, base)[x] == WriteEhFrameHdr(Slotted(l, objects, lookup, base), l)[x]
    ensures Slotted(l, objects, lookup, base)[x] == Prefix(base, l)[x]
  {
    assert hdr.End() <= |base|;
    hide CollectInputWorkItems, SerialImage, Prefix, WriteTlsGot, WriteEhFrameHdr, Fits, Settled, Finish,
         FinalizeBuildId, Tidy;
    var data := SerialImage(Work(l, objects, lookup), Prefix(base, l), |Work(l, objects, lookup).items|);
    SettledInside(l, |base|, hdr, x);
    SettledOutside(l, x);
    BuildIdFrame(Finish(data, l), l, x);
    FinishSettled(data, l, x);
    DataOutside(l, objects, lookup, base, hdr, x);
  }

  /** Storing the table, byte by byte. */
  lemma {:induction false} TableAt(img: seq<byte>, l: Layout, hdr: OutSec, eh: OutSec, i: nat)
    requires FindSource(l.sections, EhFrameHdr) == Some(hdr) && FindName(l.sections, ".eh_frame") == Some(eh)
    requires i < hdr.size && hdr.End() <= |img| && eh.End() <= |img|
    ensures var table := HdrBytes(eh.va, hdr.va, img[eh.off..eh.End()]);
            WriteEhFrameHdr(img, l)[hdr.off + i] == if i < |table| then table[i] else img[hdr.off + i]
  {
    hide HdrBytes, FindSource, FindName;
    var room := HdrStore(hdr, eh, img[eh.off..eh.End()]);
    assert WriteEhFrameHdr(img, l) == Put(img, room);
    hide WriteEhFrameHdr;
    if Touches(room, hdr.off + i) { PutByte(img, room, hdr.off + i); } else { PutFrame(img, room, hdr.off + i); }
  }

  lemma {:induction false} HdrZero(l: Layout, base: seq<byte>, hdr: OutSec, x: nat)
    requires Tidy(l, |base|) && OwnSections(l) && hdr in l.sections && hdr.source.EhFrameHdr? && hdr.Holds(x)
    ensures x < |base| && Prefix(base, l)[x] == 0
  {
    assert hdr.End() <= |base|;
    hide Prefix, Tidy;
    forall m: seq<byte> | |m| == |base| ensures WriteSection(m, hdr)[x] == 0 { ZeroAt(m, hdr.off, hdr.size, x); }
    PrefixByte(base, l, hdr, x, 0);
  }

  /** The search table in the finished image is that of the finished `.eh_frame`, cut to the room reserved for it;
      the rest of the room is zero. */
  lemma {:induction false} FullHdrMatches(l: Layout, objects: seq<InputObject>, lookup: Lookup, base: seq<byte>,
          hdr: OutSec, eh: OutSec, i: nat)
    requires Faultless(l, objects, lookup, |base|) && OwnSections(l)
    requires FindSource(l.sections, EhFrameHdr) == Some(hdr) && FindName(l.sections, ".eh_frame") == Some(eh)
    requires i < hdr.size
    ensures eh.End() <= |base| && hdr.off + i < |base|
    ensures var img := Full(l, objects, lookup, base);
            var table := HdrBytes(eh.va, hdr.va, img[eh.off..eh.End()]);
            img[hdr.off + i] == if i < |table| then table[i] else 0
  {
    var x := hdr.off + i;
    assert hdr.End() <= |base|;
    hide Full, Slotted, HdrBytes, WriteEhFrameHdr, OwnSections, FindName, FindSource;
    EhBytesStay(l, objects, lookup, base, eh);
    HdrByte(l, objects, lookup, base, hdr, x);
    HdrZero(l, base, hdr, x);
    TableAt(Slotted(l, objects, lookup, base), l, hdr, eh, i);
  }

  // ── The build id ─────────────────────────────────────────────────────────

  /** The descriptor holds the digest of the image with the descriptor zero. */
  lemma {:induction false} FullBuildId(l: Layout, objects: seq<InputObject>, lookup: Lookup, base: seq<byte>)
    requires Faultless(l, objects, lookup, |base|) && DescriptorOffset(l).Some?
    ensures var d, img := DescriptorOffset(l).value, Full(l, objects, lookup, base);
            d + 16 <= |img| && img[d..d + 16] == l.digest(Splice(img, d, Zeros(16)))
  {
    DescriptorFits(l, |base|);
    hide CollectInputWorkItems, SerialImage, Prefix, Finish, Tidy, Fits;
    var d, img := DescriptorOffset(l).value, Full(l, objects, lookup, base);
    var done := Finish(SerialImage(Work(l, objects, lookup), Prefix(base, l), |Work(l, objects, lookup).items|), l);
    var cleared := Splice(done, d, Zeros(16));
    assert img == Splice(cleared, d, l.digest(cleared));
    assert Splice(img, d, Zeros(16)) == cleared;
  }

  lemma {:induction false} WordOf(b: byte)
    ensures FromLe([b, 0, 0, 0]) == b
  {
    var s := [b, 0, 0, 0];
    assert s[1..] == [0, 0, 0] && [0, 0, 0][1..] == [0, 0] && [0, 0][1..] == [0] && [0][1..] == [];
  }

  /** Sizes of name and descriptor, type, and name. */
  predicate BuildIdNote(header: seq<byte>) {
    && |header| == 16 && FromLe(header[..4]) == |header[12..]| && FromLe(header[4..8]) == 16
    && FromLe(header[8..12]) == 3 && header[12..] == [0x47, 0x4e, 0x55, 0]
  }

  lemma {:induction false} HeaderReads()
    ensures BuildIdNote(NOTE_HEADER)
  {
    assert NOTE_HEADER[..4] == [4, 0, 0, 0] && NOTE_HEADER[4..8] == [16, 0, 0, 0] && NOTE_HEADER[8..12] == [3, 0, 0, 0];
    WordOf(4);
    WordOf(16);
    WordOf(3);
    hide FromLe;
  }

  lemma {:induction false} NoteRoom(l: Layout, objects: seq<InputObject>, lookup: Lookup, n: nat, note: OutSec)
    requires Faultless(l, objects, lookup, n) && FindSource(l.sections, NoteBuildId) == Some(note)
    ensures note in l.sections && note.source.NoteBuildId? && note.End() <= n && note.size >= 32 && Tidy(l, n)
    ensures DescriptorOffset(l) == Some(note.off + 16)
  {
  }

  /** Before it stands the header of a build-id note. */
  lemma {:induction false} FullNote(l: Layout, objects: seq<InputObject>, lookup: Lookup, base: seq<byte>, note: OutSec)
    requires Faultless(l, objects, lookup, |base|) && OwnSections(l)
             && FindSource(l.sections, NoteBuildId) == Some(note)
    ensures note.off + 32 <= |base| && DescriptorOffset(l) == Some(note.off + 16)
    ensures BuildIdNote(Full(l, objects, lookup, base)[note.off..note.off + 16])
  {
    hide Full, Faultless, BuildIdNote;
    NoteRoom(l, objects, lookup, |base|, note);
    HeaderReads();
    assert |NOTE_HEADER| == 16;
    hide NOTE_HEADER;
    var img := Full(l, objects, lookup, base);
    forall x | note.off <= x < note.off + 16
      ensures img[x] == NOTE_HEADER[x - note.off]
    {
      NoteStays(l, objects, lookup, base, note, x);
      NotePrefix(l, base, note, x);
    }
    assert img[note.off..note.off + 16] == NOTE_HEADER;
  }

  lemma {:induction false} NoteStays(l: Layout, objects: seq<InputObject>, lookup: Lookup, base: seq<byte>,
          note: OutSec, x: nat)
    requires Faultless(l, objects, lookup, |base|) && FindSource(l.sections, NoteBuildId) == Some(note)
    requires note.off <= x < note.off + 16
    ensures x < |base| && Full(l, objects, lookup, base)[x] == Prefix(base, l)[x]
  {
    assert note in l.sections && note.End() <= |base| && note.size >= 32;
    hide CollectInputWorkItems, SerialImage, Prefix, WriteTlsGot, WriteEhFrameHdr, Fits, Settled, Finish,
         FinalizeBuildId, HdrRoom, FindSource;
    var data := SerialImage(Work(l, objects, lookup), Prefix(base, l), |Work(l, objects, lookup).items|);
    NoteSettled(l, |base|, note, x);
    SettledOutside(l, x);
    BuildIdFrame(Finish(data, l), l, x);
    FinishSettled(data, l, x);
    OutsideTable(l, WriteTlsGot(data, l), note, x);
    HdrFrame(WriteTlsGot(data, l), l, x);
    DataOutside(l, objects, lookup, base, note, x);
  }

  lemma {:induction false} NoteWritten(img: seq<byte>, note: OutSec, x: nat)
    requires note.source.NoteBuildId? && note.size >= 32 && note.End() <= |img| && note.off <= x < note.off + 16
    ensures WriteSection(img, note)[x] == NOTE_HEADER[x - note.off]
  {
    hide Zero, Zeros, ZeroGaps, PutAll, Put;
    var s := Store(note.off, NOTE_HEADER + Zeros(16));
    PutByte(Zero(img, note.off, note.size), s, x);
  }

  lemma {:induction false} NotePrefix(l: Layout, base: seq<byte>, note: OutSec, x: nat)
    requires Tidy(l, |base|) && OwnSections(l) && note in l.sections && note.source.NoteBuildId?
    requires note.off <= x < note.off + 16
    ensures x < |base| && Prefix(base, l)[x] == NOTE_HEADER[x - note.off]
  {
    assert note.End() <= |base| && note.size >= 32;
    hide Prefix, Tidy, OwnSections, WriteSection;
    forall m: seq<byte> | |m| == |base|
      ensures WriteSection(m, note)[x] == NOTE_HEADER[x - note.off]
    {
      NoteWritten(m, note, x);
    }
    PrefixByte(base, l, note, x, NOTE_HEADER[x - note.off]);
  }

  lemma {:induction false} NoteSettled(l: Layout, n: nat, note: OutSec, x: int)
    requires Tidy(l, n) && FindSource(l.sections, NoteBuildId) == Some(note) && note.off <= x < note.off + 16
    ensures Settled(l, x)
  {
    var got := FindSource(l.sections, Got);
    assert note.size >= 32;
    if got.Some? { assert Separate(got.value, note); }
    forall s | s in l.sectionHeaders ensures !Touches(s, x) { assert Clear(s, note); }
  }

  // ── Stores ───────────────────────────────────────────────────────────────

  /** The last of the stores that touches byte `x` decides. */
  lemma {:induction false} PutAllAt(img: seq<byte>, ss: seq<Store>, k: nat, x: nat)
    requires k < |ss| && ss[k].End() <= |img| && Touches(ss[k], x) && forall j | k < j < |ss| :: !Touches(ss[j], x)
    ensures x < |img| && PutAll(img, ss)[x] == ss[k].data[x - ss[k].at]
    decreases |ss|
  {
    hide Put;
    if k == 0 {
      PutByte(img, ss[0], x);
      forall s | s in ss[1..] ensures !Touches(s, x) { var j :| 0 <= j < |ss| - 1 && ss[1..][j] == s; }
      PutAllFrame(Put(img, ss[0]), ss[1..], x);
    } else {
      PutAllAt(Put(img, ss[0]), ss[1..], k - 1, x);
    }
  }

  /** In a section of tables the last store that touches a byte decides it, and a byte that none touches is zero. */
  lemma {:induction false} FullStore(l: Layout, objects: seq<InputObject>, lookup: Lookup, base: seq<byte>, sec: OutSec,
          x: nat)
    requires Faultless(l, objects, lookup, |base|) && OwnSections(l)
    requires sec in l.sections && sec.source.Synthetic? && sec.Holds(x)
    ensures x < |base|
    ensures forall k | 0 <= k < |sec.fill| && Touches(sec.fill[k], x) && (forall j | k < j < |sec.fill| ::
              !Touches(sec.fill[j], x)) ::
              Full(l, objects, lookup, base)[x] == sec.fill[k].data[x - sec.fill[k].at]
    ensures !TouchedBy(sec.fill, x) ==> Full(l, objects, lookup, base)[x] == 0
  {
    assert sec.End() <= |base|;
    SyntheticByte(l, objects, lookup, base, sec, x);
    hide PutAll, Full, Faultless;
    forall k | 0 <= k < |sec.fill| && Touches(sec.fill[k], x) && (forall j | k < j < |sec.fill| ::
              !Touches(sec.fill[j], x))
      ensures Full(l, objects, lookup, base)[x] == sec.fill[k].data[x - sec.fill[k].at]
    {
      StoredByte(l, base, sec, k, x);
    }
    if !TouchedBy(sec.fill, x) { ClearedByte(l, base, sec, x); }
  }

  lemma {:induction false} OutsideTable(l: Layout, img: seq<byte>, sec: OutSec, x: nat)
    requires forall a, b | a in l.sections && b in l.sections && a != b :: Separate(a, b)
    requires sec in l.sections && !sec.source.EhFrameHdr? && !sec.source.Bss? && sec.Holds(x)
    ensures !InRoom(HdrRoom(l, img), x)
  {
    hide HdrRoom;
    if HdrRoom(l, img).Some? {
      HdrRoomInHdr(img, l);
      var hdr :| hdr in l.sections && hdr.source.EhFrameHdr? && HdrRoom(l, img).value.at == hdr.off
                 && HdrRoom(l, img).value.End() <= hdr.End();
      assert Separate(hdr, sec);
    }
  }

  lemma {:induction false} SyntheticByte(l: Layout, objects: seq<InputObject>, lookup: Lookup, base: seq<byte>,
          sec: OutSec, x: nat)
    requires Faultless(l, objects, lookup, |base|) && sec in l.sections && sec.source.Synthetic? && sec.Holds(x)
    ensures x < |base| && Full(l, objects, lookup, base)[x] == Prefix(base, l)[x]
  {
    assert sec.End() <= |base|;
    hide CollectInputWorkItems, SerialImage, Prefix, WriteTlsGot, WriteEhFrameHdr, Fits, Settled, Finish,
         FinalizeBuildId, HdrRoom;
    var tls := Slotted(l, objects, lookup, base);
    var data := SerialImage(Work(l, objects, lookup), Prefix(base, l), |Work(l, objects, lookup).items|);
    SettledInside(l, |base|, sec, x);
    SettledOutside(l, x);
    BuildIdFrame(Finish(data, l), l, x);
    FinishSettled(data, l, x);
    OutsideTable(l, tls, sec, x);
    HdrFrame(tls, l, x);
    DataOutside(l, objects, lookup, base, sec, x);
  }

  lemma {:induction false} StoredByte(l: Layout, base: seq<byte>, sec: OutSec, k: nat, x: nat)
    requires Tidy(l, |base|) && OwnSections(l) && sec in l.sections && sec.source.Synthetic? && sec.Holds(x)
    requires k < |sec.fill| && Touches(sec.fill[k], x) && forall j | k < j < |sec.fill| :: !Touches(sec.fill[j], x)
    ensures x < |base| && Prefix(base, l)[x] == sec.fill[k].data[x - sec.fill[k].at]
  {
    assert sec.End() <= |base| && OwnStores(sec) && sec.fill[k] in sec.fill;
    hide PutAll, Prefix, Zero, Tidy, OwnSections;
    forall m: seq<byte> | |m| == |base| ensures WriteSection(m, sec)[x] == sec.fill[k].data[x - sec.fill[k].at] {
      PutAllAt(Zero(m, sec.off, sec.size), sec.fill, k, x);
    }
    PrefixByte(base, l, sec, x, sec.fill[k].data[x - sec.fill[k].at]);
  }

  lemma {:induction false} ClearedByte(l: Layout, base: seq<byte>, sec: OutSec, x: nat)
    requires Tidy(l, |base|) && OwnSections(l) && sec in l.sections && sec.source.Synthetic? && sec.Holds(x)
    requires !TouchedBy(sec.fill, x)
    ensures x < |base| && Prefix(base, l)[x] == 0
  {
    assert sec.End() <= |base|;
    hide PutAll, Prefix, Zero, Tidy, OwnSections, TouchedBy;
    forall m: seq<byte> | |m| == |base| ensures WriteSection(m, sec)[x] == 0 {
      PutAllFrame(Zero(m, sec.off, sec.size), sec.fill, x);
      ZeroAt(m, sec.off, sec.size, x);
    }
    PrefixByte(base, l, sec, x, 0);
  }

  // ── The TLS words ────────────────────────────────────────────────────────

  predicate InGot(got: OutSec, w: (nat, u64)) { got.va <= w.0 && w.0 + 8 <= got.va + got.size }

  predicate ClearOf(s: Store, ss: seq<Store>) { forall t | t in ss :: t.End() <= s.at || s.End() <= t.at }

  function WordStore(got: OutSec, w: (nat, u64)): Store
    requires InGot(got, w)
  {
    Store(got.off + (w.0 - got.va), Le(w.1, 8))
  }

  /** No later word overlaps word `k`. */
  predicate LastWord(got: OutSec, writes: seq<(nat, u64)>, k: nat) {
    && k < |writes| && InGot(got, writes[k])
    && forall j | k < j < |writes| && InGot(got, writes[j]) ::
         writes[j].0 + 8 <= writes[k].0 || writes[k].0 + 8 <= writes[j].0
  }

  /** The store of word `k`, and none of a later word overlaps it. */
  lemma {:induction false} SlotStore(got: OutSec, writes: seq<(nat, u64)>, k: nat) returns (i: nat)
    requires LastWord(got, writes, k)
    ensures var ss, s := TlsStores(got, writes), WordStore(got, writes[k]);
            i < |ss| && ss[i] == s && ClearOf(s, ss[i + 1..])
    decreases |writes|
  {
    hide Le;
    var rest := TlsStores(got, writes[1..]);
    var first := if InGot(got, writes[0]) then [WordStore(got, writes[0])] else [];
    assert TlsStores(got, writes) == first + rest;
    if k == 0 {
      i := 0;
      assert forall j | 0 <= j < |writes[1..]| :: writes[1..][j] == writes[j + 1];
      LaterApart(got, writes[1..], writes[0]);
      assert (first + rest)[1..] == rest;
    } else {
      var j := SlotStore(got, writes[1..], k - 1);
      i := |first| + j;
      assert (first + rest)[i + 1..] == rest[j + 1..];
    }
  }

  lemma {:induction false} LaterApart(got: OutSec, writes: seq<(nat, u64)>, w: (nat, u64))
    requires InGot(got, w)
    requires forall j | 0 <= j < |writes| && InGot(got, writes[j]) :: writes[j].0 + 8 <= w.0 || w.0 + 8 <= writes[j].0
    ensures ClearOf(WordStore(got, w), TlsStores(got, writes))
    decreases |writes|
  {
    hide Le;
    if writes != [] {
      assert forall j | 0 <= j < |writes[1..]| :: writes[1..][j] == writes[j + 1];
      LaterApart(got, writes[1..], w);
    }
  }

  /** Byte `x` of `.got` is not written after the TLS words. */
  lemma {:induction false} GotByte(l: Layout, objects: seq<InputObject>, lookup: Lookup, base: seq<byte>, got: OutSec,
          x: nat)
    requires Faultless(l, objects, lookup, |base|) && got in l.sections && got.source.Got? && got.Holds(x)
    ensures x < |base| && Full(l, objects, lookup, base)[x] == Slotted(l, objects, lookup, base)[x]
  {
    assert got.End() <= |base|;
    hide CollectInputWorkItems, SerialImage, Prefix, WriteTlsGot, WriteEhFrameHdr, Fits, FinalizeBuildId, HdrRoom,
         PutAll;
    var tls := Slotted(l, objects, lookup, base);
    var data := SerialImage(Work(l, objects, lookup), Prefix(base, l), |Work(l, objects, lookup).items|);
    var note := FindSource(l.sections, NoteBuildId);
    if note.Some? { assert Separate(note.value, got); }
    BuildIdFrame(Finish(data, l), l, x);
    forall s | s in l.sectionHeaders ensures !Touches(s, x) { assert Clear(s, got); }
    PutAllFrame(WriteEhFrameHdr(tls, l), l.sectionHeaders, x);
    OutsideTable(l, tls, got, x);
    HdrFrame(tls, l, x);
  }

  lemma {:induction false} SlottedIs(l: Layout, objects: seq<InputObject>, lookup: Lookup, base: seq<byte>, got: OutSec)
    requires Faultless(l, objects, lookup, |base|) && FindSource(l.sections, Got) == Some(got)
    ensures got.End() <= |base|
    ensures exists data: seq<byte> :: |data| == |base|
              && Slotted(l, objects, lookup, base) == PutAll(data, TlsStores(got, l.tlsWrites))
  {
    hide SerialImage, Prefix, PutAll, TlsStores, CollectInputWorkItems;
  }

  lemma {:induction false} WordStored(data: seq<byte>, got: OutSec, writes: seq<(nat, u64)>, k: nat)
    requires LastWord(got, writes, k) && got.End() <= |data|
    ensures var at := got.off + (writes[k].0 - got.va);
            at + 8 <= |data| && PutAll(data, TlsStores(got, writes))[at..at + 8] == Le(writes[k].1, 8)
  {
    hide PutAll, TlsStores, Le;
    var at, ss := got.off + (writes[k].0 - got.va), TlsStores(got, writes);
    var i := SlotStore(got, writes, k);
    var s := WordStore(got, writes[k]);
    assert s == Store(at, Le(writes[k].1, 8));
    hide WordStore, LastWord, InGot;
    forall j, x | i < j < |ss| && Touches(s, x)
      ensures !Touches(ss[j], x)
    {
      assert ss[i + 1..][j - i - 1] == ss[j] && ss[j] in ss[i + 1..];
    }
    forall x | at <= x < at + 8
      ensures PutAll(data, ss)[x] == Le(writes[k].1, 8)[x - at]
    {
      PutAllAt(data, ss, i, x);
    }
  }

  lemma {:induction false} GotBytes(l: Layout, objects: seq<InputObject>, lookup: Lookup, base: seq<byte>, got: OutSec,
          at: nat)
    requires Faultless(l, objects, lookup, |base|) && got in l.sections && got.source.Got?
    requires got.off <= at && at + 8 <= got.End() <= |base|
    ensures Full(l, objects, lookup, base)[at..at + 8] == Slotted(l, objects, lookup, base)[at..at + 8]
  {
    hide Faultless, Full, Slotted;
    forall x | at <= x < at + 8
      ensures Full(l, objects, lookup, base)[x] == Slotted(l, objects, lookup, base)[x]
    {
      GotByte(l, objects, lookup, base, got, x);
    }
  }

  lemma {:induction false} WordReads(v: u64)
    ensures FromLe(Le(v, 8)) == v
  {
    hide Le, FromLe;
    LeRoundTrip(v, 8);
    Pow256Values();
  }

  /** A TLS word of `.got` that no later one overlaps reads back at its address. */
  lemma {:induction false} FullTlsWord(l: Layout, objects: seq<InputObject>, lookup: Lookup, base: seq<byte>,
          got: OutSec, k: nat)
    requires Faultless(l, objects, lookup, |base|) && FindSource(l.sections, Got) == Some(got)
    requires LastWord(got, l.tlsWrites, k)
    ensures var at := got.off + (l.tlsWrites[k].0 - got.va);
            at + 8 <= |base| && FromLe(Full(l, objects, lookup, base)[at..at + 8]) == l.tlsWrites[k].1
  {
    SlottedIs(l, objects, lookup, base, got);
    WordReads(l.tlsWrites[k].1);
    hide PutAll, TlsStores, Le, Full, Slotted, Faultless, FromLe;
    var data :| |data| == |base| && Slotted(l, objects, lookup, base) == PutAll(data, TlsStores(got, l.tlsWrites));
    WordStored(data, got, l.tlsWrites, k);
    GotBytes(l, objects, lookup, base, got, got.off + (l.tlsWrites[k].0 - got.va));
  }
}
