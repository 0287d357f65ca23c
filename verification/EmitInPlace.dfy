/** The emitter's loops over the output buffer, proved against the image functions of `Emit`. */
module EmitInPlace {
  import opened Bytes
  import opened Objects
  import opened InputWork
  import opened Dispatch
  import opened EhFrame
  import opened Emit

  method PutAt(buf: array<byte>, s: Store)
    modifies buf
    ensures buf[..] == Put(old(buf[..]), s)
  {
    hide Splice;
    if s.End() <= buf.Length { StoreAt(buf, s.at, s.data); }
  }

  method PutEach(buf: array<byte>, ss: seq<Store>)
    modifies buf
    ensures buf[..] == PutAll(old(buf[..]), ss)
  {
    hide Put;
    ghost var was := buf[..];
    for k := 0 to |ss|
      invariant PutAll(was, ss) == PutAll(buf[..], ss[k..])
    {
      assert ss[k..][1..] == ss[k + 1..];
      PutAt(buf, ss[k]);
    }
    assert ss[|ss|..] == [];
  }

  /** Zeroes the padding between contributions, in one pass with a moving cursor. */
  method ZeroInputGaps(buf: array<byte>, off: nat, size: nat, cs: seq<Contribution>)
    modifies buf
    ensures buf[..] == ZeroGaps(old(buf[..]), off, off + size, cs, off)
  {
    hide Put;
    ghost var was := buf[..];
    var end: nat, cursor: nat := off + size, off;
    for k := 0 to |cs|
      invariant ZeroGaps(was, off, end, cs, off) == ZeroGaps(buf[..], off, end, cs[k..], cursor)
    {
      assert cs[k..][1..] == cs[k + 1..];
      var start := off + cs[k].offset;
      if start > cursor { PutAt(buf, Store(cursor, Zeros(start - cursor))); }
      cursor := Max(cursor, start + cs[k].size);
    }
    assert cs[|cs|..] == [];
    if end > cursor { PutAt(buf, Store(cursor, Zeros(end - cursor))); }
  }

  method WriteOneSection(buf: array<byte>, sec: OutSec)
    modifies buf
    ensures buf[..] == WriteSection(old(buf[..]), sec)
  {
    hide Put, ZeroGaps, PutAll;
    match sec.source
    case Input => ZeroInputGaps(buf, sec.off, sec.size, sec.contributions);
    case Bss =>
    case EhFrameHdr => PutAt(buf, Store(sec.off, Zeros(sec.size)));
    case NoteBuildId =>
      PutAt(buf, Store(sec.off, Zeros(sec.size)));
      PutAt(buf, Store(sec.off, NOTE_HEADER + Zeros(16)));
    case _ =>
      PutAt(buf, Store(sec.off, Zeros(sec.size)));
      PutEach(buf, sec.fill);
  }

  method WriteEachSection(buf: array<byte>, secs: seq<OutSec>)
    modifies buf
    ensures buf[..] == WriteSections(old(buf[..]), secs)
  {
    hide WriteSection;
    ghost var was := buf[..];
    for k := 0 to |secs|
      invariant WriteSections(was, secs) == WriteSections(buf[..], secs[k..])
    {
      assert secs[k..][1..] == secs[k + 1..];
      WriteOneSection(buf, secs[k]);
    }
    assert secs[|secs|..] == [];
  }

  method TlsGotInPlace(buf: array<byte>, l: Layout)
    modifies buf
    ensures buf[..] == WriteTlsGot(old(buf[..]), l)
  {
    hide PutAll, TlsStores, FindSource;
    match FindSource(l.sections, Got)
    case None =>
    case Some(got) => StoreSlots(buf, got, l.tlsWrites);
  }

  lemma {:induction false} NextSlot(img: seq<byte>, got: OutSec, writes: seq<(nat, u64)>)
    requires writes != []
    ensures var (va, value) := writes[0];
            PutAll(img, TlsStores(got, writes))
            == if va < got.va || va + 8 > got.va + got.size then PutAll(img, TlsStores(got, writes[1..]))
               else PutAll(Put(img, Store(got.off + (va - got.va), Le(value, 8))), TlsStores(got, writes[1..]))
  {
    hide Put, Le;
    var (va, value) := writes[0];
    var rest := TlsStores(got, writes[1..]);
    if va < got.va || va + 8 > got.va + got.size {
      assert [] + rest == rest;
    } else {
      assert ([Store(got.off + (va - got.va), Le(value, 8))] + rest)[1..] == rest;
    }
  }

  method StoreSlots(buf: array<byte>, got: OutSec, writes: seq<(nat, u64)>)
    modifies buf
    ensures buf[..] == PutAll(old(buf[..]), TlsStores(got, writes))
  {
    hide Put, PutAll, TlsStores, Le;
    ghost var was := buf[..];
    for k := 0 to |writes|
      invariant PutAll(was, TlsStores(got, writes)) == PutAll(buf[..], TlsStores(got, writes[k..]))
    {
      assert writes[k..][1..] == writes[k + 1..] && writes[k..][0] == writes[k];
      NextSlot(buf[..], got, writes[k..]);
      var (va, value) := writes[k];
      if va < got.va || va + 8 > got.va + got.size { continue; }
      PutAt(buf, Store(got.off + (va - got.va), Le(value, 8)));
    }
    NoSlots(buf[..], got, writes[|writes|..]);
  }

  lemma {:induction false} NoSlots(img: seq<byte>, got: OutSec, writes: seq<(nat, u64)>)
    requires |writes| == 0
    ensures PutAll(img, TlsStores(got, writes)) == img
  {
  }

  method EhFrameHdrInPlace(buf: array<byte>, l: Layout)
    modifies buf
    ensures buf[..] == WriteEhFrameHdr(old(buf[..]), l)
  {
    hide FindSource, FindName, Put, HdrBytes;
    var hdr, eh := FindSource(l.sections, EhFrameHdr), FindName(l.sections, ".eh_frame");
    if hdr.None? || eh.None? || eh.value.End() > buf.Length { return; }
    var bytes := buf[eh.value.off..eh.value.End()];
    assert bytes == EhBytes(buf[..], eh.value);
    var out := BuildHdr(eh.value.va, hdr.value.va, bytes);
    PutAt(buf, Store(hdr.value.off, out[..Min(|out|, hdr.value.size)]));
  }

  method BuildIdInPlace(buf: array<byte>, l: Layout)
    modifies buf
    ensures buf[..] == FinalizeBuildId(old(buf[..]), l)
  {
    hide FindSource, Splice;
    match DescriptorOffset(l)
    case None =>
    case Some(d) =>
      if d + 16 > buf.Length { return; }
      StoreAt(buf, d, Zeros(16));
      var digest := l.digest(buf[..]);
      StoreAt(buf, d, digest);
  }

  /** What `emit_with_filter` leaves in the buffer when it reports no error. */
  function Emitted(job: Job, base: seq<byte>, l: Layout, f: Filter): seq<byte>
    requires job.Valid(|base|)
  {
    if f.All? then FullImage(job, base, l) else MinimalImage(job, base, l)
  }

  predicate Emits(l: Layout, objects: seq<InputObject>, lookup: Lookup, f: Filter, n: nat) {
    var job := WorkOf(l, objects, lookup, f);
    Acceptable(job.items, n) && AllOk(job, |job.items|)
  }

  /** The whole emit: headers and synthetic sections (full mode only), input sections, TLS GOT,
      `.eh_frame_hdr`, section headers, build id. It fails exactly when a range is refused or a
      relocation fails, and then the image is only partly written. */
  method EmitWithFilter(buf: array<byte>, l: Layout, objects: seq<InputObject>, lookup: Lookup, f: Filter)
    returns (ok: bool)
    requires buf.Length < TWO63
    modifies buf
    ensures ok <==> Emits(l, objects, lookup, f, buf.Length)
    ensures ok ==> buf[..] == Emitted(WorkOf(l, objects, lookup, f), old(buf[..]), l, f)
  {
    hide PutAll, WriteSections, WriteEhFrameHdr, WriteTlsGot, FinalizeBuildId, SerialImage, CollectInputWorkItems,
         Acceptable, AllOk;
    var job := WorkOf(l, objects, lookup, f);
    if f.All? {
      PutEach(buf, l.headers);
      WriteEachSection(buf, l.sections);
    }
    var v := ValidateWorkItemRanges(job.items, buf.Length);
    if v.Refused? { return false; }
    var done: nat;
    ok, done := DispatchSerial(buf, job);
    if !ok {
      FailureIsFailure(job, done);
      return;
    }
    if f.All? { TlsGotInPlace(buf, l); }
    EhFrameHdrInPlace(buf, l);
    if f.All? { PutEach(buf, l.sectionHeaders); }
    BuildIdInPlace(buf, l);
  }

  lemma {:induction false} FailureIsFailure(job: Job, n: nat)
    requires n <= |job.items| && FirstFailure(job, n)
    ensures !AllOk(job, |job.items|)
  {
    hide ItemOk;
  }
}
