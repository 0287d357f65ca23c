/** Dispatch of accepted work items: the serial loop, and worker threads that take batches in any order
    and interleave section copies and relocations arbitrarily
    (`peony-emit/src/input_sections.rs:106-264`). */
module Dispatch {
  import opened Bytes
  import opened Reloc
  import opened Objects
  import opened InputWork

  /** `batch` items run in order on one worker and stop at the first error; 256 in the parallel path,
      the whole list in the serial one. */
  datatype Job = Job(lookup: Lookup, items: seq<WorkItem>, batch: nat)
  {
    predicate Valid(bufLen: nat) {
      batch > 0 && bufLen < TWO63 && Acceptable(items, bufLen)
    }

    function BatchStart(i: nat): nat
      requires batch > 0
    {
      i - i % batch
    }
  }

  /** `Did(k, ok)`: the bytes were copied and `k` relocations applied, the last one successfully or not. */
  datatype Progress = Idle | Did(k: nat, ok: bool)

  datatype State = State(img: seq<byte>, prog: seq<Progress>)

  predicate Finished(item: WorkItem, p: Progress) { p == Did(|item.isec.relocs|, true) }

  predicate Failed(p: Progress) { p.Did? && !p.ok }

  predicate Shaped(job: Job, s: State, bufLen: nat) {
    |s.img| == bufLen && |s.prog| == |job.items|
  }

  /** A worker reaches item `i` when the items before it in the batch are finished. */
  predicate MayStart(job: Job, s: State, i: nat)
    requires job.batch > 0 && |s.prog| == |job.items| && i < |job.items|
  {
    forall j | job.BatchStart(i) <= j < i :: Finished(job.items[j], s.prog[j])
  }

  predicate Enabled(job: Job, s: State, i: nat)
    requires job.batch > 0 && |s.prog| == |job.items| && i < |job.items|
  {
    match s.prog[i]
    case Idle => MayStart(job, s, i)
    case Did(k, ok) => ok && k < |job.items[i].isec.relocs|
  }

  /** One atomic step of the worker that holds item `i`: the copy, or one relocation, on the shared image. */
  function Next(job: Job, s: State, i: nat): (t: State)
    requires job.Valid(|s.img|) && |s.prog| == |job.items| && i < |job.items| && Enabled(job, s, i)
  {
    var item := job.items[i];
    assert Contained(item, |s.img|);
    match s.prog[i]
    case Idle =>
      if item.Len() == 0 then State(s.img, s.prog[i := Did(|item.isec.relocs|, true)])
      else State(Splice(s.img, item.fileOff, item.isec.data), s.prog[i := Did(0, true)])
    case Did(k, _) =>
      if item.Len() == 0 then State(s.img, s.prog[i := Did(k + 1, true)])
      else
        var sec := s.img[item.fileOff..item.End()];
        var r := ApplyReloc(job.lookup, item, item.isec.relocs[k], sec);
        State(Splice(s.img, item.fileOff, r.bytes), s.prog[i := Did(k + 1, r.ok)])
  }

  function Init(job: Job, base: seq<byte>): State {
    State(base, seq(|job.items|, i => Idle))
  }

  /** The state after the workers take their steps in the order `schedule` lists. */
  function Run(job: Job, base: seq<byte>, schedule: seq<nat>): (s: Option<State>)
    requires job.Valid(|base|)
    ensures s.Some? ==> Shaped(job, s.value, |base|)
  {
    if schedule == [] then Some(Init(job, base))
    else
      var n := |schedule| - 1;
      match Run(job, base, schedule[..n])
      case None => None
      case Some(s) =>
        if schedule[n] < |job.items| && Enabled(job, s, schedule[n]) then Some(Next(job, s, schedule[n])) else None
  }

  /** No worker can go on: every batch has reached its end or an error. */
  predicate Quiescent(job: Job, s: State)
    requires job.batch > 0 && |s.prog| == |job.items|
  {
    forall i | 0 <= i < |job.items| :: !Enabled(job, s, i)
  }

  predicate Covers(item: WorkItem, x: int) { item.fileOff <= x < item.End() }

  lemma {:induction false} ItemContained(job: Job, bufLen: nat, i: nat)
    requires job.Valid(bufLen) && i < |job.items|
    ensures Contained(job.items[i], bufLen)
  {
  }

  /** What item `i`'s window holds at its current progress, whatever the other workers did. */
  predicate WindowOk(job: Job, base: seq<byte>, s: State, i: nat)
    requires job.Valid(|base|) && Shaped(job, s, |base|) && i < |job.items|
  {
    var item := job.items[i];
    match s.prog[i]
    case Idle => item.Len() > 0 ==>
        item.End() <= |base| && s.img[item.fileOff..item.End()] == base[item.fileOff..item.End()]
    case Did(k, ok) =>
      && k <= |item.isec.relocs|
      && (item.Len() == 0 ==> ok && k == |item.isec.relocs|)
      && (item.Len() > 0 ==>
           Contained(item, |base|) && Stage(job.lookup, item, k) == Section(s.img[item.fileOff..item.End()], ok))
  }

  predicate Inv(job: Job, base: seq<byte>, s: State)
    requires job.Valid(|base|) && Shaped(job, s, |base|)
  {
    && (forall i | 0 <= i < |job.items| :: WindowOk(job, base, s, i))
    && (forall x | 0 <= x < |base|
       && (forall i | 0 <= i < |job.items| :: !Covers(job.items[i], x)) :: s.img[x] == base[x])
  }

  lemma {:induction false} InitInv(job: Job, base: seq<byte>)
    requires job.Valid(|base|)
    ensures Inv(job, base, Init(job, base))
  {
    forall i | 0 <= i < |job.items| ensures WindowOk(job, base, Init(job, base), i) {
      assert Contained(job.items[i], |base|);
    }
  }

  /** A step of item `i` leaves the window of item `j` alone. */
  lemma {:induction false} OtherWindow(job: Job, s: State, i: nat, j: nat)
    requires job.Valid(|s.img|) && |s.prog| == |job.items| && i < |job.items| && j < |job.items| && i != j
    requires Enabled(job, s, i) && job.items[j].Len() > 0
    ensures job.items[j].End() <= |s.img| == |Next(job, s, i).img|
    ensures Next(job, s, i).img[job.items[j].fileOff..job.items[j].End()]
            == s.img[job.items[j].fileOff..job.items[j].End()]
  {
    hide ApplyReloc, Splice;
    var a, b := job.items[i], job.items[j];
    assert Contained(a, |s.img|) && Contained(b, |s.img|);
    assert Apart(a, b) by { if i < j { assert Apart(a, b); } else { assert Apart(b, a); } }
  }

  lemma {:induction false} OwnWindow(job: Job, base: seq<byte>, s: State, i: nat)
    requires job.Valid(|base|) && Shaped(job, s, |base|) && i < |job.items| && Enabled(job, s, i)
    requires WindowOk(job, base, s, i)
    ensures WindowOk(job, base, Next(job, s, i), i)
  {
    var item := job.items[i];
    assert Contained(item, |base|);
  }

  lemma {:induction false} StepInv(job: Job, base: seq<byte>, s: State, i: nat)
    requires job.Valid(|base|) && Shaped(job, s, |base|) && i < |job.items| && Enabled(job, s, i)
    requires Inv(job, base, s)
    ensures Inv(job, base, Next(job, s, i))
  {
    hide Stage, ApplyReloc, Splice;
    var t := Next(job, s, i);
    OwnWindow(job, base, s, i);
    forall j | 0 <= j < |job.items|
      ensures WindowOk(job, base, t, j)
    {
      assert WindowOk(job, base, s, j);
      if j != i && job.items[j].Len() > 0 { OtherWindow(job, s, i, j); }
    }
    forall x | 0 <= x < |base| && (forall j | 0 <= j < |job.items| :: !Covers(job.items[j], x))
      ensures t.img[x] == base[x]
    {
      assert !Covers(job.items[i], x);
    }
  }

  lemma {:induction false} RunInv(job: Job, base: seq<byte>, schedule: seq<nat>)
    requires job.Valid(|base|)
    ensures Run(job, base, schedule).Some? ==> Inv(job, base, Run(job, base, schedule).value)
  {
    if schedule == [] {
      InitInv(job, base);
    } else {
      var n := |schedule| - 1;
      RunInv(job, base, schedule[..n]);
      if Run(job, base, schedule).Some? {
        StepInv(job, base, Run(job, base, schedule[..n]).value, schedule[n]);
      }
    }
  }

  // ── The serial loop's image ──────────────────────────────────────────────

  predicate ItemOk(lookup: Lookup, item: WorkItem) {
    item.Len() < TWO63 ==> ItemBytes(lookup, item).ok
  }

  /** The image after one whole item. */
  function AfterItem(lookup: Lookup, item: WorkItem, img: seq<byte>): (r: seq<byte>)
    requires |img| < TWO63 && Contained(item, |img|)
    ensures |r| == |img|
  {
    if item.Len() == 0 then img else Splice(img, item.fileOff, ItemBytes(lookup, item).bytes)
  }

  function SerialImage(job: Job, base: seq<byte>, n: nat): (img: seq<byte>)
    requires job.Valid(|base|) && n <= |job.items|
    ensures |img| == |base|
  {
    if n == 0 then base
    else
      assert Contained(job.items[n - 1], |base|);
      AfterItem(job.lookup, job.items[n - 1], SerialImage(job, base, n - 1))
  }

  lemma {:induction false} SerialInside(job: Job, base: seq<byte>, n: nat, i: nat)
    requires job.Valid(|base|) && i < n <= |job.items| && job.items[i].Len() > 0
    ensures job.items[i].End() <= |base|
    ensures SerialImage(job, base, n)[job.items[i].fileOff..job.items[i].End()]
            == ItemBytes(job.lookup, job.items[i]).bytes
  {
    hide ItemBytes, Splice;
    assert Contained(job.items[i], |base|) && Contained(job.items[n - 1], |base|);
    if i < n - 1 {
      SerialInside(job, base, n - 1, i);
      assert Apart(job.items[i], job.items[n - 1]);
    }
  }

  lemma {:induction false} SerialOutside(job: Job, base: seq<byte>, n: nat, x: nat)
    requires job.Valid(|base|) && n <= |job.items| && x < |base|
    requires forall i | 0 <= i < n :: !Covers(job.items[i], x)
    ensures SerialImage(job, base, n)[x] == base[x]
  {
    if n > 0 {
      assert Contained(job.items[n - 1], |base|);
      SerialOutside(job, base, n - 1, x);
    }
  }

  lemma {:induction false} FailureSticks(lookup: Lookup, item: WorkItem, k: nat, n: nat)
    requires item.Len() < TWO63 && k <= n <= |item.isec.relocs| && !Stage(lookup, item, k).ok
    ensures Stage(lookup, item, n) == Stage(lookup, item, k)
    decreases n - k
  {
    if k < n { FailureSticks(lookup, item, k + 1, n); }
  }

  /** With no failure, a quiescent dispatch has finished every item. */
  lemma {:induction false} AllFinished(job: Job, s: State, i: nat)
    requires job.batch > 0 && |s.prog| == |job.items| && i < |job.items|
    requires Quiescent(job, s) && forall j | 0 <= j < |job.items| :: !Failed(s.prog[j])
    requires forall j | 0 <= j < |job.items| :: s.prog[j].Did? ==> s.prog[j].k <= |job.items[j].isec.relocs|
    ensures Finished(job.items[i], s.prog[i])
  {
    assert !Enabled(job, s, i);
    if s.prog[i].Idle? {
      forall j | job.BatchStart(i) <= j < i ensures Finished(job.items[j], s.prog[j]) { AllFinished(job, s, j); }
      assert MayStart(job, s, i);
      assert false;
    }
  }

  /** Every schedule of every batching gives the serial answer: a dispatch that ends without an error
      has written exactly the serial loop's image, and it ends with an error exactly when some item's
      relocations fail. */
  lemma {:induction false} EveryScheduleIsSerial(job: Job, base: seq<byte>, schedule: seq<nat>)
    requires job.Valid(|base|)
    requires Run(job, base, schedule).Some? && Quiescent(job, Run(job, base, schedule).value)
    ensures var s := Run(job, base, schedule).value;
            var n := |job.items|;
            && ((exists i | 0 <= i < n :: Failed(s.prog[i]))
                <==> (exists i | 0 <= i < n :: !ItemOk(job.lookup, job.items[i])))
            && ((forall i | 0 <= i < n :: !Failed(s.prog[i])) ==> s.img == SerialImage(job, base, n))
  {
    var s, n := Run(job, base, schedule).value, |job.items|;
    RunInv(job, base, schedule);
    forall i | 0 <= i < n
      ensures WindowOk(job, base, s, i)
      ensures s.prog[i].Did? ==> s.prog[i].k <= |job.items[i].isec.relocs|
      ensures Failed(s.prog[i]) ==> !ItemOk(job.lookup, job.items[i])
    {
      assert WindowOk(job, base, s, i) && Contained(job.items[i], |base|);
      if Failed(s.prog[i]) { FailureSticks(job.lookup, job.items[i], s.prog[i].k, |job.items[i].isec.relocs|); }
    }
    if forall i | 0 <= i < n :: !Failed(s.prog[i]) {
      forall i | 0 <= i < n ensures Finished(job.items[i], s.prog[i]) { AllFinished(job, s, i); }
      forall i | 0 <= i < n ensures ItemOk(job.lookup, job.items[i]) { assert Contained(job.items[i], |base|); }
      forall x | 0 <= x < |base|
        ensures s.img[x] == SerialImage(job, base, n)[x]
      {
        FinalByte(job, base, s, x);
      }
      SameImage(s.img, SerialImage(job, base, n));
    }
  }

  lemma {:induction false} FinalWindow(job: Job, base: seq<byte>, s: State, i: nat)
    requires job.Valid(|base|) && Shaped(job, s, |base|) && i < |job.items| && job.items[i].Len() > 0
    requires WindowOk(job, base, s, i) && Finished(job.items[i], s.prog[i])
    ensures job.items[i].End() <= |base|
    ensures s.img[job.items[i].fileOff..job.items[i].End()]
            == SerialImage(job, base, |job.items|)[job.items[i].fileOff..job.items[i].End()]
  {
    SerialInside(job, base, |job.items|, i);
  }

  lemma {:induction false} FinalByte(job: Job, base: seq<byte>, s: State, x: nat)
    requires job.Valid(|base|) && Shaped(job, s, |base|) && Inv(job, base, s) && x < |base|
    requires forall i | 0 <= i < |job.items| :: Finished(job.items[i], s.prog[i])
    ensures s.img[x] == SerialImage(job, base, |job.items|)[x]
  {
    hide Stage, ApplyReloc, Patched, SerialImage, ItemBytes;
    if i :| 0 <= i < |job.items| && Covers(job.items[i], x) {
      FinalWindow(job, base, s, i);
      var serial, lo, hi := SerialImage(job, base, |job.items|), job.items[i].fileOff, job.items[i].End();
      assert s.img[lo..hi][x - lo] == serial[lo..hi][x - lo];
    } else {
      SerialOutside(job, base, |job.items|, x);
    }
  }

  // ── The serial loop in place ─────────────────────────────────────────────

  /** `process_item`: copies the section and applies its relocations inside the item's own range; on an
      error the range holds what was applied so far. */
  method ProcessItem(buf: array<byte>, lookup: Lookup, item: WorkItem) returns (ok: bool)
    requires buf.Length < TWO63 && Contained(item, buf.Length)
    modifies buf
    ensures ok == ItemOk(lookup, item)
    ensures buf[..] == AfterItem(lookup, item, old(buf[..]))
  {
    if item.Len() == 0 { return true; }
    ghost var was, n := buf[..], |item.isec.relocs|;
    StoreAt(buf, item.fileOff, item.isec.data);
    for k := 0 to |item.isec.relocs|
      invariant Stage(lookup, item, k).ok
      invariant buf[..] == Splice(was, item.fileOff, Stage(lookup, item, k).bytes)
    {
      ghost var sec := Stage(lookup, item, k).bytes;
      assert buf[item.fileOff..item.End()] == buf[..][item.fileOff..item.End()] == sec;
      ok := ApplyInPlace(buf, lookup, item, item.isec.relocs[k]);
      SpliceTwice(was, item.fileOff, sec, Stage(lookup, item, k + 1).bytes);
      if !ok {
        FailureSticks(lookup, item, k + 1, n);
        return;
      }
    }
    ok := true;
  }

  method ApplyInPlace(buf: array<byte>, lookup: Lookup, item: WorkItem, r: InputReloc) returns (ok: bool)
    requires item.End() <= buf.Length < TWO63
    modifies buf
    ensures var sec := old(buf[item.fileOff..item.End()]);
            var s := ApplyReloc(lookup, item, r, sec);
            ok == s.ok && |s.bytes| == item.Len() && buf[..] == Splice(old(buf[..]), item.fileOff, s.bytes)
  {
    SpliceSelf(buf[..], item.fileOff, item.Len());
    match lookup(item.objId, r, item.sectionVa)
    case Skip => ok := true;
    case Undefined => ok := false;
    case Apply(addrs) =>
      var outcome := PatchBuf(buf, item.fileOff, item.Len(), r.rType, addrs.(offset := r.offset));
      ok := outcome.Done?;
  }

  predicate AllOk(job: Job, n: nat)
    requires n <= |job.items|
  {
    forall i | 0 <= i < n :: ItemOk(job.lookup, job.items[i])
  }

  predicate FirstFailure(job: Job, n: nat)
    requires n <= |job.items|
  {
    n > 0 && AllOk(job, n - 1) && !ItemOk(job.lookup, job.items[n - 1])
  }

  lemma {:induction false} NothingDone(job: Job, base: seq<byte>)
    requires job.Valid(|base|)
    ensures SerialImage(job, base, 0) == base && AllOk(job, 0)
  {
  }

  lemma {:induction false} OneMore(job: Job, base: seq<byte>, n: nat)
    requires job.Valid(|base|) && n < |job.items|
    ensures Contained(job.items[n], |base|)
    ensures SerialImage(job, base, n + 1) == AfterItem(job.lookup, job.items[n], SerialImage(job, base, n))
    ensures AllOk(job, n + 1) <==> AllOk(job, n) && ItemOk(job.lookup, job.items[n])
  {
    hide ItemOk, AfterItem;
    ItemContained(job, |base|, n);
    assert AllOk(job, n + 1) ==> AllOk(job, n);
  }

  /** The serial dispatch loop: it processes items in order up to the first failing one. */
  method DispatchSerial(buf: array<byte>, job: Job) returns (ok: bool, done: nat)
    requires job.Valid(buf.Length)
    modifies buf
    ensures done <= |job.items| && buf[..] == SerialImage(job, old(buf[..]), done)
    ensures if ok then done == |job.items| && AllOk(job, done) else FirstFailure(job, done)
  {
    ghost var was := buf[..];
    ok, done := true, 0;
    hide ItemOk, AfterItem, Acceptable, SerialImage, AllOk;
    NothingDone(job, was);
    while ok && done < |job.items|
      invariant done <= |job.items| && buf[..] == SerialImage(job, was, done)
      invariant if ok then AllOk(job, done) else FirstFailure(job, done)
    {
      OneMore(job, was, done);
      ok := ProcessItem(buf, job.lookup, job.items[done]);
      done := done + 1;
    }
  }
}
