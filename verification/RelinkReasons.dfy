/** Why a section cannot be patched in place, record by record (`peony-cache/src/lib.rs:764-839`). */
module RelinkReasons {
  import opened Bytes
  import opened RelinkPlan

  /** The record that counts for a name: the last one. */
  predicate LastRecord(cached: seq<SectionRecord>, n: string, i: nat) {
    i < |cached| && cached[i].name == n && forall j | i < j < |cached| :: cached[j].name != n
  }

  lemma {:induction false} RecordFound(cached: seq<SectionRecord>, n: string, i: nat)
    requires LastRecord(cached, n, i)
    ensures n in Previous(cached) && Previous(cached)[n] == cached[i]
    decreases |cached|
  {
    var last, front := |cached| - 1, cached[..|cached| - 1];
    if i < last {
      assert cached[last].name != n && forall j | i < j < last :: front[j] == cached[j];
      RecordFound(front, n, i);
    }
  }

  lemma {:induction false} RecordThere(cached: seq<SectionRecord>, n: string) returns (i: nat)
    requires exists r :: r in cached && r.name == n
    ensures LastRecord(cached, n, i)
    decreases |cached|
  {
    var last, front := |cached| - 1, cached[..|cached| - 1];
    if cached[last].name == n { return last; }
    var r :| r in cached && r.name == n;
    assert r in front;
    i := RecordThere(front, n);
    assert forall j | 0 <= j < last :: front[j] == cached[j];
  }

  lemma {:induction false} PreviousExactly(cached: seq<SectionRecord>, n: string)
    ensures n in Previous(cached) <==> exists i: nat :: LastRecord(cached, n, i)
    ensures forall i: nat | LastRecord(cached, n, i) :: n in Previous(cached) && Previous(cached)[n] == cached[i]
  {
    AnyRecord(cached, n);
    hide Previous;
    if n in Previous(cached) { var i := RecordThere(cached, n); }
    forall i: nat | LastRecord(cached, n, i) ensures n in Previous(cached) && Previous(cached)[n] == cached[i] {
      RecordFound(cached, n, i);
    }
  }

  /** The section has the place, the address and the size of its record, within the record's capacity. */
  ghost predicate Stays(cached: seq<SectionRecord>, c: PatchSection) {
    exists i: nat :: LastRecord(cached, c.name, i) && SamePlace(cached[i], c)
                     && c.size == cached[i].size && c.size <= cached[i].capacity
  }

  predicate SamePlace(r: SectionRecord, c: PatchSection) { r.fileOffset == c.fileOffset && r.va == c.va }

  /** What is wrong with it, the file offset before the address, the address before the size. */
  ghost predicate Misplaced(cached: seq<SectionRecord>, c: PatchSection, reason: Fallback) {
    match reason
    case MissingSectionMetadata => false
    case MissingPreviousSection(n) => n == c.name && forall r | r in cached :: r.name != n
    case FileOffsetChanged(n) =>
      n == c.name && exists i: nat :: LastRecord(cached, n, i) && cached[i].fileOffset != c.fileOffset
    case VirtualAddressChanged(n) =>
      n == c.name && exists i: nat :: LastRecord(cached, n, i) && cached[i].fileOffset == c.fileOffset
                                      && cached[i].va != c.va
    case CapacityExceeded(n) =>
      n == c.name && exists i: nat :: LastRecord(cached, n, i) && SamePlace(cached[i], c) && c.size > cached[i].capacity
    case SizeChanged(n) =>
      n == c.name && exists i: nat :: LastRecord(cached, n, i) && SamePlace(cached[i], c)
                                      && c.size <= cached[i].capacity && c.size != cached[i].size
  }

  lemma {:induction false} AnyRecord(cached: seq<SectionRecord>, n: string)
    ensures n in Previous(cached) <==> exists r :: r in cached && r.name == n
  {
    hide Previous;
    if n in Previous(cached) { assert Previous(cached)[n] in cached; }
  }

  lemma {:induction false} CheckExactly(cached: seq<SectionRecord>, c: PatchSection)
    ensures forall reason :: Check(Previous(cached), c) == Some(reason) <==> Misplaced(cached, c, reason)
    ensures InPlace(Previous(cached), c) <==> Stays(cached, c)
  {
    PreviousExactly(cached, c.name);
    AnyRecord(cached, c.name);
    hide Previous, LastRecord;
  }

  /** A rejected plan names the first section that cannot stay, and the first thing that is wrong with it. */
  lemma {:induction false} ReasonExactly(cached: seq<SectionRecord>, current: seq<PatchSection>, k: nat,
          reason: Fallback)
    ensures FirstMisplaced(Previous(cached), current, k, reason)
            <==> && k < |current| && Misplaced(cached, current[k], reason)
                 && forall i | 0 <= i < k :: Stays(cached, current[i])
  {
    hide Previous, Check, InPlace, Misplaced, Stays;
    forall i | 0 <= i < |current| ensures InPlace(Previous(cached), current[i]) <==> Stays(cached, current[i]) {
      CheckExactly(cached, current[i]);
    }
    if k < |current| { CheckExactly(cached, current[k]); }
  }
}
