/** Input-section work items: range validation, per-item copy and relocation, and dispatch
    (`peony-emit/src/input_work/ranges.rs`, `peony-emit/src/input_sections.rs`). */
module InputWork {
  import opened Bytes
  import opened Reloc
  import opened Objects

  /** What the symbol lookup decides for one relocation: nothing to do, the addresses to patch with,
      or an undefined symbol. */
  datatype Action = Skip | Apply(addrs: Addrs) | Undefined

  type Lookup = (nat, InputReloc, u64) -> Action

  datatype WorkItem = WorkItem(fileOff: nat, sectionVa: u64, objId: nat, isec: InputSection)
  {
    function Len(): nat { |isec.data| }

    function End(): nat { fileOff + Len() }
  }

  // ── One item ─────────────────────────────────────────────────────────────

  datatype Section = Section(bytes: seq<byte>, ok: bool)

  function ApplyReloc(lookup: Lookup, item: WorkItem, r: InputReloc, sec: seq<byte>): (s: Section)
    requires |sec| < TWO63
    ensures |s.bytes| == |sec|
  {
    match lookup(item.objId, r, item.sectionVa)
    case Skip => Section(sec, true)
    case Undefined => Section(sec, false)
    case Apply(addrs) =>
      PatchStaysInFootprint(sec, r.rType, addrs.(offset := r.offset));
      var p := Patched(sec, r.rType, addrs.(offset := r.offset));
      Section(p.bytes, p.outcome.Done?)
  }

  /** The section's bytes after the copy and the first `k` relocations; a failure stops it. */
  function Stage(lookup: Lookup, item: WorkItem, k: nat): (s: Section)
    requires item.Len() < TWO63 && k <= |item.isec.relocs|
    ensures |s.bytes| == item.Len()
  {
    if k == 0 then Section(item.isec.data, true)
    else
      var s := Stage(lookup, item, k - 1);
      if !s.ok then s else ApplyReloc(lookup, item, item.isec.relocs[k - 1], s.bytes)
  }

  /** The finished bytes of an item; an item without bytes applies no relocation. */
  function ItemBytes(lookup: Lookup, item: WorkItem): (s: Section)
    requires item.Len() < TWO63
    ensures |s.bytes| == item.Len()
  {
    if item.Len() == 0 then Section([], true) else Stage(lookup, item, |item.isec.relocs|)
  }

  // ── Range validation ─────────────────────────────────────────────────────

  datatype Range = Range(item: nat, start: nat, end: nat)

  datatype Refusal =
    | OutOfBounds(item: nat)
    | RelocationBeforeSection(item: nat, reloc: nat)
    | RelocationOutOfBounds(item: nat, reloc: nat)
    | Overlap(first: nat, second: nat)

  datatype Validation = Accepted(ranges: seq<Option<Range>>) | Refused(reason: Refusal)

  predicate RelocFits(r: InputReloc, len: nat) {
    match RelocationFootprint(r.rType, r.offset)
    case NoBytes => true
    case BeforeSection(_) => false
    case Span(start, n) => start + n <= len
  }

  predicate Contained(item: WorkItem, bufLen: nat) {
    item.Len() > 0 ==>
      item.End() <= bufLen && forall r | r in item.isec.relocs :: RelocFits(r, item.Len())
  }

  predicate Apart(a: WorkItem, b: WorkItem) {
    a.Len() == 0 || b.Len() == 0 || a.End() <= b.fileOff || b.End() <= a.fileOff
  }

  /** What validation promises: in bounds, relocations inside their section, pairwise disjoint. */
  predicate Acceptable(items: seq<WorkItem>, bufLen: nat) {
    && (forall i | 0 <= i < |items| :: Contained(items[i], bufLen))
    && (forall i, j | 0 <= i < j < |items| :: Apart(items[i], items[j]))
  }

  predicate Before(a: Range, b: Range) {
    a.start < b.start || (a.start == b.start && (a.end < b.end || (a.end == b.end && a.item < b.item)))
  }

  predicate SortedRanges(s: seq<Range>) {
    forall i, j | 0 <= i < j < |s| :: Before(s[i], s[j])
  }

  function Insert(r: Range, s: seq<Range>): (t: seq<Range>)
    requires SortedRanges(s) && r !in s
    ensures SortedRanges(t) && forall x :: x in t <==> x == r || x in s
  {
    if s == [] then [r]
    else if Before(r, s[0]) then [r] + s
    else
      var rest := Insert(r, s[1..]);
      assert forall x | x in rest :: Before(s[0], x);
      var t := [s[0]] + rest;
      assert forall x | x in s :: x == s[0] || x in s[1..];
      assert forall j | 0 < j < |t| :: t[j] in rest;
      t
  }

  predicate Distinct(s: seq<Range>) {
    forall i, j | 0 <= i < j < |s| :: s[i] != s[j]
  }

  /** `sort_unstable_by_key(start, end, item)`. */
  function Sort(s: seq<Range>): (t: seq<Range>)
    requires Distinct(s)
    ensures SortedRanges(t) && forall x :: x in t <==> x in s
  {
    if s == [] then []
    else
      assert s[0] !in s[1..];
      var t := Insert(s[0], Sort(s[1..]));
      assert forall x | x in s :: x == s[0] || x in s[1..];
      t
  }

  function RangeOf(items: seq<WorkItem>, i: nat): Range
    requires i < |items|
  {
    Range(i, items[i].fileOff, items[i].End())
  }

  /** The ranges of the first `n` items that have bytes. */
  function RangesUpTo(items: seq<WorkItem>, n: nat): (s: seq<Range>)
    requires n <= |items|
    ensures Distinct(s)
    ensures forall r :: r in s <==> r.item < n && items[r.item].Len() > 0 && r == RangeOf(items, r.item)
  {
    if n == 0 then []
    else RangesUpTo(items, n - 1) + (if items[n - 1].Len() == 0 then [] else [RangeOf(items, n - 1)])
  }

  predicate NeighboursApart(s: seq<Range>, n: nat) {
    forall k | 0 < k < n && k < |s| :: s[k - 1].end <= s[k].start
  }

  /** Nonempty sorted ranges whose neighbours do not overlap are pairwise apart. */
  lemma {:induction false} NeighboursSuffice(s: seq<Range>, i: nat, j: nat)
    requires i < j < |s| && NeighboursApart(s, |s|)
    requires forall r | r in s :: r.start < r.end
    ensures s[i].end <= s[j].start
    decreases j - i
  {
    assert s[j - 1].end <= s[j].start;
    if i + 1 < j {
      NeighboursSuffice(s, i, j - 1);
      assert s[j - 1] in s;
    }
  }

  lemma {:induction false} NeighboursApartImplyItems(items: seq<WorkItem>, s: seq<Range>, i: nat, j: nat)
    requires forall r :: r in s <==> r.item < |items| && items[r.item].Len() > 0 && r == RangeOf(items, r.item)
    requires NeighboursApart(s, |s|) && i < j < |items|
    ensures Apart(items[i], items[j])
  {
    if items[i].Len() > 0 && items[j].Len() > 0 {
      var x, y := RangeOf(items, i), RangeOf(items, j);
      assert x in s && y in s;
      var a :| 0 <= a < |s| && s[a] == x;
      var b :| 0 <= b < |s| && s[b] == y;
      if a < b { NeighboursSuffice(s, a, b); } else { NeighboursSuffice(s, b, a); }
    }
  }

  lemma {:induction false} ItemsApartImplyNeighbours(items: seq<WorkItem>, s: seq<Range>, k: nat)
    requires s == Sort(RangesUpTo(items, |items|)) && 0 < k < |s|
    requires forall i, j | 0 <= i < j < |items| :: Apart(items[i], items[j])
    ensures s[k - 1].end <= s[k].start
  {
    assert s[k - 1] in s && s[k] in s && Before(s[k - 1], s[k]);
    var i, j := s[k - 1].item, s[k].item;
    assert i != j;
    if i < j { assert Apart(items[i], items[j]); } else { assert Apart(items[j], items[i]); }
  }

  /** Disjoint neighbours in the sorted list are the same as pairwise disjoint items. */
  lemma {:induction false} SortedCheckIsPairwise(items: seq<WorkItem>)
    ensures var s := Sort(RangesUpTo(items, |items|));
            NeighboursApart(s, |s|) <==> (forall i, j | 0 <= i < j < |items| :: Apart(items[i], items[j]))
  {
    var s := Sort(RangesUpTo(items, |items|));
    if NeighboursApart(s, |s|) {
      forall i, j | 0 <= i < j < |items| ensures Apart(items[i],
          items[j]) { NeighboursApartImplyItems(items, s, i, j); }
    }
    if forall i, j | 0 <= i < j < |items| :: Apart(items[i], items[j]) {
      forall k | 0 < k < |s| ensures s[k - 1].end <= s[k].start { ItemsApartImplyNeighbours(items, s, k); }
    }
  }

  /** Every relocation footprint must lie inside the section's own bytes. */
  method CheckContainment(i: nat, item: WorkItem) returns (bad: Option<Refusal>)
    ensures bad.None? <==> forall r | r in item.isec.relocs :: RelocFits(r, item.Len())
  {
    hide RelocationFootprint;
    var relocs := item.isec.relocs;
    for k := 0 to |relocs|
      invariant forall j | 0 <= j < k :: RelocFits(relocs[j], item.Len())
    {
      match RelocationFootprint(relocs[k].rType, relocs[k].offset) {
        case NoBytes =>
        case BeforeSection(_) =>
          assert relocs[k] in relocs && !RelocFits(relocs[k], item.Len());
          return Some(RelocationBeforeSection(i, k));
        case Span(start, n) =>
          if start + n > item.Len() {
            assert relocs[k] in relocs && !RelocFits(relocs[k], item.Len());
            return Some(RelocationOutOfBounds(i, k));
          }
      }
    }
    return None;
  }

  function ItemRange(items: seq<WorkItem>, i: nat): Option<Range>
    requires i < |items|
  {
    if items[i].Len() == 0 then None else Some(RangeOf(items, i))
  }

  method CollectRanges(items: seq<WorkItem>, bufLen: nat)
    returns (bad: Option<Refusal>, itemRanges: seq<Option<Range>>, ranges: seq<Range>)
    ensures bad.None? <==> forall i | 0 <= i < |items| :: Contained(items[i], bufLen)
    ensures bad.None? ==> ranges == RangesUpTo(items, |items|) && |itemRanges| == |items|
    ensures bad.None? ==> forall i | 0 <= i < |items| :: itemRanges[i] == ItemRange(items, i)
  {
    hide RelocFits;
    itemRanges, ranges := [], [];
    for i := 0 to |items|
      invariant ranges == RangesUpTo(items, i) && |itemRanges| == i
      invariant forall j | 0 <= j < i :: Contained(items[j], bufLen)
      invariant forall j | 0 <= j < i :: itemRanges[j] == ItemRange(items, j)
    {
      var item := items[i];
      if item.Len() > 0 {
        if item.End() > bufLen {
          assert !Contained(items[i], bufLen);
          return Some(OutOfBounds(i)), itemRanges, ranges;
        }
        bad := CheckContainment(i, item);
        if bad.Some? {
          assert !Contained(items[i], bufLen);
          return;
        }
        ranges := ranges + [RangeOf(items, i)];
      }
      itemRanges := itemRanges + [ItemRange(items, i)];
    }
    bad := None;
  }

  /** Accepts exactly the acceptable work lists, before any byte is written. */
  method ValidateWorkItemRanges(items: seq<WorkItem>, bufLen: nat) returns (v: Validation)
    ensures v.Accepted? <==> Acceptable(items, bufLen)
    ensures v.Accepted? ==> |v.ranges| == |items| && forall i | 0 <= i < |items| :: v.ranges[i] == ItemRange(items, i)
  {
    var bad, itemRanges, ranges := CollectRanges(items, bufLen);
    if bad.Some? { return Refused(bad.value); }
    var clash := FirstClash(Sort(ranges));
    SortedCheckIsPairwise(items);
    if clash.Some? { return Refused(clash.value); }
    return Accepted(itemRanges);
  }

  method FirstClash(sorted: seq<Range>) returns (bad: Option<Refusal>)
    ensures bad.None? <==> NeighboursApart(sorted, |sorted|)
  {
    var k := 1;
    while k < |sorted|
      invariant NeighboursApart(sorted, k)
    {
      if sorted[k].start < sorted[k - 1].end {
        return Some(Overlap(sorted[k - 1].item, sorted[k].item));
      }
      k := k + 1;
    }
    return None;
  }
}
