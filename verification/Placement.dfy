/** Addresses and file offsets of the output sections, segment by segment, and the span of
    `PT_GNU_RELRO` (`peony-layout/src/lib.rs:1923-2067`, `2138-2454`, `3002-3058`, `3175-3238`). */
module Placement {
  import opened Objects
  import opened Grouping

  datatype Sec = Sec(
    name: Name, flags: set<Flag>, addr: nat, offset: nat, size: nat, align: nat, nobits: bool,
        contributions: seq<Contribution>)

  type Key = (nat, nat)

  function KeyOf(c: Contribution): Key { (c.objectId, c.sectionIndex) }

  // ── One list of builders ─────────────────────────────────────────────────

  /** The next free address after placing `bs` from `va` on. */
  function EndVa(bs: seq<Builder>, va: nat): (end: nat)
    ensures end >= va
    decreases |bs|
  {
    if bs == [] then va
    else
      var b := bs[|bs| - 1];
      AlignUpAny(EndVa(bs[..|bs| - 1], va), b.align);
      AlignUp(EndVa(bs[..|bs| - 1], va), b.align) + b.size
  }

  function SecOf(b: Builder, addr: nat, base: nat): Sec
    requires base <= addr
  {
    Sec(b.name, b.flags, addr, addr - base, b.size, b.align, b.nobits, b.contributions)
  }

  function PlacedFrom(bs: seq<Builder>, va: nat, base: nat): (secs: seq<Sec>)
    requires base <= va
    ensures |secs| == |bs|
    decreases |bs|
  {
    if bs == [] then []
    else
      var b := bs[|bs| - 1];
      var addr := AlignUp(EndVa(bs[..|bs| - 1], va), b.align);
      AlignUpAny(EndVa(bs[..|bs| - 1], va), b.align);
      PlacedFrom(bs[..|bs| - 1], va, base) + [SecOf(b, addr, base)]
  }

  /** Every address comes from a contribution, and every contribution has an address. */
  ghost predicate Addressed(secs: seq<Sec>, addresses: map<Key, nat>, secToOut: map<Key, nat>) {
    && addresses.Keys == secToOut.Keys
    && (forall k, i | 0 <= k < |secs|
       && 0 <= i < |secs[k].contributions| :: KeyOf(secs[k].contributions[i]) in addresses)
    && (forall key | key in addresses :: exists k, i :: AddressFrom(secs, k, i, key, addresses[key], secToOut[key]))
  }

  predicate AddressFrom(secs: seq<Sec>, k: int, i: int, key: Key, addr: nat, out: nat) {
    && 0 <= k < |secs| && 0 <= i < |secs[k].contributions| && KeyOf(secs[k].contributions[i]) == key
    && addr == secs[k].addr + secs[k].contributions[i].offset && out == k
  }

  /** `Addressed` while the first `n` contributions of the last section are entered. */
  ghost predicate Entering(secs: seq<Sec>, last: Sec, n: nat, addresses: map<Key, nat>, secToOut: map<Key, nat>) {
    n <= |last.contributions| && Addressed(secs + [last.(contributions := last.contributions[..n])], addresses,
        secToOut)
  }

  lemma {:induction false} EnterOne(secs: seq<Sec>, last: Sec, n: nat, addresses: map<Key, nat>,
          secToOut: map<Key, nat>)
    requires n < |last.contributions| && Entering(secs, last, n, addresses, secToOut)
    ensures var c := last.contributions[n];
            Entering(secs, last, n + 1, addresses[KeyOf(c) := last.addr + c.offset], secToOut[KeyOf(c) := |secs|])
  {
    var c := last.contributions[n];
    var was := secs + [last.(contributions := last.contributions[..n])];
    var now := secs + [last.(contributions := last.contributions[..n + 1])];
    var newA, newS := addresses[KeyOf(c) := last.addr + c.offset], secToOut[KeyOf(c) := |secs|];
    forall key | key in newA
      ensures exists k, i :: AddressFrom(now, k, i, key, newA[key], newS[key])
    {
      if key == KeyOf(c) {
        assert AddressFrom(now, |secs|, n, key, newA[key], newS[key]);
      } else {
        var k, i :| AddressFrom(was, k, i, key, addresses[key], secToOut[key]);
        assert AddressFrom(now, k, i, key, newA[key], newS[key]);
      }
    }
    forall k, i | 0 <= k < |now| && 0 <= i < |now[k].contributions|
      ensures KeyOf(now[k].contributions[i]) in newA
    {
      if k < |secs| { assert was[k] == now[k]; }
      if k == |secs| && i < n { assert was[k].contributions[i] == now[k].contributions[i]; }
    }
  }

  lemma {:induction false} EnterNone(secs: seq<Sec>, last: Sec, addresses: map<Key, nat>, secToOut: map<Key, nat>)
    requires Addressed(secs, addresses, secToOut)
    ensures Entering(secs, last, 0, addresses, secToOut)
  {
    var now := secs + [last.(contributions := last.contributions[..0])];
    forall key | key in addresses
      ensures exists k, i :: AddressFrom(now, k, i, key, addresses[key], secToOut[key])
    {
      var k, i :| AddressFrom(secs, k, i, key, addresses[key], secToOut[key]);
      assert AddressFrom(now, k, i, key, addresses[key], secToOut[key]);
    }
    assert forall k | 0 <= k < |secs| :: now[k] == secs[k];
  }

  /** Places the builders one after the other from `va0` on. */
  method PlaceBuilders(bs: seq<Builder>, base: nat, va0: nat, sections0: seq<Sec>, addresses0: map<Key, nat>,
          secToOut0: map<Key, nat>)
    returns (va: nat, sections: seq<Sec>, addresses: map<Key, nat>, secToOut: map<Key, nat>)
    requires base <= va0 && Addressed(sections0, addresses0, secToOut0)
    ensures va == EndVa(bs, va0) && sections == sections0 + PlacedFrom(bs, va0, base)
    ensures Addressed(sections, addresses, secToOut)
  {
    hide Addressed, Entering, AlignUp;
    va, sections, addresses, secToOut := va0, sections0, addresses0, secToOut0;
    assert sections0 + [] == sections0;
    for n := 0 to |bs|
      invariant va == EndVa(bs[..n], va0) && sections == sections0 + PlacedFrom(bs[..n], va0, base)
      invariant Addressed(sections, addresses, secToOut)
    {
      var b := bs[n];
      AlignUpAny(va, b.align);
      assert bs[..n + 1][..n] == bs[..n];
      va := AlignUp(va, b.align);
      var sec := SecOf(b, va, base);
      EnterNone(sections, sec, addresses, secToOut);
      for i := 0 to |b.contributions|
        invariant Entering(sections, sec, i, addresses, secToOut)
      {
        EnterOne(sections, sec, i, addresses, secToOut);
        var c := b.contributions[i];
        addresses, secToOut := addresses[KeyOf(c) := va + c.offset], secToOut[KeyOf(c) := |sections|];
      }
      Entered(sections, sec, addresses, secToOut);
      assert (sections0 + PlacedFrom(bs[..n], va0, base)) + [sec]
             == sections0 + (PlacedFrom(bs[..n], va0, base) + [sec]);
      sections := sections + [sec];
      va := va + b.size;
    }
    assert bs[..|bs|] == bs;
  }

  lemma {:induction false} Entered(secs: seq<Sec>, last: Sec, addresses: map<Key, nat>, secToOut: map<Key, nat>)
    requires Entering(secs, last, |last.contributions|, addresses, secToOut)
    ensures Addressed(secs + [last], addresses, secToOut)
  {
    hide Addressed;
    assert last.contributions[..|last.contributions|] == last.contributions;
    assert last.(contributions := last.contributions) == last;
  }

  // ── Runs of sections ─────────────────────────────────────────────────────

  /** Aligned sections, one after the other in `[lo, hi)`, each as far from the file's start as from the
      base. */
  ghost predicate Run(secs: seq<Sec>, base: nat, lo: nat, hi: nat) {
    && lo <= hi
    && (forall i | 0 <= i < |secs| :: InRun(secs[i], base, lo, hi))
    && (forall i, j | 0 <= i < j < |secs| :: secs[i].addr + secs[i].size <= secs[j].addr)
  }

  predicate InRun(s: Sec, base: nat, lo: nat, hi: nat) {
    && lo <= s.addr && s.addr + s.size <= hi
    && (s.align > 0 ==> s.addr % s.align == 0) && s.offset + base == s.addr
  }

  lemma {:induction false} PlacedRuns(bs: seq<Builder>, va: nat, base: nat)
    requires base <= va
    ensures Run(PlacedFrom(bs, va, base), base, va, EndVa(bs, va))
    decreases |bs|
  {
    hide AlignUp;
    if bs != [] {
      var front, b := bs[..|bs| - 1], bs[|bs| - 1];
      PlacedRuns(front, va, base);
      AlignUpAny(EndVa(front, va), b.align);
    }
  }

  lemma {:induction false} RunsJoin(a: seq<Sec>, b: seq<Sec>, base: nat, lo: nat, mid: nat, next: nat, hi: nat)
    requires Run(a, base, lo, mid) && Run(b, base, next, hi) && mid <= next
    ensures Run(a + b, base, lo, hi)
  {
    forall i | 0 <= i < |a + b|
      ensures InRun((a + b)[i], base, lo, hi)
    {
      if i < |a| { assert InRun(a[i], base, lo, mid); } else { assert InRun(b[i - |a|], base, next, hi); }
    }
    forall i, j | 0 <= i < j < |a + b|
      ensures (a + b)[i].addr + (a + b)[i].size <= (a + b)[j].addr
    {
      if i < |a| <= j { assert InRun(a[i], base, lo, mid) && InRun(b[j - |a|], base, next, hi); }
    }
  }

  // ── Segments ─────────────────────────────────────────────────────────────

  /** Sections that the loader may make read-only after relocation. */
  predicate IsRelro(n: Name) {
    n in {Ascii(".data.rel.ro"), Ascii(".dynamic"), Ascii(".fini_array"), Ascii(".got"), Ascii(".got.plt"),
        Ascii(".init_array")}
  }

  /** Byte by byte, a prefix before the longer name. */
  predicate NameLess(a: Name, b: Name)
    decreases |a|
  {
    if b == [] then false
    else if a == [] then true
    else a[0] < b[0] || (a[0] == b[0] && NameLess(a[1..], b[1..]))
  }

  /** The order of the writable sections: RELRO first, then by name, then `.tdata` kinds last. */
  predicate Precedes(a: Builder, b: Builder) {
    if IsRelro(a.name) != IsRelro(b.name) then IsRelro(a.name)
    else NameLess(a.name, b.name) || (a.name == b.name && a.kind != Tdata && b.kind == Tdata)
  }

  /** A strict order of builders; sorting by it is stable. */
  type Order = (Builder, Builder) -> bool

  function InsertBy(less: Order, b: Builder, s: seq<Builder>): seq<Builder>
    decreases |s|
  {
    if s == [] || less(b, s[0]) then [b] + s else [s[0]] + InsertBy(less, b, s[1..])
  }

  function SortBy(less: Order, s: seq<Builder>): seq<Builder>
    decreases |s|
  {
    if s == [] then [] else InsertBy(less, s[|s| - 1], SortBy(less, s[..|s| - 1]))
  }

  lemma {:induction false} InsertByKeeps(less: Order, b: Builder, s: seq<Builder>)
    ensures multiset(InsertBy(less, b, s)) == multiset(s) + multiset{b}
    decreases |s|
  {
    if s != [] {
      assert s == [s[0]] + s[1..];
      if !less(b, s[0]) { InsertByKeeps(less, b, s[1..]); }
    }
  }

  /** Sorting loses nothing and adds nothing. */
  lemma {:induction false} SortByKeeps(less: Order, s: seq<Builder>)
    ensures multiset(SortBy(less, s)) == multiset(s)
    decreases |s|
  {
    hide InsertBy;
    if s != [] {
      SortByKeeps(less, s[..|s| - 1]);
      InsertByKeeps(less, s[|s| - 1], SortBy(less, s[..|s| - 1]));
      assert s == s[..|s| - 1] + [s[|s| - 1]];
    }
  }

  predicate RelroFirst(s: seq<Builder>) {
    forall i, j | 0 <= i < j < |s| && IsRelro(s[j].name) :: IsRelro(s[i].name)
  }

  lemma {:induction false} InsertRelro(b: Builder, s: seq<Builder>)
    requires RelroFirst(s)
    ensures RelroFirst(InsertBy(Precedes, b, s))
    ensures forall i | 0 <= i < |InsertBy(Precedes, b, s)| ::
              InsertBy(Precedes, b, s)[i] == b || InsertBy(Precedes, b, s)[i] in s
    decreases |s|
  {
    hide IsRelro, NameLess;
    if s != [] {
      assert s == [s[0]] + s[1..];
      if !Precedes(b, s[0]) { InsertRelro(b, s[1..]); }
    }
  }

  /** In placement order the RELRO sections come first. */
  lemma {:induction false} SortRelro(s: seq<Builder>)
    ensures RelroFirst(SortBy(Precedes, s))
    decreases |s|
  {
    hide IsRelro, InsertBy;
    if s != [] {
      SortRelro(s[..|s| - 1]);
      InsertRelro(s[|s| - 1], SortBy(Precedes, s[..|s| - 1]));
    }
  }

  /** The position of the first builder that is not RELRO. */
  method RelroEnd(s: seq<Builder>) returns (n: nat)
    requires RelroFirst(s)
    ensures n <= |s|
    ensures forall i | 0 <= i < n :: IsRelro(s[i].name)
    ensures forall i | n <= i < |s| :: !IsRelro(s[i].name)
  {
    hide IsRelro;
    n := 0;
    while n < |s| && IsRelro(s[n].name)
      invariant n <= |s| && forall i | 0 <= i < n :: IsRelro(s[i].name)
    {
      n := n + 1;
    }
  }
}
