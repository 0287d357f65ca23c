/** From grouped builders to the placed image: bucketing by permission, the synthetic builders, the script
    and placement orders, and the alignment of the TLS block
    (`peony-layout/src/lib.rs:1538-1561`, `1845-1852`, `1969-2023`, `3723-3734`). */
module ImagePlan {
  import opened Bytes
  import opened Objects
  import opened Grouping
  import opened Placement
  import opened Segments
  import opened Relro
  import opened SectionNames
  import opened PlanOrder

  // ── Buckets ──────────────────────────────────────────────────────────────

  datatype Bucket = Fixed | Executable | Writable | Zeroed

  function BucketOf(b: Builder): Bucket {
    match b.perm
    case Ro => Fixed
    case Rx => Executable
    case Rw => if b.nobits then Zeroed else Writable
  }

  datatype Buckets = Buckets(ro: seq<Builder>, rx: seq<Builder>, rw: seq<Builder>, bss: seq<Builder>)
  {
    function All(): seq<Builder> { ro + rx + rw + bss }

    function Push(b: Builder): Buckets {
      match BucketOf(b)
      case Fixed => this.(ro := ro + [b])
      case Executable => this.(rx := rx + [b])
      case Writable => this.(rw := rw + [b])
      case Zeroed => this.(bss := bss + [b])
    }
  }

  const NO_BUILDERS := Buckets([], [], [], [])

  /** The grouped builders in the order in which their names were met. */
  function Listed(order: seq<Name>, builders: map<Name, Builder>): (s: seq<Builder>)
    requires forall n | n in order :: n in builders
    ensures |s| == |order|
  {
    seq(|order|, i requires 0 <= i < |order| => assert order[i] in order; builders[order[i]])
  }

  function Bucketed(s: seq<Builder>): Buckets
    decreases |s|
  {
    if s == [] then NO_BUILDERS else Bucketed(s[..|s| - 1]).Push(s[|s| - 1])
  }

  method BucketBuilders(order: seq<Name>, builders: map<Name, Builder>) returns (q: Buckets)
    requires forall n | n in order :: n in builders
    ensures q == Bucketed(Listed(order, builders))
  {
    q := NO_BUILDERS;
    ghost var all := Listed(order, builders);
    for i := 0 to |order|
      invariant q == Bucketed(all[..i])
    {
      assert all[..i + 1][..i] == all[..i] && order[i] in order;
      q := q.Push(builders[order[i]]);
    }
    assert all[..|order|] == all;
  }

  lemma {:induction false} PushKeeps(q: Buckets, b: Builder)
    ensures multiset(q.Push(b).All()) == multiset(q.All()) + multiset{b}
  {
    hide q.All;
    AllIs(q);
    AllIs(q.Push(b));
  }

  lemma {:induction false} AllIs(q: Buckets)
    ensures multiset(q.All()) == multiset(q.ro) + multiset(q.rx) + multiset(q.rw) + multiset(q.bss)
  {
  }

  lemma {:induction false} BucketedStep(front: seq<Builder>, b: Builder)
    ensures Bucketed(front + [b]) == Bucketed(front).Push(b)
  {
    hide Buckets.Push;
    assert (front + [b])[..|front|] == front;
  }

  /** Bucketing loses nothing and adds nothing. */
  lemma {:induction false} BucketedKeeps(s: seq<Builder>)
    ensures multiset(Bucketed(s).All()) == multiset(s)
    decreases |s|
  {
    if s == [] {
      assert Bucketed(s).All() == [];
    } else {
      hide Buckets.All, Buckets.Push, Bucketed;
      var front, b := s[..|s| - 1], s[|s| - 1];
      assert s == front + [b];
      BucketedStep(front, b);
      BucketedKeeps(front);
      PushKeeps(Bucketed(front), b);
    }
  }

  // ── The TLS block ────────────────────────────────────────────────────────

  predicate IsTls(b: Builder) { b.kind == Tdata || b.kind == Tbss }

  function MaxTlsAlign(s: seq<Builder>): (a: nat)
    ensures a >= 1 && forall b | b in s && IsTls(b) :: b.align <= a
    ensures a == 1 || exists b :: b in s && IsTls(b) && b.align == a
    decreases |s|
  {
    if s == [] then 1
    else
      var front, b := s[..|s| - 1], s[|s| - 1];
      assert forall x :: x in s <==> x in front || x == b;
      if IsTls(b) then Max(MaxTlsAlign(front), b.align) else MaxTlsAlign(front)
  }

  /** The position of the last `.tdata` builder, or of the first `.tbss` one. */
  function LastTdata(s: seq<Builder>): (i: Option<nat>)
    ensures i.Some? ==> i.value < |s| && s[i.value].kind == Tdata
    ensures forall j | (if i.Some? then i.value + 1 else 0) <= j < |s| :: s[j].kind != Tdata
    decreases |s|
  {
    if s == [] then None else if s[|s| - 1].kind == Tdata then Some(|s| - 1) else LastTdata(s[..|s| - 1])
  }

  function FirstTbss(s: seq<Builder>): (i: Option<nat>)
    ensures i.Some? ==> i.value < |s| && s[i.value].kind == Tbss
    ensures forall j | 0 <= j < (if i.Some? then i.value else |s|) :: s[j].kind != Tbss
    decreases |s|
  {
    if s == [] then None
    else if s[0].kind == Tbss then Some(0)
    else match FirstTbss(s[1..]) case None => None case Some(i) => Some(i + 1)
  }

  function RaisedAt(s: seq<Builder>, i: nat, align: nat): (t: seq<Builder>)
    requires i < |s|
    ensures |t| == |s|
  {
    s[i := s[i].(align := Max(s[i].align, align))]
  }

  /** The last `.tdata` builder, or else the first `.tbss` one, takes the largest alignment of all of them. */
  function TlsRaised(rw: seq<Builder>, bss: seq<Builder>): (r: (seq<Builder>, seq<Builder>))
    ensures |r.0| == |rw| && |r.1| == |bss|
  {
    var align := MaxTlsAlign(rw + bss);
    match LastTdata(rw)
    case Some(i) => (RaisedAt(rw, i, align), bss)
    case None => match FirstTbss(bss) case Some(i) => (rw, RaisedAt(bss, i, align)) case None => (rw, bss)
  }

  /** The same builders in the same order, some with a larger power of two for their alignment. */
  predicate AllRaised(now: seq<Builder>, was: seq<Builder>) {
    |now| == |was| && forall i | 0 <= i < |was| :: now[i] == was[i] || (IsPow2(was[i].align) ==> Raised(now[i], was[i]))
  }

  predicate TlsPow2(s: seq<Builder>) { forall b | b in s && IsTls(b) :: IsPow2(b.align) }

  lemma {:induction false} RaisedAtRaises(s: seq<Builder>, i: nat, all: seq<Builder>)
    requires i < |s| && TlsPow2(all)
    ensures AllRaised(RaisedAt(s, i, MaxTlsAlign(all)), s)
  {
    var align := MaxTlsAlign(all);
    assert IsPow2(1);
    if align != 1 { var b :| b in all && IsTls(b) && b.align == align; }
    assert IsPow2(align);
    hide IsPow2, MaxTlsAlign;
  }

  lemma {:induction false} TlsRaisedRaises(rw: seq<Builder>, bss: seq<Builder>)
    requires TlsPow2(rw + bss)
    ensures AllRaised(TlsRaised(rw, bss).0, rw) && AllRaised(TlsRaised(rw, bss).1, bss)
  {
    hide AllRaised, RaisedAt, MaxTlsAlign;
    SameRaised(rw);
    SameRaised(bss);
    if LastTdata(rw).Some? { RaisedAtRaises(rw, LastTdata(rw).value, rw + bss); }
    if FirstTbss(bss).Some? { RaisedAtRaises(bss, FirstTbss(bss).value, rw + bss); }
  }

  lemma {:induction false} SameRaised(s: seq<Builder>)
    ensures AllRaised(s, s)
  {
  }

  // ── The plan of an image ─────────────────────────────────────────────────

  /** The buckets and the synthetic builders in placement order. */
  function Sorted(q: Buckets, synthetic: Buckets, script: Script): Buckets {
    Buckets(Arranged(script, q.ro, synthetic.ro), Arranged(script, q.rx, synthetic.rx),
            SortBy(Precedes, Arranged(script, q.rw, synthetic.rw)),
                SortBy(TbssFirst, Arranged(script, q.bss, synthetic.bss)))
  }

  /** With the TLS block aligned. */
  function Aligned(q: Buckets): Buckets {
    var raised := TlsRaised(q.rw, q.bss);
    q.(rw := raised.0, bss := raised.1)
  }

  /** `p` is the plan that placement makes of these builders. */
  ghost predicate Plans(p: Plan, q: Buckets) {
    && p.ro == q.ro && p.rx == q.rx && p.relro + p.rest == q.rw && p.bss == q.bss
    && (forall b | b in p.relro :: IsRelro(b.name)) && (forall b | b in p.rest :: !IsRelro(b.name))
  }

  /** Read-only, executable and writable sections apart: none of the first is writable or executable, all of
      the second are executable, none of the third is; and of these `bss` has those without file contents. */
  ghost predicate Permitted(p: Plan) {
    && (forall b | b in p.ro :: Exec !in b.flags && Write !in b.flags)
    && (forall b | b in p.rx :: Exec in b.flags)
    && (forall b | b in p.relro + p.rest + p.bss :: Exec !in b.flags && Write in b.flags)
    && (forall b | b in p.relro + p.rest :: !b.nobits) && (forall b | b in p.bss :: b.nobits)
  }

  /** Each part of the plan in its order. */
  ghost predicate Ordered(p: Plan, script: Script) {
    && InScriptOrder(script, p.ro) && InScriptOrder(script, p.rx)
    && InWritableOrder(p.relro + p.rest) && InZeroedOrder(script, p.bss)
  }

  /** Allocated, with the permission its flags ask for. */
  predicate Fits(b: Builder) { Alloc in b.flags && b.perm == PermOf(b.flags) }

  predicate AllIn(s: seq<Builder>, bucket: Bucket) { forall b | b in s :: Fits(b) && BucketOf(b) == bucket }

  predicate InBuckets(q: Buckets) {
    AllIn(q.ro, Fixed) && AllIn(q.rx, Executable) && AllIn(q.rw, Writable) && AllIn(q.bss, Zeroed)
  }

  /** Distinct names, each with something in it, at a power of two. */
  ghost predicate Proper(order: seq<Name>, builders: map<Name, Builder>) {
    && (forall n :: n in order <==> n in builders)
    && (forall i, j | 0 <= i < j < |order| :: order[i] != order[j])
    && forall n | n in builders ::
         builders[n].name == n && builders[n].contributions != [] && IsPow2(builders[n].align) && Fits(builders[n])
  }

  /** Builders that layout makes itself hold no input section, are aligned to powers of two, and are neither
      thread-local nor RELRO sections without file contents. */
  predicate Synthetic(s: seq<Builder>) {
    forall b | b in s :: b.contributions == [] && IsPow2(b.align) && !IsTls(b) && (b.nobits ==> !IsRelro(b.name))
  }

  lemma {:induction false} SortedKeeps(q: Buckets, synthetic: Buckets, script: Script)
    ensures multiset(Sorted(q, synthetic, script).All()) == multiset(q.All()) + multiset(synthetic.All())
  {
    hide Arranged, SortBy;
    ArrangedKeeps(script, q.ro, synthetic.ro);
    ArrangedKeeps(script, q.rx, synthetic.rx);
    ArrangedKeeps(script, q.rw, synthetic.rw);
    ArrangedKeeps(script, q.bss, synthetic.bss);
    SortByKeeps(Precedes, Arranged(script, q.rw, synthetic.rw));
    SortByKeeps(TbssFirst, Arranged(script, q.bss, synthetic.bss));
  }

  /** A permutation of the grouped builders and some synthetic ones. */
  ghost predicate Permutes(all: seq<Builder>, order: seq<Name>, builders: map<Name, Builder>, synthetic: seq<Builder>)
    requires forall n | n in order :: n in builders
  {
    multiset(all) == multiset(Listed(order, builders)) + multiset(synthetic)
  }

  lemma {:induction false} ListedOrSynthetic(all: seq<Builder>, order: seq<Name>, builders: map<Name, Builder>,
          synthetic: seq<Builder>, b: Builder)
    requires Proper(order, builders) && Permutes(all, order, builders, synthetic) && b in all
    ensures b in synthetic || (b.name in builders && b == builders[b.name])
  {
    hide IsPow2, Fits;
    assert b in multiset(all);
    if b !in synthetic {
      assert b in Listed(order, builders);
      var i :| 0 <= i < |order| && Listed(order, builders)[i] == b;
      assert order[i] in order;
    }
  }

  /** A builder with contributions is the grouped one of its name. */
  lemma {:induction false} HasOrigin(all: seq<Builder>, order: seq<Name>, builders: map<Name, Builder>,
          synthetic: seq<Builder>, b: Builder)
    requires Proper(order, builders) && Synthetic(synthetic) && Permutes(all, order, builders, synthetic) && b in all
    ensures IsPow2(b.align)
    ensures b.contributions != [] ==> b.name in builders && b == builders[b.name]
  {
    hide IsPow2, IsRelro, Permutes;
    ListedOrSynthetic(all, order, builders, synthetic, b);
  }

  /** Every grouped builder is there. */
  lemma {:induction false} IsThere(all: seq<Builder>, order: seq<Name>, builders: map<Name, Builder>,
          synthetic: seq<Builder>, n: Name)
    requires Proper(order, builders) && Permutes(all, order, builders, synthetic) && n in builders
    ensures builders[n] in all
  {
    var i :| 0 <= i < |order| && order[i] == n;
    assert Listed(order, builders)[i] == builders[n];
    assert builders[n] in multiset(Listed(order, builders));
    assert builders[n] in multiset(all);
  }

  lemma {:induction false} OnceListed(order: seq<Name>, builders: map<Name, Builder>, n: Name)
    requires Proper(order, builders) && n in builders
    ensures multiset(Listed(order, builders))[builders[n]] == 1
  {
    var s := Listed(order, builders);
    var i :| 0 <= i < |order| && order[i] == n;
    assert s == s[..i] + [s[i]] + s[i + 1..];
    forall j | 0 <= j < |order| && j != i ensures s[j] != builders[n] {
      assert order[j] in order;
    }
    assert builders[n] !in s[..i] && builders[n] !in s[i + 1..];
    assert multiset(s) == multiset(s[..i]) + multiset{s[i]} + multiset(s[i + 1..]);
  }

  /** And only once. */
  lemma {:induction false} OnlyOnce(all: seq<Builder>, order: seq<Name>, builders: map<Name, Builder>,
          synthetic: seq<Builder>, j: nat, k: nat)
    requires Proper(order, builders) && Synthetic(synthetic) && Permutes(all, order, builders, synthetic)
    requires j < |all| && k < |all| && all[j].contributions != [] && all[k].contributions != []
             && all[j].name == all[k].name
    ensures j == k
  {
    HasOrigin(all, order, builders, synthetic, all[j]);
    HasOrigin(all, order, builders, synthetic, all[k]);
    OnceListed(order, builders, all[j].name);
    var b := all[j];
    assert b !in synthetic;
    hide Listed, Proper, Synthetic;
    assert multiset(all)[b] == 1;
    if j != k { TwiceThere(all, b, if j < k then j else k, if j < k then k else j); }
  }

  lemma {:induction false} TwiceThere(all: seq<Builder>, b: Builder, j: nat, k: nat)
    requires j < k < |all| && all[j] == b == all[k]
    ensures multiset(all)[b] >= 2
  {
    assert all == all[..k] + all[k..];
    assert all[..k][j] == b && all[k..][0] == b;
    assert multiset(all[..k])[b] >= 1 && multiset(all[k..])[b] >= 1;
  }

  lemma {:induction false} PlaceOfName(all: seq<Builder>, b: Builder) returns (k: nat)
    requires b in all
    ensures k < |all| && all[k] == b
  {
    k :| 0 <= k < |all| && all[k] == b;
  }

  ghost predicate AtName(all: seq<Builder>, n: Name, k: nat) {
    k < |all| && all[k].name == n && all[k].contributions != []
  }

  ghost function WhereIs(all: seq<Builder>, n: Name): (k: nat)
    requires exists k :: AtName(all, n, k)
    ensures AtName(all, n, k)
  {
    var k :| AtName(all, n, k);
    k
  }

  /** The plan of a permutation with some alignments raised holds every grouped builder once. */
  lemma {:induction false} PermutationIsPlan(p: Plan, all: seq<Builder>, order: seq<Name>, builders: map<Name, Builder>,
          synthetic: seq<Builder>)
    returns (at: map<Name, nat>)
    requires Proper(order, builders) && Synthetic(synthetic) && Permutes(all, order, builders, synthetic)
    requires AllRaised(AllBuilders(p), all)
    ensures PlanOf(p, builders, at)
  {
    hide Permutes, AllBuilders, IsPow2, Synthetic, Raised, AllRaised;
    NoEmpty(order, builders);
    hide Proper;
    forall n | n in builders ensures exists k :: AtName(all, n, k) {
      IsThere(all, order, builders, synthetic, n);
      var k := PlaceOfName(all, builders[n]);
      assert AtName(all, n, k);
    }
    at := map n | n in builders :: WhereIs(all, n);
    var now := AllBuilders(p);
    SameCount(now, all);
    forall n | n in builders
      ensures at[n] < |now| && Raised(now[at[n]], builders[n])
    {
      HasOrigin(all, order, builders, synthetic, all[at[n]]);
      RaisedOrSame(now, all, at[n]);
    }
    forall k | 0 <= k < |now| && now[k].contributions != []
      ensures exists n :: n in builders && at[n] == k
    {
      HasOrigin(all, order, builders, synthetic, all[k]);
      RaisedOrSame(now, all, k);
      var n := all[k].name;
      OnlyOnce(all, order, builders, synthetic, at[n], k);
      assert n in builders && at[n] == k;
    }
  }

  lemma {:induction false} NoEmpty(order: seq<Name>, builders: map<Name, Builder>)
    requires Proper(order, builders)
    ensures forall n | n in builders :: builders[n].name == n && builders[n].contributions != []
  {
  }

  lemma {:induction false} SameCount(now: seq<Builder>, was: seq<Builder>)
    requires AllRaised(now, was)
    ensures |now| == |was|
  {
  }

  lemma {:induction false} RaisedOrSame(now: seq<Builder>, was: seq<Builder>, k: nat)
    requires AllRaised(now, was) && k < |was| && IsPow2(was[k].align)
    ensures k < |now| && Raised(now[k], was[k]) && now[k].contributions == was[k].contributions
  {
    hide IsPow2;
  }

  // ── The pass ─────────────────────────────────────────────────────────────

  lemma {:induction false} AllPow2(all: seq<Builder>, order: seq<Name>, builders: map<Name, Builder>,
          synthetic: seq<Builder>)
    requires Proper(order, builders) && Synthetic(synthetic) && Permutes(all, order, builders, synthetic)
    ensures forall b | b in all :: IsPow2(b.align)
  {
    hide IsPow2, Permutes, Proper, Synthetic;
    forall b | b in all ensures IsPow2(b.align) { HasOrigin(all, order, builders, synthetic, b); }
  }

  lemma {:induction false} AlignedRaises(q: Buckets)
    requires forall b | b in q.All() :: IsPow2(b.align)
    ensures AllRaised(Aligned(q).All(), q.All())
  {
    hide IsPow2, TlsRaised, AllRaised;
    assert forall b | b in q.rw + q.bss :: b in q.All();
    TlsRaisedRaises(q.rw, q.bss);
    JoinRaised(q, Aligned(q));
  }

  lemma {:induction false} JoinRaised(q: Buckets, r: Buckets)
    requires q.ro == r.ro && q.rx == r.rx && AllRaised(r.rw, q.rw) && AllRaised(r.bss, q.bss)
    ensures AllRaised(r.All(), q.All())
  {
    hide Raised, IsPow2;
    var now, was := r.All(), q.All();
    var a, b := |q.ro| + |q.rx|, |q.ro| + |q.rx| + |q.rw|;
    forall i | 0 <= i < |was|
      ensures now[i] == was[i] || (IsPow2(was[i].align) ==> Raised(now[i], was[i]))
    {
      if a <= i < b {
        assert now[i] == r.rw[i - a] && was[i] == q.rw[i - a];
      } else if b <= i {
        assert now[i] == r.bss[i - b] && was[i] == q.bss[i - b];
      }
    }
  }

  /** Grouped builders are proper. */
  lemma {:induction false} GroupedIsProper(inp: Grouping.Input, order: seq<Name>, builders: map<Name, Builder>)
    requires Grouped(inp, Kept(inp), order, builders)
    ensures Proper(order, builders)
  {
    hide Kept, IsPow2, Under, Contributes, Fits, inp.NameOf, inp.Has;
    forall n | n in builders
      ensures builders[n].name == n && builders[n].contributions != [] && IsPow2(builders[n].align) && Fits(builders[n])
    {
      assert GroupOf(inp, Kept(inp), n, builders[n]);
      GroupFits(inp, n, builders[n]);
    }
  }

  lemma {:induction false} GroupFits(inp: Grouping.Input, n: Name, b: Builder)
    requires GroupOf(inp, Kept(inp), n, b)
    ensures Fits(b)
  {
    hide Laid, inp.NameOf, StartsWith;
    var first := Under(inp, Kept(inp), n)[0];
    assert first in Under(inp, Kept(inp), n);
    hide Under, Kept;
    assert inp.Keeps(first.o, first.pos);
  }

  // ── Names in the plan ────────────────────────────────────────────────────

  /** The naming of a link without a linker script. */
  ghost predicate DefaultNames(inp: Grouping.Input, utf8: Name -> bool) {
    forall n :: inp.outName(n) == OutputSectionName(utf8, n)
  }

  /** Parsed objects, no linker script. */
  ghost predicate Unscripted(inp: Grouping.Input) { Parsed(inp.objects) && exists utf8 :: DefaultNames(inp, utf8) }

  predicate ZeroedUnnamed(s: seq<Builder>) { forall b | b in s && b.nobits :: !IsRelro(b.name) }

  predicate ZeroedAreOther(builders: map<Name, Builder>) {
    forall n | n in builders && builders[n].nobits :: !IsRelro(builders[n].name)
  }

  lemma {:induction false} UnscriptedZeroed(inp: Grouping.Input, order: seq<Name>, builders: map<Name, Builder>)
    requires Grouped(inp, Kept(inp), order, builders) && Unscripted(inp)
    ensures ZeroedAreOther(builders)
  {
    hide IsRelro, Kept, GroupOf, inp.NameOf, inp.Has;
    forall n | n in builders && builders[n].nobits
      ensures !IsRelro(builders[n].name)
    {
      ZeroedOther(inp, n, builders[n]);
    }
  }

  lemma {:induction false} ZeroedOther(inp: Grouping.Input, n: Name, b: Builder)
    requires Unscripted(inp) && (forall p | p in Kept(inp) :: inp.Has(p.o, p.pos))
    requires GroupOf(inp, Kept(inp), n, b) && b.nobits
    ensures !IsRelro(b.name)
  {
    hide IsRelro, Laid, Kept, ClassifySection, OutputSectionName;
    var utf8 :| DefaultNames(inp, utf8);
    var first := Under(inp, Kept(inp), n)[0];
    assert first in Under(inp, Kept(inp), n);
    var sec := inp.Sec(first.o, first.pos);
    assert sec.kind == ClassifySection(sec.name, sec.flags);
    NobitsIsNoRelro(utf8, sec.name, sec.flags);
  }

  lemma {:induction false} SameIn(s: seq<Builder>, t: seq<Builder>, u: seq<Builder>, bucket: Bucket)
    requires multiset(s) == multiset(t) + multiset(u) && AllIn(t, bucket) && AllIn(u, bucket)
    ensures AllIn(s, bucket)
  {
    hide Fits, BucketOf;
    forall b | b in s ensures Fits(b) && BucketOf(b) == bucket { assert b in multiset(s); }
  }

  lemma {:induction false} BucketedIn(s: seq<Builder>)
    requires forall b | b in s :: Fits(b)
    ensures InBuckets(Bucketed(s))
    decreases |s|
  {
    hide Fits;
    if s != [] {
      assert s[|s| - 1] in s;
      BucketedIn(s[..|s| - 1]);
    }
  }

  lemma {:induction false} SortedIn(q: Buckets, synthetic: Buckets, script: Script)
    requires InBuckets(q) && InBuckets(synthetic)
    ensures InBuckets(Sorted(q, synthetic, script))
  {
    hide Arranged, SortBy, AllIn;
    ArrangedKeeps(script, q.ro, synthetic.ro);
    ArrangedKeeps(script, q.rx, synthetic.rx);
    ArrangedKeeps(script, q.rw, synthetic.rw);
    ArrangedKeeps(script, q.bss, synthetic.bss);
    SortByKeeps(Precedes, Arranged(script, q.rw, synthetic.rw));
    SortByKeeps(TbssFirst, Arranged(script, q.bss, synthetic.bss));
    var r := Sorted(q, synthetic, script);
    SameIn(r.ro, q.ro, synthetic.ro, Fixed);
    SameIn(r.rx, q.rx, synthetic.rx, Executable);
    SameIn(r.rw, q.rw, synthetic.rw, Writable);
    SameIn(r.bss, q.bss, synthetic.bss, Zeroed);
  }

  lemma {:induction false} RaisedFrom(now: seq<Builder>, was: seq<Builder>, b: Builder)
    requires AllRaised(now, was) && b in now && forall w | w in was :: IsPow2(w.align)
    ensures exists w :: w in was && b == w.(align := b.align)
  {
    hide IsPow2;
    var i :| 0 <= i < |now| && now[i] == b;
    assert was[i] in was;
  }

  lemma {:induction false} RaisedIn(now: seq<Builder>, was: seq<Builder>, bucket: Bucket)
    requires AllRaised(now, was) && AllIn(was, bucket) && forall b | b in was :: IsPow2(b.align)
    ensures AllIn(now, bucket) && (ZeroedUnnamed(was) ==> ZeroedUnnamed(now))
  {
    hide AllRaised, IsPow2, IsRelro;
    forall b | b in now
      ensures Fits(b) && BucketOf(b) == bucket && (ZeroedUnnamed(was) && b.nobits ==> !IsRelro(b.name))
    {
      RaisedFrom(now, was, b);
    }
  }

  lemma {:induction false} PlansFormed(p: Plan, q: Buckets)
    requires Plans(p, q) && InBuckets(q)
    ensures Formed(p) && Permitted(p) && (ZeroedUnnamed(q.bss) ==> !HasStray(p.bss))
  {
    hide IsRelro;
    assert forall b | b in p.relro + p.rest + p.bss :: b in q.rw || b in q.bss;
    assert forall b | b in p.bss :: b.nobits;
    assert forall b | b in p.relro + p.rest :: b in q.rw;
  }

  predicate SameNames(now: seq<Builder>, was: seq<Builder>) {
    |now| == |was| && forall i | 0 <= i < |was| :: now[i].name == was[i].name && now[i].kind == was[i].kind
  }

  lemma {:induction false} RaisedNames(now: seq<Builder>, was: seq<Builder>)
    requires AllRaised(now, was) && forall b | b in was :: IsPow2(b.align)
    ensures SameNames(now, was)
  {
    hide IsPow2;
    assert forall i | 0 <= i < |was| :: was[i] in was;
  }

  lemma {:induction false} OrderByNames(now: seq<Builder>, was: seq<Builder>, script: Script)
    requires SameNames(now, was)
    ensures InWritableOrder(was) ==> InWritableOrder(now)
    ensures InZeroedOrder(script, was) ==> InZeroedOrder(script, now)
  {
    hide ComesBefore, ScriptPair, IsRelro;
  }

  /** Sorting and raising give the order of the plan. */
  lemma {:induction false} PlanIsOrdered(p: Plan, q: Buckets, synthetic: Buckets, script: Script)
    requires Plans(p, Aligned(Sorted(q, synthetic, script)))
    requires forall b | b in Sorted(q, synthetic, script).All() :: IsPow2(b.align)
    ensures Ordered(p, script)
  {
    hide Arranged, SortBy, TlsRaised, AllRaised, IsPow2, IsRelro, InScriptOrder, InWritableOrder, InZeroedOrder,
         ScriptLess, SameNames, InOrderOf;
    var s := Sorted(q, synthetic, script);
    assert forall b | b in s.rw + s.bss :: b in s.All();
    ArrangedInOrder(script, q.ro, synthetic.ro);
    ArrangedInOrder(script, q.rx, synthetic.rx);
    ArrangedInOrder(script, q.bss, synthetic.bss);
    WritableInOrder(Arranged(script, q.rw, synthetic.rw));
    ZeroedInOrder(script, Arranged(script, q.bss, synthetic.bss));
    TlsRaisedRaises(s.rw, s.bss);
    RaisedNames(Aligned(s).rw, s.rw);
    RaisedNames(Aligned(s).bss, s.bss);
    OrderByNames(Aligned(s).rw, s.rw, script);
    OrderByNames(Aligned(s).bss, s.bss, script);
  }

  /** The plan is formed; and it has no stray `.bss` if the grouped builders have none. */
  lemma {:induction false} PlanIsFormed(p: Plan, order: seq<Name>, builders: map<Name, Builder>, synthetic: Buckets,
          script: Script)
    requires Proper(order, builders) && Synthetic(synthetic.All()) && InBuckets(synthetic)
    requires Plans(p, Aligned(Sorted(Bucketed(Listed(order, builders)), synthetic, script)))
    ensures Formed(p) && Permitted(p) && Ordered(p, script) && (ZeroedAreOther(builders) ==> !HasStray(p.bss))
  {
    hide Synthetic, Bucketed, Sorted, TlsRaised, Plans, IsRelro, Permutes, AllRaised, IsPow2, InBuckets, Formed, Fits,
         ZeroedUnnamed, ZeroedAreOther, Permitted, Ordered;
    var sorted := Sorted(Bucketed(Listed(order, builders)), synthetic, script);
    ListedFits(order, builders);
    BucketedIn(Listed(order, builders));
    SortedIn(Bucketed(Listed(order, builders)), synthetic, script);
    PlanPermutes(order, builders, synthetic, script);
    hide Proper, Listed;
    AllPow2(sorted.All(), order, builders, synthetic.All());
    if ZeroedAreOther(builders) { AllUnnamed(sorted, order, builders, synthetic.All()); }
    AlignedIn(sorted);
    PlansFormed(p, Aligned(sorted));
    PlanIsOrdered(p, Bucketed(Listed(order, builders)), synthetic, script);
  }

  lemma {:induction false} AlignedIn(q: Buckets)
    requires InBuckets(q) && forall b | b in q.All() :: IsPow2(b.align)
    ensures InBuckets(Aligned(q)) && (ZeroedUnnamed(q.bss) ==> ZeroedUnnamed(Aligned(q).bss))
  {
    hide IsPow2, TlsRaised, AllRaised, AllIn, ZeroedUnnamed;
    assert forall b | b in q.rw + q.bss :: b in q.All();
    TlsRaisedRaises(q.rw, q.bss);
    RaisedIn(Aligned(q).rw, q.rw, Writable);
    RaisedIn(Aligned(q).bss, q.bss, Zeroed);
  }

  lemma {:induction false} ListedFits(order: seq<Name>, builders: map<Name, Builder>)
    requires Proper(order, builders)
    ensures forall b | b in Listed(order, builders) :: Fits(b)
  {
    hide IsPow2, Fits;
    forall b | b in Listed(order, builders) ensures Fits(b) {
      var i :| 0 <= i < |order| && Listed(order, builders)[i] == b;
      assert order[i] in order;
    }
  }

  lemma {:induction false} AllUnnamed(q: Buckets, order: seq<Name>, builders: map<Name, Builder>,
          synthetic: seq<Builder>)
    requires Proper(order, builders) && Synthetic(synthetic) && Permutes(q.All(), order, builders, synthetic)
    requires ZeroedAreOther(builders)
    ensures ZeroedUnnamed(q.bss)
  {
    hide IsRelro, IsPow2, Permutes, Fits;
    forall b | b in q.bss && b.nobits
      ensures !IsRelro(b.name)
    {
      assert b in q.All();
      ListedOrSynthetic(q.All(), order, builders, synthetic, b);
    }
  }

  /** From buckets to the placed image. */
  method PlanImage(order: seq<Name>, builders: map<Name, Builder>, synthetic: Buckets, script: Script, base: nat,
          header: nat, page: nat)
    returns (image: Image, p: Plan, ghost at: map<Name, nat>)
    requires Proper(order, builders) && Synthetic(synthetic.All()) && InBuckets(synthetic)
    ensures Formed(p) && Permitted(p) && Ordered(p, script) && (ZeroedAreOther(builders) ==> !HasStray(p.bss))
    ensures Plans(p, Aligned(Sorted(Bucketed(Listed(order, builders)), synthetic, script)))
    ensures p.base == base && p.header == header && p.page == page && PlanOf(p, builders, at)
    ensures image.sections == PartsOf(p).All() && Addressed(image.sections, image.addresses, image.secToOut)
    ensures image.fileContentEnd == p.FileEnd() - base
    ensures image.rwSeg == if !p.HasRw() then None else Some((p.RwStart(), p.FileEnd(), p.MemEnd()))
  {
    hide Synthetic, Bucketed, Arranged, SortBy, TlsRaised, PartsOf, Addressed, PlanOf, IsRelro, Listed, Permutes,
         AllRaised, IsPow2, InBuckets, Formed, Permitted, Ordered, HasStray, ZeroedAreOther, p.RwStart, p.FileEnd,
           p.MemEnd, p.HasRw;
    var q := BucketBuilders(order, builders);
    var sorted := Sorted(q, synthetic, script);
    var rw, bss := sorted.rw, sorted.bss;
    SortRelro(Arranged(script, q.rw, synthetic.rw));
    PlanPermutes(order, builders, synthetic, script);
    AllPow2(sorted.All(), order, builders, synthetic.All());
    AlignedRaises(sorted);
    TlsRaisedRaises(rw, bss);
    RaisedRelro(TlsRaised(rw, bss).0, rw);
    var raised := TlsRaised(rw, bss);
    image, p := PlaceImage(sorted.ro, sorted.rx, raised.0, raised.1, base, header, page);
    PlanAll(p, Aligned(sorted));
    at := PermutationIsPlan(p, sorted.All(), order, builders, synthetic.All());
    PlanIsFormed(p, order, builders, synthetic, script);
  }

  lemma {:induction false} PlanPermutes(order: seq<Name>, builders: map<Name, Builder>, synthetic: Buckets,
          script: Script)
    requires Proper(order, builders)
    ensures Permutes(Sorted(Bucketed(Listed(order, builders)), synthetic, script).All(), order, builders,
            synthetic.All())
  {
    hide Bucketed, Sorted, Listed;
    BucketedKeeps(Listed(order, builders));
    SortedKeeps(Bucketed(Listed(order, builders)), synthetic, script);
  }

  lemma {:induction false} RaisedRelro(now: seq<Builder>, was: seq<Builder>)
    requires AllRaised(now, was) && RelroFirst(was) && forall b | b in was :: IsPow2(b.align)
    ensures RelroFirst(now)
  {
    hide IsRelro, IsPow2;
    assert forall i | 0 <= i < |was| :: was[i] in was && now[i].name == was[i].name;
  }

  lemma {:induction false} PlanAll(p: Plan, q: Buckets)
    requires Plans(p, q)
    ensures AllBuilders(p) == q.All()
  {
  }

  /** The maps hold the address and the output section of contribution `i` of section `k`. */
  predicate OwnAddress(secs: seq<Sec>, addresses: map<Key, nat>, secToOut: map<Key, nat>, k: nat, i: nat)
    requires k < |secs| && i < |secs[k].contributions|
  {
    var key := KeyOf(secs[k].contributions[i]);
    && key in addresses && key in secToOut
    && addresses[key] == secs[k].addr + secs[k].contributions[i].offset && secToOut[key] == k
  }

  /** The layout of a link's input sections: every kept one gets one address, that of its contribution,
      aligned as it asks and inside its output section; or some alignment is no power of two. `p` is the
      plan of the sections. */
  method ComputeLayout(inp: Grouping.Input, synthetic: Buckets, script: Script, base: nat, header: nat, page: nat)
    returns (r: Grouping.Result<Image>, ghost p: Plan)
    requires DistinctIndices(inp.objects) && Synthetic(synthetic.All()) && InBuckets(synthetic)
    ensures r.BadAlignment? ==> SomeBad(inp, r.align)
    ensures r.Ok? ==> forall q | q in Kept(inp) && inp.Has(q.o, q.pos) ::
              var key := (q.o, inp.Sec(q.o, q.pos).index);
              && key in r.value.addresses && key in r.value.secToOut
              && GoodAddress(inp, r.value.sections, r.value.addresses[key], r.value.secToOut[key], q)
    ensures r.Ok? ==> forall k, i | 0 <= k < |r.value.sections| && 0 <= i < |r.value.sections[k].contributions| ::
              OwnAddress(r.value.sections, r.value.addresses, r.value.secToOut, k, i)
    ensures r.Ok? ==> r.value.sections == PartsOf(p).All() && Formed(p) && Permitted(p) && Ordered(p, script)
    ensures r.Ok? ==> p.page == page && p.base == base && p.header == header
    ensures r.Ok? && Unscripted(inp) ==> !HasStray(p.bss)
  {
    hide Grouped, Synthetic, Kept, Proper, Plans, PlanOf, PartsOf, Addressed, DistinctIndices, GoodAddress, SomeBad,
         InBuckets, Formed, Permitted, Ordered, HasStray, Unscripted, ZeroedAreOther;
    var g := GroupSections(inp);
    match g
    case BadAlignment(align, path) =>
      r := Grouping.BadAlignment(align, path);
      p := Plan([], [], [], [], [], base, header, page);
    case Ok((order, builders)) =>
      GroupedIsProper(inp, order, builders);
      var image, plan, at := PlanImage(order, builders, synthetic, script, base, header, page);
      p := plan;
      if Unscripted(inp) { UnscriptedZeroed(inp, order, builders); }
      forall q | q in Kept(inp) && inp.Has(q.o, q.pos)
        ensures var key := (q.o, inp.Sec(q.o, q.pos).index);
                && key in image.addresses && key in image.secToOut
                && GoodAddress(inp, image.sections, image.addresses[key], image.secToOut[key], q)
      {
        InputSectionAddress(inp, order, builders, p, at, image.addresses, image.secToOut, q);
      }
      forall k, i | 0 <= k < |image.sections| && 0 <= i < |image.sections[k].contributions|
        ensures OwnAddress(image.sections, image.addresses, image.secToOut, k, i)
      {
        ContributionAddress(inp, order, builders, p, at, image.addresses, image.secToOut, k, i);
      }
      r := Grouping.Ok(image);
  }
}
