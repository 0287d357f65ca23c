/** The start of the static TLS block: the first TLS section in placement order, which need not be the one
    whose alignment is raised for all of them (`peony-layout/src/lib.rs:1989-2015`, `2530-2565`). */
module TlsBlock {
  import opened Bytes
  import opened Objects
  import opened Grouping
  import opened Placement
  import opened Segments
  import opened Relro
  import opened ImagePlan

  function FirstTdata(s: seq<Builder>): (i: Option<nat>)
    ensures i.Some? ==> i.value < |s| && s[i.value].kind == Tdata
    ensures forall j | 0 <= j < (if i.Some? then i.value else |s|) :: s[j].kind != Tdata
    decreases |s|
  {
    if s == [] then None
    else if s[0].kind == Tdata then Some(0)
    else match FirstTdata(s[1..]) case None => None case Some(i) => Some(i + 1)
  }

  /** The section that `PT_TLS` starts at. */
  function Leading(s: seq<Builder>): (i: Option<nat>)
    ensures i.Some? ==> i.value < |s| && IsTls(s[i.value])
    ensures i.None? ==> forall b | b in s :: !IsTls(b)
  {
    if FirstTdata(s).Some? then FirstTdata(s) else FirstTbss(s)
  }

  // ── The pass over the sections ───────────────────────────────────────────

  /** Section `j` is met before section `i` of pass `pass`: `.tdata` kinds in the first, `.tbss` in the second. */
  predicate Met(s: seq<Builder>, pass: nat, i: nat, j: nat) {
    && j < |s|
    && ((s[j].kind == Tdata && (pass > 0 || j < i)) || (s[j].kind == Tbss && (pass > 1 || (pass == 1 && j < i))))
  }

  /** `align` is the largest alignment met, and `at` the first section met. */
  ghost predicate Running(s: seq<Builder>, pass: nat, i: nat, align: nat, at: Option<nat>) {
    && align >= 1 && (forall j: nat | Met(s, pass, i, j) :: s[j].align <= align)
    && (align == 1 || exists j: nat :: Met(s, pass, i, j) && s[j].align == align)
    && (at.None? ==> forall j: nat :: !Met(s, pass, i, j))
    && (at.Some? ==> Met(s, pass, i, at.value) && forall j: nat | Met(s, pass, i, j) :: NotBefore(s, j, at.value))
  }

  /** Section `j` does not come before section `at`: `.tdata` kinds come before `.tbss` kinds. */
  predicate NotBefore(s: seq<Builder>, j: nat, at: nat)
    requires j < |s| && at < |s|
  {
    if s[at].kind == Tdata then s[j].kind == Tdata ==> at <= j else s[j].kind == Tbss && at <= j
  }

  predicate Wanted(pass: nat, b: Builder) { b.kind == if pass == 0 then Tdata else Tbss }

  lemma {:induction false} MetNext(s: seq<Builder>, pass: nat, i: nat, j: nat)
    requires pass < 2 && i < |s|
    ensures Met(s, pass, i + 1, j) <==> (Met(s, pass, i, j) || (j == i && Wanted(pass, s[i])))
  {
  }

  /** A bound and a first among fewer sections are ones among the same sections. */
  lemma {:induction false} SameRunning(s: seq<Builder>, pass: nat, i: nat, pass': nat, i': nat, align: nat,
          at: Option<nat>)
    requires Running(s, pass, i, align, at) && forall j: nat :: Met(s, pass, i, j) <==> Met(s, pass', i', j)
    ensures Running(s, pass', i', align, at)
  {
    if align != 1 {
      var j: nat :| Met(s, pass, i, j) && s[j].align == align;
      assert Met(s, pass', i', j);
    }
    hide Met;
  }

  lemma {:induction false} NextPass(s: seq<Builder>, pass: nat, align: nat, at: Option<nat>)
    requires Running(s, pass, |s|, align, at)
    ensures Running(s, pass + 1, 0, align, at)
  {
    forall j: nat ensures Met(s, pass + 1, 0, j) <==> Met(s, pass, |s|, j) {}
    hide Met, Running;
    SameRunning(s, pass, |s|, pass + 1, 0, align, at);
  }

  lemma {:induction false} NextSection(s: seq<Builder>, pass: nat, i: nat, align: nat, at: Option<nat>)
    requires pass < 2 && i < |s| && Running(s, pass, i, align, at)
    ensures if Wanted(pass, s[i]) then Running(s, pass, i + 1, Max(align, s[i].align), if at.Some? then at else Some(i))
            else Running(s, pass, i + 1, align, at)
  {
    forall j: nat ensures Met(s, pass, i + 1, j) <==> (Met(s, pass, i, j) || (j == i && Wanted(pass, s[i]))) {
      MetNext(s, pass, i, j);
    }
    if !Wanted(pass, s[i]) {
      hide Met, Running;
      SameRunning(s, pass, i, pass, i + 1, align, at);
    } else {
      MetKinds(s, pass, i);
      assert Met(s, pass, i + 1, i);
      if align > s[i].align && align != 1 {
        var j: nat :| Met(s, pass, i, j) && s[j].align == align;
        assert Met(s, pass, i + 1, j);
      }
      var first := if at.Some? then at.value else i;
      forall j: nat | Met(s, pass, i + 1, j) ensures NotBefore(s, j, first) {
        if j == i { assert first == i || Met(s, pass, i, first); } else { assert Met(s, pass, i, j); }
      }
    }
  }

  lemma {:induction false} MetKinds(s: seq<Builder>, pass: nat, i: nat)
    requires pass < 2
    ensures forall j: nat | Met(s, pass, i, j) ::
              j < |s| && (pass == 0 ==> s[j].kind == Tdata && j < i) && (s[j].kind == Tbss ==> j < i)
              && (s[j].kind == Tdata || s[j].kind == Tbss)
  {
  }

  lemma {:induction false} PassesEnd(s: seq<Builder>, align: nat, at: Option<nat>)
    requires Running(s, 2, 0, align, at)
    ensures at == Leading(s) && align == MaxTlsAlign(s)
  {
    assert forall j: nat :: Met(s, 2, 0, j) <==> j < |s| && IsTls(s[j]);
    hide Met;
    if at.Some? && Leading(s).Some? { assert Met(s, 2, 0, Leading(s).value); }
    forall b | b in s && IsTls(b) ensures b.align <= align {
      var j :| 0 <= j < |s| && s[j] == b;
      assert Met(s, 2, 0, j);
    }
    if align != 1 {
      var j: nat :| Met(s, 2, 0, j) && s[j].align == align;
      assert s[j] in s;
    }
  }

  /** Address and alignment of `PT_TLS`. */
  method TlsSegment(all: seq<Builder>, secs: seq<Sec>) returns (vaddr: nat, align: nat)
    requires |secs| == |all|
    ensures align == MaxTlsAlign(all)
    ensures vaddr == if Leading(all).None? then 0 else secs[Leading(all).value].addr
  {
    hide Running, MaxTlsAlign, Leading;
    vaddr, align := 0, 1;
    var at: Option<nat> := None;
    NothingMet(all);
    for pass := 0 to 2
      invariant Running(all, pass, 0, align, at) && (at.Some? ==> at.value < |all|)
      invariant vaddr == if at.None? then 0 else secs[at.value].addr
    {
      for i := 0 to |all|
        invariant Running(all, pass, i, align, at) && (at.Some? ==> at.value < |all|)
        invariant vaddr == if at.None? then 0 else secs[at.value].addr
      {
        NextSection(all, pass, i, align, at);
        if Wanted(pass, all[i]) {
          align := Max(align, all[i].align);
          if at.None? { vaddr, at := secs[i].addr, Some(i); }
        }
      }
      NextPass(all, pass, align, at);
    }
    PassesEnd(all, align, at);
  }

  lemma {:induction false} NothingMet(s: seq<Builder>)
    ensures Running(s, 0, 0, 1, None)
  {
  }

  // ── When the block is aligned ────────────────────────────────────────────

  predicate NoLarger(s: seq<Builder>, align: nat) { forall b | b in s && IsTls(b) :: b.align <= align }

  /** The section that `PT_TLS` starts at is aligned for every TLS section. */
  predicate LeadFits(s: seq<Builder>) { Leading(s).Some? ==> NoLarger(s, s[Leading(s).value].align) }

  /** The place of the section whose alignment is raised. */
  function RaisedPlace(q: Buckets): (i: Option<nat>)
    ensures i.Some? ==> i.value < |q.All()|
  {
    if LastTdata(q.rw).Some? then Some(|q.ro| + |q.rx| + LastTdata(q.rw).value)
    else if FirstTbss(q.bss).Some? then Some(|q.ro| + |q.rx| + |q.rw| + FirstTbss(q.bss).value)
    else None
  }

  /** The first TLS section is the raised one, and no larger one lies outside the writable buckets; or it
      has the largest alignment anyway. */
  predicate LeadsWell(q: Buckets) {
    var all := q.All();
    Leading(all).Some? ==>
      || (RaisedPlace(q) == Leading(all) && NoLarger(q.ro + q.rx, MaxTlsAlign(q.rw + q.bss)))
      || NoLarger(all, all[Leading(all).value].align)
  }

  /** Raising changes one alignment, to the largest of the writable buckets. */
  lemma {:induction false} RaisedAll(q: Buckets)
    ensures var now, was, m := Aligned(q).All(), q.All(), MaxTlsAlign(q.rw + q.bss);
            now == if RaisedPlace(q).None? then was
                   else was[RaisedPlace(q).value := was[RaisedPlace(q).value].(align := m)]
    ensures var i := RaisedPlace(q); i.Some? ==> IsTls(q.All()[i.value]) && q.All()[i.value] in q.rw + q.bss
  {
    hide MaxTlsAlign, LastTdata, FirstTbss;
    assert q.All() == q.ro + q.rx + q.rw + q.bss;
    if LastTdata(q.rw).Some? {
      var i := LastTdata(q.rw).value;
      assert q.rw[i] in q.rw + q.bss && IsTls(q.rw[i]);
    } else if FirstTbss(q.bss).Some? {
      var i := FirstTbss(q.bss).value;
      assert q.bss[i] in q.rw + q.bss && IsTls(q.bss[i]);
    }
  }

  lemma {:induction false} SameLeading(now: seq<Builder>, was: seq<Builder>)
    requires |now| == |was| && forall i | 0 <= i < |was| :: now[i].kind == was[i].kind
    ensures Leading(now) == Leading(was)
  {
  }

  lemma {:induction false} NoLargerAt(s: seq<Builder>, align: nat)
    ensures NoLarger(s, align) <==> forall i | 0 <= i < |s| && IsTls(s[i]) :: s[i].align <= align
  {
    assert forall i | 0 <= i < |s| :: s[i] in s;
  }

  lemma {:induction false} RaisedLeads(q: Buckets)
    ensures Leading(Aligned(q).All()) == Leading(q.All())
  {
    RaisedAll(q);
    hide Leading, Aligned, RaisedPlace, q.All, MaxTlsAlign;
    SameLeading(Aligned(q).All(), q.All());
  }

  lemma {:induction false} InnerOuter(q: Buckets)
    ensures q.All() == (q.ro + q.rx) + (q.rw + q.bss)
  {
  }

  /** The block is aligned for all its sections if and only if it leads well. */
  lemma {:induction false} LeadFitsExactly(q: Buckets)
    requires forall b | b in q.All() :: IsPow2(b.align)
    ensures LeadFits(Aligned(q).All()) <==> LeadsWell(q)
  {
    hide IsPow2, Leading, IsTls, Aligned, RaisedPlace, q.All, NoLarger, MaxTlsAlign, Attained;
    RaisedAll(q);
    RaisedLeads(q);
    InnerOuter(q);
    Largest(q.rw + q.bss);
    if Leading(q.All()).Some? {
      RaisedNoLarger(q.All(), q.ro + q.rx, q.rw + q.bss, RaisedPlace(q), MaxTlsAlign(q.rw + q.bss),
                  Leading(q.All()).value);
    }
  }

  ghost predicate Attained(s: seq<Builder>, align: nat) { exists b :: b in s && IsTls(b) && b.align == align }

  lemma {:induction false} Largest(s: seq<Builder>)
    requires forall b | b in s :: IsPow2(b.align)
    ensures NoLarger(s, MaxTlsAlign(s))
    ensures forall b | b in s && IsTls(b) :: Attained(s, MaxTlsAlign(s))
  {
    assert forall b | b in s :: b.align >= 1;
    hide IsPow2;
  }

  /** Builder `r` of `was`, one of `inner`, raised to the largest alignment `m` of `inner`. */
  lemma {:induction false} RaisedNoLarger(was: seq<Builder>, outer: seq<Builder>, inner: seq<Builder>, r: Option<nat>,
          m: nat, k: nat)
    requires was == outer + inner && NoLarger(inner, m) && k < |was| && IsTls(was[k])
    requires r.Some? ==> r.value < |was| && IsTls(was[r.value]) && was[r.value] in inner && Attained(inner, m)
    ensures var now := if r.None? then was else was[r.value := was[r.value].(align := m)];
            NoLarger(now, now[k].align) <==> ((r == Some(k) && NoLarger(outer, m)) || NoLarger(was, was[k].align))
  {
    if r.Some? {
      var i := r.value;
      NoLargerBoth(outer, inner, m);
      if i == k {
        RaisedLeading(was, k, m);
      } else {
        RaisedOther(was, inner, i, k, m);
      }
    }
  }

  lemma {:induction false} RaisedLeading(was: seq<Builder>, k: nat, m: nat)
    requires k < |was| && IsTls(was[k]) && was[k].align <= m
    ensures NoLarger(was[k := was[k].(align := m)], m) <==> NoLarger(was, m)
    ensures NoLarger(was, was[k].align) ==> NoLarger(was, m)
  {
    var now := was[k := was[k].(align := m)];
    NoLargerAt(was, m);
    NoLargerAt(now, m);
    NoLargerAt(was, was[k].align);
    SameTls(was[k], m);
    hide NoLarger, IsTls;
    assert forall j | 0 <= j < |was| && j != k :: now[j] == was[j];
  }

  lemma {:induction false} RaisedOther(was: seq<Builder>, inner: seq<Builder>, i: nat, k: nat, m: nat)
    requires k < |was| && i < |was| && i != k && IsTls(was[k]) && IsTls(was[i]) && was[i].align <= m
    requires Attained(inner, m) && forall b | b in inner :: b in was
    ensures NoLarger(was[i := was[i].(align := m)], was[k].align) <==> NoLarger(was, was[k].align)
  {
    var now, a := was[i := was[i].(align := m)], was[k].align;
    NoLargerAt(was, a);
    NoLargerAt(now, a);
    if NoLarger(was, a) {
      var b :| b in inner && IsTls(b) && b.align == m;
      assert m <= a;
    }
    hide NoLarger, IsTls;
    assert forall j | 0 <= j < |was| && j != i :: now[j] == was[j];
    assert now[i].align == m && now[i].kind == was[i].kind;
    SameTls(was[i], m);
  }

  lemma {:induction false} SameTls(b: Builder, m: nat)
    ensures IsTls(b.(align := m)) <==> IsTls(b)
  {
  }

  lemma {:induction false} NoLargerBoth(a: seq<Builder>, b: seq<Builder>, align: nat)
    ensures NoLarger(a + b, align) <==> NoLarger(a, align) && NoLarger(b, align)
  {
  }

  /** Then the address of `PT_TLS` is a multiple of its alignment. */
  lemma {:induction false} TlsBlockAligned(p: Plan, q: Buckets)
    requires Plans(p, Aligned(q)) && (forall b | b in q.All() :: IsPow2(b.align)) && LeadsWell(q)
    ensures |PartsOf(p).All()| == |AllBuilders(p)|
    ensures var k := Leading(AllBuilders(p));
            k.Some? ==> PartsOf(p).All()[k.value].addr % MaxTlsAlign(AllBuilders(p)) == 0
  {
    hide IsPow2, Plans, Aligned, LeadsWell, Leading, PartsOf, MaxTlsAlign, AllBuilders, NoLarger;
    PlanAll(p, Aligned(q));
    LeadFitsExactly(q);
    PartSizes(p);
    var k := Leading(AllBuilders(p));
    if k.Some? {
      SectionOfBuilder(p, k.value);
      SectionAligned(p, k.value);
      LargestIs(AllBuilders(p), k.value);
    }
  }

  lemma {:induction false} LargestIs(s: seq<Builder>, k: nat)
    requires k < |s| && IsTls(s[k]) && NoLarger(s, s[k].align)
    ensures MaxTlsAlign(s) == Max(s[k].align, 1)
  {
    assert s[k] in s;
  }

  /** One `.tdata` builder at most, and all TLS builders writable, with file contents or without as their kind
      says. */
  predicate OneTdata(q: Buckets) {
    && (forall b | b in q.ro + q.rx :: !IsTls(b)) && (forall b | b in q.rw :: b.kind != Tbss)
    && (forall b | b in q.bss :: b.kind != Tdata)
    && forall i, j | 0 <= i < j < |q.rw| && q.rw[i].kind == Tdata :: q.rw[j].kind != Tdata
  }

  /** What `OneTdata` says of all builders. */
  lemma {:induction false} OneTdataAt(q: Buckets)
    requires OneTdata(q)
    ensures var all, n := q.All(), |q.ro| + |q.rx|;
            && |all| == n + |q.rw| + |q.bss| && (forall i | 0 <= i < n :: !IsTls(all[i]))
            && (forall i | n <= i < n + |q.rw| :: all[i] == q.rw[i - n] && all[i].kind != Tbss)
            && (forall i | n + |q.rw| <= i < |all| :: all[i] == q.bss[i - n - |q.rw|] && all[i].kind != Tdata)
    ensures LastTdata(q.rw).Some? ==> forall i | 0 <= i < LastTdata(q.rw).value :: q.rw[i].kind != Tdata
  {
    var all, n := q.All(), |q.ro| + |q.rx|;
    assert forall i | 0 <= i < n :: all[i] == (q.ro + q.rx)[i] && all[i] in q.ro + q.rx;
    assert forall i | n <= i < n + |q.rw| :: all[i] == q.rw[i - n] && all[i] in q.rw;
    assert forall i | n + |q.rw| <= i < |all| :: all[i] == q.bss[i - n - |q.rw|] && all[i] in q.bss;
  }

  lemma {:induction false} FirstIs(s: seq<Builder>, k: nat)
    requires k < |s| && s[k].kind == Tdata && forall i | 0 <= i < k :: s[i].kind != Tdata
    ensures Leading(s) == Some(k)
  {
  }

  lemma {:induction false} FirstTbssIs(s: seq<Builder>, k: nat)
    requires k < |s| && s[k].kind == Tbss && (forall i | 0 <= i < k :: s[i].kind != Tbss)
             && forall i | 0 <= i < |s| :: s[i].kind != Tdata
    ensures Leading(s) == Some(k)
  {
  }

  lemma {:induction false} NoneIs(s: seq<Builder>)
    requires forall i | 0 <= i < |s| :: !IsTls(s[i])
    ensures Leading(s) == None
  {
  }

  lemma {:induction false} LeadingIsRaised(q: Buckets)
    requires OneTdata(q)
    ensures Leading(q.All()) == RaisedPlace(q)
  {
    var all, n := q.All(), |q.ro| + |q.rx|;
    OneTdataAt(q);
    hide q.All, Leading, LastTdata, FirstTbss, OneTdata;
    if LastTdata(q.rw).Some? {
      var k := n + LastTdata(q.rw).value;
      forall i | 0 <= i < k ensures all[i].kind != Tdata {}
      FirstIs(all, k);
    } else if FirstTbss(q.bss).Some? {
      var k := n + |q.rw| + FirstTbss(q.bss).value;
      forall i | 0 <= i < k ensures all[i].kind != Tbss {}
      forall i | 0 <= i < |all| ensures all[i].kind != Tdata {}
      FirstTbssIs(all, k);
    } else {
      forall i | 0 <= i < |all| ensures !IsTls(all[i]) {}
      NoneIs(all);
    }
  }

  /** That is enough. */
  lemma {:induction false} OneTdataLeads(q: Buckets)
    requires OneTdata(q)
    ensures LeadsWell(q)
  {
    LeadingIsRaised(q);
    hide q.All, Leading, RaisedPlace, MaxTlsAlign;
  }
}
