/** A writable and executable section with a RELRO name: a whole layout in which another section's byte lies
    on a page of the `PT_GNU_RELRO` span (`peony-layout/src/lib.rs:1449-1536`, `1923-2067`, `3002-3058`). */
module StrayRelro {
  import opened Bytes
  import opened Objects
  import opened Grouping
  import opened Placement
  import opened Segments
  import opened Relro
  import opened ImagePlan
  import opened PlanOrder
  import opened SectionNames
  import opened SmallLayouts

  /** Byte `x` of the span and byte `y` of a section without a RELRO name lie on one page. */
  ghost predicate SharesAPage(p: Plan, x: nat, s: Sec, y: nat) {
    && p.page > 0 && InSpan(p, x) && s in PartsOf(p).All() && !IsRelro(s.name) && Holds(s, y)
    && x / p.page == y / p.page
  }

  // ── The input ────────────────────────────────────────────────────────────

  function InitArrayName(): Name { Ascii(".init_array") }
  function TextName(): Name { Ascii(".text") }
  function DynamicName(): Name { Ascii(".dynamic") }
  function DynstrName(): Name { Ascii(".dynstr") }

  lemma {:induction false} Names()
    ensures IsRelro(InitArrayName()) && IsRelro(DynamicName()) && !IsRelro(TextName())
    ensures Starts(InitArrayName(), 0x69) && Starts(TextName(), 0x74)
  {
    assert TextName()[1] == 0x74;
    hide IsRelro;
    if IsRelro(TextName()) { RelroBegins(TextName()); }
  }

  const INIT_FLAGS: set<Flag> := {Alloc, Write, Exec}
  const TEXT_FLAGS: set<Flag> := {Alloc, Exec}

  /** One constructor, in a section that is also executable, and some code. */
  function StrayObject(): InputObject {
    InputObject("", [InputSection(1, InitArrayName(), InitArray, 14, Zeros(8), 8, 8, INIT_FLAGS, []),
                     InputSection(2, TextName(), Text, 1, Zeros(16), 8, 16, TEXT_FLAGS, [])],
                [], map[1 := 0, 2 := 1], map[], [])
  }

  function StrayInput(): Grouping.Input {
    Grouping.Input([StrayObject()], (o: nat, i: nat) => true, (o: nat, i: nat) => false,
                   (n: Name) => OutputSectionName(Utf8(), n))
  }

  /** The kinds are those of the parser, and there is no script. */
  lemma {:induction false} StrayUnscripted()
    ensures DistinctIndices(StrayInput().objects) && Unscripted(StrayInput())
  {
    Classified();
    hide InitArrayName, TextName, ClassifySection, OutputSectionName;
    assert DefaultNames(StrayInput(), Utf8());
  }

  lemma {:induction false} Classified()
    ensures ClassifySection(InitArrayName(), INIT_FLAGS) == InitArray
    ensures ClassifySection(TextName(), TEXT_FLAGS) == Text
  {
    Names();
    var n := InitArrayName();
    assert Ascii(".text")[1] == 0x74 && Ascii(".rodata")[1] == 0x72 && Ascii(".data")[1] == 0x64
           && Ascii(".bss")[1] == 0x62 && Ascii(".eh_frame")[1] == 0x65;
    assert StartsWith(n, Ascii(".init_array")) && StartsWith(TextName(), Ascii(".text"));
    hide IsDebugName, Ascii, InitArrayName, TextName, StartsWith, IsRelro;
    OtherPrefix(n, 0x69, Ascii(".text"));
    OtherPrefix(n, 0x69, Ascii(".rodata"));
    OtherPrefix(n, 0x69, Ascii(".data"));
    OtherPrefix(n, 0x69, Ascii(".bss"));
    OtherPrefix(n, 0x69, Ascii(".eh_frame"));
    NoDebugName(n, 0x69);
  }

  // ── The groups ───────────────────────────────────────────────────────────

  function InitArrays(): Builder {
    Builder(InitArrayName(), InitArray, INIT_FLAGS, 8, 8, Rx, false, [Contribution(0, 1, 0, 0, 8)])
  }

  function Code(): Builder { Builder(TextName(), Text, TEXT_FLAGS, 8, 16, Rx, false, [Contribution(0, 2, 1, 0, 16)]) }

  function StrayOrder(): seq<Name> { [InitArrayName(), TextName()] }

  function StrayBuilders(): map<Name, Builder> { map[][InitArrayName() := InitArrays()][TextName() := Code()] }

  lemma {:induction false} StrayKept()
    ensures Kept(StrayInput()) == [Place(0, 0), Place(0, 1)]
  {
    Names();
    hide InitArrayName, TextName, IsRelro, StartsWith;
    NotNote(InitArrayName(), 0x69);
    NotNote(TextName(), 0x74);
    var inp := StrayInput();
    assert inp.Keeps(0, 0) && inp.Keeps(0, 1);
    hide inp.Keeps;
    assert KeptIn(inp, 0, 0) == [];
    assert KeptIn(inp, 0, 1) == [] + [Place(0, 0)];
    assert KeptIn(inp, 0, 2) == [Place(0, 0)] + [Place(0, 1)];
    assert KeptUpTo(inp, 0) == [];
    assert KeptUpTo(inp, 1) == [] + KeptIn(inp, 0, 2);
  }

  lemma {:induction false} StrayOpens()
    ensures Opens(StrayInput(), Place(0, 0), InitArrays()) && Opens(StrayInput(), Place(0, 1), Code())
  {
    SmallPowers();
    Names();
    OwnName(InitArrayName(), 0x69);
    OwnName(TextName(), 0x74);
    hide InitArrayName, TextName, IsRelro, OutputSectionName, IsPow2;
    assert INIT_FLAGS * {Alloc, Write, Exec, Tls} == INIT_FLAGS && TEXT_FLAGS * {Alloc, Write, Exec, Tls} == TEXT_FLAGS;
  }

  lemma {:induction false} NamesDiffer()
    ensures InitArrayName() != TextName() && InitArrays().name == InitArrayName() && Code().name == TextName()
  {
    Names();
    hide InitArrayName, TextName, IsRelro;
  }

  lemma {:induction false} StrayGrouped()
    ensures Grouped(StrayInput(), Kept(StrayInput()), StrayOrder(), StrayBuilders())
  {
    StrayKept();
    StrayOpens();
    NamesDiffer();
    var inp, a, b := StrayInput(), InitArrayName(), TextName();
    NothingGrouped(inp);
    hide StrayInput, Grouped, Opens, InitArrayName, TextName, InitArrays, Code, Kept;
    GroupFirst(inp, [], [], map[], Place(0, 0), InitArrays());
    assert [] + [Place(0, 0)] == [Place(0, 0)] && [] + [a] == [a];
    GroupFirst(inp, [Place(0, 0)], [a], map[][a := InitArrays()], Place(0, 1), Code());
    assert [Place(0, 0)] + [Place(0, 1)] == [Place(0, 0), Place(0, 1)] && [a] + [b] == [a, b];
  }

  // ── The plan ─────────────────────────────────────────────────────────────

  function Dynamic(): Builder { Builder(DynamicName(), Data, {Alloc, Write}, 8, 256, Rw, false, []) }

  function Dynstr(): Builder { Builder(DynstrName(), OtherKind, {Alloc}, 1, 32, Ro, false, []) }

  function StraySynthetic(): Buckets { Buckets([Dynstr()], [], [Dynamic()], []) }

  /** A shared object with seven program headers and the usual page size. */
  function StrayPlan(): Plan { Plan([Dynstr()], [InitArrays(), Code()], [Dynamic()], [], [], 0, 456, 4096) }

  lemma {:induction false} StrayBuckets()
    ensures (forall n | n in StrayOrder() :: n in StrayBuilders())
    ensures Bucketed(Listed(StrayOrder(), StrayBuilders())) == Buckets([], [InitArrays(), Code()], [], [])
  {
    NamesDiffer();
    assert BucketOf(InitArrays()) == BucketOf(Code()) == Executable;
    var a, b := InitArrays(), Code();
    hide InitArrayName, TextName, InitArrays, Code, BucketOf;
    assert Listed(StrayOrder(), StrayBuilders()) == [a, b];
    assert Bucketed([]) == NO_BUILDERS && [] + [a] == [a] && [a] + [b] == [a, b];
    BucketedStep([], a);
    BucketedStep([a], b);
    hide Bucketed;
  }

  lemma {:induction false} StrayArranged()
    ensures Arranged(NoScript(), [], [Dynstr()]) == [Dynstr()] && Arranged(NoScript(), [], []) == []
    ensures Arranged(NoScript(), [InitArrays(), Code()], []) == [InitArrays(), Code()]
    ensures SortBy(Precedes, Arranged(NoScript(), [], [Dynamic()])) == [Dynamic()] && SortBy(TbssFirst, []) == []
  {
    Names();
    hide InitArrayName, TextName, DynamicName, DynstrName, SortBy, IsRelro, Arranged;
    assert [] + [Dynstr()] == [Dynstr()] && [] + [Dynamic()] == [Dynamic()] && [InitArrays(), Code()] + []
           == [InitArrays(), Code()];
    SecondByte(TextName(), 0x74, InitArrayName(), 0x69);
    ArrangedStays([], [Dynstr()]);
    ArrangedStays([], [Dynamic()]);
    ArrangedStays([], []);
    ArrangedStays([InitArrays(), Code()], []);
    SortedStays(Precedes, [Dynamic()]);
    SortedStays(TbssFirst, []);
  }

  lemma {:induction false} NoTls()
    ensures TlsRaised([Dynamic()], []) == ([Dynamic()], [])
  {
    assert [Dynamic()][..0] == [];
  }

  lemma {:induction false} StrayPlans()
    ensures (forall n | n in StrayOrder() :: n in StrayBuilders())
    ensures Plans(StrayPlan(), Aligned(Sorted(Bucketed(Listed(StrayOrder(), StrayBuilders())), StraySynthetic(),
            NoScript())))
  {
    Names();
    StrayBuckets();
    StrayArranged();
    NoTls();
    hide InitArrayName, TextName, DynamicName, DynstrName, SortBy, Arranged, NoScript, Bucketed, Listed, IsRelro,
         StrayOrder, StrayBuilders, TlsRaised;
    assert [Dynamic()] + [] == [Dynamic()];
  }

  // ── The addresses ────────────────────────────────────────────────────────

  function StraySecs(): seq<Sec> {
    [SecOf(Dynstr(), 456, 0), SecOf(InitArrays(), 4096, 0), SecOf(Code(), 4104, 0), SecOf(Dynamic(), 8192, 0)]
  }

  lemma {:induction false} StrayParts()
    ensures PartsOf(StrayPlan()).All() == StraySecs()
  {
    var p := StrayPlan();
    hide EndVa, PlacedFrom, AlignUp, InitArrayName, TextName, DynamicName, DynstrName;
    UpTo(456, 1, 456);
    UpTo(488, 4096, 4096);
    UpTo(4096, 8, 4096);
    UpTo(4104, 8, 4104);
    UpTo(4120, 4096, 8192);
    UpTo(8192, 8, 8192);
    PlaceOne(Dynstr(), 456, 0, 456);
    PlaceOne(InitArrays(), 4096, 0, 4096);
    assert [InitArrays()] + [Code()] == [InitArrays(), Code()];
    PlaceMore([InitArrays()], Code(), 4096, 0, 4104, 4104);
    PlaceOne(Dynamic(), 8192, 0, 8192);
    PlaceNone(8448, 0);
    assert p.RoStart() == 456 && p.RxStart() == 4096 && p.RwStart() == 8192 && p.RestStart() == p.FileEnd() == 8448;
    hide SecOf;
    assert PlacedFrom(p.rx, p.RxStart(), p.base) == [SecOf(InitArrays(), 4096, 0)] + [SecOf(Code(), 4104, 0)];
  }

  lemma {:induction false} RwPush(secs: seq<Sec>, s: Sec)
    ensures RwOf(secs + [s]) == if IsRw(s) then RwOf(secs) + [s] else RwOf(secs)
  {
    assert (secs + [s])[..|secs|] == secs;
    assert RwOf(secs) + [] == RwOf(secs);
  }

  lemma {:induction false} StrayRw(a: Sec, b: Sec, c: Sec, d: Sec)
    requires !IsRw(a) && IsRw(b) && !IsRw(c) && IsRw(d)
    ensures RwOf([a, b, c, d]) == [b, d]
  {
    hide IsRw;
    assert RwOf([]) == [];
    hide RwOf;
    assert [] + [a] == [a] && [a] + [b] == [a, b] && [a, b] + [c] == [a, b, c] && [a, b, c] + [d] == [a, b, c, d];
    assert [] + [b] == [b] && [b] + [d] == [b, d];
    RwPush([], a);
    RwPush([a], b);
    RwPush([a, b], c);
    RwPush([a, b, c], d);
  }

  /** A RELRO section and another one further on. */
  lemma {:induction false} ScanApart(rw: seq<Sec>)
    requires |rw| == 2 && IsRelro(rw[0].name) && rw[0].addr + rw[0].size != rw[1].addr
    ensures Scan(rw, 0, None) == Some(Span(rw[0].addr, rw[0].addr + rw[0].size, rw[0].offset))
  {
    hide IsRelro;
    var one := Some(Span(rw[0].addr, rw[0].addr + rw[0].size, rw[0].offset));
    assert Scan(rw, 1, one) == one;
  }

  lemma {:induction false} StrayShares()
    ensures SharesAPage(StrayPlan(), 0x1000, SecOf(Code(), 0x1008, 0), 0x1008)
  {
    StrayParts();
    Names();
    hide IsRelro, InitArrayName, TextName, DynamicName, DynstrName, PartsOf;
    var p, s := StrayPlan(), StraySecs();
    assert p.page == 4096;
    hide StrayPlan;
    StrayRw(s[0], s[1], s[2], s[3]);
    assert s == [s[0], s[1], s[2], s[3]];
    hide RwOf, Scan;
    ScanApart([s[1], s[3]]);
    assert s[2] in s;
  }

  /** The sections above, as the parser reads them, grouped, bucketed, ordered and placed as the layout does
      without a script: the `.init_array` is writable, so the scan starts the span with it, but executable, so
      it lies in the segment and on the page of `.text`. */
  lemma {:induction false} StrayRelroSharesAPage()
    ensures DistinctIndices(StrayInput().objects) && Unscripted(StrayInput())
    ensures Grouped(StrayInput(), Kept(StrayInput()), StrayOrder(), StrayBuilders())
    ensures Synthetic(StraySynthetic().All()) && InBuckets(StraySynthetic())
    ensures (forall n | n in StrayOrder() :: n in StrayBuilders())
    ensures Plans(StrayPlan(), Aligned(Sorted(Bucketed(Listed(StrayOrder(), StrayBuilders())), StraySynthetic(),
            NoScript())))
    ensures SharesAPage(StrayPlan(), 0x1000, SecOf(Code(), 0x1008, 0), 0x1008)
  {
    StrayMade();
    hide Grouped, Kept, Plans, Aligned, Sorted, Bucketed, Listed, SharesAPage, StrayInput, StrayOrder, StrayBuilders,
         StrayPlan, StraySynthetic, Synthetic, InBuckets, NoScript, Code, DistinctIndices, Unscripted;
    StrayUnscripted();
    StrayGrouped();
    StrayPlans();
    StrayShares();
  }

  lemma {:induction false} StrayMade()
    ensures Synthetic(StraySynthetic().All()) && InBuckets(StraySynthetic())
  {
    SmallPowers();
    hide InitArrayName, TextName, DynamicName, DynstrName, IsPow2, IsRelro;
  }
}
