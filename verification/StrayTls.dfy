/** Two output sections of thread-local data: a whole layout whose `PT_TLS` starts at an address that is no
    multiple of its alignment (`peony-layout/src/lib.rs:1449-1536`, `1989-2015`, `2530-2565`). */
module StrayTls {
  import opened Bytes
  import opened Objects
  import opened Grouping
  import opened Placement
  import opened Segments
  import opened Relro
  import opened ImagePlan
  import opened PlanOrder
  import opened SectionNames
  import opened SmallLayouts
  import opened TlsBlock

  // ── The input ────────────────────────────────────────────────────────────

  function DataName(): Name { Ascii(".data") }
  function MineName(): Name { Ascii(".mytls") }
  function TdataName(): Name { Ascii(".tdata") }

  lemma {:induction false} Names()
    ensures !IsRelro(DataName()) && !IsRelro(MineName()) && !IsRelro(TdataName())
    ensures Starts(DataName(), 0x64) && Starts(MineName(), 0x6d) && Starts(TdataName(), 0x74)
  {
    assert MineName()[1] == 0x6d && TdataName()[1] == 0x74;
    assert |Ascii(".data.rel.ro")| == 12 && |Ascii(".dynamic")| == 8 && Ascii(".fini_array")[1] == 0x66;
    assert Ascii(".got")[1] == 0x67 && Ascii(".got.plt")[1] == 0x67 && Ascii(".init_array")[1] == 0x69;
    assert |DataName()| == 5 && DataName()[1] == 0x64 && DataName()[0] == MineName()[0] == TdataName()[0] == 0x2e;
    assert |MineName()| == 6 == |TdataName()|;
    hide Ascii, DataName, MineName, TdataName;
  }

  const RW: set<Flag> := {Alloc, Write}
  const RW_TLS: set<Flag> := {Alloc, Write, Tls}

  function StrayObject(): InputObject {
    InputObject("", [InputSection(1, DataName(), Data, 1, Zeros(8), 8, 8, RW, []),
                     InputSection(2, MineName(), Tdata, 1, Zeros(8), 8, 8, RW_TLS, []),
                     InputSection(3, TdataName(), Tdata, 1, Zeros(64), 64, 64, RW_TLS, [])],
                [], map[1 := 0, 2 := 1, 3 := 2], map[], [])
  }

  function StrayInput(): Grouping.Input {
    Grouping.Input([StrayObject()], (o: nat, i: nat) => true, (o: nat, i: nat) => false,
                   (n: Name) => OutputSectionName(Utf8(), n))
  }

  /** The kinds are those of the parser, and there is no script. */
  lemma {:induction false} StrayUnscripted()
    ensures DistinctIndices(StrayInput().objects) && Unscripted(StrayInput())
  {
    Classified();
    hide DataName, MineName, TdataName, ClassifySection, OutputSectionName;
    assert DefaultNames(StrayInput(), Utf8());
  }

  lemma {:induction false} Classified()
    ensures ClassifySection(DataName(), RW) == Data
    ensures ClassifySection(MineName(), RW_TLS) == Tdata == ClassifySection(TdataName(), RW_TLS)
  {
    Names();
    assert Ascii(".text")[1] == 0x74 && Ascii(".rodata")[1] == 0x72
           && Ascii(".tbss")[2] == 0x62 && TdataName()[2] == 0x64;
    assert StartsWith(DataName(), Ascii(".data"));
    assert |Ascii(".tbss")| == 5 && Ascii(".tbss")[1] == 0x74;
    assert TdataName()[..5][2] == TdataName()[2];
    hide IsDebugName, Ascii, DataName, MineName, TdataName, IsRelro;
    OtherPrefix(DataName(), 0x64, Ascii(".text"));
    OtherPrefix(DataName(), 0x64, Ascii(".rodata"));
    OtherPrefix(MineName(), 0x6d, Ascii(".tbss"));
  }

  // ── The groups ───────────────────────────────────────────────────────────

  function OfData(): Builder { Builder(DataName(), Data, RW, 8, 8, Rw, false, [Contribution(0, 1, 0, 0, 8)]) }
  function OfMine(): Builder { Builder(MineName(), Tdata, RW_TLS, 8, 8, Rw, false, [Contribution(0, 2, 1, 0, 8)]) }
  function OfTdata(): Builder { Builder(TdataName(), Tdata, RW_TLS, 64, 64, Rw, false, [Contribution(0, 3, 2, 0, 64)]) }

  function StrayOrder(): seq<Name> { [DataName(), MineName(), TdataName()] }

  function StrayBuilders(): map<Name, Builder> {
    map[][DataName() := OfData()][MineName() := OfMine()][TdataName() := OfTdata()]
  }

  lemma {:induction false} StrayKept()
    ensures Kept(StrayInput()) == [Place(0, 0), Place(0, 1), Place(0, 2)]
  {
    Names();
    hide DataName, MineName, TdataName, IsRelro, StartsWith;
    NotNote(DataName(), 0x64);
    NotNote(MineName(), 0x6d);
    NotNote(TdataName(), 0x74);
    var inp := StrayInput();
    assert inp.Keeps(0, 0) && inp.Keeps(0, 1) && inp.Keeps(0, 2);
    hide inp.Keeps;
    assert KeptIn(inp, 0, 0) == [];
    assert KeptIn(inp, 0, 1) == [] + [Place(0, 0)];
    assert KeptIn(inp, 0, 2) == [Place(0, 0)] + [Place(0, 1)];
    assert KeptIn(inp, 0, 3) == [Place(0, 0), Place(0, 1)] + [Place(0, 2)];
    assert KeptUpTo(inp, 0) == [];
    assert KeptUpTo(inp, 1) == [] + KeptIn(inp, 0, 3);
  }

  lemma {:induction false} StrayOpens()
    ensures Opens(StrayInput(), Place(0, 0), OfData()) && Opens(StrayInput(), Place(0, 1), OfMine())
            && Opens(StrayInput(), Place(0, 2), OfTdata())
  {
    SmallPowers();
    Names();
    OwnName(DataName(), 0x64);
    OwnName(MineName(), 0x6d);
    OwnName(TdataName(), 0x74);
    hide DataName, MineName, TdataName, IsRelro, OutputSectionName, IsPow2;
    assert RW * {Alloc, Write, Exec, Tls} == RW && RW_TLS * {Alloc, Write, Exec, Tls} == RW_TLS;
  }

  lemma {:induction false} NamesDiffer()
    ensures DataName() != MineName() && DataName() != TdataName() && MineName() != TdataName()
    ensures OfData().name == DataName() && OfMine().name == MineName() && OfTdata().name == TdataName()
  {
    Names();
    hide DataName, MineName, TdataName, IsRelro;
  }

  lemma {:induction false} StrayGrouped()
    ensures Grouped(StrayInput(), Kept(StrayInput()), StrayOrder(), StrayBuilders())
  {
    StrayKept();
    StrayOpens();
    NamesDiffer();
    var inp, a, b, c := StrayInput(), DataName(), MineName(), TdataName();
    NothingGrouped(inp);
    hide StrayInput, Grouped, Opens, DataName, MineName, TdataName, OfData, OfMine, OfTdata, Kept;
    GroupFirst(inp, [], [], map[], Place(0, 0), OfData());
    assert [] + [Place(0, 0)] == [Place(0, 0)] && [] + [a] == [a];
    GroupFirst(inp, [Place(0, 0)], [a], map[][a := OfData()], Place(0, 1), OfMine());
    assert [Place(0, 0)] + [Place(0, 1)] == [Place(0, 0), Place(0, 1)] && [a] + [b] == [a, b];
    GroupFirst(inp, [Place(0, 0), Place(0, 1)], [a, b], map[][a := OfData()][b := OfMine()], Place(0, 2), OfTdata());
    assert [Place(0, 0), Place(0, 1)] + [Place(0, 2)] == [Place(0, 0), Place(0, 1), Place(0, 2)];
    assert [a, b] + [c] == [a, b, c];
  }

  // ── The plan ─────────────────────────────────────────────────────────────

  /** A static executable with five program headers: nothing synthetic. */
  function StrayPlan(): Plan { Plan([], [], [], [OfData(), OfMine(), OfTdata()], [], 0x40_0000, 344, 4096) }

  lemma {:induction false} StrayBuckets()
    ensures (forall n | n in StrayOrder() :: n in StrayBuilders())
    ensures Bucketed(Listed(StrayOrder(), StrayBuilders())) == Buckets([], [], [OfData(), OfMine(), OfTdata()], [])
  {
    NamesDiffer();
    assert BucketOf(OfData()) == BucketOf(OfMine()) == BucketOf(OfTdata()) == Writable;
    var a, b, c := OfData(), OfMine(), OfTdata();
    hide DataName, MineName, TdataName, OfData, OfMine, OfTdata, BucketOf;
    assert Listed(StrayOrder(), StrayBuilders()) == [a, b, c];
    assert Bucketed([]) == NO_BUILDERS && [] + [a] == [a] && [a] + [b] == [a, b] && [a, b] + [c] == [a, b, c];
    BucketedStep([], a);
    BucketedStep([a], b);
    BucketedStep([a, b], c);
    hide Bucketed;
  }

  lemma {:induction false} StrayArranged()
    ensures Arranged(NoScript(), [], []) == [] && SortBy(TbssFirst, []) == []
    ensures var s := [OfData(), OfMine(), OfTdata()]; SortBy(Precedes, Arranged(NoScript(), s, [])) == s
  {
    Names();
    hide DataName, MineName, TdataName, SortBy, IsRelro, Arranged;
    var s := [OfData(), OfMine(), OfTdata()];
    assert s + [] == s;
    SecondByte(MineName(), 0x6d, DataName(), 0x64);
    SecondByte(TdataName(), 0x74, DataName(), 0x64);
    SecondByte(TdataName(), 0x74, MineName(), 0x6d);
    hide NameLess;
    ArrangedStays([], []);
    ArrangedStays(s, []);
    SortedStays(Precedes, s);
    SortedStays(TbssFirst, []);
  }

  /** `.tdata`, the last of the three, already has the largest alignment: nothing changes. */
  lemma {:induction false} StrayRaised()
    ensures var s := [OfData(), OfMine(), OfTdata()]; TlsRaised(s, []) == (s, []) && MaxTlsAlign(s) == 64
  {
    hide DataName, MineName, TdataName;
    var s := [OfData(), OfMine(), OfTdata()];
    assert s[..2] == [OfData(), OfMine()] && s[..2][..1] == [OfData()] && s[..2][..1][..0] == [];
    assert s + [] == s;
    assert MaxTlsAlign([]) == 1 && MaxTlsAlign([OfData()]) == 1 && MaxTlsAlign([OfData(), OfMine()]) == 8;
    hide MaxTlsAlign;
    assert s[2 := s[2].(align := 64)] == s;
  }

  lemma {:induction false} StrayPlans()
    ensures (forall n | n in StrayOrder() :: n in StrayBuilders())
    ensures Plans(StrayPlan(), Aligned(Sorted(Bucketed(Listed(StrayOrder(), StrayBuilders())), NO_BUILDERS,
            NoScript())))
  {
    Names();
    StrayBuckets();
    StrayArranged();
    StrayRaised();
    hide DataName, MineName, TdataName, SortBy, Arranged, NoScript, Bucketed, Listed, IsRelro, StrayOrder,
         StrayBuilders, TlsRaised, MaxTlsAlign;
    assert [] + [OfData(), OfMine(), OfTdata()] == [OfData(), OfMine(), OfTdata()];
  }

  // ── The addresses ────────────────────────────────────────────────────────

  lemma {:induction false} StrayParts()
    ensures var all := PartsOf(StrayPlan()).All(); |all| == 3 && all[1].addr == 0x40_1008
  {
    var p := StrayPlan();
    hide EndVa, PlacedFrom, AlignUp, DataName, MineName, TdataName;
    PlaceNone(0x40_0158, 0x40_0000);
    UpTo(0x40_0158, 4096, 0x40_1000);
    PlaceNone(0x40_1000, 0x40_0000);
    UpTo(0x40_1000, 4096, 0x40_1000);
    UpTo(0x40_1000, 8, 0x40_1000);
    UpTo(0x40_1008, 8, 0x40_1008);
    UpTo(0x40_1010, 64, 0x40_1040);
    PlaceOne(OfData(), 0x40_1000, 0x40_0000, 0x40_1000);
    PlaceMore([OfData()], OfMine(), 0x40_1000, 0x40_0000, 0x40_1008, 0x40_1008);
    PlaceMore([OfData()] + [OfMine()], OfTdata(), 0x40_1000, 0x40_0000, 0x40_1010, 0x40_1040);
    assert [OfData()] + [OfMine()] + [OfTdata()] == [OfData(), OfMine(), OfTdata()];
    PlaceNone(0x40_1080, 0x40_0000);
    assert p.RestStart() == 0x40_1000 && p.FileEnd() == 0x40_1080;
    hide SecOf;
  }

  lemma {:induction false} StrayLeads()
    ensures var s := AllBuilders(StrayPlan()); Leading(s) == Some(1) && MaxTlsAlign(s) == 64
  {
    hide DataName, MineName, TdataName;
    StrayRaised();
    hide MaxTlsAlign, TlsRaised, Leading;
    assert AllBuilders(StrayPlan()) == [OfData(), OfMine(), OfTdata()];
    FirstIs(AllBuilders(StrayPlan()), 1);
  }

  /** The sections above, as the parser reads them, laid out without a script: `PT_TLS` starts at `.mytls`,
      eight bytes into a page, and has the alignment of `.tdata`, 64. */
  lemma {:induction false} FirstTlsMisaligned()
    ensures DistinctIndices(StrayInput().objects) && Unscripted(StrayInput())
    ensures Grouped(StrayInput(), Kept(StrayInput()), StrayOrder(), StrayBuilders())
    ensures forall n | n in StrayOrder() :: n in StrayBuilders()
    ensures Plans(StrayPlan(), Aligned(Sorted(Bucketed(Listed(StrayOrder(), StrayBuilders())), NO_BUILDERS,
            NoScript())))
    ensures var s, all := AllBuilders(StrayPlan()), PartsOf(StrayPlan()).All();
            Leading(s) == Some(1) && |all| == |s| && all[1].addr % MaxTlsAlign(s) == 8
  {
    StrayParts();
    StrayLeads();
    PartSizes(StrayPlan());
    hide Grouped, Kept, Plans, Aligned, Sorted, Bucketed, Listed, StrayInput, StrayOrder, StrayBuilders, StrayPlan,
         NoScript, DistinctIndices, Unscripted, Leading, MaxTlsAlign, PartsOf, AllBuilders;
    StrayUnscripted();
    StrayGrouped();
    StrayPlans();
  }
}
