/** Which kind and which output name a section gets, name by name
    (`peony-object/src/section_parse.rs:42-88`, `peony-layout/src/lib.rs:3736-3751`). */
module NamesExactly {
  import opened Bytes
  import opened Objects
  import opened Placement
  import opened SectionNames

  /** Neither thread-local nor mergeable: the name alone decides. */
  predicate Named(flags: set<Flag>) { Tls !in flags && MERGE !in flags }

  lemma {:induction false} SecondByte(n: Name, prefix: Name)
    requires StartsWith(n, prefix) && |prefix| >= 3
    ensures n[1] == prefix[1] && n[2] == prefix[2]
  {
    assert n[..|prefix|][1] == n[1] && n[..|prefix|][2] == n[2];
  }

  lemma {:induction false} KindPrefixes()
    ensures Ascii(".text")[1..3] == [0x74, 0x65] && Ascii(".rodata")[1..3] == [0x72, 0x6f]
    ensures Ascii(".data")[1..3] == [0x64, 0x61] && Ascii(".bss")[1..3] == [0x62, 0x73]
    ensures Ascii(".debug")[1..3] == [0x64, 0x65] && Ascii(".debug_")[1..3] == [0x64, 0x65]
    ensures Ascii(".zdebug_")[1..3] == [0x7a, 0x64] && Ascii(".gnu.debuglto_")[1..3] == [0x67, 0x6e]
    ensures Ascii(".eh_frame")[1..3] == [0x65, 0x68]
    ensures Ascii(".init_array")[1..3] == [0x69, 0x6e] && Ascii(".fini_array")[1..3] == [0x66, 0x69]
  {
  }

  /** The second and third byte of a name that some test of the parser accepts. */
  lemma {:induction false} Begins(n: Name)
    ensures StartsWith(n, Ascii(".text")) ==> |n| > 2 && n[1] == 0x74
    ensures StartsWith(n, Ascii(".rodata")) ==> |n| > 2 && n[1] == 0x72
    ensures StartsWith(n, Ascii(".data")) ==> |n| > 2 && n[1] == 0x64 && n[2] == 0x61
    ensures StartsWith(n, Ascii(".bss")) ==> |n| > 2 && n[1] == 0x62
    ensures IsDebugName(n) ==> |n| > 2 && ((n[1] == 0x64 && n[2] == 0x65) || n[1] == 0x7a || n[1] == 0x67)
    ensures n == Ascii(".eh_frame") ==> |n| > 2 && n[1] == 0x65
    ensures StartsWith(n, Ascii(".init_array")) ==> |n| > 2 && n[1] == 0x69
    ensures StartsWith(n, Ascii(".fini_array")) ==> |n| > 2 && n[1] == 0x66
  {
    KindPrefixes();
    var all := [Ascii(".text"), Ascii(".rodata"), Ascii(".data"), Ascii(".bss"), Ascii(".debug"), Ascii(".debug_"),
      Ascii(".zdebug_"), Ascii(".gnu.debuglto_"), Ascii(".eh_frame"), Ascii(".init_array"), Ascii(".fini_array")];
    assert forall k | 0 <= k < |all| :: |all[k]| >= 3 && all[k][1..3] == [all[k][1], all[k][2]];
    forall k | 0 <= k < |all| && StartsWith(n, all[k]) ensures n[1] == all[k][1] && n[2] == all[k][2] {
      SecondByte(n, all[k]);
    }
    hide Ascii;
    assert StartsWith(n, n) by { assert n[..|n|] == n; }
  }

  /** Each kind has its own condition, and no two of them meet: the parser's tests can be read in any order. */
  lemma {:induction false} KindsExactly(n: Name, flags: set<Flag>)
    ensures var kind, named := ClassifySection(n, flags), Named(flags);
            && (kind == Tbss <==> Tls in flags && StartsWith(n, Ascii(".tbss")))
            && (kind == Tdata <==> Tls in flags && !StartsWith(n, Ascii(".tbss")))
            && (kind == MergeString <==> Tls !in flags && MERGE in flags && STRINGS in flags)
            && (kind == MergeConst <==> Tls !in flags && MERGE in flags && STRINGS !in flags)
            && (kind == Text <==> named && StartsWith(n, Ascii(".text")))
            && (kind == ReadOnly <==> named && StartsWith(n, Ascii(".rodata")))
            && (kind == Data <==> named && StartsWith(n, Ascii(".data")))
            && (kind == SectionKind.Bss <==> named && StartsWith(n, Ascii(".bss")))
            && (kind == EhFrame <==> named && n == Ascii(".eh_frame"))
            && (kind == InitArray <==>
                  named && (StartsWith(n, Ascii(".init_array")) || StartsWith(n, Ascii(".fini_array"))))
            && (kind == Debug <==> named && IsDebugName(n))
  {
    Begins(n);
    hide Ascii, IsDebugName, StartsWith;
  }

  /** The output name of an input section without a script: the whole name, or what comes before its first
      dot after the first character. */
  lemma {:induction false} ComponentExactly(utf8: Name -> bool, name: Name)
    requires utf8(name) && name != [] && name[0] < 0x80 && !StartsWith(name, Ascii(".note."))
    ensures var r := OutputSectionName(utf8, name);
            && 1 <= |r| <= |name| && name[..|r|] == r
            && (|r| == |name| || name[|r|] == 0x2e)
            && forall k | 1 <= k < |r| :: r[k] != 0x2e
  {
    hide Ascii, StartsWith;
    if NextDot(name, 1).None? { assert name[..|name|] == name; }
  }

  /** A dotted continuation goes to the same output section. */
  ghost predicate Continues(n: Name, first: Name) {
    n == first || (|first| < |n| && n[..|first|] == first && n[|first|] == 0x2e)
  }

  /** The list itself. */
  lemma {:induction false} RelroListed(n: Name)
    ensures IsRelro(n)
            <==> || n == Ascii(".data.rel.ro") || n == Ascii(".dynamic") || n == Ascii(".fini_array")
                 || n == Ascii(".got") || n == Ascii(".got.plt") || n == Ascii(".init_array")
  {
    hide Ascii;
  }

  predicate IsDefaultRelro(n: Name) {
    n in {Ascii(".dynamic"), Ascii(".fini_array"), Ascii(".got"), Ascii(".init_array")}
  }

  lemma {:induction false} RelroNames()
    ensures forall k | 1 <= k < |Ascii(".dynamic")| :: Ascii(".dynamic")[k] != 0x2e
    ensures forall k | 1 <= k < |Ascii(".fini_array")| :: Ascii(".fini_array")[k] != 0x2e
    ensures forall k | 1 <= k < |Ascii(".got")| :: Ascii(".got")[k] != 0x2e
    ensures forall k | 1 <= k < |Ascii(".init_array")| :: Ascii(".init_array")[k] != 0x2e
    ensures |Ascii(".data.rel.ro")| > 5 && Ascii(".data.rel.ro")[5] == 0x2e
    ensures |Ascii(".got.plt")| > 4 && Ascii(".got.plt")[4] == 0x2e
    ensures Ascii(".dynamic")[0] == Ascii(".fini_array")[0] == Ascii(".got")[0] == Ascii(".init_array")[0] == 0x2e
    ensures Ascii(".data.rel.ro")[0] == Ascii(".got.plt")[0] == 0x2e
  {
  }

  lemma {:induction false} NoteBegins(n: Name)
    requires StartsWith(n, Ascii(".note."))
    ensures |n| > 1 && n[1] == 0x6e
  {
    assert Ascii(".note.")[1] == 0x6e;
    SecondByte(n, Ascii(".note."));
  }

  /** An undotted RELRO name, if there is one, is the output name of all its dotted continuations. */
  lemma {:induction false} FirstComponent(utf8: Name -> bool, n: Name, first: Name)
    requires utf8(n) && IsDefaultRelro(first) && Continues(n, first)
    ensures OutputSectionName(utf8, n) == first
  {
    RelroNames();
    assert IsRelro(first);
    RelroBegins(first);
    hide Ascii;
    assert first[0] == 0x2e && forall k | 1 <= k < |first| :: first[k] != 0x2e;
    assert forall k | 0 <= k < |first| :: n[k] == n[..|first|][k] by { if n == first { assert n[..|first|] == first; } }
    if StartsWith(n, Ascii(".note.")) { NoteBegins(n); }
    hide StartsWith;
    if n != first {
      assert NextDot(n, 1) == Some(|first|);
    }
  }

  /** Without a script the output sections with a RELRO name are those of the input names `.dynamic`,
      `.fini_array`, `.got` and `.init_array`, and their continuations. */
  lemma {:induction false} DefaultRelroExactly(utf8: Name -> bool, n: Name)
    ensures IsRelro(OutputSectionName(utf8, n))
            <==> utf8(n) && exists first :: IsDefaultRelro(first) && Continues(n, first)
  {
    RelroNames();
    Unknown();
    hide StartsWith;
    if !utf8(n) { NotUtf8(utf8, n); }
    else {
      if IsRelro(OutputSectionName(utf8, n)) { OnlyFirstComponents(utf8, n); }
      if first :| IsDefaultRelro(first) && Continues(n, first) { FirstComponent(utf8, n, first); }
    }
  }

  lemma {:induction false} OnlyFirstComponents(utf8: Name -> bool, n: Name)
    requires utf8(n) && IsRelro(OutputSectionName(utf8, n))
    ensures IsDefaultRelro(OutputSectionName(utf8, n)) && Continues(n, OutputSectionName(utf8, n))
  {
    var r := OutputSectionName(utf8, n);
    RelroNames();
    RelroBegins(r);
    assert r[0] == 0x2e;
    if StartsWith(n, Ascii(".note.")) { NoteBegins(n); }
    ComponentExactly(utf8, n);
    hide OutputSectionName, StartsWith;
    if |r| == |n| { assert n == n[..|r|]; }
  }

  /** So relocated constant data shares `.data` with everything else and stays writable, although
      `.data.rel.ro` is on the list of RELRO sections. */
  lemma {:induction false} DataRelRoIsPlainData(utf8: Name -> bool, n: Name)
    requires utf8(n) && StartsWith(n, Ascii(".data.rel.ro"))
    ensures OutputSectionName(utf8, n) == Ascii(".data") && !IsRelro(OutputSectionName(utf8, n))
  {
    var d, first := Ascii(".data.rel.ro"), Ascii(".data");
    assert |first| == 5 && d[..5] == first && d[5] == 0x2e;
    assert forall k | 1 <= k < 5 :: first[k] != 0x2e;
    assert forall k | 0 <= k < |d| :: n[k] == n[..|d|][k];
    assert n[..5] == d[..5];
    if StartsWith(n, Ascii(".note.")) { NoteBegins(n); }
    assert !IsRelro(first) by { PlainData(); }
    hide StartsWith, Ascii, IsRelro;
    assert NextDot(n, 1) == Some(5);
  }

  lemma {:induction false} PlainData()
    ensures !IsRelro(Ascii(".data"))
  {
    RelroNames();
    assert |Ascii(".data")| == 5 && Ascii(".data")[1] == 0x64 && Ascii(".dynamic")[2] == 0x79
           && Ascii(".data")[2] == 0x61;
    assert Ascii(".fini_array")[1] == 0x66 && Ascii(".got")[1] == 0x67 && Ascii(".init_array")[1] == 0x69;
  }
}
