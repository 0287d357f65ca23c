/** Kinds and output names of input sections (`peony-object/src/section_parse.rs:42-97`,
    `peony-layout/src/lib.rs:3736-3751`). */
module SectionNames {
  import opened Bytes
  import opened Objects
  import opened Placement

  const MERGE := Bit(4)
  const STRINGS := Bit(5)

  predicate IsDebugName(n: Name) {
    || n == Ascii(".debug") || StartsWith(n, Ascii(".debug_")) || StartsWith(n, Ascii(".zdebug_"))
    || StartsWith(n, Ascii(".gnu.debuglto_"))
  }

  /** The kind the parser gives a section; the section type plays no part in it. */
  function ClassifySection(n: Name, flags: set<Flag>): SectionKind {
    if Tls in flags then if StartsWith(n, Ascii(".tbss")) then Tbss else Tdata
    else if MERGE in flags then if STRINGS in flags then MergeString else MergeConst
    else if StartsWith(n, Ascii(".text")) then Text
    else if StartsWith(n, Ascii(".rodata")) then ReadOnly
    else if StartsWith(n, Ascii(".data")) then Data
    else if StartsWith(n, Ascii(".bss")) then SectionKind.Bss
    else if IsDebugName(n) then Debug
    else if n == Ascii(".eh_frame") then EhFrame
    else if StartsWith(n, Ascii(".init_array")) || StartsWith(n, Ascii(".fini_array")) then InitArray
    else OtherKind
  }

  /** Every section has the kind the parser gives it. */
  predicate Parsed(objects: seq<InputObject>) {
    forall o, i | 0 <= o < |objects| && 0 <= i < |objects[o].sections| ::
      var sec := objects[o].sections[i]; sec.kind == ClassifySection(sec.name, sec.flags)
  }

  /** The position of the first dot from `i` on. */
  function NextDot(n: Name, i: nat): (d: Option<nat>)
    requires i <= |n|
    ensures d.Some? ==> i <= d.value < |n| && n[d.value] == 0x2e && forall k | i <= k < d.value :: n[k] != 0x2e
    ensures d.None? ==> forall k | i <= k < |n| :: n[k] != 0x2e
    decreases |n| - i
  {
    if i == |n| then None else if n[i] == 0x2e then Some(i) else NextDot(n, i + 1)
  }

  /** The output section of a name without a linker script: the part before the second dot. A name that is
      no UTF-8 goes to `.unknown`; one whose first character takes more than a byte stays. */
  function OutputSectionName(utf8: Name -> bool, name: Name): Name {
    var n := if utf8(name) then name else Ascii(".unknown");
    if StartsWith(n, Ascii(".note.")) || n == [] || n[0] >= 0x80 then n
    else match NextDot(n, 1) case Some(dot) => n[..dot] case None => n
  }

  /** Nothing cuts into a prefix without a second dot. */
  lemma {:induction false} PrefixStays(utf8: Name -> bool, n: Name, prefix: Name)
    requires utf8(n) && StartsWith(n, prefix) && prefix != [] && forall k | 1 <= k < |prefix| :: prefix[k] != 0x2e
    ensures StartsWith(OutputSectionName(utf8, n), prefix)
  {
    assert forall k | 0 <= k < |prefix| :: n[k] == n[..|prefix|][k];
    if n[0] < 0x80 && NextDot(n, 1).Some? {
      var dot := NextDot(n, 1).value;
      assert n[..dot][..|prefix|] == prefix;
    }
  }

  lemma {:induction false} RelroBegins(n: Name)
    requires IsRelro(n)
    ensures |n| > 2 && (n[1] == 0x64 || n[1] == 0x66 || n[1] == 0x67 || n[1] == 0x69)
  {
    assert Ascii(".data.rel.ro")[1] == 0x64 && Ascii(".dynamic")[1] == 0x64 && Ascii(".fini_array")[1] == 0x66;
    assert Ascii(".got")[1] == 0x67 && Ascii(".got.plt")[1] == 0x67 && Ascii(".init_array")[1] == 0x69;
    hide Ascii;
  }

  lemma {:induction false} ZeroedBegins(n: Name, prefix: Name)
    requires StartsWith(n, prefix) && (prefix == Ascii(".bss") || prefix == Ascii(".tbss"))
    ensures !IsRelro(n)
  {
    assert n[1] == n[..|prefix|][1] && (n[1] == 0x62 || n[1] == 0x74);
    hide IsRelro, Ascii;
    if IsRelro(n) { RelroBegins(n); }
  }

  /** Without a script a section without file contents never gets a RELRO name. */
  lemma {:induction false} NobitsIsNoRelro(utf8: Name -> bool, n: Name, flags: set<Flag>)
    requires ClassifySection(n, flags) == SectionKind.Bss || ClassifySection(n, flags) == Tbss
    ensures !IsRelro(OutputSectionName(utf8, n))
  {
    Unknown();
    hide IsRelro, IsDebugName;
    var prefix := if Tls in flags then Ascii(".tbss") else Ascii(".bss");
    assert StartsWith(n, prefix);
    assert forall k | 1 <= k < |prefix| :: prefix[k] != 0x2e;
    hide Ascii;
    if utf8(n) {
      PrefixStays(utf8, n, prefix);
      ZeroedBegins(OutputSectionName(utf8, n), prefix);
    } else {
      NotUtf8(utf8, n);
    }
  }

  lemma {:induction false} Unknown()
    ensures !IsRelro(Ascii(".unknown"))
  {
    hide IsRelro;
    if IsRelro(Ascii(".unknown")) { RelroBegins(Ascii(".unknown")); }
  }

  lemma {:induction false} NotUtf8(utf8: Name -> bool, n: Name)
    requires !utf8(n)
    ensures OutputSectionName(utf8, n) == Ascii(".unknown")
  {
    var u := Ascii(".unknown");
    var note := Ascii(".note.");
    assert u[1] == 0x75 && note[1] == 0x6e && u[0] == 0x2e;
    assert u[..|note|][1] == u[1];
    assert forall k | 1 <= k < |u| :: u[k] != 0x2e;
  }
}
