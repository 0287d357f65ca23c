/** What a loader concludes from `.gnu.version` and `.gnu.version_r` about an import: the library that must
    provide it and the version it asks for (`peony-layout/src/lib.rs:1160-1169`, `1231-1310`). */
module VersionMeaning {
  import opened Bytes
  import opened Objects
  import opened Tables
  import opened SysvHash
  import opened Verneed
  import opened VersionRecords

  // ── The names of the libraries ───────────────────────────────────────────

  /** Every needed library has its name in the dynamic strings. */
  ghost predicate SonamesRead(strings: seq<byte>, offs: seq<nat>, needed: seq<Name>) {
    |offs| == |needed| && forall i | 0 <= i < |needed| :: ReadsString(strings, offs[i], needed[i])
  }

  lemma {:induction false} SonamesStay(strings: seq<byte>, more: seq<byte>, offs: seq<nat>, needed: seq<Name>)
    requires SonamesRead(strings, offs, needed)
    ensures SonamesRead(strings + more, offs, needed)
  {
    hide ReadsString;
    forall i | 0 <= i < |needed| ensures ReadsString(strings + more, offs[i], needed[i]) {
      StringStays(strings, more, offs[i], needed[i]);
    }
  }

  /** The loop over the needed libraries; offsets have 32 bits. */
  method NameNeeded(base: seq<byte>, needed: seq<Name>) returns (dynstr: seq<byte>, sonameOff: seq<nat>)
    ensures base <= dynstr && forall i | 0 <= i < |sonameOff| :: sonameOff[i] < TWO32
    ensures |dynstr| < TWO32 ==> SonamesRead(dynstr, sonameOff, needed)
  {
    hide ReadsString, SonamesRead;
    dynstr, sonameOff := base, [];
    NoSonames(base);
    for i := 0 to |needed|
      invariant base <= dynstr && forall k | 0 <= k < |sonameOff| :: sonameOff[k] < TWO32
      invariant |dynstr| < TWO32 ==> SonamesRead(dynstr, sonameOff, needed[..i])
    {
      if |dynstr| < TWO32 { OneMoreSoname(dynstr, sonameOff, needed[..i], needed[i]); }
      assert needed[..i + 1] == needed[..i] + [needed[i]];
      sonameOff := sonameOff + [|dynstr| % TWO32];
      dynstr := dynstr + needed[i] + [0];
    }
    assert needed[..|needed|] == needed;
  }

  lemma {:induction false} NoSonames(base: seq<byte>)
    ensures forall needed: seq<Name> | needed == [] :: SonamesRead(base, [], needed)
  {
  }

  lemma {:induction false} OneMoreSoname(strings: seq<byte>, offs: seq<nat>, needed: seq<Name>, s: Name)
    requires SonamesRead(strings, offs, needed)
    ensures SonamesRead(strings + s + [0], offs + [|strings|], needed + [s])
  {
    SonamesStay(strings, s + [0], offs, needed);
    assert strings + (s + [0]) == strings + s + [0];
    StringAppended(strings, s);
    hide ReadsString;
  }

  lemma {:induction false} VersionsFollow(base: seq<byte>, rs: seq<Req>)
    ensures base <= StringsWith(base, rs)
    decreases |rs|
  {
    if rs != [] { VersionsFollow(base, rs[..|rs| - 1]); }
  }

  // ── What the records list ────────────────────────────────────────────────

  lemma {:induction false} NeedsListed(perLib: seq<seq<Aux>>, offs: seq<nat>, n: nat, need: Need)
    requires n <= |perLib|
    ensures need in NeedsOf(perLib, offs, n)
            <==> exists lib :: 0 <= lib < n && perLib[lib] != [] && need == Need(OffsetOf(offs, lib), perLib[lib])
    decreases n
  {
    hide OffsetOf;
    if n > 0 { NeedsListed(perLib, offs, n - 1, need); }
  }

  lemma {:induction false} AuxsListed(auxs: seq<Aux>)
    ensures |ReadOf(auxs)| == |auxs|
    ensures forall i | 0 <= i < |auxs| ::
              ReadOf(auxs)[i] == AuxRead(HashOf(auxs[i].version), 0, auxs[i].index, auxs[i].nameOff)
    decreases |auxs|
  {
    hide HashOf;
    if auxs != [] { AuxsListed(auxs[1..]); }
  }

  lemma {:induction false} ReadsListed(ns: seq<Need>)
    ensures |ReadsOf(ns)| == |ns|
    ensures forall i | 0 <= i < |ns| :: ReadsOf(ns)[i] == NeedRead(1, |ns[i].auxs|, ns[i].file, ReadOf(ns[i].auxs))
    decreases |ns|
  {
    hide ReadOf;
    if ns != [] { ReadsListed(ns[1..]); }
  }

  /** A record of one library has a version under index `x`. */
  predicate Lists(records: seq<NeedRead>, i: int, k: int, x: nat) {
    0 <= i < |records| && 0 <= k < |records[i].auxs| && records[i].auxs[k].other == x
  }

  /** It asks library `s` for version `v`, by name and by hash. */
  predicate AsksFor(strings: seq<byte>, records: seq<NeedRead>, i: nat, k: nat, s: Name, v: Name)
    requires i < |records| && k < |records[i].auxs|
  {
    && ReadsString(strings, records[i].file, s)
    && ReadsString(strings, records[i].auxs[k].name, v) && records[i].auxs[k].hash == HashOf(v)
  }

  /** Index `x` is listed, and whatever lists it asks library `s` for version `v`. */
  ghost predicate Binds(strings: seq<byte>, records: seq<NeedRead>, x: nat, s: Name, v: Name) {
    && (exists i, k :: Lists(records, i, k, x))
    && forall i, k | Lists(records, i, k, x) :: AsksFor(strings, records, i, k, s, v)
  }

  lemma {:induction false} AuxReads(base: seq<byte>, rs: seq<Req>, lib: nat, a: Aux)
    requires a in PerLib(base, rs, lib) && |StringsWith(base, rs)| < TWO32
    ensures ReadsString(StringsWith(base, rs), a.nameOff, a.version)
  {
    hide ReadsString, StringsWith, PerLib;
    ListedAux(base, rs, lib, a);
    var j :| 0 <= j < |rs| && rs[j].lib == lib && a == AuxFor(base, rs[..j], rs[j]);
    StringOf(base, rs, j);
  }

  /** Record `i`, version `k` of the section, back in the lists it was made from. */
  lemma {:induction false} Origin(base: seq<byte>, rs: seq<Req>, offs: seq<nat>, n: nat, i: nat, k: nat)
    returns (lib: nat)
    requires i < |NeedsOf(AllLibs(base, rs, n), offs, n)|
    requires |ReadsOf(NeedsOf(AllLibs(base, rs, n), offs, n))| == |NeedsOf(AllLibs(base, rs, n), offs, n)|
    requires k < |ReadsOf(NeedsOf(AllLibs(base, rs, n), offs, n))[i].auxs|
    ensures lib < n && k < |PerLib(base, rs, lib)|
    ensures var r, a := ReadsOf(NeedsOf(AllLibs(base, rs, n), offs, n))[i], PerLib(base, rs, lib)[k];
            r.file == OffsetOf(offs, lib) && r.auxs[k] == AuxRead(HashOf(a.version), 0, a.index, a.nameOff)
  {
    hide NeedsOf, OffsetOf, HashOf, PerLib, ReadOf, ReadsOf;
    var needs := NeedsOf(AllLibs(base, rs, n), offs, n);
    ReadsListed(needs);
    NeedsListed(AllLibs(base, rs, n), offs, n, needs[i]);
    assert needs[i] in needs;
    lib :| 0 <= lib < n && AllLibs(base, rs, n)[lib] != []
           && needs[i] == Need(OffsetOf(offs, lib), AllLibs(base, rs, n)[lib]);
    AuxsListed(needs[i].auxs);
  }

  /** And the other way. */
  lemma {:induction false} Listing(base: seq<byte>, rs: seq<Req>, offs: seq<nat>, n: nat, lib: nat, a: Aux)
    requires lib < n && a in PerLib(base, rs, lib)
    ensures exists i, k :: Lists(ReadsOf(NeedsOf(AllLibs(base, rs, n), offs, n)), i, k, a.index)
  {
    hide NeedsOf, OffsetOf, HashOf, PerLib, ReadOf, ReadsOf;
    var needs, need := NeedsOf(AllLibs(base, rs, n), offs, n), Need(OffsetOf(offs, lib), PerLib(base, rs, lib));
    NeedsListed(AllLibs(base, rs, n), offs, n, need);
    assert need in needs;
    var i :| 0 <= i < |needs| && needs[i] == need;
    ReadsListed(needs);
    AuxsListed(need.auxs);
    var k :| 0 <= k < |need.auxs| && need.auxs[k] == a;
    assert Lists(ReadsOf(needs), i, k, a.index);
  }

  // ── Imports ──────────────────────────────────────────────────────────────

  lemma {:induction false} LibOf(needed: seq<Name>, im: Import)
    ensures ReqOf(needed, im).Some? <==> im.version.Some? && im.soname.Some? && im.soname.value in needed
    ensures ReqOf(needed, im).Some? ==>
              ReqOf(needed, im).value.version == im.version.value
              && needed[ReqOf(needed, im).value.lib] == im.soname.value
  {
    hide SonameIndex;
  }

  /** The index of an import bound to version `v` of library `s` is listed in `.gnu.version_r`, read record by
      record, and there it means that version of that library and nothing else. */
  lemma {:induction false} LoaderBindsVersion(needed: seq<Name>, imports: seq<Import>, base: seq<byte>, offs: seq<nat>,
          idx: map<Req, nat>, k: nat, s: Name, v: Name)
    returns (records: seq<NeedRead>)
    requires k < |imports| && imports[k] == Import(Some(v), Some(s)) && s in needed
    requires SonamesRead(base, offs, needed) && forall i | 0 <= i < |offs| :: offs[i] < TWO32
    requires Indexed(Reqs(needed, imports), idx)
    requires |Reqs(needed, imports)| <= 65534 && |StringsWith(base, Reqs(needed, imports))| < TWO32
    ensures var rs, x := Reqs(needed, imports), VersymEntry(needed, imports, idx, 1 + k);
            && x >= 2 && Binds(StringsWith(base, rs), records, x, s, v)
            && NeedsRead(NeedsBytes(NeedsOf(AllLibs(base, rs, |needed|), offs, |needed|)), 0, records)
  {
    hide ReqOf, Reqs, StringsWith, IndexAt, NeedsOf, NeedsBytes, NeedsRead, ReadsOf, ReadsString, PerLib, HashOf,
         OffsetOf, Indexed;
    var rs, x, n := Reqs(needed, imports), VersymIndex(needed, idx, imports[k]), |needed|;
    LibOf(needed, imports[k]);
    var r := ReqOf(needed, imports[k]).value;
    VersymNamesOneRecord(needed, imports, base, idx, k);
    hide VersymIndex;
    var a :| a in PerLib(base, rs, r.lib) && a.version == r.version && a.index == x;
    Listing(base, rs, offs, n, r.lib, a);
    var needs := NeedsOf(AllLibs(base, rs, n), offs, n);
    records := ReadsOf(needs);
    ReadsListed(needs);
    var i, j :| Lists(records, i, j, x);
    assert needs != [];
    SectionReadsBack(base, rs, offs, n);
    forall i, j | Lists(records, i, j, x) ensures AsksFor(StringsWith(base, rs), records, i, j, s, v) {
      ListedAsks(needed, base, offs, rs, r, x, i, j);
    }
  }

  lemma {:induction false} ListedAsks(needed: seq<Name>, base: seq<byte>, offs: seq<nat>, rs: seq<Req>, r: Req, x: nat,
          i: nat, j: nat)
    requires SonamesRead(base, offs, needed) && r.lib < |needed| && |StringsWith(base, rs)| < TWO32
    requires NamesOneRecord(base, rs, r, x)
    requires Lists(ReadsOf(NeedsOf(AllLibs(base, rs, |needed|), offs, |needed|)), i, j, x)
    ensures AsksFor(StringsWith(base, rs), ReadsOf(NeedsOf(AllLibs(base, rs, |needed|), offs, |needed|)), i, j,
            needed[r.lib], r.version)
  {
    hide StringsWith, NeedsOf, ReadsOf, ReadsString, PerLib, HashOf;
    ReadsListed(NeedsOf(AllLibs(base, rs, |needed|), offs, |needed|));
    var lib := Origin(base, rs, offs, |needed|, i, j);
    var a := PerLib(base, rs, lib)[j];
    assert a in PerLib(base, rs, lib) && a.index == x;
    AuxReads(base, rs, lib, a);
    VersionsFollow(base, rs);
    assert ReadsString(base, offs[lib], needed[lib]);
    var more := StringsWith(base, rs)[|base|..];
    assert base + more == StringsWith(base, rs);
    StringStays(base, more, offs[lib], needed[lib]);
  }

  /** Index 1, the base version, is that of every other symbol, and of no import of a needed library's version. */
  lemma {:induction false} BaseVersionExactly(needed: seq<Name>, imports: seq<Import>, idx: map<Req, nat>, j: nat)
    requires Indexed(Reqs(needed, imports), idx) && |Reqs(needed, imports)| <= 65534
    ensures VersymEntry(needed, imports, idx, j) == 1
            <==> j > 0 && (j <= |imports| ==>
              var im := imports[j - 1]; im.version.None? || im.soname.None? || im.soname.value !in needed)
    ensures VersymEntry(needed, imports, idx, j) == 0 <==> j == 0
  {
    hide ReqOf, Reqs, SonameIndex;
    if 0 < j <= |imports| {
      var im := imports[j - 1];
      LibOf(needed, im);
      if ReqOf(needed, im).Some? {
        var r, rs := ReqOf(needed, im).value, Reqs(needed, imports);
        ReqsExactly(needed, imports, r);
        assert r in rs;
        var i :| 0 <= i < |rs| && rs[i] == r;
        assert idx[r] == 2 + i;
      }
    }
  }
}
