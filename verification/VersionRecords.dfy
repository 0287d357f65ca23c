/** The bytes of `.gnu.version_r` and `.gnu.version`, and what a loader reads back from them
    (LSB Core section 10.7, "Symbol Versioning"; `peony-layout/src/lib.rs:1257-1310`). */
module VersionRecords {
  import opened Bytes
  import opened Objects
  import opened Tables
  import opened SysvHash
  import opened Verneed

  /** One library's record: the string offset of its name and the versions it must provide. */
  datatype Need = Need(file: nat, auxs: seq<Aux>)

  function AuxBytes(a: Aux, next: nat): (s: seq<byte>)
    ensures |s| == 16
  {
    Le(HashOf(a.version), 4) + Le(0, 2) + Le(a.index, 2) + Le(a.nameOff, 4) + Le(next, 4)
  }

  function AuxsBytes(auxs: seq<Aux>): (s: seq<byte>)
    ensures |s| == 16 * |auxs|
    decreases |auxs|
  {
    if auxs == [] then [] else AuxBytes(auxs[0], if |auxs| > 1 then 16 else 0) + AuxsBytes(auxs[1..])
  }

  /** The header of a record with `count` entries; `next` is the distance to the following record. */
  function HeaderBytes(count: nat, file: nat, next: nat): (s: seq<byte>)
    ensures |s| == 16
  {
    Le(1, 2) + Le(count, 2) + Le(file, 4) + Le(16, 4) + Le(next, 4)
  }

  /** The count has 16 bits. */
  function Distance(n: Need, more: bool): nat { if more then 16 + 16 * (|n.auxs| % TWO16) else 0 }

  function NeedsBytes(ns: seq<Need>): seq<byte>
    decreases |ns|
  {
    if ns == [] then []
    else
      HeaderBytes(|ns[0].auxs|, ns[0].file, Distance(ns[0], |ns| > 1)) + AuxsBytes(ns[0].auxs) + NeedsBytes(ns[1..])
  }

  // ── Reading ──────────────────────────────────────────────────────────────

  datatype AuxRead = AuxRead(hash: nat, flags: nat, other: nat, name: nat)

  datatype NeedRead = NeedRead(version: nat, count: nat, file: nat, auxs: seq<AuxRead>)

  function AuxReadAt(blob: seq<byte>, off: nat): AuxRead {
    AuxRead(Field(blob, off, 4), Field(blob, off + 4, 2), Field(blob, off + 6, 2), Field(blob, off + 8, 4))
  }

  /** Following `vna_next` from `off` until it is 0 reads exactly `rs`, all of it inside the blob. */
  ghost predicate AuxsRead(blob: seq<byte>, off: nat, rs: seq<AuxRead>)
    decreases |rs|
  {
    && rs != [] && off + 16 <= |blob| && rs[0] == AuxReadAt(blob, off)
    && var next := Field(blob, off + 12, 4);
       if |rs| == 1 then next == 0 else next != 0 && AuxsRead(blob, off + next, rs[1..])
  }

  /** Following `vn_next` from `off` until it is 0, and `vn_aux` from each record, reads exactly `rs`. */
  ghost predicate NeedsRead(blob: seq<byte>, off: nat, rs: seq<NeedRead>)
    decreases |rs|
  {
    && rs != [] && off + 16 <= |blob|
    && rs[0].version == Field(blob, off, 2) && rs[0].count == Field(blob, off + 2, 2)
       && rs[0].file == Field(blob, off + 4, 4)
    && AuxsRead(blob, off + Field(blob, off + 8, 4), rs[0].auxs)
    && var next := Field(blob, off + 12, 4);
       if |rs| == 1 then next == 0 else next != 0 && NeedsRead(blob, off + next, rs[1..])
  }

  lemma {:induction false} AuxsReadOnce(blob: seq<byte>, off: nat, rs: seq<AuxRead>, qs: seq<AuxRead>)
    requires AuxsRead(blob, off, rs) && AuxsRead(blob, off, qs)
    ensures rs == qs
    decreases |rs|
  {
    hide Field, AuxReadAt;
    assert rs == [rs[0]] + rs[1..] && qs == [qs[0]] + qs[1..];
    if |rs| > 1 { AuxsReadOnce(blob, off + Field(blob, off + 12, 4), rs[1..], qs[1..]); }
  }

  /** The records read in one way only. */
  lemma {:induction false} NeedsReadOnce(blob: seq<byte>, off: nat, rs: seq<NeedRead>, qs: seq<NeedRead>)
    requires NeedsRead(blob, off, rs) && NeedsRead(blob, off, qs)
    ensures rs == qs
    decreases |rs|
  {
    hide Field, AuxsRead;
    assert rs == [rs[0]] + rs[1..] && qs == [qs[0]] + qs[1..];
    AuxsReadOnce(blob, off + Field(blob, off + 8, 4), rs[0].auxs, qs[0].auxs);
    if |rs| > 1 { NeedsReadOnce(blob, off + Field(blob, off + 12, 4), rs[1..], qs[1..]); }
  }

  function ReadOf(auxs: seq<Aux>): seq<AuxRead>
    decreases |auxs|
  {
    if auxs == [] then []
    else [AuxRead(HashOf(auxs[0].version), 0, auxs[0].index, auxs[0].nameOff)] + ReadOf(auxs[1..])
  }

  function ReadsOf(ns: seq<Need>): seq<NeedRead>
    decreases |ns|
  {
    if ns == [] then []
    else [NeedRead(1, |ns[0].auxs|, ns[0].file, ReadOf(ns[0].auxs))] + ReadsOf(ns[1..])
  }

  predicate AuxFits(a: Aux) { a.index < TWO16 && a.nameOff < TWO32 }

  /** Each record lists something, and its fields hold their values. */
  predicate NeedFits(n: Need) {
    n.auxs != [] && |n.auxs| < TWO16 && n.file < TWO32 && forall i | 0 <= i < |n.auxs| :: AuxFits(n.auxs[i])
  }

  lemma {:induction false} FieldAfter(blob: seq<byte>, pre: seq<byte>, v: nat, w: nat, post: seq<byte>)
    requires w in {1, 2, 4, 8} && v < Pow256(w) && blob == pre + Le(v, w) + post
    ensures Field(blob, |pre|, w) == v
  {
    FieldOf(pre, v, w, post);
  }

  /** Regroups a record of five fields around each of them. */
  lemma {:induction false} Regroup(pre: seq<byte>, a: seq<byte>, b: seq<byte>, c: seq<byte>, d: seq<byte>,
          e: seq<byte>, post: seq<byte>)
    ensures var blob := pre + (a + b + c + d + e) + post;
            && blob == pre + a + (b + c + d + e + post)
            && blob == (pre + a) + b + (c + d + e + post)
            && blob == (pre + a + b) + c + (d + e + post)
            && blob == (pre + a + b + c) + d + (e + post)
            && blob == (pre + a + b + c + d) + e + post
  {
  }

  lemma {:induction false} AuxFields(blob: seq<byte>, pre: seq<byte>, a: Aux, next: nat, post: seq<byte>)
    requires AuxFits(a) && next < TWO32 && blob == pre + AuxBytes(a, next) + post
    ensures var o := |pre|;
            && Field(blob, o, 4) == HashOf(a.version) && Field(blob, o + 4, 2) == 0 && Field(blob, o + 6, 2) == a.index
            && Field(blob, o + 8, 4) == a.nameOff && Field(blob, o + 12, 4) == next
  {
    hide HashOf, Field, Pow256;
    Pow256Values();
    var h, f, i, n, x := Le(HashOf(a.version), 4), Le(0, 2), Le(a.index, 2), Le(a.nameOff, 4), Le(next, 4);
    hide Le;
    Regroup(pre, h, f, i, n, x, post);
    FieldAfter(blob, pre, HashOf(a.version), 4, f + i + n + x + post);
    FieldAfter(blob, pre + h, 0, 2, i + n + x + post);
    FieldAfter(blob, pre + h + f, a.index, 2, n + x + post);
    FieldAfter(blob, pre + h + f + i, a.nameOff, 4, x + post);
    FieldAfter(blob, pre + h + f + i + n, next, 4, post);
  }

  lemma {:induction false} HeaderFields(blob: seq<byte>, pre: seq<byte>, count: nat, file: nat, next: nat,
          post: seq<byte>)
    requires count < TWO16 && file < TWO32 && next < TWO32 && blob == pre + HeaderBytes(count, file, next) + post
    ensures var o := |pre|;
            && Field(blob, o, 2) == 1 && Field(blob, o + 2, 2) == count && Field(blob, o + 4, 4) == file
            && Field(blob, o + 8, 4) == 16 && Field(blob, o + 12, 4) == next
  {
    hide Field, Pow256;
    Pow256Values();
    var v, c, f, a, x := Le(1, 2), Le(count, 2), Le(file, 4), Le(16, 4), Le(next, 4);
    hide Le;
    Regroup(pre, v, c, f, a, x, post);
    FieldAfter(blob, pre, 1, 2, c + f + a + x + post);
    FieldAfter(blob, pre + v, count, 2, f + a + x + post);
    FieldAfter(blob, pre + v + c, file, 4, a + x + post);
    FieldAfter(blob, pre + v + c + f, 16, 4, x + post);
    FieldAfter(blob, pre + v + c + f + a, next, 4, post);
  }

  lemma {:induction false} AuxsReadBack(blob: seq<byte>, pre: seq<byte>, auxs: seq<Aux>, post: seq<byte>)
    requires auxs != [] && forall i | 0 <= i < |auxs| :: AuxFits(auxs[i])
    requires blob == pre + AuxsBytes(auxs) + post
    ensures AuxsRead(blob, |pre|, ReadOf(auxs)) && |ReadOf(auxs)| == |auxs|
    decreases |auxs|
  {
    hide AuxBytes, Field, HashOf;
    var head := AuxBytes(auxs[0], if |auxs| > 1 then 16 else 0);
    var rest := AuxsBytes(auxs[1..]);
    assert blob == pre + head + (rest + post);
    AuxFields(blob, pre, auxs[0], if |auxs| > 1 then 16 else 0, rest + post);
    if |auxs| > 1 {
      assert blob == (pre + head) + rest + post;
      AuxsReadBack(blob, pre + head, auxs[1..], post);
    }
  }

  lemma {:induction false} FirstNeed(blob: seq<byte>, pre: seq<byte>, ns: seq<Need>) returns (done: seq<byte>)
    requires ns != [] && NeedFits(ns[0]) && blob == pre + NeedsBytes(ns)
    ensures |done| == |pre| + 16 + 16 * |ns[0].auxs| && blob == done + NeedsBytes(ns[1..])
    ensures var o := |pre|;
            && Field(blob, o, 2) == 1 && Field(blob, o + 2, 2) == |ns[0].auxs| && Field(blob, o + 4, 4) == ns[0].file
            && Field(blob, o + 8, 4) == 16 && Field(blob, o + 12, 4) == (if |ns| > 1 then 16 + 16 * |ns[0].auxs| else 0)
            && AuxsRead(blob, o + 16, ReadOf(ns[0].auxs))
  {
    hide HeaderBytes, Field, AuxsBytes, AuxFits, AuxsRead, ReadOf;
    var n, count := ns[0], |ns[0].auxs|;
    var next := Distance(n, |ns| > 1);
    assert next < TWO32 && next == if |ns| > 1 then 16 + 16 * count else 0;
    hide Distance;
    var head, auxs, rest := HeaderBytes(count, n.file, next), AuxsBytes(n.auxs), NeedsBytes(ns[1..]);
    hide NeedsBytes;
    RegroupThree(pre, head, auxs, rest);
    HeaderFields(blob, pre, count, n.file, next, auxs + rest);
    AuxsReadBack(blob, pre + head, n.auxs, rest);
    done := pre + head + auxs;
  }

  /** Walking the records to the one whose `vn_next` is 0 reads back exactly the libraries and their
      versions. */
  lemma {:induction false} NeedsReadBack(blob: seq<byte>, pre: seq<byte>, ns: seq<Need>)
    requires ns != [] && forall i | 0 <= i < |ns| :: NeedFits(ns[i])
    requires blob == pre + NeedsBytes(ns)
    ensures NeedsRead(blob, |pre|, ReadsOf(ns)) && |ReadsOf(ns)| == |ns|
    decreases |ns|
  {
    hide Field, AuxsRead, ReadOf, NeedsBytes;
    assert NeedFits(ns[0]);
    var done := FirstNeed(blob, pre, ns);
    if |ns| > 1 {
      assert forall i | 0 <= i < |ns| - 1 :: NeedFits(ns[1..][i]);
      hide NeedFits;
      NeedsReadBack(blob, done, ns[1..]);
    }
  }

  lemma {:induction false} RegroupThree(pre: seq<byte>, a: seq<byte>, b: seq<byte>, c: seq<byte>)
    ensures var blob := pre + (a + b + c);
            blob == pre + a + (b + c) && blob == (pre + a) + b + c && blob == (pre + a + b) + c
  {
  }

  // ── Building ─────────────────────────────────────────────────────────────

  function OffsetOf(sonameOff: seq<nat>, lib: nat): nat { if lib < |sonameOff| then sonameOff[lib] else 0 }

  /** One record for each library, among the first `n`, that must provide some version. */
  function NeedsOf(perLib: seq<seq<Aux>>, sonameOff: seq<nat>, n: nat): seq<Need>
    requires n <= |perLib|
  {
    if n == 0 then []
    else
      var before := NeedsOf(perLib, sonameOff, n - 1);
      if perLib[n - 1] == [] then before else before + [Need(OffsetOf(sonameOff, n - 1), perLib[n - 1])]
  }

  function Picked(perLib: seq<seq<Aux>>, sonameOff: seq<nat>, active: seq<nat>): (ns: seq<Need>)
    requires forall i | 0 <= i < |active| :: active[i] < |perLib|
    ensures |ns| == |active|
    ensures forall i | 0 <= i < |active| :: ns[i] == Need(OffsetOf(sonameOff, active[i]), perLib[active[i]])
  {
    seq(|active|, i requires 0 <= i < |active| => Need(OffsetOf(sonameOff, active[i]), perLib[active[i]]))
  }

  method ActiveLibs(perLib: seq<seq<Aux>>, ghost sonameOff: seq<nat>) returns (active: seq<nat>)
    ensures forall i | 0 <= i < |active| :: active[i] < |perLib|
    ensures Picked(perLib, sonameOff, active) == NeedsOf(perLib, sonameOff, |perLib|)
  {
    active := [];
    for l := 0 to |perLib|
      invariant forall i | 0 <= i < |active| :: active[i] < |perLib|
      invariant Picked(perLib, sonameOff, active) == NeedsOf(perLib, sonameOff, l)
    {
      if perLib[l] != [] {
        assert Picked(perLib, sonameOff, active + [l])
            == Picked(perLib, sonameOff, active) + [Need(OffsetOf(sonameOff, l), perLib[l])];
        active := active + [l];
      }
    }
  }

  method BuildVerneed(perLib: seq<seq<Aux>>, sonameOff: seq<nat>) returns (verneed: seq<byte>, num: nat)
    ensures verneed == NeedsBytes(NeedsOf(perLib, sonameOff, |perLib|))
    ensures num == |NeedsOf(perLib, sonameOff, |perLib|)|
  {
    hide NeedsBytes, NeedsOf, HeaderBytes, AuxsBytes, AuxBytes, OffsetOf, Distance;
    var active := ActiveLibs(perLib, sonameOff);
    ghost var ns := Picked(perLib, sonameOff, active);
    verneed, num := [], 0;
    NoNeeds(ns);
    for li := 0 to |active|
      invariant verneed + NeedsBytes(ns[li..]) == NeedsBytes(ns) && num == li
    {
      var versions := perLib[active[li]];
      var n := Need(OffsetOf(sonameOff, active[li]), versions);
      NextNeed(ns, li);
      var vnNext := Distance(n, li + 1 < |active|);
      var auxs := BuildAuxs(versions);
      Appended(verneed, HeaderBytes(|versions|, n.file, vnNext), auxs, NeedsBytes(ns[li + 1..]));
      verneed := verneed + HeaderBytes(|versions|, n.file, vnNext) + auxs;
      num := num + 1;
    }
    Appended(verneed, [], [], NeedsBytes(ns[|active|..]));
  }

  lemma {:induction false} Appended(was: seq<byte>, a: seq<byte>, b: seq<byte>, c: seq<byte>)
    ensures was + (a + b + c) == was + a + b + c
  {
  }

  lemma {:induction false} NoNeeds(ns: seq<Need>)
    ensures ns[0..] == ns && ns[|ns|..] == [] && NeedsBytes([]) == [] && [] + NeedsBytes(ns) == NeedsBytes(ns)
  {
  }

  lemma {:induction false} NextNeed(ns: seq<Need>, li: nat)
    requires li < |ns|
    ensures NeedsBytes(ns[li..])
         == HeaderBytes(|ns[li].auxs|, ns[li].file, Distance(ns[li], li + 1 < |ns|)) + AuxsBytes(ns[li].auxs)
             + NeedsBytes(ns[li + 1..])
  {
    hide HeaderBytes, AuxsBytes, Distance;
    assert ns[li..][1..] == ns[li + 1..];
  }

  method BuildAuxs(versions: seq<Aux>) returns (r: seq<byte>)
    ensures r == AuxsBytes(versions)
  {
    hide AuxBytes;
    r := [];
    assert versions[0..] == versions;
    for i := 0 to |versions|
      invariant r + AuxsBytes(versions[i..]) == AuxsBytes(versions)
    {
      assert versions[i..][1..] == versions[i + 1..];
      var next := if i + 1 < |versions| then 16 else 0;
      assert r + (AuxBytes(versions[i], next) + AuxsBytes(versions[i + 1..]))
             == r + AuxBytes(versions[i], next) + AuxsBytes(versions[i + 1..]);
      r := r + AuxBytes(versions[i], next);
    }
    assert versions[|versions|..] == [] && r + [] == r;
  }

  lemma {:induction false} LibFits(base: seq<byte>, rs: seq<Req>, lib: nat)
    ensures |PerLib(base, rs, lib)| <= |rs|
            && forall i | 0 <= i < |PerLib(base, rs, lib)| :: AuxFits(PerLib(base, rs, lib)[i])
    decreases |rs|
  {
    hide StringsWith;
    if rs != [] { LibFits(base, rs[..|rs| - 1], lib); }
  }

  lemma {:induction false} RecordsFit(base: seq<byte>, rs: seq<Req>, sonameOff: seq<nat>, libs: nat, n: nat)
    requires |rs| < TWO16 && n <= libs && forall i | 0 <= i < |sonameOff| :: sonameOff[i] < TWO32
    ensures forall need | need in NeedsOf(AllLibs(base, rs, libs), sonameOff, n) :: NeedFits(need)
    decreases n
  {
    hide PerLib, AuxFits;
    if n > 0 {
      RecordsFit(base, rs, sonameOff, libs, n - 1);
      LibFits(base, rs, n - 1);
    }
  }

  /** The section that is built for any imports, walked: fewer than 65536 versions read back in full. */
  lemma {:induction false} SectionReadsBack(base: seq<byte>, rs: seq<Req>, sonameOff: seq<nat>, libs: nat)
    requires |rs| < TWO16 && forall i | 0 <= i < |sonameOff| :: sonameOff[i] < TWO32
    ensures var needs := NeedsOf(AllLibs(base, rs, libs), sonameOff, libs);
            needs != [] ==> NeedsRead(NeedsBytes(needs), 0, ReadsOf(needs))
  {
    hide NeedFits, NeedsOf, AllLibs, NeedsRead, ReadsOf, NeedsBytes;
    RecordsFit(base, rs, sonameOff, libs, libs);
    var needs := NeedsOf(AllLibs(base, rs, libs), sonameOff, libs);
    if needs != [] {
      assert [] + NeedsBytes(needs) == NeedsBytes(needs);
      NeedsReadBack(NeedsBytes(needs), [], needs);
    }
  }

  // ── Version indices of symbols ───────────────────────────────────────────

  function VersymIndex(needed: seq<Name>, idx: map<Req, nat>, im: Import): nat {
    match ReqOf(needed, im)
    case Some(r) => if r in idx then idx[r] else 1
    case None => 1
  }

  /** Entry `j` of `.gnu.version`: the null symbol, the imports, the exports. */
  function VersymEntry(needed: seq<Name>, imports: seq<Import>, idx: map<Req, nat>, j: nat): nat {
    if j == 0 then 0 else if j <= |imports| then VersymIndex(needed, idx, imports[j - 1]) else 1
  }

  lemma {:induction false} HalfAppended(blob: seq<byte>, v: nat, j: nat)
    requires |blob| % 2 == 0 && j <= |blob| / 2 && v < TWO16
    ensures Field(blob + Le(v, 2), 2 * j, 2) == if 2 * j == |blob| then v else Field(blob, 2 * j, 2)
  {
    hide FromLe, Le;
    if 2 * j == |blob| {
      Pow256Values();
      FieldOf(blob, v, 2, []);
      assert blob + Le(v, 2) + [] == blob + Le(v, 2);
    } else {
      FieldInside([], blob, Le(v, 2), 2 * j, 2);
      assert [] + blob + Le(v, 2) == blob + Le(v, 2);
    }
  }

  ghost predicate Versyms(needed: seq<Name>, imports: seq<Import>, idx: map<Req, nat>, blob: seq<byte>, n: nat) {
    |blob| == 2 * n && forall j: nat | j < n :: Field(blob, 2 * j, 2) == VersymEntry(needed, imports, idx, j)
  }

  lemma {:induction false} VersymStep(needed: seq<Name>, imports: seq<Import>, idx: map<Req, nat>, blob: seq<byte>,
          n: nat, v: nat)
    requires Versyms(needed, imports, idx, blob, n) && v < TWO16 && v == VersymEntry(needed, imports, idx, n)
    ensures Versyms(needed, imports, idx, blob + Le(v, 2), n + 1)
  {
    hide VersymEntry, Field, Le;
    forall j: nat | j < n + 1
      ensures Field(blob + Le(v, 2), 2 * j, 2) == VersymEntry(needed, imports, idx, j)
    {
      HalfAppended(blob, v, j);
    }
  }

  method BuildVersym(needed: seq<Name>, imports: seq<Import>, idx: map<Req, nat>,
          exports: nat) returns (versym: seq<byte>)
    requires forall r | r in idx :: idx[r] < TWO16
    ensures |versym| == 2 * (1 + |imports| + exports)
    ensures forall j: nat | j < 1 + |imports| + exports ::
            Field(versym, 2 * j, 2) == VersymEntry(needed, imports, idx, j)
  {
    hide Le, Field, ReqOf;
    VersymStep(needed, imports, idx, [], 0, 0);
    versym := [] + Le(0, 2);
    for k := 0 to |imports|
      invariant Versyms(needed, imports, idx, versym, 1 + k)
    {
      var v := VersymIndex(needed, idx, imports[k]);
      VersymStep(needed, imports, idx, versym, 1 + k, v);
      versym := versym + Le(v, 2);
    }
    for k := 0 to exports
      invariant Versyms(needed, imports, idx, versym, 1 + |imports| + k)
    {
      VersymStep(needed, imports, idx, versym, 1 + |imports| + k, 1);
      versym := versym + Le(1, 2);
    }
  }

  // ── What the indices mean ────────────────────────────────────────────────

  lemma {:induction false} ListedAux(base: seq<byte>, rs: seq<Req>, lib: nat, a: Aux)
    ensures a in PerLib(base, rs, lib) <==> exists j ::
              0 <= j < |rs| && rs[j].lib == lib && a == AuxFor(base, rs[..j], rs[j])
    decreases |rs|
  {
    hide AuxFor;
    if rs != [] {
      var front, last := rs[..|rs| - 1], |rs| - 1;
      ListedAux(base, front, lib, a);
      assert rs[..last] == front;
      if a in PerLib(base, front, lib) {
        var j :| 0 <= j < |front| && front[j].lib == lib && a == AuxFor(base, front[..j], front[j]);
        assert rs[..j] == front[..j] && rs[j] == front[j];
      } else if a in PerLib(base, rs, lib) {
        assert rs[last].lib == lib && a == AuxFor(base, rs[..last], rs[last]);
      }
      if exists j :: 0 <= j < last && rs[j].lib == lib && a == AuxFor(base, rs[..j], rs[j]) {
        var j :| 0 <= j < last && rs[j].lib == lib && a == AuxFor(base, rs[..j], rs[j]);
        assert rs[..j] == front[..j] && rs[j] == front[j];
      }
    }
  }

  /** Sixteen bits are enough for exactly 65534 versions. */
  lemma {:induction false} IndexLimit(n: nat)
    ensures (forall i, j | 0 <= i < j < n :: IndexAt(i) != IndexAt(j) && IndexAt(i) >= 2 && IndexAt(j) >= 2) <==>
            n <= 65534
  {
    assert IndexAt(65534) == 0 && IndexAt(0) == 2;
  }

  /** A loader masks the top bit, which marks hidden symbols, and so tells only 32766 versions apart. */
  lemma {:induction false} LoaderLimit(n: nat)
    ensures (forall i, j | 0 <= i < j < n ::
              IndexAt(i) % 0x8000 != IndexAt(j) % 0x8000 && IndexAt(i) % 0x8000 >= 2 && IndexAt(j) % 0x8000 >= 2)
            <==> n <= 32766
  {
    assert IndexAt(32766) % 0x8000 == 0 && IndexAt(0) % 0x8000 == 2;
  }

  lemma {:induction false} StringOf(base: seq<byte>, rs: seq<Req>, j: nat)
    requires j < |rs|
    ensures |StringsWith(base, rs[..j])| < |StringsWith(base, rs)|
    ensures ReadsString(StringsWith(base, rs), |StringsWith(base, rs[..j])|, rs[j].version)
    decreases |rs|
  {
    hide ReadsString;
    var front, last := rs[..|rs| - 1], |rs| - 1;
    if j == last {
      StringAppended(StringsWith(base, front), rs[j].version);
    } else {
      StringOf(base, front, j);
      assert front[..j] == rs[..j];
      StringStays(StringsWith(base, front), rs[last].version + [0], |StringsWith(base, rs[..j])|, rs[j].version);
      assert StringsWith(base, front) + (rs[last].version + [0]) == StringsWith(base, rs);
    }
  }

  /** Index `x` belongs to one version of one library, and its record names that version. */
  ghost predicate NamesOneRecord(base: seq<byte>, rs: seq<Req>, r: Req, x: nat) {
    && x >= 2
    && (exists a :: a in PerLib(base, rs, r.lib) && a.version == r.version && a.index == x
                    && ReadsString(StringsWith(base, rs), a.nameOff, r.version))
    && forall lib: nat, a | a in PerLib(base, rs, lib) && a.index == x :: lib == r.lib && a.version == r.version
  }

  lemma {:induction false} OnlyRecord(base: seq<byte>, rs: seq<Req>, j: nat, lib: nat, a: Aux)
    requires j < |rs| <= 65534 && a in PerLib(base, rs, lib) && a.index == IndexAt(j)
    ensures lib == rs[j].lib && a.version == rs[j].version
  {
    ListedAux(base, rs, lib, a);
    hide StringsWith, PerLib;
    var i :| 0 <= i < |rs| && rs[i].lib == lib && a == AuxFor(base, rs[..i], rs[i]);
    assert a.index == 2 + i;
  }

  lemma {:induction false} OneRecord(base: seq<byte>, rs: seq<Req>, j: nat)
    requires j < |rs| <= 65534 && |StringsWith(base, rs)| < TWO32
    ensures NamesOneRecord(base, rs, rs[j], IndexAt(j))
  {
    hide StringsWith, ReadsString, PerLib;
    StringOf(base, rs, j);
    var own := AuxFor(base, rs[..j], rs[j]);
    ListedAux(base, rs, rs[j].lib, own);
    assert own.nameOff == |StringsWith(base, rs[..j])| && own.index == IndexAt(j) && own.version == rs[j].version;
    hide AuxFor;
    assert own in PerLib(base, rs, rs[j].lib);
    assert IndexAt(j) >= 2;
    hide IndexAt;
    forall lib: nat, a | a in PerLib(base, rs, lib) && a.index == IndexAt(j)
      ensures lib == rs[j].lib && a.version == rs[j].version
    {
      OnlyRecord(base, rs, j, lib, a);
    }
  }

  /** A versioned import whose library is needed has an index of at least 2 that names one record, listed
      under that library, with that version and its name. */
  lemma {:induction false} VersymNamesOneRecord(needed: seq<Name>, imports: seq<Import>, base: seq<byte>,
          idx: map<Req, nat>, k: nat)
    requires k < |imports| && ReqOf(needed, imports[k]).Some? && Indexed(Reqs(needed, imports), idx)
    requires |Reqs(needed, imports)| <= 65534 && |StringsWith(base, Reqs(needed, imports))| < TWO32
    ensures NamesOneRecord(base, Reqs(needed, imports), ReqOf(needed, imports[k]).value,
            VersymIndex(needed, idx, imports[k]))
  {
    hide ReqOf, Reqs, StringsWith, NamesOneRecord, IndexAt;
    var rs, r := Reqs(needed, imports), ReqOf(needed, imports[k]).value;
    ReqsExactly(needed, imports, r);
    assert r in rs;
    var j :| 0 <= j < |rs| && rs[j] == r;
    OneRecord(base, rs, j);
  }
}
