/** Symbol versions: `.gnu.version_r` records and the `.gnu.version` index of every dynamic symbol
    (LSB Core section 10.7, "Symbol Versioning"; `peony-layout/src/lib.rs:1225-1310`). */
module Verneed {
  import opened Bytes
  import opened Objects

  /** An import with the version and the library it was bound to, if any. */
  datatype Import = Import(version: Option<Name>, soname: Option<Name>)

  /** A version that a needed library, by position, must provide. */
  datatype Req = Req(lib: nat, version: Name)

  datatype Aux = Aux(version: Name, index: nat, nameOff: nat)

  // ── Requirements ─────────────────────────────────────────────────────────

  /** A library listed twice goes by its last position. */
  function SonameIndex(needed: seq<Name>, s: Name): (r: Option<nat>)
    ensures r.Some? ==> r.value < |needed| && needed[r.value] == s
    ensures r.None? ==> s !in needed
    decreases |needed|
  {
    if needed == [] then None
    else if needed[|needed| - 1] == s then Some(|needed| - 1)
    else SonameIndex(needed[..|needed| - 1], s)
  }

  function ReqOf(needed: seq<Name>, im: Import): (r: Option<Req>)
    ensures r.Some? ==> r.value.lib < |needed|
  {
    match (im.version, im.soname)
    case (Some(v), Some(s)) =>
      (match SonameIndex(needed, s) case Some(lib) => Some(Req(lib, v)) case None => None)
    case _ => None
  }

  /** The distinct requirements in order of first appearance. */
  function Reqs(needed: seq<Name>, imports: seq<Import>): (rs: seq<Req>)
    ensures forall r | r in rs :: r.lib < |needed|
    decreases |imports|
  {
    if imports == [] then []
    else
      var before := Reqs(needed, imports[..|imports| - 1]);
      match ReqOf(needed, imports[|imports| - 1])
      case None => before
      case Some(r) => if r in before then before else before + [r]
  }

  lemma {:induction false} ReqsExactly(needed: seq<Name>, imports: seq<Import>, r: Req)
    ensures r in Reqs(needed, imports) <==> exists k :: 0 <= k < |imports| && ReqOf(needed, imports[k]) == Some(r)
    decreases |imports|
  {
    hide ReqOf;
    if imports != [] {
      var front, last := imports[..|imports| - 1], |imports| - 1;
      ReqsExactly(needed, front, r);
      if r in Reqs(needed, front) {
        var k :| 0 <= k < |front| && ReqOf(needed, front[k]) == Some(r);
        assert imports[k] == front[k];
      } else {
        assert forall k | 0 <= k < last :: imports[k] == front[k];
        assert ReqOf(needed, imports[last]) == Some(r) <==> r in Reqs(needed, imports);
      }
    }
  }

  predicate Distinct(rs: seq<Req>) { forall i, j | 0 <= i < j < |rs| :: rs[i] != rs[j] }

  lemma {:induction false} ReqsDistinct(needed: seq<Name>, imports: seq<Import>)
    ensures Distinct(Reqs(needed, imports))
    decreases |imports|
  {
    hide ReqOf;
    if imports != [] { ReqsDistinct(needed, imports[..|imports| - 1]); }
  }

  // ── Indices ──────────────────────────────────────────────────────────────

  /** The index of requirement `j`, counted in 16 bits. */
  function IndexAt(j: nat): nat { (2 + j) % TWO16 }

  /** The dynamic strings after the versions `rs` were appended. */
  function StringsWith(base: seq<byte>, rs: seq<Req>): seq<byte>
    decreases |rs|
  {
    if rs == [] then base else StringsWith(base, rs[..|rs| - 1]) + rs[|rs| - 1].version + [0]
  }

  /** What the records of library `lib` list. */
  function PerLib(base: seq<byte>, rs: seq<Req>, lib: nat): seq<Aux>
    decreases |rs|
  {
    if rs == [] then []
    else
      var front, r := rs[..|rs| - 1], rs[|rs| - 1];
      PerLib(base, front, lib)
      + if r.lib == lib then [AuxFor(base, front, r)] else []
  }

  function AllLibs(base: seq<byte>, rs: seq<Req>, n: nat): (s: seq<seq<Aux>>)
    ensures |s| == n && forall lib | 0 <= lib < n :: s[lib] == PerLib(base, rs, lib)
  {
    seq(n, lib requires 0 <= lib < n => PerLib(base, rs, lib))
  }

  predicate Indexed(rs: seq<Req>, idx: map<Req, nat>) {
    && (forall r | r in idx :: r in rs)
    && (forall j | 0 <= j < |rs| :: rs[j] in idx && idx[rs[j]] == IndexAt(j))
  }

  lemma {:induction false} OneMoreIndex(rs: seq<Req>, idx: map<Req, nat>, r: Req)
    requires r !in rs && Indexed(rs, idx)
    ensures Indexed(rs + [r], idx[r := IndexAt(|rs|)])
  {
    hide IndexAt;
  }

  lemma {:induction false} OneMoreString(base: seq<byte>, rs: seq<Req>, r: Req)
    ensures StringsWith(base, rs + [r]) == StringsWith(base, rs) + r.version + [0]
  {
    assert (rs + [r])[..|rs|] == rs;
  }

  function AuxFor(base: seq<byte>, rs: seq<Req>, r: Req): Aux {
    Aux(r.version, IndexAt(|rs|), |StringsWith(base, rs)| % TWO32)
  }

  lemma {:induction false} OneMoreAt(base: seq<byte>, rs: seq<Req>, r: Req, lib: nat)
    ensures PerLib(base, rs + [r], lib) == PerLib(base, rs, lib) + if r.lib == lib then [AuxFor(base, rs, r)] else []
  {
    assert (rs + [r])[..|rs|] == rs;
    hide IndexAt, StringsWith;
  }

  lemma {:induction false} OneMoreLib(base: seq<byte>, rs: seq<Req>, n: nat, r: Req)
    requires r.lib < n
    ensures var libs := AllLibs(base, rs, n);
            AllLibs(base, rs + [r], n) == libs[r.lib := libs[r.lib] + [AuxFor(base, rs, r)]]
  {
    var libs := AllLibs(base, rs, n);
    var more := AllLibs(base, rs + [r], n);
    forall lib | 0 <= lib < n
      ensures more[lib] == libs[r.lib := libs[r.lib] + [AuxFor(base, rs, r)]][lib]
    {
      OneMoreAt(base, rs, r, lib);
      hide PerLib, AuxFor, AllLibs;
    }
  }

  /** Gives every distinct requirement the next index and appends its name to the dynamic strings. */
  method AssignVersions(needed: seq<Name>, imports: seq<Import>, base: seq<byte>)
    returns (perLib: seq<seq<Aux>>, idx: map<Req, nat>, dynstr: seq<byte>)
    ensures var rs := Reqs(needed, imports);
            perLib == AllLibs(base, rs, |needed|) && Indexed(rs, idx) && dynstr == StringsWith(base, rs)
  {
    hide ReqOf, AllLibs, Indexed, PerLib, StringsWith;
    perLib, idx, dynstr := seq(|needed|, l => []), map[], base;
    NothingAssigned(base, |needed|, perLib);
    assert imports[..0] == [];
    var next := 2;
    for k := 0 to |imports|
      invariant perLib == AllLibs(base, Reqs(needed, imports[..k]), |needed|)
      invariant Indexed(Reqs(needed, imports[..k]), idx)
      invariant dynstr == StringsWith(base, Reqs(needed, imports[..k]))
      invariant next == IndexAt(|Reqs(needed, imports[..k])|)
    {
      ghost var rs := Reqs(needed, imports[..k]);
      assert imports[..k + 1][..k] == imports[..k];
      var req := ReqOf(needed, imports[k]);
      if req.Some? {
        IndexedKeys(rs, idx, req.value);
        if req.value !in idx {
          OneMoreIndex(rs, idx, req.value);
          OneMoreString(base, rs, req.value);
          OneMoreLib(base, rs, |needed|, req.value);
          idx := idx[req.value := next];
          var lib := req.value.lib;
          perLib := perLib[lib := perLib[lib] + [Aux(req.value.version, next, |dynstr| % TWO32)]];
          dynstr := dynstr + req.value.version + [0];
          next := (next + 1) % TWO16;
        }
      }
    }
    assert imports[..|imports|] == imports;
  }

  lemma {:induction false} IndexedKeys(rs: seq<Req>, idx: map<Req, nat>, r: Req)
    requires Indexed(rs, idx)
    ensures r in idx <==> r in rs
  {
  }

  lemma {:induction false} NothingAssigned(base: seq<byte>, n: nat, perLib: seq<seq<Aux>>)
    requires |perLib| == n && forall l | 0 <= l < n :: perLib[l] == []
    ensures perLib == AllLibs(base, [], n) && Indexed([], map[]) && StringsWith(base, []) == base
  {
  }
}
