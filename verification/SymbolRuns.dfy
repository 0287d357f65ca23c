/** What a whole run of table operations leaves in the entry of a name: which library it comes from, its
    absolute address, and whether it is still asked for (`peony-symbols/src/lib.rs:528-640`). */
module SymbolRuns {
  import opened Bytes
  import opened Objects
  import opened Symbols
  import opened SymbolTables

  /** The entry of a name after a run. */
  ghost predicate Ends(ops: seq<Op>, n: Name, e: Resolution) {
    ApplyAll(EMPTY, ops).Ok? && ApplyAll(EMPTY, ops).value.Lookup(n) == Some(e)
  }

  /** Operation `k` of the run finds a reference to its name that nothing satisfies yet. */
  ghost predicate Imports(ops: seq<Op>, k: nat, n: Name) {
    k < |ops| && ops[k].Register? && ops[k].x.name == n && exists e :: Ends(ops[..k], n, e) && !e.IsDefined()
  }

  ghost predicate Imported(ops: seq<Op>, n: Name) { exists k: nat :: Imports(ops, k, n) }

  /** And is marked for a copy relocation later. */
  ghost predicate CopiedAt(ops: seq<Op>, k: nat, j: nat, n: Name) {
    Imports(ops, k, n) && k < j < |ops| && ops[j] == MarkCopy(n)
  }

  ghost predicate Copied(ops: seq<Op>, n: Name) { exists k: nat, j: nat :: CopiedAt(ops, k, j, n) }

  /** The last absolute definition of the name. */
  function AbsoluteOf(ops: seq<Op>, n: Name): Option<nat> {
    if ops == [] then None
    else
      match ops[|ops| - 1]
      case Absolute(m, v) => if m == n then Some(v) else AbsoluteOf(ops[..|ops| - 1], n)
      case _ => AbsoluteOf(ops[..|ops| - 1], n)
  }

  /** What a library gives an entry, for good. */
  predicate From(e: Resolution, op: Op) {
    op.Register? && e.imported && e.version == op.x.version && e.soname == Some(op.soname)
  }

  // ── One operation ────────────────────────────────────────────────────────

  /** The operation satisfies the reference that `e` is. */
  predicate Satisfies(e: Option<Resolution>, op: Op, n: Name) {
    op.Register? && op.x.name == n && e.Some? && !e.value.IsDefined()
  }

  predicate SameOrigin(a: Resolution, b: Resolution) {
    a.imported == b.imported && a.copyReloc == b.copyReloc && a.version == b.version && a.soname == b.soname
  }

  lemma {:induction false} MergeKeeps(e: Option<Resolution>, obj: nat, sym: InputSymbol, next: nat)
    requires MergeEntry(e, obj, sym, next).Ok?
    ensures var m := MergeEntry(e, obj, sym, next).value.entry;
            if e.Some? then SameOrigin(m, e.value) && m.va == e.value.va
            else !m.imported && !m.copyReloc && m.va == 0
  {
    if sym.isUndefined {
      hide MergeDefinition, MergeCommon;
    } else if sym.isCommon {
      hide MergeDefinition, MergeUndefined;
    } else {
      hide MergeCommon, MergeUndefined;
    }
  }

  /** The first library that defines a name supplies it; nothing later changes that. */
  lemma {:induction false} StepOrigin(t: Table, op: Op, n: Name)
    requires Apply(t, op).Ok?
    ensures var was, now := t.Lookup(n), Apply(t, op).value.Lookup(n);
            if Satisfies(was, op, n) then
              now.Some? && From(now.value, op) && !now.value.copyReloc && now.value.size == op.x.size
              && now.value.stType == op.x.stType
            else if op == MarkCopy(n) && was.Some? && was.value.imported then
              now.Some? && SameOrigin(now.value, was.value.(copyReloc := true))
            else if was.Some? then now.Some? && SameOrigin(now.value, was.value)
            else now.Some? ==> !now.value.imported && !now.value.copyReloc
  {
    hide MergeEntry;
    if op.Merge? {
      var s := op.sym;
      MergeKeeps(t.Lookup(s.sym.name), s.obj, s.sym, |t.names|);
    }
  }

  lemma {:induction false} StepAddress(t: Table, op: Op, n: Name)
    requires Apply(t, op).Ok?
    ensures var was, now := t.Lookup(n), Apply(t, op).value.Lookup(n);
            match op
            case Absolute(m, v) =>
              (m == n ==> now.Some? && now.value.va == v && now.value.section.None? && now.value.value == v
                          && now.value.IsDefined())
              && (m != n ==> now == was)
            case _ =>
              now.Some? ==> now.value.va == if was.Some? then was.value.va else 0
  {
    hide MergeEntry;
    if op.Merge? {
      var s := op.sym;
      MergeKeeps(t.Lookup(s.sym.name), s.obj, s.sym, |t.names|);
    }
  }

  lemma {:induction false} StepStays(t: Table, op: Op, n: Name)
    requires Apply(t, op).Ok? && t.Lookup(n).Some?
    ensures Apply(t, op).value.Lookup(n).Some?
  {
    hide MergeEntry;
  }

  // ── Whole runs ───────────────────────────────────────────────────────────

  lemma {:induction false} Shorter(ops: seq<Op>, k: nat, n: Name)
    requires ops != []
    ensures Imports(ops, k, n) && k < |ops| - 1 <==> Imports(ops[..|ops| - 1], k, n)
  {
    if k < |ops| - 1 { assert ops[..|ops| - 1][..k] == ops[..k]; }
  }

  /** The last operation imports the name exactly when it satisfies what the run before left. */
  lemma {:induction false} LastImports(ops: seq<Op>, n: Name)
    requires ops != [] && ApplyAll(EMPTY, ops[..|ops| - 1]).Ok?
    ensures Imports(ops, |ops| - 1, n)
            <==> Satisfies(ApplyAll(EMPTY, ops[..|ops| - 1]).value.Lookup(n), ops[|ops| - 1], n)
  {
    hide ApplyAll;
    var t := ApplyAll(EMPTY, ops[..|ops| - 1]).value;
    if Satisfies(t.Lookup(n), ops[|ops| - 1], n) { assert Ends(ops[..|ops| - 1], n, t.Lookup(n).value); }
  }

  /** Over any run, a name is imported exactly when some library was registered for it while it was wanted
      and nothing satisfied it; that library and version stay, whatever else exports the name later. */
  lemma {:induction false} ImportedExactly(ops: seq<Op>, n: Name)
    requires ApplyAll(EMPTY, ops).Ok?
    ensures var e := ApplyAll(EMPTY, ops).value.Lookup(n);
            && (e.Some? && e.value.imported <==> Imported(ops, n))
            && forall k: nat | Imports(ops, k, n) :: e.Some? && From(e.value, ops[k])
    decreases |ops|
  {
    if ops != [] {
      var m := |ops| - 1;
      var t := ApplyAll(EMPTY, ops[..m]).value;
      ImportedExactly(ops[..m], n);
      StepOrigin(t, ops[m], n);
      LastImports(ops, n);
      assert Apply(t, ops[m]) == ApplyAll(EMPTY, ops);
      hide ApplyAll, Imports, Apply, Satisfies;
      forall k: nat ensures Imports(ops, k, n) && k < m <==> Imports(ops[..m], k, n) { Shorter(ops, k, n); }
      forall k: nat | Imports(ops, k, n) ensures k <= m { Bounded(ops, k, n); }
      var e := ApplyAll(EMPTY, ops).value.Lookup(n);
      forall k: nat | Imports(ops, k, n) ensures e.Some? && From(e.value, ops[k]) {
        if k < m { assert Imports(ops[..m], k, n) && ops[..m][k] == ops[k]; }
      }
    } else {
      NoImports(n);
    }
  }

  lemma {:induction false} Bounded(ops: seq<Op>, k: nat, n: Name)
    requires Imports(ops, k, n)
    ensures k < |ops|
  {
  }

  lemma {:induction false} NoImports(n: Name)
    ensures !Imported([], n) && forall k: nat :: !Imports([], k, n)
  {
  }

  /** The entry of an absolute symbol holds its last value, in every run; no other operation moves it. */
  lemma {:induction false} AbsoluteExactly(ops: seq<Op>, n: Name)
    requires ApplyAll(EMPTY, ops).Ok?
    ensures var e := ApplyAll(EMPTY, ops).value.Lookup(n);
            && (AbsoluteOf(ops, n).Some? ==> e.Some? && e.value.va == AbsoluteOf(ops, n).value)
            && (AbsoluteOf(ops, n).None? && e.Some? ==> e.value.va == 0)
    decreases |ops|
  {
    if ops != [] {
      var m := |ops| - 1;
      var t := ApplyAll(EMPTY, ops[..m]).value;
      AbsoluteExactly(ops[..m], n);
      StepAddress(t, ops[m], n);
      if t.Lookup(n).Some? { StepStays(t, ops[m], n); }
      hide Apply;
    }
  }

  /** A name that `-u` or the entry point asks for stays in the table, defined or strongly undefined: later
      weak references do not soften it. */
  lemma {:induction false} ForcedStaysWanted(ops: seq<Op>, n: Name)
    requires ApplyAll(EMPTY, ops).Ok? && Force(n) in ops
    ensures var e := ApplyAll(EMPTY, ops).value.Lookup(n);
            e.Some? && (e.value.IsDefined() || e.value.binding == Binding.Global)
    decreases |ops|
  {
    var m := |ops| - 1;
    var t := ApplyAll(EMPTY, ops[..m]).value;
    if ops[m] == Force(n) {
    } else {
      assert Force(n) in ops[..m];
      ForcedStaysWanted(ops[..m], n);
      StepWanted(t, ops[m], n);
    }
  }

  lemma {:induction false} StepWanted(t: Table, op: Op, n: Name)
    requires Apply(t, op).Ok? && t.Lookup(n).Some?
    requires t.Lookup(n).value.IsDefined() || t.Lookup(n).value.binding == Binding.Global
    ensures var e := Apply(t, op).value.Lookup(n);
            e.Some? && (e.value.IsDefined() || e.value.binding == Binding.Global)
  {
    if op.Merge? { MergeWanted(t.Lookup(op.sym.sym.name), op.sym.obj, op.sym.sym, |t.names|); }
    hide MergeEntry;
  }

  lemma {:induction false} MergeWanted(e: Option<Resolution>, obj: nat, sym: InputSymbol, next: nat)
    requires MergeEntry(e, obj, sym, next).Ok?
    ensures e.Some? && (e.value.IsDefined() || e.value.binding == Binding.Global) ==>
              var m := MergeEntry(e, obj, sym, next).value.entry; m.IsDefined() || m.binding == Binding.Global
  {
  }

  /** Copy relocations go to imported names only, and to exactly those marked after their import. */
  lemma {:induction false} CopiedExactly(ops: seq<Op>, n: Name)
    requires ApplyAll(EMPTY, ops).Ok?
    ensures var e := ApplyAll(EMPTY, ops).value.Lookup(n);
            e.Some? && e.value.copyReloc <==> Copied(ops, n)
    decreases |ops|
  {
    if ops != [] {
      var m := |ops| - 1;
      var t := ApplyAll(EMPTY, ops[..m]).value;
      CopiedExactly(ops[..m], n);
      ImportedExactly(ops[..m], n);
      StepOrigin(t, ops[m], n);
      LastImports(ops, n);
      hide ApplyAll, Apply;
      CopiedLonger(ops, n);
      hide Imports, CopiedAt;
      forall k: nat ensures Imports(ops, k, n) && k < m <==> Imports(ops[..m], k, n) { Shorter(ops, k, n); }
    } else {
      NoCopies(n);
    }
  }

  lemma {:induction false} NoCopies(n: Name)
    ensures !Copied([], n)
  {
  }

  lemma {:induction false} CopiedLonger(ops: seq<Op>, n: Name)
    requires ops != []
    ensures Copied(ops, n)
            <==> Copied(ops[..|ops| - 1], n) || (Imported(ops[..|ops| - 1], n) && ops[|ops| - 1] == MarkCopy(n))
  {
    hide Imports;
    var m := |ops| - 1;
    forall k: nat ensures Imports(ops, k, n) && k < m <==> Imports(ops[..m], k, n) { Shorter(ops, k, n); }
    if Copied(ops, n) {
      var k: nat, j: nat :| CopiedAt(ops, k, j, n);
      if j < m { assert CopiedAt(ops[..m], k, j, n); }
    }
    if Copied(ops[..m], n) {
      var k: nat, j: nat :| CopiedAt(ops[..m], k, j, n);
      assert CopiedAt(ops, k, j, n);
    }
    if Imported(ops[..m], n) && ops[m] == MarkCopy(n) {
      var k: nat :| Imports(ops[..m], k, n);
      assert CopiedAt(ops, k, m, n);
    }
  }

  // ── Ids ──────────────────────────────────────────────────────────────────

  /** The operation gives the entry `e` of the name an id. */
  predicate Mints(e: Option<Resolution>, op: Op, n: Name) {
    match op
    case Merge(s) => s.sym.name == n && !s.sym.isUndefined && (e.None? || e.value.definedIn.None?)
    case Register(_, _) => Satisfies(e, op, n)
    case Ensure(m) => m == n && e.Some? && e.value.id == NO_ID
    case _ => false
  }

  ghost predicate MintsAt(ops: seq<Op>, k: nat, n: Name) {
    k < |ops| && ApplyAll(EMPTY, ops[..k]).Ok? && Mints(ApplyAll(EMPTY, ops[..k]).value.Lookup(n), ops[k], n)
  }

  lemma {:induction false} MergeMintsExactly(e: Option<Resolution>, obj: nat, sym: InputSymbol, next: nat)
    requires MergeEntry(e, obj, sym, next).Ok? && (e.Some? && e.value.common.Some? ==> e.value.definedIn.Some?)
    ensures var m := MergeEntry(e, obj, sym, next).value;
            && (m.minted <==> !sym.isUndefined && (e.None? || e.value.definedIn.None?))
            && m.entry.id == (if m.minted then next else if e.Some? then e.value.id else NO_ID)
            && (m.entry.common.Some? ==> m.entry.definedIn.Some?)
  {
  }

  ghost predicate CommonsDefined(t: Table) {
    forall n | n in t.resolutions && t.resolutions[n].common.Some? :: t.resolutions[n].definedIn.Some?
  }

  lemma {:induction false} StepNames(t: Table, op: Op, n: Name)
    requires Apply(t, op).Ok? && CommonsDefined(t)
    ensures CommonsDefined(Apply(t, op).value) && |Apply(t, op).value.names| <= |t.names| + 1
    ensures var was, now := t.Lookup(n), Apply(t, op).value.Lookup(n);
            if Mints(was, op, n) then now.Some? && now.value.id == |t.names|
            else now.Some? ==> now.value.id == if was.Some? then was.value.id else NO_ID
  {
    hide MergeEntry;
    if op.Merge? {
      var s := op.sym;
      MergeMintsExactly(t.Lookup(s.sym.name), s.obj, s.sym, |t.names|);
    }
  }

  lemma {:induction false} ShorterMints(ops: seq<Op>, k: nat, n: Name)
    requires ops != []
    ensures MintsAt(ops, k, n) && k < |ops| - 1 <==> MintsAt(ops[..|ops| - 1], k, n)
  {
    if k < |ops| - 1 { assert ops[..|ops| - 1][..k] == ops[..k]; }
  }

  lemma {:induction false} BoundedMints(ops: seq<Op>, k: nat, n: Name)
    requires MintsAt(ops, k, n)
    ensures k < |ops|
  {
  }

  /** Over any run, the names with an id are those that were defined, imported, or asked to have one; with fewer
      operations than ids, none is ever mistaken for the placeholder. */
  lemma {:induction false} NamedExactly(ops: seq<Op>, n: Name)
    requires ApplyAll(EMPTY, ops).Ok? && |ops| < NO_ID
    ensures var t := ApplyAll(EMPTY, ops).value;
            && CommonsDefined(t) && |t.names| <= |ops|
            && (t.Lookup(n).Some? && t.Lookup(n).value.id != NO_ID <==> exists k: nat :: MintsAt(ops, k, n))
    decreases |ops|
  {
    if ops != [] {
      var m := |ops| - 1;
      var t := ApplyAll(EMPTY, ops[..m]).value;
      NamedExactly(ops[..m], n);
      StepNames(t, ops[m], n);
      if t.Lookup(n).Some? { StepStays(t, ops[m], n); }
      assert MintsAt(ops, m, n) <==> Mints(t.Lookup(n), ops[m], n);
      assert Apply(t, ops[m]) == ApplyAll(EMPTY, ops);
      hide ApplyAll, MintsAt, Apply, Mints, CommonsDefined;
      forall k: nat ensures MintsAt(ops, k, n) && k < m <==> MintsAt(ops[..m], k, n) { ShorterMints(ops, k, n); }
      forall k: nat | MintsAt(ops, k, n) ensures k <= m { BoundedMints(ops, k, n); }
    } else {
      assert forall k: nat :: !MintsAt(ops, k, n);
    }
  }
}
