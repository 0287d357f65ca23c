/** The symbol table as a whole: entries by name, dense ids, and the operations that mint them
    (`peony-symbols/src/lib.rs:255-640`). */
module SymbolTables {
  import opened Bytes
  import opened Objects
  import opened Symbols

  /** `names[id]` is the name that minted `id`. */
  datatype Table = Table(resolutions: map<Name, Resolution>, names: seq<Name>)
  {
    function Lookup(n: Name): Option<Resolution> {
      if n in resolutions then Some(resolutions[n]) else None
    }

    /** Every id in use is below the placeholder and is the id of the entry's own name. */
    ghost predicate IdsNamed() {
      forall n | n in resolutions && resolutions[n].id != NO_ID ::
        resolutions[n].id < |names| && names[resolutions[n].id] == n
    }

    function With(n: Name, m: Merged): Table {
      Table(resolutions[n := m.entry], if m.minted then names + [n] else names)
    }
  }

  const EMPTY := Table(map[], [])

  // ── Operations ───────────────────────────────────────────────────────────

  function MergeSymbol(t: Table, s: Sym): Result<Table> {
    match MergeEntry(t.Lookup(s.sym.name), s.obj, s.sym, |t.names|)
    case Duplicate(a, b) => Duplicate(a, b)
    case Ok(m) => Ok(t.With(s.sym.name, m))
  }

  /** Locals, nameless symbols and symbols of discarded sections never reach the table. */
  predicate Reaches(sym: InputSymbol, excluded: set<nat>) {
    sym.binding != Local && sym.name != [] && (sym.section.Some? ==> sym.section.value !in excluded)
  }

  function Reaching(obj: nat, syms: seq<InputSymbol>, excluded: set<nat>): (r: seq<Sym>)
    ensures AllVisible(r)
  {
    if syms == [] then []
    else
      var n := |syms| - 1;
      Reaching(obj, syms[..n], excluded) + (if Reaches(syms[n], excluded) then [Sym(obj, syms[n])] else [])
  }

  function MergeAll(t: Table, syms: seq<Sym>): Result<Table> {
    if syms == [] then Ok(t)
    else
      var n := |syms| - 1;
      match MergeAll(t, syms[..n])
      case Duplicate(a, b) => Duplicate(a, b)
      case Ok(u) => MergeSymbol(u, syms[n])
  }

  function ForceUndefined(t: Table, n: Name): Table {
    match t.Lookup(n)
    case None => t.(resolutions := t.resolutions[n := UNDEFINED])
    case Some(r) => if r.IsDefined() then t else t.(resolutions := t.resolutions[n := r.(binding := Binding.Global)])
  }

  datatype SharedExport = SharedExport(name: Name, version: Option<seq<byte>>, size: nat, stType: nat)

  /** A shared library satisfies a reference that nothing satisfies yet. */
  function RegisterExport(t: Table, x: SharedExport, soname: string): Table {
    match t.Lookup(x.name)
    case None => t
    case Some(r) =>
      if r.definedIn.Some? || r.imported then t
      else t.With(x.name, Merged(r.(imported := true, copyReloc := false, id := |t.names|, version := x.version,
                                    soname := Some(soname), size := x.size, stType := x.stType), true))
  }

  function EnsureId(t: Table, n: Name): Table {
    match t.Lookup(n)
    case None => t
    case Some(r) => if r.id == NO_ID then t.With(n, Merged(r.(id := |t.names|), true)) else t
  }

  function DefineAbsolute(t: Table, n: Name, value: nat): Table {
    var e := if n in t.resolutions then t.resolutions[n] else UNDEFINED;
    t.(resolutions := t.resolutions[n := e.(definedIn := Some(0), section := None, value := value, va := value)])
  }

  function MarkCopyReloc(t: Table, n: Name): Table {
    match t.Lookup(n)
    case Some(r) => if r.imported then t.(resolutions := t.resolutions[n := r.(copyReloc := true)]) else t
    case None => t
  }

  /** One step of a link's symbol resolution. */
  datatype Op =
    | Merge(sym: Sym)
    | Force(name: Name)
    | Register(x: SharedExport, soname: string)
    | Ensure(name: Name)
    | Absolute(name: Name, value: nat)
    | MarkCopy(name: Name)

  function Apply(t: Table, op: Op): Result<Table> {
    match op
    case Merge(s) => MergeSymbol(t, s)
    case Force(n) => Ok(ForceUndefined(t, n))
    case Register(x, soname) => Ok(RegisterExport(t, x, soname))
    case Ensure(n) => Ok(EnsureId(t, n))
    case Absolute(n, v) => Ok(DefineAbsolute(t, n, v))
    case MarkCopy(n) => Ok(MarkCopyReloc(t, n))
  }

  function ApplyAll(t: Table, ops: seq<Op>): Result<Table> {
    if ops == [] then Ok(t)
    else
      var n := |ops| - 1;
      match ApplyAll(t, ops[..n])
      case Duplicate(a, b) => Duplicate(a, b)
      case Ok(u) => Apply(u, ops[n])
  }

  // ── Ids ──────────────────────────────────────────────────────────────────

  lemma {:induction false} MergeIds(e: Option<Resolution>, obj: nat, sym: InputSymbol, next: nat)
    requires MergeEntry(e, obj, sym, next).Ok?
    ensures var m := MergeEntry(e, obj, sym, next).value;
            if m.minted then m.entry.id == next
            else m.entry.id == (if e.Some? then e.value.id else NO_ID)
  {
  }

  lemma {:induction false} WithIds(t: Table, n: Name, m: Merged)
    requires t.IdsNamed() && |t.names| < NO_ID
    requires if m.minted then m.entry.id == |t.names|
             else m.entry.id == (if t.Lookup(n).Some? then t.Lookup(n).value.id else NO_ID)
    ensures t.With(n, m).IdsNamed()
  {
  }

  lemma {:induction false} ApplyIds(t: Table, op: Op)
    requires t.IdsNamed() && |t.names| < NO_ID && Apply(t, op).Ok?
    ensures Apply(t, op).value.IdsNamed() && |Apply(t, op).value.names| <= |t.names| + 1
  {
    hide MergeEntry;
    match op
    case Merge(s) =>
      MergeIds(t.Lookup(s.sym.name), s.obj, s.sym, |t.names|);
      WithIds(t, s.sym.name, MergeEntry(t.Lookup(s.sym.name), s.obj, s.sym, |t.names|).value);
    case Force(n) =>
    case Register(x, soname) =>
    case Ensure(n) =>
    case Absolute(n, v) =>
    case MarkCopy(n) =>
  }

  /** Over every run of operations, each minted id names its own entry. */
  lemma {:induction false} RunIds(ops: seq<Op>)
    requires |ops| < NO_ID && ApplyAll(EMPTY, ops).Ok?
    ensures ApplyAll(EMPTY, ops).value.IdsNamed() && |ApplyAll(EMPTY, ops).value.names| <= |ops|
  {
    if ops != [] {
      hide Apply;
      var n := |ops| - 1;
      RunIds(ops[..n]);
      ApplyIds(ApplyAll(EMPTY, ops[..n]).value, ops[n]);
    }
  }

  /** Distinct entries never share a minted id. */
  lemma {:induction false} IdsDistinct(t: Table, a: Name, b: Name)
    requires t.IdsNamed() && a in t.resolutions && b in t.resolutions
    requires t.resolutions[a].id == t.resolutions[b].id != NO_ID
    ensures a == b
  {
    assert t.names[t.resolutions[a].id] == t.names[t.resolutions[b].id];
  }

  /** The id-indexed view answers exactly as a lookup by name. */
  method BuildIdIndex(t: Table) returns (out: seq<Option<Resolution>>)
    requires t.IdsNamed() && |t.names| <= NO_ID
    ensures |out| == |t.names|
    ensures forall n | n in t.resolutions && t.resolutions[n].id != NO_ID :: out[t.resolutions[n].id] == t.Lookup(n)
    ensures forall i | 0 <= i < |out| && out[i].Some? :: out[i] == t.Lookup(t.names[i]) && out[i].value.id == i
  {
    out := seq(|t.names|, i => None);
    for k := 0 to |t.names|
      invariant |out| == |t.names|
      invariant forall n | n in t.resolutions && t.resolutions[n].id < k :: out[t.resolutions[n].id] == t.Lookup(n)
      invariant forall i | 0 <= i < |out| && out[i].Some? :: out[i] == t.Lookup(t.names[i]) && out[i].value.id == i
    {
      var r := t.Lookup(t.names[k]);
      if r.Some? && r.value.id < |out| { out := out[r.value.id := r]; }
    }
  }

  // ── Names do not interfere ───────────────────────────────────────────────

  function OfName(syms: seq<Sym>, n: Name): (r: seq<Sym>)
    ensures AllVisible(syms) ==> AllVisible(r)
  {
    if syms == [] then []
    else OfName(syms[..|syms| - 1], n) + (if syms[|syms| - 1].sym.name == n then [syms[|syms| - 1]] else [])
  }

  predicate SameButId(x: Resolution, y: Resolution) { x.(id := 0) == y.(id := 0) }

  /** Equal but for the id. */
  predicate Alike(a: Option<Resolution>, b: Option<Resolution>) {
    match (a, b)
    case (None, None) => true
    case (Some(x), Some(y)) => SameButId(x, y)
    case _ => false
  }

  lemma {:induction false} UndefinedAlike(a: Option<Resolution>, b: Option<Resolution>, sym: InputSymbol)
    requires Alike(a, b)
    ensures Alike(Some(MergeUndefined(a, sym)), Some(MergeUndefined(b, sym)))
  {
  }

  lemma {:induction false} CommonAlike(
    a: Option<Resolution>, b: Option<Resolution>, obj: nat, sym: InputSymbol, m: nat, n: nat)
    requires Alike(a, b)
    ensures Alike(Some(MergeCommon(a, obj, sym, m).entry), Some(MergeCommon(b, obj, sym, n).entry))
  {
    hide Max, AlignOf;
  }

  lemma {:induction false} BoundAlike(x: Resolution, obj: nat, sym: InputSymbol, id: nat)
    ensures Bound(x.(id := id), obj, sym) == Bound(x, obj, sym).(id := id)
  {
  }

  lemma {:induction false} RebindAlike(x: Resolution, y: Resolution, obj: nat, sym: InputSymbol, m: nat, n: nat)
    requires SameButId(x, y)
    ensures SameButId(Bound(x, obj, sym).(common := None), Bound(y, obj, sym).(common := None))
    ensures SameButId(Bound(x, obj, sym).(isIfunc := sym.isIfunc), Bound(y, obj, sym).(isIfunc := sym.isIfunc))
    ensures SameButId(Bound(x, obj, sym).(id := m, isIfunc := sym.isIfunc),
            Bound(y, obj, sym).(id := n, isIfunc := sym.isIfunc))
  {
    SameExceptId(x, y);
    BoundAlike(x, obj, sym, y.id);
    hide Bound;
  }

  lemma {:induction false} SameExceptId(x: Resolution, y: Resolution)
    requires SameButId(x, y)
    ensures y == x.(id := y.id)
  {
  }

  lemma {:induction false} DefinitionAlike(
    a: Option<Resolution>, b: Option<Resolution>, obj: nat, sym: InputSymbol, m: nat, n: nat)
    requires Alike(a, b)
    ensures MergeDefinition(a, obj, sym, m).Ok? <==> MergeDefinition(b, obj, sym, n).Ok?
    ensures MergeDefinition(a, obj, sym, m).Ok? ==>
              Alike(Some(MergeDefinition(a, obj, sym, m).value.entry),
                  Some(MergeDefinition(b, obj, sym, n).value.entry))
  {
    hide Bound, ConflictAction;
    match a
    case None => FreshAlike(obj, sym, m, n);
    case Some(x) =>
      SameConflict(x, b.value, obj, sym);
      RebindAlike(x, b.value, obj, sym, m, n);
      hide SameButId;
  }

  lemma {:induction false} FreshAlike(obj: nat, sym: InputSymbol, m: nat, n: nat)
    ensures SameButId(Bound(UNDEFINED, obj, sym).(id := m, isIfunc := sym.isIfunc),
            Bound(UNDEFINED, obj, sym).(id := n, isIfunc := sym.isIfunc))
  {
    hide Bound;
  }

  lemma {:induction false} SameConflict(x: Resolution, y: Resolution, obj: nat, sym: InputSymbol)
    requires SameButId(x, y)
    ensures ConflictAction(x, obj, sym) == ConflictAction(y, obj, sym) && x.common == y.common
  {
  }

  lemma {:induction false} MergeAlike(a: Option<Resolution>, b: Option<Resolution>, s: Sym, m: nat, n: nat)
    requires Alike(a, b)
    ensures MergeEntry(a, s.obj, s.sym, m).Ok? <==> MergeEntry(b, s.obj, s.sym, n).Ok?
    ensures MergeEntry(a, s.obj, s.sym, m).Ok? ==>
              Alike(Some(MergeEntry(a, s.obj, s.sym, m).value.entry), Some(MergeEntry(b, s.obj, s.sym, n).value.entry))
  {
    hide MergeUndefined, MergeCommon, MergeDefinition, Alike;
    UndefinedAlike(a, b, s.sym);
    CommonAlike(a, b, s.obj, s.sym, m, n);
    DefinitionAlike(a, b, s.obj, s.sym, m, n);
  }

  ghost predicate TableOf(syms: seq<Sym>, t: Table) {
    forall n: Name :: Fold(OfName(syms, n)).Ok? && Alike(t.Lookup(n), Fold(OfName(syms, n)).value)
  }

  lemma {:induction false} OneMoreName(syms: seq<Sym>, n: Name)
    requires syms != []
    ensures var k := |syms| - 1;
            OfName(syms, n) == if syms[k].sym.name == n then OfName(syms[..k], n) + [syms[k]] else OfName(syms[..k], n)
  {
  }

  lemma {:induction false} FoldStep(syms: seq<Sym>, s: Sym)
    ensures Fold(syms + [s])
            == match Fold(syms)
               case Duplicate(a, b) => Duplicate(a, b)
               case Ok(e) =>
                 (match MergeEntry(e, s.obj, s.sym, 0) case Duplicate(a, b) => Duplicate(a,
                     b) case Ok(m) => Ok(Some(m.entry)))
  {
    hide MergeEntry;
    assert (syms + [s])[..|syms|] == syms;
  }

  /** Merging a whole link's symbols is folding each name's own symbols. */
  lemma {:induction false} MergeAllByName(syms: seq<Sym>)
    ensures MergeAll(EMPTY, syms).Ok? <==> forall n: Name :: Fold(OfName(syms, n)).Ok?
    ensures MergeAll(EMPTY, syms).Ok? ==> TableOf(syms, MergeAll(EMPTY, syms).value)
  {
    hide MergeEntry, Fold, Alike, TableOf, OfName;
    if syms == [] {
      NoSymbols();
    } else {
      var k := |syms| - 1;
      var before, s := syms[..k], syms[k];
      MergeAllByName(before);
      if MergeAll(EMPTY, before).Ok? {
        OneMerge(syms, MergeAll(EMPTY, before).value);
      } else {
        var n: Name :| !Fold(OfName(before, n)).Ok?;
        StillDuplicate(syms, n);
      }
    }
  }

  lemma {:induction false} NoSymbols()
    ensures TableOf([], EMPTY) && forall n: Name :: Fold(OfName([], n)).Ok?
  {
    forall n: Name
      ensures Fold(OfName([], n)).Ok? && Alike(EMPTY.Lookup(n), Fold(OfName([], n)).value)
    {
      assert OfName([], n) == [];
    }
  }

  lemma {:induction false} StillDuplicate(syms: seq<Sym>, n: Name)
    requires syms != [] && !Fold(OfName(syms[..|syms| - 1], n)).Ok?
    ensures !Fold(OfName(syms, n)).Ok?
  {
    hide MergeEntry, Fold;
    OneMoreName(syms, n);
    FoldStep(OfName(syms[..|syms| - 1], n), syms[|syms| - 1]);
  }

  lemma {:induction false} OneMerge(syms: seq<Sym>, t: Table)
    requires syms != [] && TableOf(syms[..|syms| - 1], t)
    ensures MergeSymbol(t, syms[|syms| - 1]).Ok? <==> forall n: Name :: Fold(OfName(syms, n)).Ok?
    ensures MergeSymbol(t, syms[|syms| - 1]).Ok? ==> TableOf(syms, MergeSymbol(t, syms[|syms| - 1]).value)
  {
    hide MergeEntry, Fold, Alike, OfName;
    var k := |syms| - 1;
    var before, s := syms[..k], syms[k];
    var name := s.sym.name;
    OneMoreName(syms, name);
    FoldStep(OfName(before, name), s);
    assert Fold(OfName(before, name)).Ok? && Alike(t.Lookup(name), Fold(OfName(before, name)).value);
    MergeAlike(t.Lookup(name), Fold(OfName(before, name)).value, s, |t.names|, 0);
    forall n: Name | n != name
      ensures OfName(syms, n) == OfName(before, n)
    {
      OneMoreName(syms, n);
    }
    if MergeSymbol(t, s).Ok? {
      forall n: Name
        ensures Fold(OfName(syms, n)).Ok? && Alike(MergeSymbol(t, s).value.Lookup(n), Fold(OfName(syms, n)).value)
      {
        assert Fold(OfName(before, n)).Ok? && Alike(t.Lookup(n), Fold(OfName(before, n)).value);
      }
    }
  }

  lemma {:induction false} MeaningAlike(syms: seq<Sym>, a: Option<Resolution>, b: Option<Resolution>)
    requires Alike(a, b) && Meaning(syms, b)
    ensures Meaning(syms, a)
  {
    hide LargestCommon, HasCommon, Winner, StrongReference;
  }

  /** A whole link's table: it exists exactly when no name has two strong definitions, and then each
      entry is what its own symbols mean. */
  lemma {:induction false} TableMeaning(syms: seq<Sym>)
    requires AllVisible(syms)
    ensures MergeAll(EMPTY, syms).Ok? <==> forall n: Name :: AtMostOneStrong(OfName(syms, n))
    ensures MergeAll(EMPTY, syms).Ok? ==>
              forall n: Name :: Meaning(OfName(syms, n), MergeAll(EMPTY, syms).value.Lookup(n))
  {
    hide Fold, OfName, Alike, Meaning, AtMostOneStrong, MergeAll;
    MergeAllByName(syms);
    forall n: Name
      ensures Fold(OfName(syms, n)).Ok? <==> AtMostOneStrong(OfName(syms, n))
      ensures Fold(OfName(syms, n)).Ok? ==> Meaning(OfName(syms, n), Fold(OfName(syms, n)).value)
    {
      FoldMeaning(OfName(syms, n));
    }
    if MergeAll(EMPTY, syms).Ok? {
      var t := MergeAll(EMPTY, syms).value;
      forall n: Name
        ensures Meaning(OfName(syms, n), t.Lookup(n))
      {
        assert Fold(OfName(syms, n)).Ok? && Alike(t.Lookup(n), Fold(OfName(syms, n)).value);
        MeaningAlike(OfName(syms, n), t.Lookup(n), Fold(OfName(syms, n)).value);
      }
    }
  }

  // ── In place ─────────────────────────────────────────────────────────────

  class SymbolTable {
    var resolutions: map<Name, Resolution>
    var names: seq<Name>
    var objectPaths: seq<string>

    constructor ()
      ensures View() == EMPTY && objectPaths == []
    {
      resolutions, names, objectPaths := map[], [], [];
    }

    function View(): Table
      reads this
    {
      Table(resolutions, names)
    }

    method AddObject(path: string) returns (id: nat)
      modifies this`objectPaths
      ensures id == old(|objectPaths|) && objectPaths == old(objectPaths) + [path]
    {
      id := |objectPaths|;
      objectPaths := objectPaths + [path];
    }

    /** Merges one symbol; on a duplicate strong definition nothing changes. */
    method Merge(obj: nat, sym: InputSymbol) returns (r: Result<()>)
      modifies this`resolutions, this`names
      ensures match MergeSymbol(old(View()), Sym(obj, sym))
              case Ok(t) => r == Ok(()) && View() == t
              case Duplicate(a, b) => r == Duplicate(a, b) && View() == old(View())
    {
      hide MergeEntry;
      var e := if sym.name in resolutions then Some(resolutions[sym.name]) else None;
      match MergeEntry(e, obj, sym, |names|)
      case Duplicate(a, b) => return Duplicate(a, b);
      case Ok(m) =>
        if m.minted { names := names + [sym.name]; }
        resolutions := resolutions[sym.name := m.entry];
        return Ok(());
    }

    /** Merges an object's symbols in order, up to the first duplicate. */
    method ProcessObjectExcluding(obj: nat, o: InputObject, excluded: set<nat>) returns (r: Result<()>)
      modifies this`resolutions, this`names
      ensures r.Ok? <==> MergeAll(old(View()), Reaching(obj, o.symbols, excluded)).Ok?
      ensures r.Ok? ==> MergeAll(old(View()), Reaching(obj, o.symbols, excluded)) == Ok(View())
    {
      hide MergeSymbol, MergeAll, Reaching;
      ghost var was := View();
      NoneReached(was, obj, o.symbols, excluded);
      for k := 0 to |o.symbols|
        invariant MergeAll(was, Reaching(obj, o.symbols[..k], excluded)) == Ok(View())
      {
        var sym := o.symbols[k];
        ReachStep(was, obj, o.symbols, excluded, k);
        if sym.binding == Local || sym.name == [] || (sym.section.Some? && sym.section.value in excluded) { continue; }
        r := Merge(obj, sym);
        if r.Duplicate? {
          FailureSticks(was, obj, o.symbols, excluded, k + 1);
          return;
        }
      }
      assert o.symbols[..|o.symbols|] == o.symbols;
      r := Ok(());
    }
  }

  lemma {:induction false} NoneReached(t: Table, obj: nat, syms: seq<InputSymbol>, excluded: set<nat>)
    ensures MergeAll(t, Reaching(obj, syms[..0], excluded)) == Ok(t)
  {
    assert Reaching(obj, [], excluded) == [];
  }

  lemma {:induction false} ReachStep(t: Table, obj: nat, syms: seq<InputSymbol>, excluded: set<nat>, k: nat)
    requires k < |syms|
    ensures MergeAll(t, Reaching(obj, syms[..k + 1], excluded))
            == if !Reaches(syms[k], excluded) then MergeAll(t, Reaching(obj, syms[..k], excluded))
               else match MergeAll(t, Reaching(obj, syms[..k], excluded))
                    case Duplicate(a, b) => Duplicate(a, b)
                    case Ok(u) => MergeSymbol(u, Sym(obj, syms[k]))
  {
    hide MergeSymbol;
    var before := Reaching(obj, syms[..k], excluded);
    assert syms[..k + 1][..k] == syms[..k];
    if Reaches(syms[k], excluded) {
      assert Reaching(obj, syms[..k + 1], excluded) == before + [Sym(obj, syms[k])];
      assert (before + [Sym(obj, syms[k])])[..|before|] == before;
    } else {
      assert Reaching(obj, syms[..k + 1], excluded) == before + [] == before;
    }
  }

  lemma {:induction false} FailureSticks(t: Table, obj: nat, syms: seq<InputSymbol>, excluded: set<nat>, k: nat)
    requires k <= |syms| && MergeAll(t, Reaching(obj, syms[..k], excluded)).Duplicate?
    ensures MergeAll(t, Reaching(obj, syms, excluded)).Duplicate?
    decreases |syms| - k
  {
    hide MergeSymbol, MergeAll, Reaching;
    if k < |syms| {
      ReachStep(t, obj, syms, excluded, k);
      FailureSticks(t, obj, syms, excluded, k + 1);
    } else {
      assert syms[..k] == syms;
    }
  }
}
