/** The table of a whole run of objects: it holds what the symbols mean that are global, named and outside the
    discarded group copies, in link order (`peony/src/main.rs:1951-1976`, `peony-symbols/src/lib.rs:290-460`). */
module ResolvedRun {
  import opened Bytes
  import opened Objects
  import opened Symbols
  import opened SymbolTables
  import opened Archives

  /** Resolving objects one after the other. */
  function ResolveAll(objs: seq<InputObject>): Result<Resolved> {
    if objs == [] then Ok(Resolved(EMPTY, [], {}, {}))
    else
      match ResolveAll(objs[..|objs| - 1])
      case Duplicate(a, b) => Duplicate(a, b)
      case Ok(r) => Resolve(r, objs[|objs| - 1])
  }

  /** In every run the first copies stay. */
  lemma {:induction false} RunKeepsFirst(objs: seq<InputObject>)
    requires ResolveAll(objs).Ok?
    ensures ResolveAll(objs).value.objects == objs && FirstCopiesStay(ResolveAll(objs).value)
  {
    hide Claim, MergeAll, Reaching, FirstCopiesStay;
    NothingSeen();
    if objs != [] {
      var n := |objs| - 1;
      RunKeepsFirst(objs[..n]);
      ResolveKeepsFirst(ResolveAll(objs[..n]).value, objs[n]);
      assert objs[..n] + [objs[n]] == objs;
    }
  }

  lemma {:induction false} NothingSeen()
    ensures FirstCopiesStay(Resolved(EMPTY, [], {}, {}))
  {
  }

  // ── The symbols that count ───────────────────────────────────────────────

  /** A symbol by object and position. */
  datatype Spot = Spot(o: nat, i: nat)

  predicate HasSpot(objs: seq<InputObject>, p: Spot) { p.o < |objs| && p.i < |objs[p.o].symbols| }

  /** The symbol is not local, has a name, and lies in no discarded section. */
  ghost predicate KeptAt(objs: seq<InputObject>, p: Spot) {
    && HasSpot(objs, p)
    && var sym := objs[p.o].symbols[p.i];
       && sym.binding != Local && sym.name != []
       && (sym.section.Some? ==> !Discarded(objs, p.o, sym.section.value))
  }

  predicate Before(p: Spot, q: Spot) { p.o < q.o || (p.o == q.o && p.i < q.i) }

  /** `syms` are the kept symbols in link order; `at` says where each is. */
  ghost predicate Lists(objs: seq<InputObject>, syms: seq<Sym>, at: seq<Spot>) {
    && |at| == |syms|
    && (forall k | 0 <= k < |at| ::
          KeptAt(objs, at[k]) && syms[k] == Sym(at[k].o, SymbolOf(objs, at[k])))
    && (forall j, k | 0 <= j < k < |at| :: Before(at[j], at[k]))
    && forall p | KeptAt(objs, p) :: p in at
  }

  function SymbolOf(objs: seq<InputObject>, p: Spot): InputSymbol
    requires HasSpot(objs, p)
  {
    objs[p.o].symbols[p.i]
  }

  /** `r` are the symbols of one object that reach the table, in order; `at` says where each is. */
  ghost predicate Picks(o: nat, syms: seq<InputSymbol>, x: set<nat>, r: seq<Sym>, at: seq<nat>) {
    && |at| == |r|
    && (forall k | 0 <= k < |at| :: at[k] < |syms| && Reaches(syms[at[k]], x) && r[k] == Sym(o, syms[at[k]]))
    && (forall j, k | 0 <= j < k < |at| :: at[j] < at[k])
    && forall i | 0 <= i < |syms| && Reaches(syms[i], x) :: i in at
  }

  lemma {:induction false} PickNext(o: nat, syms: seq<InputSymbol>, x: set<nat>, r: seq<Sym>, at: seq<nat>,
          s: InputSymbol)
    requires Picks(o, syms, x, r, at)
    ensures Reaches(s, x) ==> Picks(o, syms + [s], x, r + [Sym(o, s)], at + [|syms|])
    ensures !Reaches(s, x) ==> Picks(o, syms + [s], x, r, at)
  {
    hide Reaches;
    var now := syms + [s];
    if Reaches(s, x) {
      var next := at + [|syms|];
      forall i | 0 <= i < |now| && Reaches(now[i], x) ensures i in next {
        if i < |syms| { assert i in at; } else { assert next[|at|] == i; }
      }
    }
  }

  /** The positions that the symbols of one object reach the table from. */
  lemma {:induction false} ReachingAt(o: nat, syms: seq<InputSymbol>, x: set<nat>) returns (at: seq<nat>)
    ensures Picks(o, syms, x, Reaching(o, syms, x), at)
  {
    if syms == [] {
      at := [];
    } else {
      hide Reaches, Picks;
      var n := |syms| - 1;
      var front := syms[..n];
      var r := Reaching(o, front, x);
      var before := ReachingAt(o, front, x);
      PickNext(o, front, x, r, before, syms[n]);
      assert front + [syms[n]] == syms && r + [] == r;
      at := if Reaches(syms[n], x) then before + [n] else before;
    }
  }

  lemma {:induction false} MergeAppend(t: Table, a: seq<Sym>, b: seq<Sym>)
    ensures MergeAll(t, a + b)
            == match MergeAll(t, a) case Duplicate(x, y) => Duplicate(x, y) case Ok(u) => MergeAll(u, b)
    decreases |b|
  {
    hide MergeSymbol;
    if b == [] {
      assert a + b == a;
    } else {
      var n := |b| - 1;
      MergeAppend(t, a, b[..n]);
      assert (a + b)[..|a + b| - 1] == a + b[..n];
    }
  }

  /** The sections of object `o` that are discarded. */
  ghost function DiscardedOf(objs: seq<InputObject>, o: nat): (x: set<nat>)
    ensures forall m :: m in x <==> Discarded(objs, o, m)
  {
    if o >= |objs| then {} else AmongMembers(objs, o)
  }

  ghost function AmongMembers(objs: seq<InputObject>, o: nat): (x: set<nat>)
    requires o < |objs|
    ensures forall m :: m in x <==> Discarded(objs, o, m)
  {
    hide SeenBefore;
    set j, m | 0 <= j < |objs[o].comdatGroups| && m in objs[o].comdatGroups[j].members && Discarded(objs, o, m) :: m
  }

  lemma {:induction false} KeptGrows(objs: seq<InputObject>, obj: InputObject, p: Spot)
    requires p.o < |objs|
    ensures KeptAt(objs + [obj], p) <==> KeptAt(objs, p)
  {
    hide Discarded;
    if HasSpot(objs, p) && SymbolOf(objs, p).section.Some? {
      OldDiscards(objs, obj, p.o, SymbolOf(objs, p).section.value);
    }
  }

  /** The spots of object `o` at the given positions. */
  function SpotsOf(o: nat, at: seq<nat>): (spots: seq<Spot>)
    ensures |spots| == |at| && forall k | 0 <= k < |at| :: spots[k] == Spot(o, at[k])
  {
    seq(|at|, k requires 0 <= k < |at| => Spot(o, at[k]))
  }

  lemma {:induction false} KeptMore(objs: seq<InputObject>, obj: InputObject, syms: seq<Sym>, at: seq<Spot>,
          r: seq<Sym>, more: seq<nat>, k: nat)
    requires Lists(objs, syms, at) && Picks(|objs|, obj.symbols, DiscardedOf(objs + [obj], |objs|), r, more)
    requires k < |at| + |more|
    ensures var spot := (at + SpotsOf(|objs|, more))[k];
            && KeptAt(objs + [obj], spot) && HasSpot(objs + [obj], spot) && |syms + r| == |at| + |more|
            && (syms + r)[k] == Sym(spot.o, SymbolOf(objs + [obj], spot))
  {
    hide KeptAt, Reaches;
    if k < |at| {
      SpotInside(objs, at[k]);
      KeptGrows(objs, obj, at[k]);
    } else {
      KeptHere(objs + [obj], |objs|, more[k - |at|]);
    }
  }

  lemma {:induction false} OrderedMore(objs: seq<InputObject>, obj: InputObject, syms: seq<Sym>, at: seq<Spot>,
          r: seq<Sym>, more: seq<nat>)
    requires Lists(objs, syms, at) && Picks(|objs|, obj.symbols, DiscardedOf(objs + [obj], |objs|), r, more)
    ensures var spots := at + SpotsOf(|objs|, more); forall j, k | 0 <= j < k < |spots| :: Before(spots[j], spots[k])
  {
    hide KeptAt, Reaches;
    forall k | 0 <= k < |at| ensures at[k].o < |objs| { SpotInside(objs, at[k]); }
  }

  lemma {:induction false} CompleteMore(objs: seq<InputObject>, obj: InputObject, syms: seq<Sym>, at: seq<Spot>,
          r: seq<Sym>, more: seq<nat>, p: Spot)
    requires Lists(objs, syms, at) && Picks(|objs|, obj.symbols, DiscardedOf(objs + [obj], |objs|), r, more)
    requires KeptAt(objs + [obj], p)
    ensures p in at + SpotsOf(|objs|, more)
  {
    hide KeptAt, Reaches;
    SpotInside(objs + [obj], p);
    if p.o < |objs| {
      KeptGrows(objs, obj, p);
    } else {
      KeptHere(objs + [obj], |objs|, p.i);
      var k :| 0 <= k < |more| && more[k] == p.i;
      assert (at + SpotsOf(|objs|, more))[|at| + k] == p;
    }
  }

  lemma {:induction false} ListsMore(objs: seq<InputObject>, obj: InputObject, syms: seq<Sym>, at: seq<Spot>,
          r: seq<Sym>, more: seq<nat>)
    requires Lists(objs, syms, at) && Picks(|objs|, obj.symbols, DiscardedOf(objs + [obj], |objs|), r, more)
    ensures Lists(objs + [obj], syms + r, at + SpotsOf(|objs|, more))
  {
    OrderedMore(objs, obj, syms, at, r, more);
    hide KeptAt, Picks, Before, HasSpot;
    var next := at + SpotsOf(|objs|, more);
    forall k | 0 <= k < |next|
      ensures KeptAt(objs + [obj], next[k]) && HasSpot(objs + [obj], next[k]) && |syms + r| == |next|
      ensures (syms + r)[k] == Sym(next[k].o, SymbolOf(objs + [obj], next[k]))
    {
      KeptMore(objs, obj, syms, at, r, more, k);
    }
    forall p | KeptAt(objs + [obj], p) ensures p in next { CompleteMore(objs, obj, syms, at, r, more, p); }
    SameLength(objs, obj, syms, at, r, more);
  }

  lemma {:induction false} SameLength(objs: seq<InputObject>, obj: InputObject, syms: seq<Sym>, at: seq<Spot>,
          r: seq<Sym>, more: seq<nat>)
    requires Lists(objs, syms, at) && Picks(|objs|, obj.symbols, DiscardedOf(objs + [obj], |objs|), r, more)
    ensures |syms + r| == |at + SpotsOf(|objs|, more)|
  {
  }

  lemma {:induction false} KeptHere(objs: seq<InputObject>, o: nat, i: nat)
    requires o < |objs|
    ensures KeptAt(objs, Spot(o, i)) <==>
              i < |objs[o].symbols| && Reaches(objs[o].symbols[i], DiscardedOf(objs, o))
  {
    hide Discarded;
  }

  lemma {:induction false} SpotInside(objs: seq<InputObject>, p: Spot)
    requires KeptAt(objs, p)
    ensures HasSpot(objs, p)
  {
  }

  /** The merged list of a run, whether or not merging it fails. */
  lemma {:induction false} RunList(objs: seq<InputObject>) returns (syms: seq<Sym>, at: seq<Spot>)
    ensures Lists(objs, syms, at) && AllVisible(syms)
    ensures ResolveAll(objs).Ok? <==> MergeAll(EMPTY, syms).Ok?
    ensures ResolveAll(objs).Ok? ==> MergeAll(EMPTY, syms) == Ok(ResolveAll(objs).value.table)
  {
    if objs == [] {
      syms, at := [], [];
    } else {
      var n := |objs| - 1;
      var front, obj := objs[..n], objs[n];
      assert front + [obj] == objs;
      syms, at := RunList(front);
      var x := DiscardedOf(objs, n);
      var more := ReachingAt(n, obj.symbols, x);
      ListsMore(front, obj, syms, at, Reaching(n, obj.symbols, x), more);
      MergeAppend(EMPTY, syms, Reaching(n, obj.symbols, x));
      if ResolveAll(front).Ok? { ClaimIsDiscard(front, obj); }
      hide Lists, MergeAll, Reaching, Claim, DiscardedOf;
      syms := syms + Reaching(n, obj.symbols, x);
      at := at + SpotsOf(n, more);
    }
  }

  /** Claiming discards just what is discarded. */
  lemma {:induction false} ClaimIsDiscard(objs: seq<InputObject>, obj: InputObject)
    requires ResolveAll(objs).Ok?
    ensures ResolveAll(objs).value.objects == objs
    ensures Claim(obj.comdatGroups, ResolveAll(objs).value.seen).1 == DiscardedOf(objs + [obj], |objs|)
  {
    RunKeepsFirst(objs);
    var r := ResolveAll(objs).value;
    hide Claim, Discarded, RepeatsMember, FirstCopiesStay, ResolveAll;
    forall m: nat
      ensures m in Claim(obj.comdatGroups, r.seen).1 <==> m in DiscardedOf(objs + [obj], |objs|)
    {
      ClaimDiscards(obj.comdatGroups, r.seen, m);
      NewDiscards(r, obj, m);
    }
  }

  /** A run of objects resolves exactly when no name has two strong definitions among the kept symbols, and then each
      entry is what the kept symbols of its name mean, in link order. */
  lemma {:induction false} RunMeaning(objs: seq<InputObject>) returns (syms: seq<Sym>, at: seq<Spot>)
    ensures Lists(objs, syms, at) && AllVisible(syms)
    ensures ResolveAll(objs).Ok? <==> forall n: Name :: AtMostOneStrong(OfName(syms, n))
    ensures ResolveAll(objs).Ok? ==>
              forall n: Name :: Meaning(OfName(syms, n), ResolveAll(objs).value.table.Lookup(n))
  {
    hide Lists, MergeAll, ResolveAll, Meaning, AtMostOneStrong, OfName;
    syms, at := RunList(objs);
    TableMeaning(syms);
  }

  // ── What a run leaves undefined ──────────────────────────────────────────

  lemma {:induction false} FirstWeakExists(syms: seq<Sym>, k: nat)
    requires k < |syms| && syms[k].IsWeak()
    ensures exists i: nat :: FirstWeak(syms, i)
  {
    if j :| 0 <= j < k && syms[j].IsWeak() { FirstWeakExists(syms, j); } else { assert FirstWeak(syms, k); }
  }

  lemma {:induction false} DefinedWins(syms: seq<Sym>, k: nat)
    requires k < |syms| && !syms[k].sym.isUndefined && syms[k].Visible()
    ensures HasCommon(syms) || exists i: nat :: Winner(syms, i)
  {
    if syms[k].IsStrong() {
      assert Winner(syms, k);
    } else if syms[k].IsWeak() {
      FirstWeakExists(syms, k);
      var i: nat :| FirstWeak(syms, i);
      if j :| 0 <= j < |syms| && syms[j].IsStrong() { assert Winner(syms, j); } else { assert Winner(syms, i); }
    } else {
      assert syms[k].IsCommon();
    }
  }

  /** An entry without a definition that a strong reference asks for: none of the symbols defines it, one asks. */
  lemma {:induction false} AskedFor(syms: seq<Sym>, e: Option<Resolution>)
    requires AllVisible(syms) && Meaning(syms, e)
    ensures e.Some? && !e.value.IsDefined() && e.value.binding == Binding.Global
            <==> (forall k | 0 <= k < |syms| :: syms[k].sym.isUndefined) && StrongReference(syms)
  {
    hide LargestCommon;
    if k :| 0 <= k < |syms| && !syms[k].sym.isUndefined { DefinedWins(syms, k); }
  }

  lemma {:induction false} InName(syms: seq<Sym>, n: Name, s: Sym)
    ensures s in OfName(syms, n) <==> s in syms && s.sym.name == n
  {
    if syms != [] {
      var m := |syms| - 1;
      InName(syms[..m], n, s);
      assert s in syms <==> s in syms[..m] || s == syms[m];
    }
  }

  /** A kept symbol of the name. */
  ghost predicate KeptAs(objs: seq<InputObject>, p: Spot, n: Name) {
    HasSpot(objs, p) && KeptAt(objs, p) && SymbolOf(objs, p).name == n
  }

  /** The names that archives are searched for: some kept symbol refers to them strongly, and none defines them. */
  lemma {:induction false} WantedNames(objs: seq<InputObject>, n: Name)
    requires ResolveAll(objs).Ok?
    ensures StronglyUndefined(ResolveAll(objs).value.table, n) <==>
              && (forall p | KeptAs(objs, p, n) :: SymbolOf(objs, p).isUndefined)
              && exists p :: KeptAs(objs, p, n) && SymbolOf(objs, p).isUndefined
                             && SymbolOf(objs, p).binding == Binding.Global
  {
    hide ResolveAll, Meaning, KeptAt, OfName;
    var syms, at := RunMeaning(objs);
    var mine := OfName(syms, n);
    AskedFor(mine, ResolveAll(objs).value.table.Lookup(n));
    forall s ensures s in mine <==> s in syms && s.sym.name == n { InName(syms, n, s); }
    AllUndefined(objs, syms, at, n, mine);
    SomeAsks(objs, syms, at, n, mine);
  }

  ghost predicate Selects(syms: seq<Sym>, n: Name, mine: seq<Sym>) {
    forall s :: s in mine <==> s in syms && s.sym.name == n
  }

  lemma {:induction false} AllUndefined(objs: seq<InputObject>, syms: seq<Sym>, at: seq<Spot>, n: Name, mine: seq<Sym>)
    requires Lists(objs, syms, at) && Selects(syms, n, mine)
    ensures (forall k | 0 <= k < |mine| :: mine[k].sym.isUndefined)
            <==> (forall p | KeptAs(objs, p, n) :: SymbolOf(objs, p).isUndefined)
  {
    hide KeptAt;
    forall p | KeptAs(objs, p, n)
      ensures exists k :: 0 <= k < |mine| && mine[k].sym == SymbolOf(objs, p)
    {
      OneOfMine(objs, syms, at, n, mine, p);
    }
    forall k | 0 <= k < |mine|
      ensures exists p :: KeptAs(objs, p, n) && SymbolOf(objs, p) == mine[k].sym
    {
      MineIsKept(objs, syms, at, n, mine, k);
    }
  }

  lemma {:induction false} OneOfMine(objs: seq<InputObject>, syms: seq<Sym>, at: seq<Spot>, n: Name, mine: seq<Sym>,
          p: Spot)
    requires Lists(objs, syms, at) && Selects(syms, n, mine) && KeptAs(objs, p, n)
    ensures exists k :: 0 <= k < |mine| && mine[k].sym == SymbolOf(objs, p)
  {
    hide KeptAt;
    var k :| 0 <= k < |at| && at[k] == p;
    assert syms[k] in syms && syms[k] in mine;
  }

  lemma {:induction false} MineIsKept(objs: seq<InputObject>, syms: seq<Sym>, at: seq<Spot>, n: Name, mine: seq<Sym>,
          k: nat)
    requires Lists(objs, syms, at) && Selects(syms, n, mine) && k < |mine|
    ensures exists p :: KeptAs(objs, p, n) && SymbolOf(objs, p) == mine[k].sym
  {
    hide KeptAt;
    assert mine[k] in mine;
    var j :| 0 <= j < |syms| && syms[j] == mine[k];
    SpotInside(objs, at[j]);
    assert KeptAs(objs, at[j], n);
  }

  lemma {:induction false} SomeAsks(objs: seq<InputObject>, syms: seq<Sym>, at: seq<Spot>, n: Name, mine: seq<Sym>)
    requires Lists(objs, syms, at) && Selects(syms, n, mine)
    ensures StrongReference(mine) <==>
              exists p :: KeptAs(objs, p, n) && SymbolOf(objs, p).isUndefined
                          && SymbolOf(objs, p).binding == Binding.Global
  {
    hide KeptAt;
    if StrongReference(mine) {
      var k :| 0 <= k < |mine| && mine[k].sym.isUndefined && mine[k].sym.binding == Binding.Global;
      MineIsKept(objs, syms, at, n, mine, k);
    }
    if p :| KeptAs(objs, p, n) && SymbolOf(objs, p).isUndefined
            && SymbolOf(objs, p).binding == Binding.Global {
      OneOfMine(objs, syms, at, n, mine, p);
    }
  }
}
