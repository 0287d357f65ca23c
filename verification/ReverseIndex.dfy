/** The relocation reverse index (`peony-cache/src/lib.rs:301-417`): linked lists in two flat arrays of
    atomic cells, built by compare-exchange. Threads interleave one atomic access at a time. */
module ReverseIndex {

  const NO_ENTRY: nat := 0xffff_ffff

  /** One call of `insert`. Every thread's calls are tasks; a schedule may interleave all of them. */
  datatype Task = Task(sym: nat, reloc: nat)

  /** Where a call stands: about to load the head, about to store it as the next cell, about to
      exchange, or finished. */
  datatype Pc = Start | Loaded(seen: nat) | Stored(seen: nat) | Inserted | Ignored
  {
    predicate Done() { Inserted? || Ignored? }
  }

  /** `log` records the tasks whose compare-exchange succeeded, in order. */
  datatype State = State(heads: seq<nat>, nexts: seq<nat>, pcs: seq<Pc>, log: seq<nat>)

  predicate InRange(s: State, t: Task) { t.sym < |s.heads| && t.reloc < |s.nexts| }

  function Init(symbols: nat, relocs: nat, tasks: seq<Task>): State {
    State(seq(symbols, i => NO_ENTRY), seq(relocs, i => NO_ENTRY), seq(|tasks|, i => Start), [])
  }

  predicate Shaped(tasks: seq<Task>, s: State) {
    && |s.pcs| == |tasks|
    && (forall t | 0 <= t < |tasks| && !s.pcs[t].Start? && !s.pcs[t].Ignored? :: InRange(s, tasks[t]))
    && (forall k | 0 <= k < |s.log| :: s.log[k] < |tasks|)
  }

  /** One atomic access by task `t`. */
  function Step(tasks: seq<Task>, s: State, t: nat): (r: State)
    requires Shaped(tasks, s) && t < |tasks| && !s.pcs[t].Done()
    ensures Shaped(tasks, r) && |r.heads| == |s.heads| && |r.nexts| == |s.nexts|
  {
    var task := tasks[t];
    match s.pcs[t]
    case Start =>
      if !InRange(s, task) then s.(pcs := s.pcs[t := Ignored])
      else s.(pcs := s.pcs[t := Loaded(s.heads[task.sym])])
    case Loaded(seen) => s.(nexts := s.nexts[task.reloc := seen], pcs := s.pcs[t := Stored(seen)])
    case Stored(seen) =>
      if s.heads[task.sym] == seen
      then State(s.heads[task.sym := task.reloc], s.nexts, s.pcs[t := Inserted], s.log + [t])
      else s.(pcs := s.pcs[t := Start])
  }

  /** The state after the accesses in `schedule`; `None` when it names a finished call. */
  function Run(symbols: nat, relocs: nat, tasks: seq<Task>, schedule: seq<nat>): (s: Option<State>)
    ensures s.Some? ==> Shaped(tasks, s.value) && |s.value.heads| == symbols && |s.value.nexts| == relocs
  {
    if schedule == [] then Some(Init(symbols, relocs, tasks))
    else
      var n := |schedule| - 1;
      match Run(symbols, relocs, tasks, schedule[..n])
      case None => None
      case Some(s) =>
        if schedule[n] < |tasks| && !s.pcs[schedule[n]].Done() then Some(Step(tasks, s, schedule[n])) else None
  }

  datatype Option<+T> = None | Some(value: T)

  /** Relocation ids fit the cells and no two calls insert the same one. */
  predicate Distinct(tasks: seq<Task>, relocs: nat) {
    relocs <= NO_ENTRY && forall i, j | 0 <= i < j < |tasks| :: tasks[i].reloc != tasks[j].reloc
  }

  // ── Chains ───────────────────────────────────────────────────────────────

  /** The ids whose exchange succeeded for `sym`, newest first. */
  function ChainOf(tasks: seq<Task>, log: seq<nat>, sym: nat): seq<nat>
    requires forall k | 0 <= k < |log| :: log[k] < |tasks|
  {
    if log == [] then []
    else
      var n := |log| - 1;
      var rest := ChainOf(tasks, log[..n], sym);
      if tasks[log[n]].sym == sym then [tasks[log[n]].reloc] + rest else rest
  }

  /** Following `nexts` from `head` visits exactly `c`. */
  predicate Linked(head: nat, nexts: seq<nat>, c: seq<nat>)
    decreases |c|
  {
    if c == [] then head == NO_ENTRY else head == c[0] && c[0] < |nexts| && Linked(nexts[c[0]], nexts, c[1..])
  }

  lemma {:induction false} LinkedFrame(head: nat, nexts: seq<nat>, c: seq<nat>, r: nat, v: nat)
    requires Linked(head, nexts, c) && r < |nexts| && r !in c
    ensures Linked(head, nexts[r := v], c)
    decreases |c|
  {
    if c != [] { LinkedFrame(nexts[c[0]], nexts, c[1..], r, v); }
  }

  /** An id is in the chain exactly when one of the logged tasks for that symbol carries it. */
  lemma {:induction false} ChainMember(tasks: seq<Task>, log: seq<nat>, sym: nat, id: nat)
    requires forall k | 0 <= k < |log| :: log[k] < |tasks|
    ensures id in ChainOf(tasks, log, sym) <==>
              exists k :: 0 <= k < |log| && tasks[log[k]] == Task(sym, id)
  {
    if log != [] {
      var n := |log| - 1;
      ChainMember(tasks, log[..n], sym, id);
      if k :| 0 <= k < n && tasks[log[..n][k]] == Task(sym, id) { assert tasks[log[k]] == Task(sym, id); }
      if k :| 0 <= k < |log| && tasks[log[k]] == Task(sym, id) {
        if k < n { assert tasks[log[..n][k]] == Task(sym, id); }
      }
    }
  }

  predicate NoRepeats(c: seq<nat>) { forall i, j | 0 <= i < j < |c| :: c[i] != c[j] }

  lemma {:induction false} ChainNoRepeats(tasks: seq<Task>, log: seq<nat>, sym: nat)
    requires NoRepeats(log) && forall k | 0 <= k < |log| :: log[k] < |tasks|
    requires forall i, j | 0 <= i < j < |tasks| :: tasks[i].reloc != tasks[j].reloc
    ensures NoRepeats(ChainOf(tasks, log, sym))
  {
    if log != [] {
      var n := |log| - 1;
      ChainNoRepeats(tasks, log[..n], sym);
      ChainMember(tasks, log[..n], sym, tasks[log[n]].reloc);
    }
  }

  // ── The invariant of every interleaving ──────────────────────────────────

  ghost predicate Inv(tasks: seq<Task>, s: State)
    requires Shaped(tasks, s)
  {
    && NoRepeats(s.log)
    && (forall t | 0 <= t < |tasks| :: t in s.log <==> s.pcs[t].Inserted?)
    && (forall sym | 0 <= sym < |s.heads| :: Linked(s.heads[sym], s.nexts, ChainOf(tasks, s.log, sym)))
    && (forall t | 0 <= t < |tasks| && s.pcs[t].Ignored? :: !InRange(s, tasks[t]))
    && (forall t | 0 <= t < |tasks| && s.pcs[t].Stored? :: s.nexts[tasks[t].reloc] == s.pcs[t].seen)
  }

  lemma {:induction false} SameTask(tasks: seq<Task>, i: nat, j: nat)
    requires i < |tasks| && j < |tasks|
    requires forall i, j | 0 <= i < j < |tasks| :: tasks[i].reloc != tasks[j].reloc
    ensures tasks[i].reloc == tasks[j].reloc ==> i == j
  {
  }

  /** A relocation that is not yet inserted is in no chain. */
  lemma {:induction false} NotInChain(tasks: seq<Task>, s: State, t: nat, sym: nat)
    requires Shaped(tasks, s) && Inv(tasks, s) && Distinct(tasks, |s.nexts|) && t < |tasks| && !s.pcs[t].Inserted?
    ensures tasks[t].reloc !in ChainOf(tasks, s.log, sym)
  {
    ChainMember(tasks, s.log, sym, tasks[t].reloc);
    forall k | 0 <= k < |s.log|
      ensures tasks[s.log[k]] != Task(sym, tasks[t].reloc)
    {
      assert s.log[k] in s.log;
      SameTask(tasks, s.log[k], t);
    }
  }

  lemma {:induction false} StoreKeeps(tasks: seq<Task>, s: State, t: nat)
    requires Shaped(tasks, s) && Inv(tasks, s) && Distinct(tasks, |s.nexts|) && t < |tasks| && s.pcs[t].Loaded?
    ensures Inv(tasks, Step(tasks, s, t))
  {
    var r := Step(tasks, s, t);
    forall sym | 0 <= sym < |r.heads|
      ensures Linked(r.heads[sym], r.nexts, ChainOf(tasks, r.log, sym))
    {
      NotInChain(tasks, s, t, sym);
      LinkedFrame(s.heads[sym], s.nexts, ChainOf(tasks, s.log, sym), tasks[t].reloc, s.pcs[t].seen);
    }
    forall u | 0 <= u < |tasks| && r.pcs[u].Stored?
      ensures r.nexts[tasks[u].reloc] == r.pcs[u].seen
    {
      SameTask(tasks, u, t);
    }
  }

  lemma {:induction false} ExchangeLinks(tasks: seq<Task>, s: State, t: nat, sym: nat)
    requires Shaped(tasks, s) && Inv(tasks, s) && t < |tasks| && s.pcs[t].Stored? && sym < |s.heads|
    requires s.heads[tasks[t].sym] == s.pcs[t].seen
    ensures var r := Step(tasks, s, t); Linked(r.heads[sym], r.nexts, ChainOf(tasks, r.log, sym))
  {
    var r := Step(tasks, s, t);
    var chain := ChainOf(tasks, s.log, sym);
    assert r.log[..|s.log|] == s.log;
    assert Linked(s.heads[sym], s.nexts, chain);
    if sym == tasks[t].sym { assert ([tasks[t].reloc] + chain)[1..] == chain; }
  }

  lemma {:induction false} ExchangeKeeps(tasks: seq<Task>, s: State, t: nat)
    requires Shaped(tasks, s) && Inv(tasks, s) && t < |tasks| && s.pcs[t].Stored?
    ensures Inv(tasks, Step(tasks, s, t))
  {
    hide Linked, ChainOf;
    if s.heads[tasks[t].sym] == s.pcs[t].seen {
      var r := Step(tasks, s, t);
      forall sym | 0 <= sym < |r.heads|
        ensures Linked(r.heads[sym], r.nexts, ChainOf(tasks, r.log, sym))
      {
        ExchangeLinks(tasks, s, t, sym);
      }
    }
  }

  lemma {:induction false} StepKeeps(tasks: seq<Task>, s: State, t: nat)
    requires Shaped(tasks, s) && Inv(tasks, s) && Distinct(tasks, |s.nexts|) && t < |tasks| && !s.pcs[t].Done()
    ensures Inv(tasks, Step(tasks, s, t))
  {
    match s.pcs[t]
    case Start =>
    case Loaded(_) => StoreKeeps(tasks, s, t);
    case Stored(_) => ExchangeKeeps(tasks, s, t);
  }

  lemma {:induction false} RunKeeps(symbols: nat, relocs: nat, tasks: seq<Task>, schedule: seq<nat>)
    requires Distinct(tasks, relocs) && Run(symbols, relocs, tasks, schedule).Some?
    ensures Inv(tasks, Run(symbols, relocs, tasks, schedule).value)
  {
    hide Inv, Step;
    if schedule == [] {
      InitHolds(symbols, relocs, tasks);
    } else {
      var n := |schedule| - 1;
      RunKeeps(symbols, relocs, tasks, schedule[..n]);
      StepKeeps(tasks, Run(symbols, relocs, tasks, schedule[..n]).value, schedule[n]);
    }
  }

  lemma {:induction false} InitHolds(symbols: nat, relocs: nat, tasks: seq<Task>)
    ensures Inv(tasks, Init(symbols, relocs, tasks))
  {
  }

  // ── Iteration ────────────────────────────────────────────────────────────

  /** `iter_relocs`: follow `nexts` until the end marker. `chain` is the list being walked. */
  method IterRelocs(heads: seq<nat>, nexts: seq<nat>, sym: nat, ghost chain: seq<nat>) returns (out: seq<nat>)
    requires |nexts| <= NO_ENTRY
    requires sym < |heads| ==> Linked(heads[sym], nexts, chain)
    ensures out == if sym < |heads| then chain else []
  {
    out := [];
    if sym >= |heads| { return; }
    var current := heads[sym];
    ghost var left := chain;
    while current != NO_ENTRY
      invariant Linked(current, nexts, left) && out + left == chain
      decreases |left|
    {
      out := out + [current];
      current := nexts[current];
      left := left[1..];
    }
  }

  /** The index as one thread sees it: `chains` is the abstract value, one list per symbol. */
  class RelocReverseIndex {
    const heads: array<nat>
    const nexts: array<nat>
    ghost var chains: seq<seq<nat>>

    ghost predicate Valid()
      reads this, heads, nexts
    {
      && heads != nexts && nexts.Length <= NO_ENTRY && |chains| == heads.Length
      && forall sym | 0 <= sym < |chains| :: Linked(heads[sym], nexts[..], chains[sym])
    }

    constructor (symbolCount: nat, relocCount: nat)
      requires relocCount <= NO_ENTRY
      ensures Valid() && fresh(heads) && fresh(nexts) && heads.Length == symbolCount && nexts.Length == relocCount
      ensures chains == seq(symbolCount, i => [])
    {
      heads := new nat[symbolCount](i => NO_ENTRY);
      nexts := new nat[relocCount](i => NO_ENTRY);
      chains := seq(symbolCount, i => []);
    }

    /** Puts the id in front of the symbol's list; an id or symbol out of range is ignored. */
    method Insert(sym: nat, reloc: nat)
      requires Valid() && forall c | c in chains :: reloc !in c
      modifies this, heads, nexts
      ensures Valid()
      ensures chains == if sym < heads.Length
              && reloc < nexts.Length then old(chains)[sym := [reloc] + old(chains)[sym]]
                        else old(chains)
    {
      if sym >= heads.Length || reloc >= nexts.Length { return; }
      var seen := heads[sym];
      nexts[reloc] := seen;
      ghost var was := old(nexts[..]);
      assert nexts[..] == was[reloc := seen];
      forall k | 0 <= k < |chains|
        ensures Linked(old(heads[k]), nexts[..], chains[k])
      {
        LinkedFrame(old(heads[k]), was, chains[k], reloc, seen);
      }
      heads[sym] := reloc;
      chains := chains[sym := [reloc] + chains[sym]];
      assert chains[sym][1..] == old(chains)[sym];
    }

    method Iter(sym: nat) returns (out: seq<nat>)
      requires Valid()
      ensures out == if sym < heads.Length then chains[sym] else []
    {
      out := IterRelocs(heads[..], nexts[..], sym, if sym < heads.Length then chains[sym] else []);
    }
  }

  /** In every interleaving of any number of inserting threads: each symbol's list is finite, without
      repeats, and holds exactly the ids whose exchange has succeeded for that symbol; the lists of two
      symbols share no id. */
  lemma {:induction false} EveryInterleaving(symbols: nat, relocs: nat, tasks: seq<Task>, schedule: seq<nat>, sym: nat)
    requires Distinct(tasks, relocs) && Run(symbols, relocs, tasks, schedule).Some? && sym < symbols
    ensures var s := Run(symbols, relocs, tasks, schedule).value;
            var chain := ChainOf(tasks, s.log, sym);
            && Linked(s.heads[sym], s.nexts, chain) && NoRepeats(chain)
            && (forall id: nat :: id in chain <==> exists t ::
                 0 <= t < |tasks| && s.pcs[t].Inserted? && tasks[t] == Task(sym, id))
            && (forall other, id | id in chain && id in ChainOf(tasks, s.log, other) :: other == sym)
  {
    var s := Run(symbols, relocs, tasks, schedule).value;
    var chain := ChainOf(tasks, s.log, sym);
    hide Run;
    RunKeeps(symbols, relocs, tasks, schedule);
    ChainNoRepeats(tasks, s.log, sym);
    forall id: nat
      ensures id in chain <==> exists t :: 0 <= t < |tasks| && s.pcs[t].Inserted? && tasks[t] == Task(sym, id)
    {
      InsertedIsChained(tasks, s, sym, id);
    }
    forall other, id | id in chain && id in ChainOf(tasks, s.log, other)
      ensures other == sym
    {
      OneChain(tasks, s.log, sym, other, id);
    }
  }

  /** Once every call has returned, a symbol's list holds each in-range id inserted for it. */
  lemma {:induction false} QuiescentIndex(symbols: nat, relocs: nat, tasks: seq<Task>, schedule: seq<nat>, sym: nat)
    requires Distinct(tasks, relocs) && Run(symbols, relocs, tasks, schedule).Some? && sym < symbols
    requires forall t | 0 <= t < |tasks| :: Run(symbols, relocs, tasks, schedule).value.pcs[t].Done()
    ensures var chain := ChainOf(tasks, Run(symbols, relocs, tasks, schedule).value.log, sym);
            && NoRepeats(chain)
            && forall id: nat :: id in chain <==> id < relocs && Task(sym, id) in tasks
  {
    hide Run, ChainOf, Linked, NoRepeats;
    var s := Run(symbols, relocs, tasks, schedule).value;
    var chain := ChainOf(tasks, s.log, sym);
    EveryInterleaving(symbols, relocs, tasks, schedule, sym);
    RunKeeps(symbols, relocs, tasks, schedule);
    forall id: nat
      ensures id in chain <==> id < relocs && Task(sym, id) in tasks
    {
      AllReturned(tasks, s, sym, id);
      InsertedIsChained(tasks, s, sym, id);
    }
  }

  lemma {:induction false} AllReturned(tasks: seq<Task>, s: State, sym: nat, id: nat)
    requires Shaped(tasks, s) && Inv(tasks, s) && sym < |s.heads| && forall t | 0 <= t < |tasks| :: s.pcs[t].Done()
    ensures id < |s.nexts| && Task(sym, id) in tasks
            <==> exists t :: 0 <= t < |tasks| && s.pcs[t].Inserted? && tasks[t] == Task(sym, id)
  {
    hide Linked, ChainOf;
    if id < |s.nexts| && Task(sym, id) in tasks {
      var t :| 0 <= t < |tasks| && tasks[t] == Task(sym, id);
      assert s.pcs[t].Done() && InRange(s, tasks[t]);
    }
  }

  lemma {:induction false} InsertedIsChained(tasks: seq<Task>, s: State, sym: nat, id: nat)
    requires Shaped(tasks, s) && Inv(tasks, s)
    ensures id in ChainOf(tasks, s.log, sym) <==>
              exists t :: 0 <= t < |tasks| && s.pcs[t].Inserted? && tasks[t] == Task(sym, id)
  {
    ChainMember(tasks, s.log, sym, id);
    if k :| 0 <= k < |s.log| && tasks[s.log[k]] == Task(sym, id) {
      assert s.log[k] in s.log;
    }
    if t :| 0 <= t < |tasks| && s.pcs[t].Inserted? && tasks[t] == Task(sym, id) {
      assert t in s.log;
      var k :| 0 <= k < |s.log| && s.log[k] == t;
    }
  }

  lemma {:induction false} OneChain(tasks: seq<Task>, log: seq<nat>, a: nat, b: nat, id: nat)
    requires forall k | 0 <= k < |log| :: log[k] < |tasks|
    requires forall i, j | 0 <= i < j < |tasks| :: tasks[i].reloc != tasks[j].reloc
    requires id in ChainOf(tasks, log, a) && id in ChainOf(tasks, log, b)
    ensures a == b
  {
    ChainMember(tasks, log, a, id);
    ChainMember(tasks, log, b, id);
    var i :| 0 <= i < |log| && tasks[log[i]] == Task(a, id);
    var j :| 0 <= j < |log| && tasks[log[j]] == Task(b, id);
    SameTask(tasks, log[i], log[j]);
  }

  // ── Progress: the retry loop cannot run for ever ─────────────────────────

  /** The head has moved since this call loaded it. */
  predicate Stale(tasks: seq<Task>, s: State, t: nat)
    requires Shaped(tasks, s) && t < |tasks|
  {
    match s.pcs[t]
    case Loaded(seen) => s.heads[tasks[t].sym] != seen
    case Stored(seen) => s.heads[tasks[t].sym] != seen
    case _ => false
  }

  /** Accesses left in this attempt, and the price of one more attempt if it is bound to fail. */
  function Weight(tasks: seq<Task>, s: State, t: nat): (w: nat)
    requires Shaped(tasks, s) && t < |tasks|
    ensures s.pcs[t].Done() ==> w == 0
    ensures w <= 6
  {
    (match s.pcs[t] case Start => 3 case Loaded(_) => 2 case Stored(_) => 1 case _ => 0)
    + (if Stale(tasks, s, t) then 3 else 0)
  }

  function Weights(tasks: seq<Task>, s: State, n: nat): nat
    requires Shaped(tasks, s) && n <= |tasks|
  {
    if n == 0 then 0 else Weights(tasks, s, n - 1) + Weight(tasks, s, n - 1)
  }

  function Undone(s: State, n: nat): (u: nat)
    requires n <= |s.pcs|
    ensures u <= n
  {
    if n == 0 then 0 else Undone(s, n - 1) + (if s.pcs[n - 1].Done() then 0 else 1)
  }

  /** Strictly decreases with every access, whoever makes it. */
  function Fuel(tasks: seq<Task>, s: State): nat
    requires Shaped(tasks, s)
  {
    var u := Undone(s, |tasks|);
    2 * (u * u) + Weights(tasks, s, |tasks|)
  }

  /** An access that leaves the heads alone changes only its own weight. */
  lemma {:induction false} QuietWeights(tasks: seq<Task>, s: State, r: State, t: nat, n: nat)
    requires Shaped(tasks, s) && Shaped(tasks, r) && n <= |tasks| && t < |tasks|
    requires r.heads == s.heads && forall u | 0 <= u < |tasks| && u != t :: r.pcs[u] == s.pcs[u]
    ensures Weights(tasks, r, n) - Weights(tasks, s, n)
            == if t < n then Weight(tasks, r, t) - Weight(tasks, s, t) else 0
    ensures Undone(r, n) - Undone(s, n)
            == if t < n then (if r.pcs[t].Done() then 0 else 1) - (if s.pcs[t].Done() then 0 else 1) else 0
  {
    if n > 0 { QuietWeights(tasks, s, r, t, n - 1); }
  }

  /** A successful exchange can spoil at most the attempts still under way. */
  lemma {:induction false} ExchangeWeights(tasks: seq<Task>, s: State, t: nat, n: nat)
    requires Shaped(tasks, s) && n <= |tasks| && t < |tasks|
    requires s.pcs[t].Stored? && s.heads[tasks[t].sym] == s.pcs[t].seen
    ensures var r := Step(tasks, s, t);
            && Undone(r, n) == Undone(s, n) - (if t < n then 1 else 0)
            && Weights(tasks, r, n) <= Weights(tasks, s, n) + 3 * Undone(r, n) - (if t < n then 1 else 0)
  {
    if n > 0 { ExchangeWeights(tasks, s, t, n - 1); }
  }

  lemma {:induction false} SquareDrop(u: nat, w: int, x: int)
    requires u > 0 && x <= w + 3 * (u - 1) - 1
    ensures 2 * ((u - 1) * (u - 1)) + x < 2 * (u * u) + w
  {
    assert u * u == (u - 1) * (u - 1) + 2 * u - 1;
  }

  lemma {:induction false} SquareMonotone(u: nat, v: nat)
    requires v <= u
    ensures v * v <= u * u
  {
  }

  lemma {:induction false} FuelDrops(tasks: seq<Task>, s: State, t: nat)
    requires Shaped(tasks, s) && t < |tasks| && !s.pcs[t].Done()
    ensures Fuel(tasks, Step(tasks, s, t)) < Fuel(tasks, s)
  {
    var r, n := Step(tasks, s, t), |tasks|;
    if s.pcs[t].Stored? && s.heads[tasks[t].sym] == s.pcs[t].seen {
      ExchangeWeights(tasks, s, t, n);
      SquareDrop(Undone(s, n), Weights(tasks, s, n), Weights(tasks, r, n));
    } else {
      QuietWeights(tasks, s, r, t, n);
      SquareMonotone(Undone(s, n), Undone(r, n));
    }
  }

  lemma {:induction false} InitFuel(symbols: nat, relocs: nat, tasks: seq<Task>, n: nat)
    requires n <= |tasks|
    ensures var s := Init(symbols, relocs, tasks); Weights(tasks, s, n) == 3 * n && Undone(s, n) == n
  {
    if n > 0 { InitFuel(symbols, relocs, tasks, n - 1); }
  }

  /** No interleaving is longer than `2 * n * n + 3 * n` accesses: some call always makes progress. */
  lemma {:induction false} EveryRunIsBounded(symbols: nat, relocs: nat, tasks: seq<Task>, schedule: seq<nat>)
    requires Run(symbols, relocs, tasks, schedule).Some?
    ensures |schedule| + Fuel(tasks, Run(symbols, relocs, tasks, schedule).value) <= 2 * (|tasks| * |tasks|)
            + 3 * |tasks|
  {
    hide Fuel, Step;
    if schedule == [] {
      InitFuel(symbols, relocs, tasks, |tasks|);
      assert Fuel(tasks, Init(symbols, relocs, tasks))
             == 2 * (|tasks| * |tasks|) + 3 * |tasks| by { FuelIs(symbols, relocs, tasks); }
    } else {
      var n := |schedule| - 1;
      EveryRunIsBounded(symbols, relocs, tasks, schedule[..n]);
      FuelDrops(tasks, Run(symbols, relocs, tasks, schedule[..n]).value, schedule[n]);
    }
  }

  lemma {:induction false} FuelIs(symbols: nat, relocs: nat, tasks: seq<Task>)
    ensures Fuel(tasks, Init(symbols, relocs, tasks)) == 2 * (|tasks| * |tasks|) + 3 * |tasks|
  {
    InitFuel(symbols, relocs, tasks, |tasks|);
  }
}
