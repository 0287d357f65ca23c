/** Section garbage collection: marking from the roots along relocation edges, by a serial stack or by
    parallel levels (`peony-layout/src/gc.rs:94-199`, `peony-layout/src/gc/live.rs`). */
module Gc {
  import opened Bytes
  import opened Objects

  /** Object id and raw section index. */
  type Key = (nat, nat)

  /** `roots` and `target` (object and symbol to the section that defines it) come from the symbol
      table. */
  datatype Graph = Graph(objects: seq<InputObject>, roots: seq<Key>, target: (nat, nat) -> Option<Key>)
  {
    function MaxIndex(o: nat, n: nat): nat
      requires o < |objects| && n <= |objects[o].sections|
    {
      if n == 0 then 0 else Max(MaxIndex(o, n - 1), objects[o].sections[n - 1].index)
    }

    /** The live bitmap has whole 64-bit words per object, up to the largest section index. */
    function Width(o: nat): nat
      requires o < |objects|
    {
      64 * (MaxIndex(o, |objects[o].sections|) / 64 + 1)
    }

    predicate InRoom(k: Key) { k.0 < |objects| && k.1 < Width(k.0) }

    function Room(): (s: set<Key>)
      ensures forall k :: k in s <==> InRoom(k)
    {
      set o: nat, i: nat | o < |objects| && i < Width(o) :: (o, i)
    }

    predicate HasSection(k: Key) { k.0 < |objects| && objects[k.0].SectionPos(k.1).Some? }

    /** The sections that the relocations of section `k` refer to. */
    function Targets(k: Key): seq<Key> {
      if !HasSection(k) then []
      else
        var pos := objects[k.0].SectionPos(k.1).value;
        if pos < |objects[k.0].sections| then TargetsOf(k.0, objects[k.0].sections[pos].relocs) else []
    }

    function TargetsOf(o: nat, relocs: seq<InputReloc>): seq<Key>
      decreases |relocs|
    {
      if relocs == [] then []
      else
        var rest := TargetsOf(o, relocs[1..]);
        match target(o, relocs[0].symbol) case None => rest case Some(k) => [k] + rest
    }

    /** Relocation `r` is one of section `k`. */
    predicate HasReloc(k: Key, r: InputReloc) {
      && HasSection(k)
      && var pos := objects[k.0].SectionPos(k.1).value;
         pos < |objects[k.0].sections| && r in objects[k.0].sections[pos].relocs
    }

    /** A relocation of section `k` is against a symbol that section `t` defines. */
    ghost predicate Refers(k: Key, t: Key) {
      exists r :: HasReloc(k, r) && target(k.0, r.symbol) == Some(t)
    }

    /** Marking follows a reference only to a section the bitmap can hold, and starts only from a root
        whose section was parsed. */
    ghost predicate Edge(k: Key, t: Key) { Refers(k, t) && InRoom(t) }

    predicate IsRoot(k: Key) { k in roots && HasSection(k) && InRoom(k) }

    ghost predicate Closed(s: set<Key>) {
      forall k, t | k in s && Edge(k, t) :: t in s
    }

    ghost predicate HoldsRoots(s: set<Key>) { forall k | IsRoot(k) :: k in s }

    /** The least set that holds the roots and is closed. */
    ghost predicate IsReachable(s: set<Key>) {
      HoldsRoots(s) && Closed(s) && forall k | k in s :: Must(k)
    }

    /** `k` is in every closed set that holds the roots. */
    ghost predicate Must(k: Key) {
      forall t: set<Key> | HoldsRoots(t) && Closed(t) :: k in t
    }

    /** A chain of references from a root to `k`. */
    ghost predicate Path(p: seq<Key>, k: Key)
      decreases |p|
    {
      && p != [] && p[|p| - 1] == k
      && (if |p| == 1 then IsRoot(k) else Path(p[..|p| - 1], p[|p| - 2]) && Edge(p[|p| - 2], k))
    }
  }

  // ── References ───────────────────────────────────────────────────────────

  lemma {:induction false} TargetsOfExactly(g: Graph, o: nat, relocs: seq<InputReloc>, t: Key)
    ensures t in g.TargetsOf(o, relocs) <==> exists r :: r in relocs && g.target(o, r.symbol) == Some(t)
    decreases |relocs|
  {
    if relocs != [] {
      TargetsOfExactly(g, o, relocs[1..], t);
      assert forall r :: r in relocs <==> r == relocs[0] || r in relocs[1..];
    }
  }

  /** The targets collected for a section are exactly the sections that one of its relocations refers to. */
  lemma {:induction false} TargetsExactly(g: Graph, k: Key, t: Key)
    ensures t in g.Targets(k) <==> g.Refers(k, t)
  {
    hide g.TargetsOf;
    if g.HasSection(k) {
      var pos := g.objects[k.0].SectionPos(k.1).value;
      if pos < |g.objects[k.0].sections| {
        var relocs := g.objects[k.0].sections[pos].relocs;
        TargetsOfExactly(g, k.0, relocs, t);
        assert forall r :: g.HasReloc(k, r) <==> r in relocs;
      }
    }
  }

  /** The bitmap has room for every parsed section. */
  lemma {:induction false} RoomForParsed(g: Graph, o: nat, pos: nat)
    requires o < |g.objects| && pos < |g.objects[o].sections|
    ensures g.InRoom((o, g.objects[o].sections[pos].index))
  {
    MaxIndexIsMax(g, o, |g.objects[o].sections|, pos);
  }

  lemma {:induction false} MaxIndexIsMax(g: Graph, o: nat, n: nat, pos: nat)
    requires o < |g.objects| && pos < n <= |g.objects[o].sections|
    ensures g.objects[o].sections[pos].index <= g.MaxIndex(o, n)
  {
    if pos < n - 1 { MaxIndexIsMax(g, o, n - 1, pos); }
  }

  // ── One step of marking ──────────────────────────────────────────────────

  /** `done` sections have had their references collected, `queued` ones wait for that, and `pending` keys
      are collected but not inserted. */
  ghost predicate Marking(g: Graph, live: set<Key>, queued: set<Key>, done: set<Key>, pending: seq<Key>) {
    && (forall k | k in live :: g.InRoom(k) && g.Must(k))
    && (forall k | k in pending && g.InRoom(k) :: g.Must(k))
    && (forall k | k in queued :: k !in done)
    && (forall k :: k in live && g.HasSection(k) <==> k in done || k in queued)
    && (forall k, t | k in done && g.Edge(k, t) :: t in live || t in pending)
  }

  function Elems(s: seq<Key>): set<Key> { set k | k in s }

  predicate NoRepeats(s: seq<Key>) { forall i, j | 0 <= i < j < |s| :: s[i] != s[j] }

  lemma {:induction false} Take(g: Graph, live: set<Key>, queued: set<Key>, done: set<Key>, pending: seq<Key>, x: Key)
    requires Marking(g, live, queued, done, pending) && x in queued
    ensures Marking(g, live, queued - {x}, done + {x}, pending + g.Targets(x)) && x !in done
  {
    hide g.Must, g.Edge, g.Targets, g.Refers, g.HasSection, g.InRoom;
    assert x in live;
    forall k | k in pending + g.Targets(x) && g.InRoom(k)
      ensures g.Must(k)
    {
      if k !in pending { Follow(g, x, k); }
    }
    forall k, t | k in done + {x} && g.Edge(k, t)
      ensures t in live || t in pending + g.Targets(x)
    {
      if k == x { Referenced(g, x, t); }
    }
  }

  lemma {:induction false} Referenced(g: Graph, k: Key, t: Key)
    ensures g.Edge(k, t) <==> t in g.Targets(k) && g.InRoom(t)
  {
    TargetsExactly(g, k, t);
    hide g.Targets, g.Refers, g.InRoom;
  }

  lemma {:induction false} Follow(g: Graph, k: Key, t: Key)
    requires g.Must(k) && t in g.Targets(k) && g.InRoom(t)
    ensures g.Must(t)
  {
    hide g.Edge, g.Targets, g.HasSection, g.InRoom;
    Referenced(g, k, t);
  }

  lemma {:induction false} Insert(g: Graph, live: set<Key>, queued: set<Key>, done: set<Key>, k: Key, pending: seq<Key>)
    requires Marking(g, live, queued, done, [k] + pending)
    ensures !g.InRoom(k) || k in live ==> Marking(g, live, queued, done, pending)
    ensures g.InRoom(k) && k !in live ==>
              Marking(g, live + {k}, if g.HasSection(k) then queued + {k} else queued, done, pending) && k !in queued
  {
    hide g.Must, g.Targets, g.Edge, g.HasSection, g.InRoom;
    assert k in [k] + pending;
    forall d, t | d in done && g.Edge(d, t)
      ensures t in live || t in pending || (t == k && g.InRoom(k))
    {
      Referenced(g, d, t);
      assert t in [k] + pending ==> t == k || t in pending;
    }
    forall t | t in pending ensures t in [k] + pending {
    }
  }

  /** With nothing queued and nothing pending, the live set is the reachable one. */
  lemma {:induction false} Marked(g: Graph, live: set<Key>, done: set<Key>)
    requires Marking(g, live, {}, done, []) && g.HoldsRoots(live)
    ensures g.IsReachable(live) && done == set k | k in live && g.HasSection(k)
  {
    hide g.Must, g.InRoom, g.HoldsRoots;
    forall k, t | k in live && g.Edge(k, t)
      ensures t in live
    {
      assert g.HasSection(k);
    }
  }

  /** There is only one least closed set. */
  lemma {:induction false} OneReachableSet(g: Graph, s: set<Key>, t: set<Key>)
    requires g.IsReachable(s) && g.IsReachable(t)
    ensures s == t
  {
    hide g.HoldsRoots, g.Closed;
  }

  lemma {:induction false} Push(s: seq<Key>, k: Key)
    ensures Elems(s + [k]) == Elems(s) + {k}
    ensures NoRepeats(s) && k !in Elems(s) ==> NoRepeats(s + [k])
  {
  }

  lemma {:induction false} Pop(s: seq<Key>)
    requires s != [] && NoRepeats(s)
    ensures NoRepeats(s[..|s| - 1])
    ensures Elems(s[..|s| - 1]) == Elems(s) - {s[|s| - 1]} && s[|s| - 1] in Elems(s)
  {
    var last := s[|s| - 1];
    forall k | k in Elems(s) - {last}
      ensures k in s[..|s| - 1]
    {
      var i :| 0 <= i < |s| && s[i] == k;
      assert s[..|s| - 1][i] == k;
    }
  }

  lemma {:induction false} Grown(g: Graph, was: set<Key>, live: set<Key>)
    requires was <= live && forall k | k in live :: g.InRoom(k)
    ensures live == was || g.Room() - live < g.Room() - was
  {
    hide g.InRoom;
    if k :| k in live && k !in was {
      assert k in g.Room() - was && k !in g.Room() - live;
    }
  }

  // ── The traversal ────────────────────────────────────────────────────────

  const GRAIN_SIZE := 8192

  class GcTraversal {
    const g: Graph
    var live: set<Key>
    var frontier: seq<Key>
    var traversed: nat
    ghost var done: set<Key>

    constructor (g: Graph)
      ensures this.g == g && Valid() && live == {} && frontier == []
    {
      this.g := g;
      live, frontier, traversed, done := {}, [], 0, {};
    }

    ghost predicate Valid()
      reads this
    {
      Inserting([])
    }

    /** `Valid`, with `pending` still to be inserted. */
    ghost predicate Inserting(pending: seq<Key>)
      reads this
    {
      Marking(g, live, Elems(frontier), done, pending) && NoRepeats(frontier) && traversed == |done|
    }

    method InsertKey(k: Key, ghost pending: seq<Key>)
      requires Inserting([k] + pending)
      modifies this
      ensures Inserting(pending)
      ensures live == if g.InRoom(k) then old(live) + {k} else old(live)
      ensures done == old(done)
      ensures live == old(live) ==> frontier == old(frontier)
    {
      hide Marking, Elems, NoRepeats, g.InRoom, g.HasSection;
      Insert(g, live, Elems(frontier), done, k, pending);
      Push(frontier, k);
      if g.InRoom(k) && k !in live {
        live := live + {k};
        if g.HasSection(k) { frontier := frontier + [k]; }
      }
    }

    method InsertAll(keys: seq<Key>)
      requires Inserting(keys)
      modifies this
      ensures Valid() && done == old(done)
      ensures old(live) <= live
      ensures live == old(live) ==> frontier == old(frontier)
    {
      hide Marking, NoRepeats, g.InRoom;
      assert keys[0..] == keys;
      for i := 0 to |keys|
        invariant Inserting(keys[i..]) && done == old(done)
        invariant old(live) <= live
        invariant live == old(live) ==> frontier == old(frontier)
      {
        assert keys[i..] == [keys[i]] + keys[i + 1..];
        InsertKey(keys[i], keys[i + 1..]);
      }
      assert keys[|keys|..] == [];
    }
  
    /** A root only counts when its section was parsed. */
    method SeedRoots()
      requires Valid() && live == {} && frontier == []
      modifies this
      ensures Valid() && g.HoldsRoots(live)
    {
      hide Marking, NoRepeats, Elems, g.InRoom, g.HasSection, g.Must;
      for i := 0 to |g.roots|
        invariant Valid()
        invariant forall k | k in g.roots[..i] && g.IsRoot(k) :: k in live
      {
        var k := g.roots[i];
        assert g.roots[..i + 1] == g.roots[..i] + [k];
        if g.HasSection(k) {
          RootPending(g, live, Elems(frontier), done, k);
          InsertKey(k, []);
        }
      }
      assert g.roots[..|g.roots|] == g.roots;
    }

    method DrainSerialStack()
      requires Valid()
      modifies this
      ensures Valid() && frontier == []
      ensures old(live) <= live
    {
      hide Marking, NoRepeats, Elems, g.InRoom, g.Targets, g.Room;
      while frontier != []
        invariant Valid() && old(live) <= live
        decreases g.Room() - live, |frontier|
      {
        ghost var was, n := live, |frontier|;
        var item := frontier[|frontier| - 1];
        Pop(frontier);
        Take(g, live, Elems(frontier), done, [], item);
        frontier, done := frontier[..|frontier| - 1], done + {item};
        traversed := traversed + 1;
        assert [] + g.Targets(item) == g.Targets(item);
        InsertAll(g.Targets(item));
        LiveInRoom(g, live, Elems(frontier), done);
        Grown(g, was, live);
      }
    }

    /** Workers take the waiting items in any order, and insertion starts when all are done. */
    method DrainParallelLevel()
      requires Valid()
      modifies this
      ensures Valid()
      ensures old(live) <= live
      ensures live == old(live) ==> frontier == []
    {
      hide Marking, NoRepeats, Elems, g.InRoom, g.Targets, g.Room;
      var waiting := Elems(frontier);
      var candidates: seq<Key> := [];
      frontier := [];
      NothingQueued();
      while waiting != {}
        invariant Marking(g, live, waiting, done, candidates) && traversed == |done|
        invariant live == old(live) && frontier == []
        decreases waiting
      {
        var item :| item in waiting;
        Take(g, live, waiting, done, candidates, item);
        waiting, done := waiting - {item}, done + {item};
        candidates, traversed := candidates + g.Targets(item), traversed + 1;
      }
      InsertAll(candidates);
    }

    /** Marks everything reachable, whatever mix of serial drains and parallel levels the number of
        available threads leads to. */
    method Run(maxThreads: nat)
      requires Valid() && g.HoldsRoots(live)
      modifies this
      ensures g.IsReachable(live)
      ensures traversed == |set k | k in live && g.HasSection(k)|
    {
      hide Marking, NoRepeats, Elems, g.InRoom, g.Targets, g.Room, g.IsReachable;
      while frontier != []
        invariant Valid() && g.HoldsRoots(live)
        decreases g.Room() - live, |frontier|
      {
        ghost var was := live;
        var pl := Max(Min(Min(maxThreads, |frontier|), (|frontier| + GRAIN_SIZE - 1) / GRAIN_SIZE), 1);
        if pl == 1 {
          DrainSerialStack();
        } else {
          DrainParallelLevel();
        }
        StillHoldsRoots(g, was, live);
        LiveInRoom(g, live, Elems(frontier), done);
        Grown(g, was, live);
      }
      NothingQueued();
      Marked(g, live, done);
    }
  }

  lemma {:induction false} NothingQueued()
    ensures Elems([]) == {} && NoRepeats([])
  {
  }

  lemma {:induction false} StillHoldsRoots(g: Graph, was: set<Key>, live: set<Key>)
    requires g.HoldsRoots(was) && was <= live
    ensures g.HoldsRoots(live)
  {
  }

  lemma {:induction false} LiveInRoom(g: Graph, live: set<Key>, queued: set<Key>, done: set<Key>)
    requires Marking(g, live, queued, done, [])
    ensures forall k | k in live :: g.InRoom(k)
  {
  }

  lemma {:induction false} RootPending(g: Graph, live: set<Key>, queued: set<Key>, done: set<Key>, k: Key)
    requires Marking(g, live, queued, done, []) && k in g.roots && g.HasSection(k)
    ensures Marking(g, live, queued, done, [k] + [])
  {
    hide g.Edge, g.Closed, g.HasSection, g.InRoom;
    if g.InRoom(k) { assert g.IsRoot(k); }
  }

  method GcSections(g: Graph, maxThreads: nat) returns (live: set<Key>, traversed: nat)
    ensures g.IsReachable(live)
    ensures traversed == |set k | k in live && g.HasSection(k)|
  {
    hide g.IsReachable, g.HasSection;
    var traversal := new GcTraversal(g);
    traversal.SeedRoots();
    traversal.Run(maxThreads);
    live, traversed := traversal.live, traversal.traversed;
  }

  // ── What the reachable set is ────────────────────────────────────────────

  lemma {:induction false} PathIsMarked(g: Graph, s: set<Key>, p: seq<Key>, k: Key)
    requires g.HoldsRoots(s) && g.Closed(s) && g.Path(p, k)
    ensures k in s
    decreases |p|
  {
    hide g.Edge, g.IsRoot;
    if |p| > 1 { PathIsMarked(g, s, p[..|p| - 1], p[|p| - 2]); }
  }

  lemma {:induction false} PathExtends(g: Graph, p: seq<Key>, k: Key, t: Key)
    requires g.Path(p, k) && g.Edge(k, t)
    ensures g.Path(p + [t], t)
  {
    hide g.Edge, g.IsRoot;
    assert (p + [t])[..|p|] == p;
  }

  lemma {:induction false} PathInRoom(g: Graph, p: seq<Key>, k: Key)
    requires g.Path(p, k)
    ensures g.InRoom(k)
  {
    hide g.Refers, g.HasSection, g.InRoom;
  }

  /** A section is kept exactly when a chain of relocations leads to it from a root. */
  lemma {:induction false} LiveIsAPath(g: Graph, s: set<Key>, k: Key)
    requires g.IsReachable(s)
    ensures k in s <==> exists p :: g.Path(p, k)
  {
    hide g.Edge, g.IsRoot, g.InRoom;
    if p :| g.Path(p, k) {
      PathIsMarked(g, s, p, k);
    }
    assert (exists p :: g.Path(p, k)) ==> k in s;
    var t := set q | q in g.Room() && exists p :: g.Path(p, q);
    assert g.HoldsRoots(t) by {
      forall q | g.IsRoot(q) ensures q in t {
        assert g.Path([q], q);
        PathInRoom(g, [q], q);
      }
    }
    assert g.Closed(t) by {
      forall q, u | q in t && g.Edge(q, u) ensures u in t {
        var p :| g.Path(p, q);
        PathExtends(g, p, q, u);
        PathInRoom(g, p + [u], u);
      }
    }
    if k in s {
      assert g.Must(k);
      assert k in t;
      assert exists p :: g.Path(p, k);
    }
  }

  // ── The independent check ────────────────────────────────────────────────

  /** The set that the verification crate recomputes: every root and every reference counts, parsed or
      not (`peony-verification/src/gc.rs:84-110`). */
  ghost predicate HoldsWitness(g: Graph, s: set<Key>) {
    && (forall k | k in g.roots :: k in s)
    && (forall k, t | k in s && g.Refers(k, t) :: t in s)
  }

  ghost predicate IsWitness(g: Graph, s: set<Key>) {
    HoldsWitness(g, s) && forall t: set<Key> | HoldsWitness(g, t) :: s <= t
  }

  /** The recomputed set is the live set exactly when marking dropped no root and no reference. */
  lemma {:induction false} WitnessAgrees(g: Graph, live: set<Key>, recomputed: set<Key>)
    requires g.IsReachable(live) && IsWitness(g, recomputed)
    ensures live <= recomputed
    ensures live == recomputed <==>
            (forall k | k in g.roots :: k in live) && (forall k, t | k in live && g.Refers(k, t) :: g.InRoom(t))
  {
    hide g.Refers, g.HasSection, g.InRoom;
    assert g.HoldsRoots(recomputed) && g.Closed(recomputed);
    assert forall k | k in live :: g.Must(k);
    assert live == recomputed ==> forall k, t | k in live && g.Refers(k, t) :: t in live;
    LiveIsInRoom(g, live);
    if (forall k | k in g.roots :: k in live) && (forall k, t | k in live && g.Refers(k, t) :: g.InRoom(t)) {
      forall k, t | k in live && g.Refers(k, t)
        ensures t in live
      {
        assert g.Edge(k, t);
      }
      assert HoldsWitness(g, live);
    }
  }

  /** What the parser and the symbol table give: section maps that agree with the sections, and references and roots
      that are parsed sections. */
  ghost predicate Parsed(g: Graph) {
    && (forall o | 0 <= o < |g.objects| :: g.objects[o].Indexed())
    && (forall k | k in g.roots :: IsSection(g, k))
    && forall o, i, t | g.target(o, i) == Some(t) :: IsSection(g, t)
  }

  predicate IsSection(g: Graph, k: Key) {
    k.0 < |g.objects| && exists pos :: 0 <= pos < |g.objects[k.0].sections| && g.objects[k.0].sections[pos].index == k.1
  }

  lemma {:induction false} SectionIsRoot(g: Graph, k: Key)
    requires Parsed(g) && IsSection(g, k)
    ensures g.HasSection(k) && g.InRoom(k)
  {
    hide g.InRoom;
    var pos :| 0 <= pos < |g.objects[k.0].sections| && g.objects[k.0].sections[pos].index == k.1;
    RoomForParsed(g, k.0, pos);
  }

  /** Then marking drops nothing: the live set is the least set that holds every root and everything that a relocation
      of a live section refers to. */
  lemma {:induction false} ParsedIsExact(g: Graph, live: set<Key>)
    requires Parsed(g) && g.IsReachable(live)
    ensures IsWitness(g, live)
  {
    hide g.InRoom, g.HasSection, IsSection;
    forall k | k in g.roots ensures k in live {
      SectionIsRoot(g, k);
      assert g.IsRoot(k);
    }
    forall k, t | k in live && g.Refers(k, t)
      ensures t in live
    {
      SectionIsRoot(g, t);
      assert g.Edge(k, t);
    }
    forall t: set<Key> | HoldsWitness(g, t)
      ensures live <= t
    {
      WitnessCloses(g, t);
      assert forall k | k in live :: g.Must(k);
    }
  }

  lemma {:induction false} WitnessCloses(g: Graph, t: set<Key>)
    requires HoldsWitness(g, t)
    ensures g.HoldsRoots(t) && g.Closed(t)
  {
    hide g.Refers, g.HasSection, g.InRoom;
  }

  lemma {:induction false} LiveIsInRoom(g: Graph, live: set<Key>)
    requires g.IsReachable(live)
    ensures forall k | k in live :: g.InRoom(k)
  {
    forall k | k in live ensures g.InRoom(k) {
      LiveIsAPath(g, live, k);
      hide g.InRoom, g.Path, g.IsReachable;
      var p :| g.Path(p, k);
      PathInRoom(g, p, k);
    }
  }

  /** An entry symbol whose section index is malformed, beyond all parsed sections, is a root for the
      recomputation only. */
  lemma {:induction false} UnparsedEntryDisagrees()
    ensures exists g: Graph, live: set<Key>, recomputed: set<Key> ::
              g.IsReachable(live) && IsWitness(g, recomputed) && live != recomputed
  {
    var g := Graph([InputObject("", [], [], map[], map[], [])], [(0, 1)], (o: nat, s: nat) => None);
    assert g.HoldsRoots({}) && g.Closed({}) && g.IsReachable({});
    assert HoldsWitness(g, {(0, 1)}) && IsWitness(g, {(0, 1)});
  }
}
