/** Symbol resolution over objects and lazily pulled archive members
    (`peony/src/main.rs:1920-2045`, `peony/src/main.rs:2075-2209`). */
module Archives {
  import opened Bytes
  import opened Objects
  import opened Symbols
  import opened SymbolTables

  // ── Resolving one object ─────────────────────────────────────────────────

  datatype Resolved = Resolved(table: Table, objects: seq<InputObject>, seen: set<Name>, excluded: set<(nat, nat)>)

  /** COMDAT groups: a signature already seen discards the group's members; the empty one never does. */
  function Claim(groups: seq<ComdatGroup>, seen: set<Name>): (set<Name>, set<nat>) {
    if groups == [] then (seen, {})
    else
      var (s, x) := Claim(groups[..|groups| - 1], seen);
      var g := groups[|groups| - 1];
      if g.signature == [] then (s, x)
      else if g.signature in s then (s, x + set m | m in g.members)
      else (s + {g.signature}, x)
  }

  function Resolve(r: Resolved, obj: InputObject): Result<Resolved> {
    var (seen, x) := Claim(obj.comdatGroups, r.seen);
    match MergeAll(r.table, Reaching(|r.objects|, obj.symbols, x))
    case Duplicate(a, b) => Duplicate(a, b)
    case Ok(t) => Ok(Resolved(t, r.objects + [obj], seen, r.excluded + set m | m in x :: (|r.objects|, m)))
  }

  // ── Which group copies stay ──────────────────────────────────────────────

  /** Group `j` of object `o` has the nonempty signature `sig`. */
  predicate Signed(objects: seq<InputObject>, o: nat, j: nat, sig: Name) {
    o < |objects| && j < |objects[o].comdatGroups| && objects[o].comdatGroups[j].signature == sig && sig != []
  }

  /** A group with the signature occurs in an object before `o`, or in `o` before group `j`. */
  ghost predicate SeenBefore(objects: seq<InputObject>, o: nat, j: nat, sig: Name) {
    exists p: nat, i: nat :: Signed(objects, p, i, sig) && (p < o || (p == o && i < j))
  }

  /** Section `m` is a member of a group of object `o` whose signature occurred before. */
  ghost predicate Discarded(objects: seq<InputObject>, o: nat, m: nat) {
    exists j: nat, sig :: Signed(objects, o, j, sig) && m in objects[o].comdatGroups[j].members
                          && SeenBefore(objects, o, j, sig)
  }

  /** Of the copies of a group the first stays and the later ones are discarded. */
  ghost predicate FirstCopiesStay(r: Resolved) {
    && (forall sig :: sig in r.seen <==> exists o: nat, j: nat :: Signed(r.objects, o, j, sig))
    && (forall o: nat, m: nat :: (o, m) in r.excluded <==> Discarded(r.objects, o, m))
  }

  /** The signature of group `j` is known, or an earlier group of the object has it. */
  predicate Repeated(groups: seq<ComdatGroup>, seen: set<Name>, j: int)
    requires 0 <= j < |groups|
  {
    groups[j].signature != [] && (groups[j].signature in seen || SignedUpto(groups, j, groups[j].signature))
  }

  predicate SignedUpto(groups: seq<ComdatGroup>, n: int, sig: Name)
    requires n <= |groups|
  {
    exists i :: 0 <= i < n && groups[i].signature == sig
  }

  /** Which signatures are known after the groups of an object. */
  lemma {:induction false} ClaimSeen(groups: seq<ComdatGroup>, seen: set<Name>, sig: Name)
    ensures sig in Claim(groups, seen).0 <==> sig in seen || (sig != [] && SignedUpto(groups, |groups|, sig))
  {
    if groups != [] {
      var n := |groups| - 1;
      ClaimSeen(groups[..n], seen, sig);
      if SignedUpto(groups[..n], n, sig) {
        var i :| 0 <= i < n && groups[..n][i].signature == sig;
        assert groups[i].signature == sig;
      }
      if SignedUpto(groups, |groups|, sig) {
        var i :| 0 <= i < |groups| && groups[i].signature == sig;
        if i < n { assert groups[..n][i].signature == sig; }
      }
    }
  }

  lemma {:induction false} SameRepeats(groups: seq<ComdatGroup>, seen: set<Name>, n: nat, j: nat)
    requires j < n <= |groups|
    ensures Repeated(groups[..n], seen, j) <==> Repeated(groups, seen, j)
  {
    var sig := groups[j].signature;
    if SignedUpto(groups[..n], j, sig) {
      var i :| 0 <= i < j && groups[..n][i].signature == sig;
      assert groups[i].signature == sig;
    }
    if SignedUpto(groups, j, sig) {
      var i :| 0 <= i < j && groups[i].signature == sig;
      assert groups[..n][i].signature == sig;
    }
  }

  predicate RepeatsMember(groups: seq<ComdatGroup>, seen: set<Name>, j: int, m: nat) {
    0 <= j < |groups| && Repeated(groups, seen, j) && m in groups[j].members
  }

  /** What claiming the groups of one object discards. */
  lemma {:induction false} ClaimDiscards(groups: seq<ComdatGroup>, seen: set<Name>, m: nat)
    ensures m in Claim(groups, seen).1 <==> exists j :: RepeatsMember(groups, seen, j, m)
  {
    if groups != [] {
      var n := |groups| - 1;
      var front := groups[..n];
      ClaimDiscards(front, seen, m);
      ClaimSeen(front, seen, groups[n].signature);
      assert SignedUpto(front, n, groups[n].signature) <==> SignedUpto(groups, n, groups[n].signature) by {
        SameRange(groups, n, groups[n].signature);
      }
      hide SignedUpto;
      if j :| RepeatsMember(front, seen, j, m) {
        SameRepeats(groups, seen, n, j);
        assert RepeatsMember(groups, seen, j, m);
      }
      if j :| RepeatsMember(groups, seen, j, m) {
        if j < n {
          SameRepeats(groups, seen, n, j);
          assert RepeatsMember(front, seen, j, m);
        }
      }
      if Repeated(groups, seen, n) && m in groups[n].members { assert RepeatsMember(groups, seen, n, m); }
    }
  }

  lemma {:induction false} SameRange(groups: seq<ComdatGroup>, n: nat, sig: Name)
    requires n <= |groups|
    ensures SignedUpto(groups[..n], n, sig) <==> SignedUpto(groups, n, sig)
  {
    if SignedUpto(groups[..n], n, sig) {
      var i :| 0 <= i < n && groups[..n][i].signature == sig;
      assert groups[i].signature == sig;
    }
    if SignedUpto(groups, n, sig) {
      var i :| 0 <= i < n && groups[i].signature == sig;
      assert groups[..n][i].signature == sig;
    }
  }

  /** Resolving an object keeps that the first copies stay. */
  lemma {:induction false} ResolveKeepsFirst(r: Resolved, obj: InputObject)
    requires FirstCopiesStay(r) && Resolve(r, obj).Ok?
    ensures FirstCopiesStay(Resolve(r, obj).value)
  {
    hide Claim, MergeAll, Reaching;
    var next, n, groups := Resolve(r, obj).value, |r.objects|, obj.comdatGroups;
    forall sig
      ensures sig in next.seen <==> exists o: nat, j: nat :: Signed(next.objects, o, j, sig)
    {
      ClaimSeen(groups, r.seen, sig);
      SeenGrows(r.objects, obj, sig);
    }
    forall o: nat, m: nat
      ensures (o, m) in next.excluded <==> Discarded(next.objects, o, m)
    {
      if o < n {
        OldDiscards(r.objects, obj, o, m);
      } else if o == n {
        ClaimDiscards(groups, r.seen, m);
        NewDiscards(r, obj, m);
        NoneDiscarded(r.objects, n, m);
      } else {
        NoneDiscarded(r.objects, o, m);
        NoneDiscarded(next.objects, o, m);
      }
    }
  }

  lemma {:induction false} NoneDiscarded(objects: seq<InputObject>, o: nat, m: nat)
    requires o >= |objects|
    ensures !Discarded(objects, o, m)
  {
  }

  lemma {:induction false} SeenGrows(objects: seq<InputObject>, obj: InputObject, sig: Name)
    ensures (exists o: nat, j: nat :: Signed(objects + [obj], o, j, sig))
            <==> (exists o: nat, j: nat :: Signed(objects, o, j, sig))
                 || (sig != [] && SignedUpto(obj.comdatGroups, |obj.comdatGroups|, sig))
  {
    var now, n := objects + [obj], |objects|;
    if o: nat, j: nat :| Signed(objects, o, j, sig) { assert Signed(now, o, j, sig); }
    if sig != [] && SignedUpto(obj.comdatGroups, |obj.comdatGroups|, sig) {
      var j :| 0 <= j < |obj.comdatGroups| && obj.comdatGroups[j].signature == sig;
      assert Signed(now, n, j, sig);
    }
    if o: nat, j: nat :| Signed(now, o, j, sig) {
      if o < n { assert Signed(objects, o, j, sig); } else { assert obj.comdatGroups[j].signature == sig; }
    }
  }

  lemma {:induction false} OldSigned(objects: seq<InputObject>, obj: InputObject, o: nat, j: nat, sig: Name)
    requires o < |objects|
    ensures Signed(objects + [obj], o, j, sig) <==> Signed(objects, o, j, sig)
    ensures SeenBefore(objects + [obj], o, j, sig) <==> SeenBefore(objects, o, j, sig)
  {
    var now := objects + [obj];
    if SeenBefore(objects, o, j, sig) {
      var p: nat, i: nat :| Signed(objects, p, i, sig) && (p < o || (p == o && i < j));
      assert Signed(now, p, i, sig);
    }
    if SeenBefore(now, o, j, sig) {
      var p: nat, i: nat :| Signed(now, p, i, sig) && (p < o || (p == o && i < j));
      assert Signed(objects, p, i, sig);
    }
  }

  lemma {:induction false} OldDiscards(objects: seq<InputObject>, obj: InputObject, o: nat, m: nat)
    requires o < |objects|
    ensures Discarded(objects + [obj], o, m) <==> Discarded(objects, o, m)
  {
    hide Signed, SeenBefore;
    forall j: nat, sig: Name
      ensures Signed(objects + [obj], o, j, sig) <==> Signed(objects, o, j, sig)
      ensures SeenBefore(objects + [obj], o, j, sig) <==> SeenBefore(objects, o, j, sig)
    {
      OldSigned(objects, obj, o, j, sig);
    }
  }

  lemma {:induction false} NewDiscards(r: Resolved, obj: InputObject, m: nat)
    requires FirstCopiesStay(r)
    ensures Discarded(r.objects + [obj], |r.objects|, m) <==> exists j :: RepeatsMember(obj.comdatGroups, r.seen, j, m)
  {
    var now, n, groups := r.objects + [obj], |r.objects|, obj.comdatGroups;
    forall j: nat | j < |groups| && groups[j].signature != []
      ensures SeenBefore(now, n, j, groups[j].signature) <==> Repeated(groups, r.seen, j)
    {
      SeenHere(r, obj, j);
    }
    hide SeenBefore, Repeated, FirstCopiesStay;
    if Discarded(now, n, m) {
      var j: nat, sig :| Signed(now, n, j, sig) && m in now[n].comdatGroups[j].members && SeenBefore(now, n, j, sig);
      assert RepeatsMember(groups, r.seen, j, m);
    }
    if j :| RepeatsMember(groups, r.seen, j, m) {
      RepeatedIsSigned(groups, r.seen, j);
      assert Signed(now, n, j, groups[j].signature);
    }
  }

  lemma {:induction false} RepeatedIsSigned(groups: seq<ComdatGroup>, seen: set<Name>, j: int)
    requires 0 <= j < |groups| && Repeated(groups, seen, j)
    ensures groups[j].signature != []
  {
  }

  lemma {:induction false} SeenHere(r: Resolved, obj: InputObject, j: nat)
    requires FirstCopiesStay(r) && j < |obj.comdatGroups| && obj.comdatGroups[j].signature != []
    ensures SeenBefore(r.objects + [obj], |r.objects|, j, obj.comdatGroups[j].signature)
            <==> Repeated(obj.comdatGroups, r.seen, j)
  {
    var now, n, groups := r.objects + [obj], |r.objects|, obj.comdatGroups;
    var sig := groups[j].signature;
    if SeenBefore(now, n, j, sig) {
      var p: nat, i: nat :| Signed(now, p, i, sig) && (p < n || (p == n && i < j));
      if p < n { assert Signed(r.objects, p, i, sig); } else { assert groups[i].signature == sig; }
    }
    if sig in r.seen {
      var p: nat, i: nat :| Signed(r.objects, p, i, sig);
      assert Signed(now, p, i, sig);
    }
    if SignedUpto(groups, j, sig) {
      var i :| 0 <= i < j && groups[i].signature == sig;
      assert Signed(now, n, i, sig);
    }
  }

  predicate StronglyUndefined(t: Table, n: Name) {
    n in t.resolutions && !t.resolutions[n].IsDefined() && t.resolutions[n].binding == Binding.Global
  }

  function CurrentGlobalUndefined(t: Table): (u: set<Name>)
    ensures forall n :: n in u <==> StronglyUndefined(t, n)
  {
    set n | n in t.resolutions && StronglyUndefined(t, n)
  }

  /** A global or weak definition of `n`. */
  predicate Offers(s: InputSymbol, n: Name) { s.name == n && n != [] && !s.isUndefined && s.binding != Local }

  /** A reference to `n`. */
  predicate Asks(s: InputSymbol, n: Name) { s.name == n && n != [] && s.isUndefined }

  function MemberDefines(obj: InputObject): (d: set<Name>)
    ensures forall n :: n in d <==> exists s :: s in obj.symbols && Offers(s, n)
  {
    set s | s in obj.symbols && !s.isUndefined && s.binding != Local && s.name != [] :: s.name
  }

  function MemberReferences(obj: InputObject): (d: set<Name>)
    ensures forall n :: n in d <==> exists s :: s in obj.symbols && Asks(s, n)
  {
    set s | s in obj.symbols && s.isUndefined && s.name != [] :: s.name
  }

  function Touched(obj: InputObject): set<Name> { MemberDefines(obj) + MemberReferences(obj) }

  // ── Only touched names change ────────────────────────────────────────────

  lemma {:induction false} MergeAllFrame(t: Table, syms: seq<Sym>, n: Name)
    requires MergeAll(t, syms).Ok? && forall s | s in syms :: s.sym.name != n
    ensures MergeAll(t, syms).value.Lookup(n) == t.Lookup(n)
  {
    if syms != [] {
      hide MergeEntry;
      MergeAllFrame(t, syms[..|syms| - 1], n);
    }
  }

  lemma {:induction false} ReachingTouched(id: nat, obj: InputObject, syms: seq<InputSymbol>, x: set<nat>)
    requires forall s | s in syms :: s in obj.symbols
    ensures forall s | s in Reaching(id, syms, x) :: s.sym.name in Touched(obj)
  {
    if syms != [] {
      ReachingTouched(id, obj, syms[..|syms| - 1], x);
      assert syms[|syms| - 1] in syms;
    }
  }

  lemma {:induction false} ResolveFrame(r: Resolved, obj: InputObject, n: Name)
    requires Resolve(r, obj).Ok? && n !in Touched(obj)
    ensures Resolve(r, obj).value.table.Lookup(n) == r.table.Lookup(n)
  {
    hide MergeAll, Reaching, Claim, Touched;
    var (seen, x) := Claim(obj.comdatGroups, r.seen);
    ReachingTouched(|r.objects|, obj, obj.symbols, x);
    MergeAllFrame(r.table, Reaching(|r.objects|, obj.symbols, x), n);
  }

  /** The set after each touched name has been looked up again. */
  function Reconciled(u: set<Name>, names: set<Name>, t: Table): set<Name> {
    (u - names) + set n | n in names && StronglyUndefined(t, n)
  }

  /** Reconciling the touched names alone gives the set recomputed from the table, whatever COMDAT
      exclusion dropped. */
  lemma {:induction false} ReconcileExact(r: Resolved, obj: InputObject)
    requires Resolve(r, obj).Ok?
    ensures Reconciled(CurrentGlobalUndefined(r.table), Touched(obj), Resolve(r, obj).value.table)
            == CurrentGlobalUndefined(Resolve(r, obj).value.table)
  {
    hide Resolve, Touched, CurrentGlobalUndefined;
    var t := Resolve(r, obj).value.table;
    forall n | n !in Touched(obj)
      ensures StronglyUndefined(t, n) <==> StronglyUndefined(r.table, n)
    {
      ResolveFrame(r, obj, n);
      assert t.Lookup(n) == r.table.Lookup(n);
    }
  }

  // ── Pulling lazy members ─────────────────────────────────────────────────

  /** A parsed member, by archive and position; `obj` is taken when it is pulled. */
  datatype Member = Member(archive: nat, pos: nat, obj: Option<InputObject>, defines: set<Name>)

  predicate Honest(ms: seq<Member>) {
    forall m | m in ms && m.obj.Some? :: m.defines == MemberDefines(m.obj.value)
  }

  datatype Pulling = Pulling(r: Resolved, members: seq<Member>)

  predicate Wanted(p: Pulling, i: nat)
    requires i < |p.members|
  {
    p.members[i].obj.Some? && !(p.members[i].defines !! CurrentGlobalUndefined(p.r.table))
  }

  function PullOne(p: Pulling, i: nat): Result<Pulling>
    requires i < |p.members|
  {
    if !Wanted(p, i) then Ok(p)
    else
      match Resolve(p.r, p.members[i].obj.value)
      case Duplicate(a, b) => Duplicate(a, b)
      case Ok(r) => Ok(Pulling(r, p.members[i := p.members[i].(obj := None)]))
  }

  /** One pass: the state after the first `k` members have been considered. */
  function PullUpto(p: Pulling, k: nat): (q: Result<Pulling>)
    requires k <= |p.members|
    ensures q.Ok? ==> |q.value.members| == |p.members|
  {
    if k == 0 then Ok(p)
    else
      match PullUpto(p, k - 1)
      case Duplicate(a, b) => Duplicate(a, b)
      case Ok(q) => PullOne(q, k - 1)
  }

  function Unpulled(ms: seq<Member>): nat {
    if ms == [] then 0 else Unpulled(ms[..|ms| - 1]) + (if ms[|ms| - 1].obj.Some? then 1 else 0)
  }

  /** Same members in the same places, some of them taken since. */
  predicate Later(a: seq<Member>, b: seq<Member>) {
    |a| == |b| && forall i | 0 <= i < |a| :: b[i] == a[i] || b[i] == a[i].(obj := None)
  }

  lemma {:induction false} TakeOne(ms: seq<Member>, i: nat)
    requires i < |ms| && ms[i].obj.Some?
    ensures Unpulled(ms[i := ms[i].(obj := None)]) == Unpulled(ms) - 1
  {
    var n := |ms| - 1;
    var now := ms[i := ms[i].(obj := None)];
    if i < n {
      TakeOne(ms[..n], i);
      assert now[..n] == ms[..n][i := ms[i].(obj := None)];
    } else {
      assert now[..n] == ms[..n];
    }
  }

  lemma {:induction false} PullOneKeeps(p: Pulling, i: nat)
    requires i < |p.members| && PullOne(p, i).Ok?
    ensures var q := PullOne(p, i).value;
            && Later(p.members, q.members)
            && |q.r.objects| + Unpulled(q.members) == |p.r.objects| + Unpulled(p.members)
            && Unpulled(q.members) <= Unpulled(p.members)
            && (Unpulled(q.members) == Unpulled(p.members) ==> q == p && !Wanted(p, i))
  {
    hide Claim, MergeAll, Reaching, Unpulled;
    if Wanted(p, i) { TakeOne(p.members, i); }
  }

  lemma {:induction false} LaterTrans(a: seq<Member>, b: seq<Member>, c: seq<Member>)
    requires Later(a, b) && Later(b, c)
    ensures Later(a, c)
  {
  }

  /** A pass takes each member at most once, adds exactly the taken ones to the link, and when it takes
      none, no remaining member defines a name that is still undefined. */
  lemma {:induction false} PullUptoKeeps(p: Pulling, k: nat)
    requires k <= |p.members| && PullUpto(p, k).Ok?
    ensures var q := PullUpto(p, k).value;
            && Later(p.members, q.members)
            && |q.r.objects| + Unpulled(q.members) == |p.r.objects| + Unpulled(p.members)
            && Unpulled(q.members) <= Unpulled(p.members)
            && (Unpulled(q.members) == Unpulled(p.members) ==> q == p && forall i | 0 <= i < k :: !Wanted(p, i))
  {
    hide PullOne, Wanted, Unpulled, Later;
    if k > 0 {
      PullUptoKeeps(p, k - 1);
      var mid := PullUpto(p, k - 1).value;
      PullOneKeeps(mid, k - 1);
      var q := PullUpto(p, k).value;
      assert PullOne(mid, k - 1) == PullUpto(p, k);
      hide PullUpto;
      LaterTrans(p.members, mid.members, q.members);
    } else {
      SameLater(p.members);
    }
  }

  lemma {:induction false} SameLater(ms: seq<Member>)
    ensures Later(ms, ms)
  {
  }

  /** A member is taken exactly when, at its turn, one of its symbols defines a name that is then undefined. */
  lemma {:induction false} PulledWhenWanted(p: Pulling, k: nat)
    requires k < |p.members| && p.members[k].obj.Some? && PullUpto(p, |p.members|).Ok? && Honest(p.members)
    ensures PullUpto(p, k).Ok? && PullUpto(p, k).value.members[k] == p.members[k]
    ensures PullUpto(p, |p.members|).value.members[k].obj.None? <==>
              exists n, s :: s in p.members[k].obj.value.symbols && Offers(s, n)
                             && StronglyUndefined(PullUpto(p, k).value.r.table, n)
  {
    assert p.members[k] in p.members;
    assert forall n :: n in p.members[k].defines <==> exists s :: s in p.members[k].obj.value.symbols && Offers(s, n);
    UptoOk(p, k, |p.members|);
    UntouchedYet(p, k, k);
    UptoOk(p, k + 1, |p.members|);
    DecidedAt(p, k, |p.members|);
  }

  lemma {:induction false} UptoOk(p: Pulling, j: nat, k: nat)
    requires j <= k <= |p.members| && PullUpto(p, k).Ok?
    ensures PullUpto(p, j).Ok?
  {
    hide PullOne;
    if j < k { UptoOk(p, j, k - 1); }
  }

  lemma {:induction false} UntouchedYet(p: Pulling, j: nat, k: nat)
    requires j <= k < |p.members| && PullUpto(p, j).Ok?
    ensures PullUpto(p, j).value.members[k] == p.members[k]
  {
    if j > 0 { UntouchedYet(p, j - 1, k); }
  }

  lemma {:induction false} DecidedAt(p: Pulling, k: nat, j: nat)
    requires k < j <= |p.members| && PullUpto(p, j).Ok? && PullUpto(p, k + 1).Ok?
    ensures PullUpto(p, j).value.members[k] == PullUpto(p, k + 1).value.members[k]
  {
    if k + 1 < j {
      UptoOk(p, j - 1, j);
      DecidedAt(p, k, j - 1);
    }
  }

  // ── In place ─────────────────────────────────────────────────────────────

  class Resolver {
    const symbols: SymbolTable
    var objects: seq<InputObject>
    var seenComdat: set<Name>
    var excluded: set<(nat, nat)>

    constructor ()
      ensures View() == Resolved(EMPTY, [], {}, {}) && fresh(symbols) && Valid()
    {
      symbols := new SymbolTable();
      objects, seenComdat, excluded := [], {}, {};
    }

    function View(): Resolved
      reads this, symbols
    {
      Resolved(symbols.View(), objects, seenComdat, excluded)
    }

    /** Object ids are positions in the object list, and of the copies of a group the first stays. */
    ghost predicate Valid()
      reads this, symbols
    {
      |symbols.objectPaths| == |objects| && FirstCopiesStay(View())
    }

    /** Marks the object's repeated COMDAT groups. */
    method ClaimGroups(id: nat, groups: seq<ComdatGroup>) returns (discarded: set<nat>)
      modifies this
      ensures (seenComdat, discarded) == Claim(groups, old(seenComdat))
      ensures excluded == old(excluded) + set m | m in discarded :: (id, m)
      ensures objects == old(objects)
    {
      discarded := {};
      for k := 0 to |groups|
        invariant (seenComdat, discarded) == Claim(groups[..k], old(seenComdat))
        invariant excluded == old(excluded) + set m | m in discarded :: (id, m)
        invariant objects == old(objects)
      {
        assert groups[..k + 1][..k] == groups[..k];
        var g := groups[k];
        if g.signature == [] { continue; }
        if g.signature in seenComdat {
          discarded := discarded + set m | m in g.members;
          excluded := excluded + set m | m in g.members :: (id, m);
        } else {
          seenComdat := seenComdat + {g.signature};
        }
      }
      assert groups[..|groups|] == groups;
    }

    /** On a duplicate definition the link stops; nothing is promised about the tables then. */
    method ResolveObject(obj: InputObject) returns (r: Result<()>)
      requires Valid()
      modifies this, symbols
      ensures r.Ok? <==> Resolve(old(View()), obj).Ok?
      ensures r.Ok? ==> Resolve(old(View()), obj) == Ok(View()) && Valid()
    {
      hide Claim, MergeAll, Reaching;
      var id := symbols.AddObject(obj.path);
      var discarded := ClaimGroups(id, obj.comdatGroups);
      r := symbols.ProcessObjectExcluding(id, obj, discarded);
      if r.Ok? {
        ResolveKeepsFirst(old(View()), obj);
        objects := objects + [obj];
      }
    }

    /** One pass over the lazy members, with the undefined set kept up to date from the touched names. */
    method PullLazyMembers(members: seq<Member>, undefined: set<Name>)
      returns (r: Result<nat>, now: seq<Member>, left: set<Name>)
      requires Valid() && Honest(members) && undefined == CurrentGlobalUndefined(View().table)
      modifies this, symbols
      ensures r.Ok? <==> PullUpto(Pulling(old(View()), members), |members|).Ok?
      ensures r.Ok? ==>
                && Valid() && Honest(now)
                && PullUpto(Pulling(old(View()), members), |members|) == Ok(Pulling(View(), now))
                && left == CurrentGlobalUndefined(View().table)
                && r.value == Unpulled(members) - Unpulled(now)
    {
      hide Resolve, CurrentGlobalUndefined, Unpulled, MemberDefines, MemberReferences, PullUpto, Later;
      ghost var start := Pulling(View(), members);
      now, left := members, undefined;
      var pulled := 0;
      NothingPulled(start);
      for k := 0 to |members|
        invariant Valid() && Honest(now) && |now| == |members|
        invariant PullUpto(start, k) == Ok(Pulling(View(), now))
        invariant left == CurrentGlobalUndefined(View().table)
        invariant pulled == Unpulled(members) - Unpulled(now)
      {
        NextPull(start, k);
        ghost var here := Pulling(View(), now);
        if now[k].obj.None? || now[k].defines !! left { continue; }
        assert Wanted(here, k);
        var obj := now[k].obj.value;
        var names := now[k].defines + MemberReferences(obj);
        assert now[k] in now;
        var resolved := ResolveObject(obj);
        if resolved.Duplicate? {
          PullFails(start, k + 1);
          return Duplicate(resolved.first, resolved.second), now, left;
        }
        ReconcileExact(here.r, obj);
        left := ReconcileNames(names, left);
        TakeOne(now, k);
        now := now[k := now[k].(obj := None)];
        pulled := pulled + 1;
      }
      r := Ok(pulled);
    }

    /** Looks each touched name up again. */
    method ReconcileNames(names: set<Name>, undefined: set<Name>) returns (left: set<Name>)
      ensures left == Reconciled(undefined, names, View().table)
    {
      left := undefined;
      var rest := names;
      while rest != {}
        invariant rest <= names && left == Reconciled(undefined, names - rest, View().table)
        decreases rest
      {
        var n :| n in rest;
        rest := rest - {n};
        left := if StronglyUndefined(symbols.View(), n) then left + {n} else left - {n};
      }
      assert names - {} == names;
    }
  }

  lemma {:induction false} NothingPulled(p: Pulling)
    ensures PullUpto(p, 0) == Ok(p)
  {
  }

  lemma {:induction false} NextPull(p: Pulling, k: nat)
    requires k < |p.members|
    ensures PullUpto(p, k + 1) == match PullUpto(p, k) case Duplicate(a, b) => Duplicate(a,
            b) case Ok(q) => PullOne(q, k)
  {
    hide PullOne;
  }

  lemma {:induction false} PullFails(p: Pulling, k: nat)
    requires k <= |p.members| && PullUpto(p, k).Duplicate?
    ensures PullUpto(p, |p.members|).Duplicate?
    decreases |p.members| - k
  {
    hide PullOne;
    if k < |p.members| { PullFails(p, k + 1); }
  }
}
