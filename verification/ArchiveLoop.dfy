/** The fixpoint over pending archives: read the members an archive's index matches against the
    undefined set, pull what is wanted, and go round again (`peony/src/main.rs:2093-2209`). */
module ArchiveLoop {
  import opened Bytes
  import opened Objects
  import opened Symbols
  import opened Archives

  /** An archive file: its symbol index, if it has one, and its members; an unparsable member is `None`. */
  datatype Archive = Archive(path: string, index: Option<seq<(Name, nat)>>, members: seq<Option<InputObject>>)

  /** The index names every definition of every parsable member. */
  predicate Faithful(a: Archive) {
    a.index.Some? ==>
      forall p, n | 0 <= p < |a.members| && a.members[p].Some? && n in MemberDefines(a.members[p].value) ::
        (n, p) in a.index.value
  }

  // ── What has been read ───────────────────────────────────────────────────

  type Place = (nat, nat)

  function Places(archives: seq<Archive>): set<Place> {
    set a: nat, p: nat | a < |archives| && p < |archives[a].members| :: (a, p)
  }

  predicate From(archives: seq<Archive>, m: Member) {
    && m.archive < |archives| && m.pos < |archives[m.archive].members|
    && archives[m.archive].members[m.pos].Some?
    && m.defines == MemberDefines(archives[m.archive].members[m.pos].value)
    && (m.obj.Some? ==> m.obj == archives[m.archive].members[m.pos])
  }

  predicate Read(members: seq<Member>, a: nat, p: nat) {
    exists k :: 0 <= k < |members| && members[k].archive == a && members[k].pos == p
  }

  predicate DistinctMembers(ms: seq<Member>) {
    forall i, j | 0 <= i < j < |ms| :: !(ms[i].archive == ms[j].archive && ms[i].pos == ms[j].pos)
  }

  /** `seen` holds the places read so far, and `members` the parsable ones among them, each once. */
  predicate Tracked(archives: seq<Archive>, members: seq<Member>, seen: set<Place>) {
    && seen <= Places(archives)
    && (forall m | m in members :: From(archives, m) && (m.archive, m.pos) in seen)
    && DistinctMembers(members)
    && (forall x | x in seen && archives[x.0].members[x.1].Some? :: Read(members, x.0, x.1))
  }

  /** Nothing more to read from archive `a` for these undefined names. */
  predicate Settled(archives: seq<Archive>, a: nat, undefined: set<Name>, seen: set<Place>)
    requires a < |archives|
  {
    match archives[a].index
    case None => forall p: nat | p < |archives[a].members| :: (a, p) in seen
    case Some(ix) => forall e | e in ix && e.0 in undefined :: (a, e.1) in seen
  }

  lemma {:induction false} TrackedHonest(archives: seq<Archive>, members: seq<Member>, seen: set<Place>)
    requires Tracked(archives, members, seen)
    ensures Honest(members)
  {
  }

  lemma {:induction false} TrackedLater(archives: seq<Archive>, a: seq<Member>, b: seq<Member>, seen: set<Place>)
    requires Tracked(archives, a, seen) && Later(a, b)
    ensures Tracked(archives, b, seen)
  {
    forall m | m in b
      ensures From(archives, m) && (m.archive, m.pos) in seen
    {
      var k :| 0 <= k < |b| && b[k] == m;
      assert a[k] in a;
    }
    forall x | x in seen && archives[x.0].members[x.1].Some?
      ensures Read(b, x.0, x.1)
    {
      var k :| 0 <= k < |a| && a[k].archive == x.0 && a[k].pos == x.1;
      assert b[k].archive == x.0 && b[k].pos == x.1;
    }
  }

  // ── Reading members ──────────────────────────────────────────────────────

  predicate FreshPlaces(archives: seq<Archive>, a: nat, positions: seq<nat>, seen: set<Place>)
  {
    && a < |archives|
    && (forall p | p in positions :: p < |archives[a].members| && (a, p) !in seen)
    && (forall i, j | 0 <= i < j < |positions| :: positions[i] != positions[j])
  }

  function WithPlaces(seen: set<Place>, a: nat, positions: seq<nat>): set<Place> {
    seen + set p | p in positions :: (a, p)
  }

  lemma {:induction false} TrackOne(archives: seq<Archive>, members: seq<Member>, seen: set<Place>, a: nat, p: nat)
    requires Tracked(archives, members, seen) && a < |archives| && p < |archives[a].members| && (a, p) !in seen
    ensures archives[a].members[p].None? ==> Tracked(archives, members, seen + {(a, p)})
    ensures archives[a].members[p].Some? ==>
              Tracked(archives, members + [Member(a, p, archives[a].members[p],
                  MemberDefines(archives[a].members[p].value))],
                      seen + {(a, p)})
  {
    hide MemberDefines;
    if archives[a].members[p].Some? {
      var m := Member(a, p, archives[a].members[p], MemberDefines(archives[a].members[p].value));
      var now := members + [m];
      assert now[|members|] == m;
      forall i | 0 <= i < |members|
        ensures !(members[i].archive == a && members[i].pos == p)
      {
        assert members[i] in members;
      }
      forall x | x in seen + {(a, p)} && archives[x.0].members[x.1].Some?
        ensures Read(now, x.0, x.1)
      {
        if x in seen {
          var k :| 0 <= k < |members| && members[k].archive == x.0 && members[k].pos == x.1;
          assert now[k] == members[k];
        }
      }
    }
  }

  method ParseMembers(archives: seq<Archive>, a: nat, positions: seq<nat>, members: seq<Member>, ghost seen: set<Place>)
    returns (now: seq<Member>)
    requires Tracked(archives, members, seen) && FreshPlaces(archives, a, positions, seen)
    ensures Tracked(archives, now, WithPlaces(seen, a, positions))
    ensures positions == [] ==> now == members
    ensures |now| - Unpulled(now) == |members| - Unpulled(members)
  {
    hide Tracked, MemberDefines, Unpulled;
    now := members;
    assert WithPlaces(seen, a, positions[..0]) == seen;
    for k := 0 to |positions|
      invariant Tracked(archives, now, WithPlaces(seen, a, positions[..k]))
      invariant positions == [] ==> now == members
      invariant |now| - Unpulled(now) == |members| - Unpulled(members)
    {
      var p := positions[k];
      assert positions[..k + 1] == positions[..k] + [p];
      assert WithPlaces(seen, a, positions[..k + 1]) == WithPlaces(seen, a, positions[..k]) + {(a, p)};
      TrackOne(archives, now, WithPlaces(seen, a, positions[..k]), a, p);
      if archives[a].members[p].Some? {
        OneUnpulled(now, Member(a, p, archives[a].members[p], MemberDefines(archives[a].members[p].value)));
        now := now + [Member(a, p, archives[a].members[p], MemberDefines(archives[a].members[p].value))];
      }
    }
    assert positions[..|positions|] == positions;
  }

  lemma {:induction false} OneUnpulled(ms: seq<Member>, m: Member)
    requires m.obj.Some?
    ensures Unpulled(ms + [m]) == Unpulled(ms) + 1
  {
    assert (ms + [m])[..|ms|] == ms;
  }

  /** What an archive's index says: nothing it can use, a broken entry, or the places to read. */
  datatype Matched = Broken | Unindexed | Found(positions: seq<nat>)

  method MatchMembers(archives: seq<Archive>, a: nat, undefined: set<Name>, seen: set<Place>) returns (m: Matched)
    requires a < |archives|
    ensures m.Unindexed? <==> archives[a].index.None? && archives[a].members != []
    ensures m.Found? ==> FreshPlaces(archives, a, m.positions, seen)
    ensures m.Found? ==> Settled(archives, a, undefined, WithPlaces(seen, a, m.positions))
    ensures m.Found? && Settled(archives, a, undefined, seen) ==> m.positions == []
  {
    if archives[a].index.None? {
      return if archives[a].members == [] then Found([]) else Unindexed;
    }
    var ix := archives[a].index.value;
    var positions: seq<nat> := [];
    for k := 0 to |ix|
      invariant FreshPlaces(archives, a, positions, seen)
      invariant forall i | 0 <= i < k && ix[i].0 in undefined :: (a, ix[i].1) in WithPlaces(seen, a, positions)
      invariant Settled(archives, a, undefined, seen) ==> positions == []
    {
      if ix[k].0 in undefined {
        var p := ix[k].1;
        if (a, p) !in seen && p !in positions {
          if p >= |archives[a].members| { return Broken; }
          positions := positions + [p];
        }
      }
    }
    return Found(positions);
  }

  function AllPositions(n: nat): (s: seq<nat>)
    ensures |s| == n && forall i | 0 <= i < n :: s[i] == i
  {
    seq(n, i => i)
  }

  // ── One round ────────────────────────────────────────────────────────────

  predicate NoDuplicates(s: seq<nat>) { forall i, j | 0 <= i < j < |s| :: s[i] != s[j] }

  /** Archives still to be looked at; one without an index has not been read at all. */
  predicate Pending(archives: seq<Archive>, pending: seq<nat>, seen: set<Place>) {
    && (forall a | a in pending :: a < |archives|)
    && NoDuplicates(pending)
    && (forall a, p: nat | a in pending && archives[a].index.None? && p < |archives[a].members| :: (a, p) !in seen)
  }

  predicate AllSettled(archives: seq<Archive>, pending: seq<nat>, undefined: set<Name>, seen: set<Place>)
    requires forall a | a in pending :: a < |archives|
  {
    forall a | a in pending :: Settled(archives, a, undefined, seen)
  }

  lemma {:induction false} SettledGrows(archives: seq<Archive>, a: nat, undefined: set<Name>, s: set<Place>,
          t: set<Place>)
    requires a < |archives| && s <= t && Settled(archives, a, undefined, s)
    ensures Settled(archives, a, undefined, t)
  {
  }

  /** The archives of a round, by outcome: nothing to read, or read through the index. */
  datatype Round = Round(skipped: seq<nat>, reread: seq<nat>, members: seq<Member>, seen: set<Place>, parsed: nat)

  ghost predicate RoundInv(
    archives: seq<Archive>, done: seq<nat>, undefined: set<Name>, members: seq<Member>, seen: set<Place>, r: Round)
    requires forall a | a in done :: a < |archives|
  {
    && Tracked(archives, r.members, r.seen) && seen <= r.seen
    && AllSettled(archives, done, undefined, r.seen)
    && (forall x | x in r.seen && x !in seen :: x.0 in done)
    && (forall a | a in r.skipped + r.reread :: a in done)
    && (forall a | a in done && archives[a].index.Some? :: a in r.skipped + r.reread)
    && (forall a | a in r.skipped + r.reread :: archives[a].index.Some? || archives[a].members == [])
    && NoDuplicates(r.skipped + r.reread)
    && (r.parsed == 0 ==> r.members == members && r.seen == seen && r.reread == [])
    && (r.parsed > 0 ==> seen != r.seen)
    && (AllSettled(archives, done, undefined, seen) ==> r.parsed == 0)
    && |r.members| - Unpulled(r.members) == |members| - Unpulled(members)
  }

  /** One archive's share of a round. */
  method ReadArchive(archives: seq<Archive>, a: nat, undefined: set<Name>, r: Round) returns (ok: bool, now: Round)
    requires Tracked(archives, r.members, r.seen) && a < |archives|
    requires archives[a].index.None? ==> forall p: nat | p < |archives[a].members| :: (a, p) !in r.seen
    ensures ok ==>
              && Tracked(archives, now.members, now.seen) && r.seen <= now.seen
              && Settled(archives, a, undefined, now.seen)
              && (forall x | x in now.seen && x !in r.seen :: x.0 == a)
              && |now.members| - Unpulled(now.members) == |r.members| - Unpulled(r.members)
              && if Settled(archives, a, undefined, r.seen) && (archives[a].index.Some? || archives[a].members == [])
                 then now == r.(skipped := r.skipped + [a])
                 else && now.parsed == r.parsed + 1 && now.seen != r.seen && now.skipped == r.skipped
                      && now.reread == (if archives[a].index.Some? then r.reread + [a] else r.reread)
  {
    hide Tracked, Unpulled, MemberDefines;
    now := r;
    var m := MatchMembers(archives, a, undefined, r.seen);
    match m
    case Broken => return false, r;
    case Unindexed =>
      var all := AllPositions(|archives[a].members|);
      assert (a, all[0]) in WithPlaces(r.seen, a, all) by { assert all[0] in all; }
      assert (a, all[0]) !in r.seen;
      forall p: nat | p < |archives[a].members| ensures (a, p) in WithPlaces(r.seen, a, all) { assert all[p] in all; }
      var members := ParseMembers(archives, a, all, r.members, r.seen);
      return true, Round(r.skipped, r.reread, members, WithPlaces(r.seen, a, all), r.parsed + 1);
    case Found(positions) =>
      if positions == [] {
        assert WithPlaces(r.seen, a, []) == r.seen;
        return true, r.(skipped := r.skipped + [a]);
      }
      assert positions[0] in positions;
      assert (a, positions[0]) in WithPlaces(r.seen, a, positions) && (a, positions[0]) !in r.seen;
      var members := ParseMembers(archives, a, positions, r.members, r.seen);
      return true, Round(r.skipped, r.reread + [a], members, WithPlaces(r.seen, a, positions), r.parsed + 1);
  }

  method ReadRound(archives: seq<Archive>, pending: seq<nat>, undefined: set<Name>, members: seq<Member>,
          seen: set<Place>)
    returns (ok: bool, r: Round)
    requires Tracked(archives, members, seen) && Pending(archives, pending, seen)
    ensures ok ==> RoundInv(archives, pending, undefined, members, seen, r)
  {
    hide RoundInv, Tracked, Settled;
    r := Round([], [], members, seen, 0);
    StartRound(archives, undefined, members, seen);
    assert pending[..0] == [];
    for k := 0 to |pending|
      invariant forall b | b in pending[..k] :: b in pending
      invariant RoundInv(archives, pending[..k], undefined, members, seen, r)
    {
      ghost var was := r;
      NotYetRead(archives, pending, k, undefined, members, seen, r);
      ok, r := ReadArchive(archives, pending[k], undefined, r);
      if !ok { return; }
      assert pending[..k + 1] == pending[..k] + [pending[k]];
      GrowRound(archives, pending[..k], pending[k], undefined, members, seen, was, r);
    }
    assert pending[..|pending|] == pending;
    ok := true;
  }

  lemma {:induction false} StartRound(archives: seq<Archive>, undefined: set<Name>, members: seq<Member>,
          seen: set<Place>)
    requires Tracked(archives, members, seen)
    ensures RoundInv(archives, [], undefined, members, seen, Round([], [], members, seen, 0))
  {
  }

  lemma {:induction false} NotYetRead(archives: seq<Archive>, pending: seq<nat>, k: nat, undefined: set<Name>,
    members: seq<Member>, seen: set<Place>, r: Round)
    requires Pending(archives, pending, seen) && k < |pending| && forall b | b in pending[..k] :: b in pending
    requires RoundInv(archives, pending[..k], undefined, members, seen, r)
    ensures Tracked(archives, r.members, r.seen) && pending[k] !in pending[..k]
    ensures pending[k] < |archives|
    ensures archives[pending[k]].index.None? ==>
              forall p: nat | p < |archives[pending[k]].members| :: (pending[k], p) !in r.seen
  {
    hide Tracked, AllSettled;
    assert pending[k] in pending;
  }

  lemma {:induction false} GrowRound(archives: seq<Archive>, done: seq<nat>, a: nat, undefined: set<Name>,
    members: seq<Member>, seen: set<Place>, was: Round, now: Round)
    requires (forall b | b in done :: b < |archives|) && a < |archives| && a !in done
    requires RoundInv(archives, done, undefined, members, seen, was)
    requires Tracked(archives, now.members, now.seen) && was.seen <= now.seen
    requires Settled(archives, a, undefined, now.seen)
    requires forall x | x in now.seen && x !in was.seen :: x.0 == a
    requires |now.members| - Unpulled(now.members) == |was.members| - Unpulled(was.members)
    requires if Settled(archives, a, undefined, was.seen) && (archives[a].index.Some? || archives[a].members == [])
             then now == was.(skipped := was.skipped + [a])
             else && now.parsed == was.parsed + 1 && now.seen != was.seen && now.skipped == was.skipped
                  && now.reread == (if archives[a].index.Some? then was.reread + [a] else was.reread)
    requires archives[a].index.None? ==> forall p: nat | p < |archives[a].members| :: (a, p) !in seen
    ensures RoundInv(archives, done + [a], undefined, members, seen, now)
  {
    hide Tracked, Unpulled;
    forall b | b in done
      ensures Settled(archives, b, undefined, now.seen)
    {
      SettledGrows(archives, b, undefined, was.seen, now.seen);
    }
    assert archives[a].index.None? && archives[a].members != [] ==> (a, 0) !in seen;
    if AllSettled(archives, done + [a], undefined, seen) {
      assert a in done + [a];
      assert forall b | b in done :: b in done + [a];
      assert AllSettled(archives, done, undefined, seen);
    }
    assert forall b | b in done + [a] :: b == a || b in done;
    InsertDistinct(was.skipped, was.reread, a);
  }

  lemma {:induction false} InsertDistinct(s: seq<nat>, t: seq<nat>, a: nat)
    requires NoDuplicates(s + t) && a !in s + t
    ensures NoDuplicates((s + [a]) + t) && NoDuplicates(s + (t + [a]))
  {
    var u, v := (s + [a]) + t, s + (t + [a]);
    assert forall i | 0 <= i < |s + t| :: (s + t)[i] in s + t;
    forall i, j | 0 <= i < j < |u|
      ensures u[i] != u[j]
    {
      var i', j' := if i > |s| then i - 1 else i, if j > |s| then j - 1 else j;
      if i != |s| { assert u[i] == (s + t)[i']; }
      if j != |s| { assert u[j] == (s + t)[j']; }
    }
    forall i, j | 0 <= i < j < |v|
      ensures v[i] != v[j]
    {
      assert v[i] == (s + t)[i];
      if j < |s + t| { assert v[j] == (s + t)[j]; }
    }
  }

  // ── The whole loop ───────────────────────────────────────────────────────

  predicate SamePathSameFile(archives: seq<Archive>) {
    forall i, j | 0 <= i < |archives| && 0 <= j < |archives|
        && archives[i].path == archives[j].path :: archives[i] == archives[j]
  }

  /** Drops repeated paths, keeping the first. */
  method Unique(archives: seq<Archive>) returns (unique: seq<Archive>)
    ensures forall x | x in unique :: x in archives
    ensures SamePathSameFile(archives) ==> forall x | x in archives :: x in unique
  {
    unique := [];
    var paths: set<string> := {};
    for k := 0 to |archives|
      invariant forall x | x in unique :: x in archives
      invariant forall p :: p in paths <==> exists x :: x in unique && x.path == p
      invariant SamePathSameFile(archives) ==> forall i | 0 <= i < k :: archives[i] in unique
    {
      if archives[k].path !in paths {
        unique := unique + [archives[k]];
        paths := paths + {archives[k].path};
      } else {
        var x :| x in unique && x.path == archives[k].path;
        assert x in archives;
      }
    }
  }

  /** A member defines no name that is still strongly undefined, or it has been pulled. */
  predicate Exhausted(members: seq<Member>, a: nat, p: nat, defines: set<Name>, undefined: set<Name>) {
    defines !! undefined
    || exists k :: 0 <= k < |members| && members[k].archive == a && members[k].pos == p && members[k].obj.None?
  }

  /** No read member is wanted any more. */
  predicate NoneWanted(members: seq<Member>, undefined: set<Name>) {
    forall m | m in members && m.obj.Some? :: m.defines !! undefined
  }

  /** Archives that left the list are settled; one can only leave through its index when everything is. */
  predicate Dropped(archives: seq<Archive>, pending: seq<nat>, undefined: set<Name>, members: seq<Member>,
          seen: set<Place>)
    requires Pending(archives, pending, seen)
  {
    && (forall a: nat | a < |archives| && a !in pending :: Settled(archives, a, undefined, seen))
    && ((exists a: nat :: a < |archives| && a !in pending && archives[a].index.Some?) ==>
          NoneWanted(members, undefined) && AllSettled(archives, pending, undefined, seen))
  }

  lemma {:induction false} QuietPass(p: Pulling, k: nat)
    requires k <= |p.members| && NoneWanted(p.members, CurrentGlobalUndefined(p.r.table))
    ensures PullUpto(p, k) == Ok(p)
  {
    hide Resolve, CurrentGlobalUndefined;
    if k > 0 {
      QuietPass(p, k - 1);
      assert p.members[k - 1] in p.members;
    }
  }

  /** Everything is settled once a round has looked at every pending archive. */
  lemma {:induction false} SettledAfterRound(archives: seq<Archive>, pending: seq<nat>, undefined: set<Name>,
    members: seq<Member>, seen: set<Place>, r: Round)
    requires Tracked(archives, members, seen) && Pending(archives, pending, seen)
    requires Dropped(archives, pending, undefined, members, seen)
             && RoundInv(archives, pending, undefined, members, seen, r)
    ensures forall a: nat | a < |archives| :: Settled(archives, a, undefined, r.seen)
    ensures Pending(archives, r.skipped, r.seen) && Pending(archives, r.skipped + r.reread, r.seen)
  {
    hide Tracked, Settled;
    forall a: nat | a < |archives|
      ensures Settled(archives, a, undefined, r.seen)
    {
      if a !in pending { SettledGrows(archives, a, undefined, seen, r.seen); }
    }
    PendingPart(archives, r.skipped, r.reread, r.seen);
  }

  lemma {:induction false} PendingPart(archives: seq<Archive>, s: seq<nat>, t: seq<nat>, seen: set<Place>)
    requires (forall a | a in s + t :: a < |archives|) && NoDuplicates(s + t)
    requires forall a | a in s + t :: archives[a].index.Some? || archives[a].members == []
    ensures Pending(archives, s, seen) && Pending(archives, s + t, seen)
  {
    forall i, j | 0 <= i < j < |s|
      ensures s[i] != s[j]
    {
      assert (s + t)[i] == s[i] && (s + t)[j] == s[j];
    }
    assert forall a | a in s :: a in s + t;
  }

  /** After a round that pulled nothing, whatever is no longer pending stays settled. */
  lemma {:induction false} QuietRound(archives: seq<Archive>, pending: seq<nat>, undefined: set<Name>,
    members: seq<Member>, seen: set<Place>, r: Round)
    requires Tracked(archives, members, seen) && Pending(archives, pending, seen)
    requires Dropped(archives, pending, undefined, members, seen)
             && RoundInv(archives, pending, undefined, members, seen, r)
    requires NoneWanted(r.members, undefined)
    ensures Pending(archives, r.skipped, r.seen) && Dropped(archives, r.skipped, undefined, r.members, r.seen)
  {
    hide Tracked, Settled, NoneWanted;
    SettledAfterRound(archives, pending, undefined, members, seen, r);
    assert forall a | a in r.skipped :: a in r.skipped + r.reread;
  }

  /** After a round that pulled something, no indexed archive has left the list. */
  lemma {:induction false} BusyRound(archives: seq<Archive>, pending: seq<nat>, undefined: set<Name>,
    members: seq<Member>, seen: set<Place>, r: Round, now: seq<Member>, left: set<Name>)
    requires Tracked(archives, members, seen) && Pending(archives, pending, seen)
    requires Dropped(archives, pending, undefined, members, seen)
             && RoundInv(archives, pending, undefined, members, seen, r)
    requires !NoneWanted(r.members, undefined)
    ensures Pending(archives, r.skipped + r.reread, r.seen)
    ensures Dropped(archives, r.skipped + r.reread, left, now, r.seen)
  {
    hide Tracked, NoneWanted;
    SettledAfterRound(archives, pending, undefined, members, seen, r);
    forall a: nat | a < |archives| && a !in r.skipped + r.reread
      ensures archives[a].index.None? && Settled(archives, a, left, r.seen)
    {
      assert Settled(archives, a, undefined, r.seen);
    }
  }

  /** Settled archives with faithful indexes and no wanted member leave nothing to find. */
  lemma {:induction false} NothingLeft(archives: seq<Archive>, a: nat, p: nat, undefined: set<Name>,
    members: seq<Member>, seen: set<Place>)
    requires Tracked(archives, members, seen) && NoneWanted(members, undefined)
    requires a < |archives| && Settled(archives, a, undefined, seen) && Faithful(archives[a])
    requires p < |archives[a].members| && archives[a].members[p].Some?
    ensures Exhausted(members, a, p, MemberDefines(archives[a].members[p].value), undefined)
  {
    hide MemberDefines;
    var defines := MemberDefines(archives[a].members[p].value);
    if !(defines !! undefined) {
      var n :| n in defines && n in undefined;
      if archives[a].index.Some? {
        var e := (n, p);
        assert e in archives[a].index.value && e.0 in undefined;
      }
      assert (a, p) in seen;
      assert Read(members, a, p);
      var k :| 0 <= k < |members| && members[k].archive == a && members[k].pos == p;
      assert members[k] in members && From(archives, members[k]);
    }
  }

  ghost predicate NothingMissed(archives: seq<Archive>, members: seq<Member>, undefined: set<Name>) {
    forall a: nat, p: nat | a < |archives| && Faithful(archives[a]) && p < |archives[a].members|
        && archives[a].members[p].Some? ::
      Exhausted(members, a, p, MemberDefines(archives[a].members[p].value), undefined)
  }

  /** The archive loop. It terminates; the undefined set it keeps is the one the table gives; each
      member is read and pulled at most once; and when it stops, no unpulled member of an archive with a
      faithful index defines a name that is still strongly undefined. */
  method IncludeArchiveMembers(all: seq<Archive>, r: Resolver)
    returns (ok: bool, archives: seq<Archive>, members: seq<Member>, undefined: set<Name>)
    requires r.Valid()
    modifies r, r.symbols
    ensures SamePathSameFile(all) ==> forall x | x in all :: x in archives
    ensures ok ==> r.Valid() && undefined == CurrentGlobalUndefined(r.View().table)
    ensures ok ==> DistinctMembers(members) && forall m | m in members :: From(archives, m)
    ensures ok ==> |r.objects| == |old(r.objects)| + (|members| - Unpulled(members))
    ensures ok ==> NothingMissed(archives, members, undefined)
  {
    hide Tracked, Unpulled, CurrentGlobalUndefined, Settled, PullUpto, NothingMissed, RoundInv, NoneWanted,
         Dropped, Pending, MemberDefines, Later;
    archives := Unique(all);
    members := [];
    undefined := CurrentGlobalUndefined(r.View().table);
    var pending := AllPositions(|archives|);
    var seen: set<Place> := {};
    ghost var start := |r.objects|;
    StartLoop(archives, undefined);
    while true
      invariant r.Valid() && undefined == CurrentGlobalUndefined(r.View().table)
      invariant Tracked(archives, members, seen) && Pending(archives, pending, seen)
      invariant Dropped(archives, pending, undefined, members, seen)
      invariant |r.objects| == start + (|members| - Unpulled(members))
      decreases Places(archives) - seen, Unpulled(members)
    {
      TrackedMembers(archives, members, seen);
      if undefined == {} {
        NoneUndefined(archives, members, undefined);
        return true, archives, members, undefined;
      }
      var fine, round := ReadRound(archives, pending, undefined, members, seen);
      if !fine { return false, archives, members, undefined; }
      RoundFacts(archives, pending, undefined, members, seen, round);
      TrackedHonest(archives, round.members, round.seen);
      ghost var before := Pulling(r.View(), round.members);
      var pulled, now, left := r.PullLazyMembers(round.members, undefined);
      if pulled.Duplicate? { return false, archives, round.members, undefined; }
      AfterPull(archives, before, Pulling(r.View(), now), round.seen);
      if pulled.value == 0 {
        QuietRound(archives, pending, undefined, members, seen, round);
        if round.parsed == 0 {
          Finished(archives, pending, undefined, members, seen, round);
          return true, archives, now, left;
        }
        pending := round.skipped;
      } else {
        Busy(before, round.members, undefined);
        BusyRound(archives, pending, undefined, members, seen, round, now, left);
        pending := round.skipped + round.reread;
      }
      members, undefined, seen := now, left, round.seen;
    }
  }

  lemma {:induction false} StartLoop(archives: seq<Archive>, undefined: set<Name>)
    ensures var pending := AllPositions(|archives|);
            Tracked(archives, [], {}) && Pending(archives, pending, {}) && Dropped(archives, pending, undefined, [], {})
    ensures Unpulled([]) == 0
  {
    var pending := AllPositions(|archives|);
    forall a: nat | a < |archives| ensures a in pending { assert pending[a] == a; }
  }

  lemma {:induction false} TrackedMembers(archives: seq<Archive>, members: seq<Member>, seen: set<Place>)
    requires Tracked(archives, members, seen)
    ensures DistinctMembers(members) && forall m | m in members :: From(archives, m)
  {
  }

  lemma {:induction false} NoneUndefined(archives: seq<Archive>, members: seq<Member>, undefined: set<Name>)
    requires undefined == {}
    ensures NothingMissed(archives, members, undefined)
  {
  }

  lemma {:induction false} RoundFacts(archives: seq<Archive>, pending: seq<nat>, undefined: set<Name>,
    members: seq<Member>, seen: set<Place>, r: Round)
    requires Tracked(archives, members, seen) && Pending(archives, pending, seen)
    requires RoundInv(archives, pending, undefined, members, seen, r)
    ensures Tracked(archives, r.members, r.seen)
    ensures |r.members| - Unpulled(r.members) == |members| - Unpulled(members)
    ensures if r.parsed == 0 then r.members == members && r.seen == seen
            else Places(archives) - r.seen < Places(archives) - seen
  {
    hide Unpulled;
    if r.parsed > 0 {
      var x :| x in r.seen && x !in seen;
      assert x in Places(archives) - seen;
    }
  }

  /** What one pass over the members leaves. */
  lemma {:induction false} AfterPull(archives: seq<Archive>, p: Pulling, q: Pulling, seen: set<Place>)
    requires Tracked(archives, p.members, seen) && PullUpto(p, |p.members|) == Ok(q)
    ensures Tracked(archives, q.members, seen)
    ensures |q.members| == |p.members| && Unpulled(q.members) <= Unpulled(p.members)
    ensures |q.r.objects| + Unpulled(q.members) == |p.r.objects| + Unpulled(p.members)
    ensures Unpulled(q.members) == Unpulled(p.members) ==>
              q == p && NoneWanted(p.members, CurrentGlobalUndefined(p.r.table))
  {
    hide PullUpto, Tracked, Unpulled, CurrentGlobalUndefined;
    PullUptoKeeps(p, |p.members|);
    TrackedLater(archives, p.members, q.members, seen);
    if Unpulled(q.members) == Unpulled(p.members) {
      forall m | m in p.members && m.obj.Some?
        ensures m.defines !! CurrentGlobalUndefined(p.r.table)
      {
        var k :| 0 <= k < |p.members| && p.members[k] == m;
        assert !Wanted(p, k);
      }
    }
  }

  lemma {:induction false} Busy(p: Pulling, members: seq<Member>, undefined: set<Name>)
    requires p.members == members && undefined == CurrentGlobalUndefined(p.r.table)
    requires PullUpto(p, |members|).Ok? && PullUpto(p, |members|).value.members != members
    ensures !NoneWanted(members, undefined)
  {
    hide PullUpto, CurrentGlobalUndefined, NoneWanted;
    if NoneWanted(members, undefined) { QuietPass(p, |members|); }
  }

  lemma {:induction false} Finished(archives: seq<Archive>, pending: seq<nat>, undefined: set<Name>,
    members: seq<Member>, seen: set<Place>, r: Round)
    requires Tracked(archives, members, seen) && Pending(archives, pending, seen)
    requires Dropped(archives, pending, undefined, members, seen)
             && RoundInv(archives, pending, undefined, members, seen, r)
    requires Tracked(archives, r.members, r.seen) && NoneWanted(r.members, undefined)
    ensures NothingMissed(archives, r.members, undefined)
    ensures DistinctMembers(r.members) && forall m | m in r.members :: From(archives, m)
  {
    hide Settled, Exhausted, Tracked, NoneWanted, Faithful, MemberDefines;
    SettledAfterRound(archives, pending, undefined, members, seen, r);
    TrackedMembers(archives, r.members, r.seen);
    forall a: nat, p: nat | a < |archives| && Faithful(archives[a]) && p < |archives[a].members|
        && archives[a].members[p].Some?
      ensures Exhausted(r.members, a, p, MemberDefines(archives[a].members[p].value), undefined)
    {
      NothingLeft(archives, a, p, undefined, r.members, r.seen);
    }
  }
}
