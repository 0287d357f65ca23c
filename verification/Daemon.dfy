/** Edits, one-shot incremental links and the resident daemon, as one protocol over the files they share
    (`peony/src/daemon.rs:187-302`, `peony/src/main.rs:1084-1146`, `peony-cache/src/lib.rs:544-661`). */
module Daemon {

  datatype Option<+T> = None | Some(value: T)

  // ── The files ────────────────────────────────────────────────────────────

  /** Inputs are known by their fingerprints, and every edit and every write takes a fresh one.
      A `Torn` cell is an object whose bytes a failed patch left half written. */
  datatype Cell = V(version: nat) | Torn

  /** What the output holds: a link made with `args`, object by object, or bytes of no particular link. */
  datatype Output = Linked(args: nat, cells: seq<Cell>) | Garbage

  /** A serialized layout: the arguments and input versions it was computed from. */
  datatype Layout = Layout(args: nat, versions: seq<nat>)

  /** `frontEnd`: the layout the snapshot refers to; only a link without section GC and ICF records one. */
  datatype Manifest = Manifest(args: nat, inputs: seq<nat>, output: nat, frontEnd: Option<Layout>)

  datatype LayoutFile = LayoutFile(layout: Layout, mtime: nat)

  datatype Resident = Resident(args: nat, layout: Layout, inputs: seq<nat>, mtime: nat)

  /** `torn`: the fingerprint left by a failed patch of an output that was sound before it. */
  datatype World = World(
    clock: nat, inputs: seq<nat>, out: Output, outFp: nat, manifest: Option<Manifest>,
    layoutFile: Option<LayoutFile>, daemon: Option<Resident>, torn: Option<nat>)

  /** Which inputs are plain objects; which arguments use neither GC nor ICF; and what an object demands
      of the layout, by its digest. */
  datatype Setup = Setup(isObject: seq<bool>, eligible: nat -> bool, demand: (nat, nat) -> nat)

  function Versions(s: seq<nat>): (c: seq<Cell>)
    ensures |c| == |s| && forall i | 0 <= i < |s| :: c[i] == V(s[i])
  {
    seq(|s|, i requires 0 <= i < |s| => V(s[i]))
  }

  function Changed(before: seq<nat>, now: seq<nat>): (c: set<nat>)
    requires |before| == |now|
    ensures forall i: nat :: i in c <==> i < |now| && before[i] != now[i]
  {
    set i: nat | i < |now| && before[i] != now[i]
  }

  /** The objects `ids` demand the same of the layout in both. */
  predicate SameDemand(su: Setup, a: seq<nat>, b: seq<nat>, ids: set<nat>)
    requires |a| == |b|
  {
    forall i | i in ids && i < |a| :: su.demand(i, a[i]) == su.demand(i, b[i])
  }

  /** The same layout serves both. */
  predicate SameLayout(su: Setup, a: seq<nat>, b: seq<nat>)
    requires |a| == |b|
  {
    forall i: nat | i < |a| :: su.demand(i, a[i]) == su.demand(i, b[i])
  }

  // ── Patching in place ────────────────────────────────────────────────────

  /** `emit_parse_only_changed` writes the changed objects and nothing else; it declines, writing
      nothing, unless each of them is a plain object with an unchanged demand. */
  predicate MayPatch(su: Setup, layout: Layout, ids: set<nat>, now: seq<nat>)
    requires |layout.versions| == |now|
  {
    (forall i | i in ids && i < |now| :: i < |su.isObject| && su.isObject[i])
        && SameDemand(su, layout.versions, now, ids)
  }

  function Patched(su: Setup, out: Output, layout: Layout, ids: set<nat>, now: seq<nat>, torn: bool): Output
    requires |layout.versions| == |now|
  {
    if out.Linked? && out.args == layout.args && |out.cells| == |now|
       && forall i | 0 <= i < |now| && i !in ids ::
            out.cells[i].V? && su.demand(i, out.cells[i].version) == su.demand(i, layout.versions[i])
    then Linked(out.args, seq(|now|, i requires 0 <= i < |now| =>
           if i !in ids then out.cells[i] else if torn then Torn else V(now[i])))
    else Garbage
  }

  // ── The daemon ───────────────────────────────────────────────────────────

  /** `load_changed_state` and the blob check: the cache must be for these arguments, the output must be
      the recorded one, and `layout.bin` must be the one the snapshot names. */
  function Load(w: World, args: nat): Option<Resident> {
    match (w.manifest, w.layoutFile)
    case (Some(m), Some(f)) =>
      if m.args == args && m.output == w.outFp && m.frontEnd == Some(f.layout)
      then Some(Resident(args, f.layout, m.inputs, f.mtime)) else None
    case _ => None
  }

  datatype Status = RELINKED | NOCHANGE | FALLBACK

  /** How an attempted patch ends: it is refused before any write, it fails half way, or it succeeds. */
  datatype Attempt = Refuse | Tear | Succeed

  datatype Reply = Reply(status: Status, world: World)

  function Reloaded(w: World, d: Resident): Option<Resident> {
    if w.layoutFile.Some? && w.layoutFile.value.mtime == d.mtime then Some(d) else Load(w, d.args)
  }

  function Handle(su: Setup, w: World, args: nat, attempt: Attempt): Reply
    requires Shaped(su, w) && w.daemon.Some?
  {
    var d := w.daemon.value;
    if args != d.args then Reply(FALLBACK, w)
    else
      match Reloaded(w, d)
      case None => Reply(FALLBACK, w)
      case Some(r) =>
        var v := w.(daemon := Some(r));
        var ids := Changed(r.inputs, w.inputs);
        if ids == {} then Reply(NOCHANGE, v)
        else if !MayPatch(su, r.layout, ids, w.inputs) || attempt.Refuse? then Reply(FALLBACK, v)
        else if attempt.Tear? then Reply(FALLBACK, Tore(su, v, r.layout, ids))
        else Reply(RELINKED, Relinked(su, v, r.layout, ids).(daemon := Some(r.(inputs := w.inputs))))
  }

  // ── Writes ───────────────────────────────────────────────────────────────

  /** A patch that fails half way: the output is written, nothing is recorded. */
  function Tore(su: Setup, w: World, layout: Layout, ids: set<nat>): World
    requires |layout.versions| == |w.inputs|
  {
    w.(clock := w.clock + 1, out := Patched(su, w.out, layout, ids, w.inputs, true), outFp := w.clock,
       torn := if Sound(w, layout.args) then Some(w.clock) else None)
  }

  /** A patch that succeeds: the output is written and the manifest refreshed; `layout.bin` stays. */
  function Relinked(su: Setup, w: World, layout: Layout, ids: set<nat>): World
    requires |layout.versions| == |w.inputs|
  {
    w.(clock := w.clock + 1, out := Patched(su, w.out, layout, ids, w.inputs, false), outFp := w.clock,
       manifest := Some(Manifest(layout.args, w.inputs, w.clock, Some(layout))), torn := None)
  }

  /** The output is the one the manifest records for these arguments, as a caller can tell from the manifest
      and the output's fingerprint. */
  predicate Recorded(w: World, args: nat) {
    w.manifest.Some? && w.manifest.value.args == args && w.outFp == w.manifest.value.output
  }

  /** It is that output or a failed patch of it; the second only the history of the files tells. */
  predicate Sound(w: World, args: nat) {
    && w.manifest.Some? && w.manifest.value.args == args
    && (w.outFp == w.manifest.value.output || w.torn == Some(w.outFp))
  }

  // ── Every event ──────────────────────────────────────────────────────────

  /** `FullLink` is the whole pipeline, with a fresh layout or with the cached one; `FailedEmit` fails
      after it has begun to write the output. */
  datatype Event =
    | Edit(input: nat)
    | Reuse(args: nat)
    | PatchLink(args: nat, attempt: Attempt)
    | FullLink(args: nat, reuseLayout: bool)
    | FailedEmit
    | Start(args: nat)
    | Stop
    | Request(args: nat, attempt: Attempt)

  predicate Shaped(su: Setup, w: World) {
    && |su.isObject| == |w.inputs|
    && (w.manifest.Some? ==>
          |w.manifest.value.inputs| == |w.inputs|
          && (w.manifest.value.frontEnd.Some? ==> |w.manifest.value.frontEnd.value.versions| == |w.inputs|))
    && (w.daemon.Some? ==> |w.daemon.value.inputs| == |w.inputs| && |w.daemon.value.layout.versions| == |w.inputs|)
  }

  /** When the cached layout may be used again: `try_reuse_layout`'s gate. */
  predicate LayoutReusable(su: Setup, w: World, args: nat)
    requires Shaped(su, w)
  {
    && su.eligible(args) && w.layoutFile.Some? && Load(w, args).Some?
    && SameLayout(su, w.layoutFile.value.layout.versions, w.inputs)
  }

  function FullyLinked(su: Setup, w: World, args: nat, reuse: bool): World
    requires Shaped(su, w)
  {
    var fresh' := Layout(args, w.inputs);
    var out := w.(clock := w.clock + 2, out := Linked(args, Versions(w.inputs)), outFp := w.clock, torn := None);
    if reuse && LayoutReusable(su, w, args) then
      out.(manifest := Some(Manifest(args, w.inputs, w.clock, Some(w.layoutFile.value.layout))))
    else if su.eligible(args) then
      out.(manifest := Some(Manifest(args, w.inputs, w.clock, Some(fresh'))),
          layoutFile := Some(LayoutFile(fresh', w.clock + 1)))
    else out.(manifest := Some(Manifest(args, w.inputs, w.clock, None)))
  }

  /** `try_reuse`: nothing is written when the recorded state is the current one. */
  predicate Reusable(w: World, args: nat) {
    w.manifest.Some? && w.manifest.value.args == args && w.manifest.value.inputs == w.inputs
        && w.manifest.value.output == w.outFp
  }

  predicate Enabled(su: Setup, w: World, e: Event)
    requires Shaped(su, w)
  {
    match e
    case Edit(i) => i < |w.inputs|
    case Reuse(args) => Reusable(w, args)
    case PatchLink(args, attempt) =>
      && su.eligible(args) && Load(w, args).Some?
      && var r := Load(w, args).value;
         var ids := Changed(r.inputs, w.inputs);
         ids != {} && MayPatch(su, r.layout, ids, w.inputs)
    case Request(_, _) => w.daemon.Some?
    case _ => true
  }

  function Next(su: Setup, w: World, e: Event): World
    requires Shaped(su, w) && Enabled(su, w, e)
  {
    match e
    case Edit(i) => w.(clock := w.clock + 1, inputs := w.inputs[i := w.clock])
    case Reuse(_) => w
    case PatchLink(args, attempt) =>
      var r := Load(w, args).value;
      var ids := Changed(r.inputs, w.inputs);
      (match attempt
       case Refuse => w
       case Tear => Tore(su, w, r.layout, ids)
       case Succeed => Relinked(su, w, r.layout, ids))
    case FullLink(args, reuse) => FullyLinked(su, w, args, reuse)
    case FailedEmit => w.(clock := w.clock + 1, out := Garbage, outFp := w.clock, torn := None)
    case Start(args) => w.(daemon := Load(w, args))
    case Stop => w.(daemon := None)
    case Request(args, attempt) => Handle(su, w, args, attempt).world
  }

  /** Nothing has been linked yet. */
  function Initial(n: nat): World {
    World(n + 1, seq(n, i => i), Garbage, n, None, None, None, None)
  }

  function Run(su: Setup, events: seq<Event>): (w: Option<World>)
    ensures w.Some? ==> Shaped(su, w.value)
  {
    if events == [] then Some(Initial(|su.isObject|))
    else
      var n := |events| - 1;
      match Run(su, events[..n])
      case None => None
      case Some(w) =>
        if !Enabled(su, w, events[n]) then None
        else
          NextShaped(su, w, events[n]);
          Some(Next(su, w, events[n]))
  }

  lemma {:induction false} NextShaped(su: Setup, w: World, e: Event)
    requires Shaped(su, w) && Enabled(su, w, e)
    ensures Shaped(su, Next(su, w, e))
  {
    hide Patched, MayPatch, Changed, SameLayout;
  }

  // ── The invariant ────────────────────────────────────────────────────────

  /** Fingerprints in use are older than the clock. */
  predicate Old(w: World) {
    && (forall i | 0 <= i < |w.inputs| :: w.inputs[i] < w.clock)
    && w.outFp < w.clock
    && (w.torn.Some? ==> w.torn.value < w.clock)
    && (w.manifest.Some? ==> w.manifest.value.output < w.clock
                             && forall i | 0 <= i < |w.manifest.value.inputs| :: w.manifest.value.inputs[i] < w.clock)
    && (w.layoutFile.Some? ==> w.layoutFile.value.mtime < w.clock)
    && (w.daemon.Some? ==> w.daemon.value.mtime < w.clock
                           && forall i | 0 <= i < |w.daemon.value.inputs| :: w.daemon.value.inputs[i] < w.clock)
  }

  /** A sound output holds the recorded versions, except torn objects, which a live daemon knows to be
      out of date. */
  predicate OutputAgrees(su: Setup, w: World)
    requires Shaped(su, w)
  {
    && (w.out.Linked? ==> Sound(w, w.out.args))
    && (w.manifest.Some? && Sound(w, w.manifest.value.args) ==>
          && w.out.Linked? && w.out.args == w.manifest.value.args && |w.out.cells| == |w.inputs|
          && (w.outFp == w.manifest.value.output ==> w.out.cells == Versions(w.manifest.value.inputs))
          && forall i | 0 <= i < |w.inputs| ::
               w.out.cells[i] == V(w.manifest.value.inputs[i])
               || (w.out.cells[i].Torn? && (w.daemon.Some? ==> w.daemon.value.inputs[i] != w.inputs[i])))
  }

  predicate SnapshotAgrees(su: Setup, w: World)
    requires Shaped(su, w)
  {
    w.manifest.Some? && w.manifest.value.frontEnd.Some? ==>
      && w.manifest.value.frontEnd.value.args == w.manifest.value.args && su.eligible(w.manifest.value.args)
      && SameLayout(su, w.manifest.value.frontEnd.value.versions, w.manifest.value.inputs)
  }

  /** An input the daemon believes unchanged is recorded at its current version, and as long as
      `layout.bin` is the one it loaded, the snapshot for its arguments is its own. */
  predicate DaemonAgrees(su: Setup, w: World)
    requires Shaped(su, w)
  {
    w.daemon.Some? ==>
      var d := w.daemon.value;
      && d.layout.args == d.args && su.eligible(d.args) && w.manifest.Some?
      && (forall i | 0 <= i < |w.inputs| && d.inputs[i] == w.inputs[i] :: w.manifest.value.inputs[i] == w.inputs[i])
      && (w.layoutFile.Some? && w.layoutFile.value.mtime == d.mtime && w.manifest.value.args == d.args ==>
            w.manifest.value.frontEnd == Some(d.layout))
  }

  predicate Inv(su: Setup, w: World)
    requires Shaped(su, w)
  {
    Old(w) && OutputAgrees(su, w) && SnapshotAgrees(su, w) && DaemonAgrees(su, w)
  }

  lemma {:induction false} InitialHolds(su: Setup)
    ensures Shaped(su, Initial(|su.isObject|)) && Inv(su, Initial(|su.isObject|))
  {
  }

  lemma {:induction false} EditKeeps(su: Setup, w: World, i: nat)
    requires Shaped(su, w) && Inv(su, w) && i < |w.inputs|
    ensures Shaped(su, Next(su, w, Edit(i))) && Inv(su, Next(su, w, Edit(i)))
  {
    hide SameLayout;
  }

  /** A layout the cache hands out serves the recorded inputs. */
  lemma {:induction false} LoadAgrees(su: Setup, w: World, args: nat)
    requires Shaped(su, w) && Inv(su, w) && Load(w, args).Some?
    ensures var r := Load(w, args).value;
            && r.args == args && r.layout.args == args && |r.layout.versions| == |w.inputs| && |r.inputs| == |w.inputs|
            && su.eligible(args) && Sound(w, args) && r.inputs == w.manifest.value.inputs
            && w.manifest.value.frontEnd == Some(r.layout) && w.layoutFile.Some? && r.mtime == w.layoutFile.value.mtime
            && SameLayout(su, r.layout.versions, r.inputs)
  {
    hide SameLayout;
  }

  /** Every object outside `ids` is already linked at its current version. */
  predicate Covers(w: World, ids: set<nat>) {
    && w.manifest.Some? && w.out.Linked? && |w.out.cells| == |w.inputs| == |w.manifest.value.inputs|
    && forall i: nat | i < |w.inputs| && i !in ids ::
         w.out.cells[i] == V(w.inputs[i]) && w.manifest.value.inputs[i] == w.inputs[i]
  }

  /** The patch turns a sound output into a link of the current inputs. */
  lemma {:induction false} PatchIsLink(su: Setup, w: World, layout: Layout, ids: set<nat>)
    requires Shaped(su, w) && Inv(su, w) && Sound(w, layout.args) && Covers(w, ids)
    requires w.manifest.value.frontEnd == Some(layout)
    ensures Patched(su, w.out, layout, ids, w.inputs, false) == Linked(layout.args, Versions(w.inputs))
  {
    forall i: nat | i < |w.inputs| && i !in ids
      ensures w.out.cells[i].V? && su.demand(i, w.out.cells[i].version) == su.demand(i, layout.versions[i])
    {
      assert w.manifest.value.inputs[i] == w.inputs[i];
    }
    assert Patched(su, w.out, layout, ids, w.inputs, false).cells == Versions(w.inputs);
  }

  lemma {:induction false} TornPatch(su: Setup, w: World, layout: Layout, ids: set<nat>)
    requires Shaped(su, w) && Inv(su, w) && Sound(w, layout.args) && Covers(w, ids)
    requires w.manifest.value.frontEnd == Some(layout)
    ensures var t := Patched(su, w.out, layout, ids, w.inputs, true);
            && t.Linked? && t.args == layout.args && |t.cells| == |w.inputs|
            && forall i | 0 <= i < |w.inputs| :: t.cells[i] == if i in ids then Torn else V(w.manifest.value.inputs[i])
  {
    forall i: nat | i < |w.inputs| && i !in ids
      ensures w.out.cells[i].V? && su.demand(i, w.out.cells[i].version) == su.demand(i, layout.versions[i])
    {
      assert w.manifest.value.inputs[i] == w.inputs[i];
    }
  }

  /** Patching an output that is not sound leaves one that is not: it is no link of these arguments. */
  lemma {:induction false} UnsoundPatch(su: Setup, w: World, layout: Layout, ids: set<nat>, torn: bool)
    requires Shaped(su, w) && Inv(su, w) && !Sound(w, layout.args) && |layout.versions| == |w.inputs|
    ensures Patched(su, w.out, layout, ids, w.inputs, torn).Garbage?
  {
  }

  lemma {:induction false} TearKeeps(su: Setup, w: World, layout: Layout, ids: set<nat>)
    requires Shaped(su, w) && Inv(su, w) && |layout.versions| == |w.inputs|
    requires Sound(w, layout.args) ==> Covers(w, ids) && w.manifest.value.frontEnd == Some(layout)
    requires w.daemon.Some? ==> forall i | i in ids && i < |w.inputs| :: w.daemon.value.inputs[i] != w.inputs[i]
    ensures Shaped(su, Tore(su, w, layout, ids)) && Inv(su, Tore(su, w, layout, ids))
  {
    hide SameLayout, Patched;
    if Sound(w, layout.args) { TornPatch(su, w, layout, ids); } else { UnsoundPatch(su, w, layout, ids, true); }
  }

  lemma {:induction false} RelinkKeeps(su: Setup, w: World, layout: Layout, ids: set<nat>, d: Option<Resident>)
    requires Shaped(su, w) && Inv(su, w) && Sound(w, layout.args) && Covers(w, ids)
    requires w.manifest.value.frontEnd == Some(layout) && SameLayout(su, layout.versions, w.inputs)
    requires d == w.daemon || (w.daemon.Some? && d == Some(w.daemon.value.(inputs := w.inputs)))
    ensures var v := Relinked(su, w, layout, ids).(daemon := d);
            Shaped(su, v) && Inv(su, v) && v.out == Linked(layout.args, Versions(w.inputs))
  {
    hide SameLayout, Patched;
    PatchIsLink(su, w, layout, ids);
  }

  lemma {:induction false} FullKeeps(su: Setup, w: World, args: nat, reuse: bool)
    requires Shaped(su, w) && Inv(su, w)
    ensures Shaped(su, FullyLinked(su, w, args, reuse)) && Inv(su, FullyLinked(su, w, args, reuse))
  {
    if reuse && LayoutReusable(su, w, args) {
      LoadAgrees(su, w, args);
      hide SameLayout;
    }
  }

  /** What one request finds, when the daemon serves it: the loaded state and the inputs it must patch. */
  lemma {:induction false} ServeFacts(su: Setup, w: World)
    requires Shaped(su, w) && Inv(su, w) && w.daemon.Some? && Reloaded(w, w.daemon.value).Some?
    ensures var r := Reloaded(w, w.daemon.value).value;
            var v := w.(daemon := Some(r));
            var ids := Changed(r.inputs, w.inputs);
            && r.args == w.daemon.value.args && Shaped(su, v) && Inv(su, v)
            && r.layout.args == r.args && |r.layout.versions| == |w.inputs|
            && (Sound(w, r.args) ==> Covers(v, ids) && v.manifest.value.frontEnd == Some(r.layout))
  {
    hide SameLayout;
    var d := w.daemon.value;
    if !(w.layoutFile.Some? && w.layoutFile.value.mtime == d.mtime) { LoadAgrees(su, w, d.args); }
  }

  /** With every changed object's demand unchanged, the cached layout serves the current inputs. */
  lemma {:induction false} StillSameLayout(su: Setup, w: World, layout: Layout, ids: set<nat>)
    requires Shaped(su, w) && Inv(su, w) && w.manifest.Some? && w.manifest.value.frontEnd == Some(layout)
    requires Covers(w, ids) && MayPatch(su, layout, ids, w.inputs)
    ensures SameLayout(su, layout.versions, w.inputs)
  {
  }

  /** A reply says the output is up to date. */
  predicate Claims(r: Reply) { r.status != FALLBACK }

  predicate UpToDate(w: World, args: nat) { w.out == Linked(args, Versions(w.inputs)) }

  /** One request, in a state every earlier event of which was in order: the claim is true exactly when
      the output was sound, and then everything stays in order. */
  lemma {:induction false} RequestIsSound(su: Setup, w: World, args: nat, attempt: Attempt)
    requires Shaped(su, w) && Inv(su, w) && w.daemon.Some?
    ensures var r := Handle(su, w, args, attempt);
            && (Claims(r) ==> (UpToDate(r.world, args) <==> Sound(w, args)))
            && (!Claims(r) || Sound(w, args) ==> Shaped(su, r.world) && Inv(su, r.world))
  {
    hide SameLayout, Patched, Inv, MayPatch;
    if args == w.daemon.value.args && Reloaded(w, w.daemon.value).Some? {
      ServeFacts(su, w);
      var r := Reloaded(w, w.daemon.value).value;
      var v := w.(daemon := Some(r));
      var ids := Changed(r.inputs, w.inputs);
      if ids == {} {
        NoChange(su, v, args, ids);
      } else if MayPatch(su, r.layout, ids, w.inputs) {
        TearKeeps(su, v, r.layout, ids);
        if Sound(w, args) {
          StillSameLayout(su, v, r.layout, ids);
          RelinkKeeps(su, v, r.layout, ids, Some(r.(inputs := w.inputs)));
        } else {
          UnsoundPatch(su, v, r.layout, ids, false);
        }
      }
    }
  }

  lemma {:induction false} NoChange(su: Setup, w: World, args: nat, ids: set<nat>)
    requires Shaped(su, w) && Inv(su, w) && ids == {} && (Sound(w, args) ==> Covers(w, ids))
    ensures UpToDate(w, args) <==> Sound(w, args)
  {
    if Sound(w, args) { assert w.out.cells == Versions(w.inputs); }
  }

  /** Every other event keeps things in order; a reused output is up to date. */
  lemma {:induction false} EventKeeps(su: Setup, w: World, e: Event)
    requires Shaped(su, w) && Inv(su, w) && Enabled(su, w, e) && !e.Request?
    ensures Shaped(su, Next(su, w, e)) && Inv(su, Next(su, w, e))
    ensures e.Reuse? ==> UpToDate(w, e.args)
    ensures e.PatchLink? && e.attempt.Succeed? ==> UpToDate(Next(su, w, e), e.args)
  {
    match e
    case Edit(i) => EditKeeps(su, w, i);
    case Reuse(args) => hide SameLayout;
    case PatchLink(args, attempt) => PatchLinkKeeps(su, w, args, attempt);
    case FullLink(args, reuse) => FullKeeps(su, w, args, reuse);
    case FailedEmit => hide SameLayout;
    case Start(args) =>
      hide SameLayout;
      if Load(w, args).Some? { LoadAgrees(su, w, args); }
    case Stop => hide SameLayout;
  }

  lemma {:induction false} PatchLinkKeeps(su: Setup, w: World, args: nat, attempt: Attempt)
    requires Shaped(su, w) && Inv(su, w) && Enabled(su, w, PatchLink(args, attempt))
    ensures var v := Next(su, w, PatchLink(args, attempt));
            Shaped(su, v) && Inv(su, v) && (attempt.Succeed? ==> UpToDate(v, args))
  {
    hide SameLayout, Patched, MayPatch;
    LoadAgrees(su, w, args);
    var r := Load(w, args).value;
    var ids := Changed(r.inputs, w.inputs);
    assert Covers(w, ids);
    match attempt
    case Refuse =>
    case Tear => TearKeeps(su, w, r.layout, ids);
    case Succeed =>
      StillSameLayout(su, w, r.layout, ids);
      RelinkKeeps(su, w, r.layout, ids, w.daemon);
  }

  // ── Whole runs ───────────────────────────────────────────────────────────

  /** The world before event `k`, and the reply if that event is a request. */
  predicate ClaimAt(su: Setup, events: seq<Event>, k: nat)
    requires Run(su, events).Some? && k < |events|
  {
    Prefix(su, events, k);
    events[k].Request? && Claims(Handle(su, Run(su, events[..k]).value, events[k].args, events[k].attempt))
  }

  lemma {:induction false} Prefix(su: Setup, events: seq<Event>, k: nat)
    requires Run(su, events).Some? && k <= |events|
    ensures Run(su, events[..k]).Some?
    ensures k < |events| ==> Enabled(su, Run(su, events[..k]).value, events[k])
    ensures k < |events| ==> Run(su, events[..k + 1]) == Some(Next(su, Run(su, events[..k]).value, events[k]))
    decreases |events| - k
  {
    hide Next, Enabled;
    if k == |events| {
      assert events[..k] == events;
    } else {
      Prefix(su, events, k + 1);
      assert events[..k + 1][..k] == events[..k];
    }
  }

  /** Every claim of the run was made on a sound output. */
  predicate SoundClaims(su: Setup, events: seq<Event>, n: nat)
    requires Run(su, events).Some? && n <= |events|
  {
    forall k | 0 <= k < n && ClaimAt(su, events, k) ::
      Prefix(su, events, k); Sound(Run(su, events[..k]).value, events[k].args)
  }

  /** Every claim of the run was true: the output then equals a full link of the inputs of that moment. */
  predicate TrueClaims(su: Setup, events: seq<Event>, n: nat)
    requires Run(su, events).Some? && n <= |events|
  {
    forall k | 0 <= k < n && ClaimAt(su, events, k) ::
      Prefix(su, events, k); UpToDate(Run(su, events[..k + 1]).value, events[k].args)
  }

  lemma {:induction false} RunKeeps(su: Setup, events: seq<Event>, n: nat)
    requires Run(su, events).Some? && n <= |events|
    ensures SoundClaims(su, events, n) <==> TrueClaims(su, events, n)
    ensures Run(su, events[..n]).Some?
    ensures SoundClaims(su, events, n) ==> Inv(su, Run(su, events[..n]).value)
  {
    hide Inv, Next, Enabled, Handle, Run, Sound, UpToDate;
    if n == 0 {
      assert events[..0] == [];
      NothingRun(su);
    } else {
      RunKeeps(su, events, n - 1);
      Prefix(su, events, n - 1);
      var w := Run(su, events[..n - 1]).value;
      if SoundClaims(su, events, n - 1) {
        if events[n - 1].Request? { RequestStep(su, w, events[n - 1]); } else { EventKeeps(su, w, events[n - 1]); }
      }
      assert SoundClaims(su, events, n) ==> SoundClaims(su, events, n - 1);
      assert TrueClaims(su, events, n) ==> TrueClaims(su, events, n - 1);
    }
  }

  lemma {:induction false} NothingRun(su: Setup)
    ensures Run(su, []) == Some(Initial(|su.isObject|)) && Inv(su, Initial(|su.isObject|))
  {
    InitialHolds(su);
  }

  lemma {:induction false} RequestStep(su: Setup, w: World, e: Event)
    requires Shaped(su, w) && Inv(su, w) && e.Request? && Enabled(su, w, e)
    ensures Next(su, w, e) == Handle(su, w, e.args, e.attempt).world
    ensures var r := Handle(su, w, e.args, e.attempt);
            && (Claims(r) ==> (UpToDate(Next(su, w, e), e.args) <==> Sound(w, e.args)))
            && (!Claims(r) || Sound(w, e.args) ==> Inv(su, Next(su, w, e)))
  {
    hide Inv, Handle;
    RequestIsSound(su, w, e.args, e.attempt);
  }

  /** Over every run of edits, one-shot links and requests: all RELINKED and NOCHANGE replies are true if
      and only if each was given while the output was the recorded one for those arguments (or a failed
      patch of it). The daemon does not check this condition itself. */
  lemma {:induction false} ClaimsAreTrueIffSound(su: Setup, events: seq<Event>)
    requires Run(su, events).Some?
    ensures TrueClaims(su, events, |events|) <==> SoundClaims(su, events, |events|)
  {
    RunKeeps(su, events, |events|);
  }

  // ── A condition that a caller can check ──────────────────────────────────

  predicate Tears(e: Event) { (e.PatchLink? || e.Request?) && e.attempt.Tear? }

  lemma {:induction false} StepUntorn(su: Setup, w: World, e: Event)
    requires Shaped(su, w) && Enabled(su, w, e) && w.torn.None? && !Tears(e)
    ensures Next(su, w, e).torn.None?
  {
    hide SameLayout, MayPatch, Patched, Changed, Load;
  }

  lemma {:induction false} RunUntorn(su: Setup, events: seq<Event>)
    requires Run(su, events).Some? && forall e | e in events :: !Tears(e)
    ensures Run(su, events).value.torn.None?
  {
    hide Next, Enabled, Tears;
    if events != [] {
      var n := |events| - 1;
      assert events[n] in events && forall e | e in events[..n] :: e in events;
      RunUntorn(su, events[..n]);
      StepUntorn(su, Run(su, events[..n]).value, events[n]);
    }
  }

  /** Every claim of the run was made while the output had the recorded fingerprint. */
  predicate RecordedClaims(su: Setup, events: seq<Event>)
    requires Run(su, events).Some?
  {
    forall k | 0 <= k < |events| && ClaimAt(su, events, k) ::
      Prefix(su, events, k); Recorded(Run(su, events[..k]).value, events[k].args)
  }

  /** Comparing the output's fingerprint with the manifest before a reply is always enough, and in runs in
      which no patch fails half way it is exactly what makes all claims true. */
  lemma {:induction false} RecordedIsEnough(su: Setup, events: seq<Event>)
    requires Run(su, events).Some?
    ensures RecordedClaims(su, events) ==> TrueClaims(su, events, |events|)
    ensures (forall e | e in events :: !Tears(e)) ==> (RecordedClaims(su, events) <==> TrueClaims(su, events, |events|))
  {
    hide Run, Handle, Tears, UpToDate;
    ClaimsAreTrueIffSound(su, events);
    if forall e | e in events :: !Tears(e) {
      forall k | 0 <= k < |events| && ClaimAt(su, events, k)
        ensures Run(su, events[..k]).Some? && Run(su, events[..k]).value.torn.None?
      {
        Prefix(su, events, k);
        RunUntorn(su, events[..k]);
      }
    }
  }

  // ── Runs without the two kinds of trouble ────────────────────────────────

  /** No link with GC or ICF shares the output, and no link fails after it has begun to write. */
  predicate Orderly(su: Setup, e: Event) {
    !e.FailedEmit? && (e.FullLink? ==> su.eligible(e.args))
  }

  predicate InStep(w: World) {
    w.daemon.Some? && w.layoutFile.Some? && w.layoutFile.value.mtime == w.daemon.value.mtime ==>
        Sound(w, w.daemon.value.args)
  }

  lemma {:induction false} OrderlyRequest(su: Setup, w: World, args: nat, attempt: Attempt)
    requires Shaped(su, w) && Inv(su, w) && InStep(w) && w.daemon.Some?
    ensures var r := Handle(su, w, args, attempt);
            Shaped(su, r.world) && Inv(su, r.world) && InStep(r.world) && (Claims(r) ==> Sound(w, args))
  {
    hide SameLayout, Patched, MayPatch;
    NextShaped(su, w, Request(args, attempt));
    RequestIsSound(su, w, args, attempt);
    if args == w.daemon.value.args && Reloaded(w, w.daemon.value).Some? { ServeFacts(su, w); }
  }

  lemma {:induction false} OrderlyKeeps(su: Setup, w: World, e: Event)
    requires Shaped(su, w) && Inv(su, w) && InStep(w) && Enabled(su, w, e) && Orderly(su, e) && !e.Request?
    ensures Shaped(su, Next(su, w, e)) && Inv(su, Next(su, w, e)) && InStep(Next(su, w, e))
  {
    hide Patched, MayPatch, SameLayout;
    EventKeeps(su, w, e);
  }

  /** In such runs every RELINKED or NOCHANGE reply is true. */
  lemma {:induction false} OrderlyRuns(su: Setup, events: seq<Event>, n: nat)
    requires Run(su, events).Some? && n <= |events| && forall e | e in events :: Orderly(su, e)
    ensures Run(su, events[..n]).Some? && Inv(su, Run(su, events[..n]).value) && InStep(Run(su, events[..n]).value)
    ensures SoundClaims(su, events, n) && TrueClaims(su, events, n)
  {
    hide Inv, Next, Enabled, Handle, Run, Sound, UpToDate, InStep;
    if n == 0 {
      assert events[..0] == [];
      NothingRun(su);
      Still(su);
    } else {
      OrderlyRuns(su, events, n - 1);
      Prefix(su, events, n - 1);
      var w := Run(su, events[..n - 1]).value;
      assert events[n - 1] in events;
      if events[n - 1].Request? { OrderlyRequestStep(su, w, events[n - 1]);
          } else { OrderlyKeeps(su, w, events[n - 1]); }
      RunKeeps(su, events, n);
    }
  }

  lemma {:induction false} Still(su: Setup)
    ensures InStep(Initial(|su.isObject|))
  {
  }

  lemma {:induction false} OrderlyRequestStep(su: Setup, w: World, e: Event)
    requires Shaped(su, w) && Inv(su, w) && InStep(w) && e.Request? && Enabled(su, w, e)
    ensures var r := Handle(su, w, e.args, e.attempt);
            Next(su, w, e) == r.world && Inv(su, r.world) && InStep(r.world) && (Claims(r) ==> Sound(w, e.args))
  {
    hide Inv, InStep, Handle;
    OrderlyRequest(su, w, e.args, e.attempt);
  }

  // ── The two kinds of trouble ─────────────────────────────────────────────

  lemma {:induction false} RunStep(su: Setup, events: seq<Event>, e: Event)
    requires Run(su, events).Some? && Enabled(su, Run(su, events).value, e)
    ensures Run(su, events + [e]) == Some(Next(su, Run(su, events).value, e))
  {
    hide Next, Enabled;
    assert (events + [e])[..|events|] == events;
  }

  /** A link of the same output with other arguments and `--gc-sections` or `--icf` leaves `layout.bin`
      alone, so the daemon does not reload: it answers NOCHANGE over the other link's output. */
  lemma {:induction false} GcLinkFoolsDaemon(su: Setup, a: nat, g: nat)
    requires su.eligible(a) && !su.eligible(g)
    ensures var run := [FullLink(a, false), Start(a), FullLink(g, false)];
            && Run(su, run).Some? && Run(su, run).value.daemon.Some?
            && Handle(su, Run(su, run).value, a, Refuse).status == NOCHANGE
            && !UpToDate(Handle(su, Run(su, run).value, a, Refuse).world, a)
  {
    hide Run, SameLayout;
    var w0 := Initial(|su.isObject|);
    NothingRun(su);
    RunStep(su, [], FullLink(a, false));
    assert [] + [FullLink(a, false)] == [FullLink(a, false)];
    RunStep(su, [FullLink(a, false)], Start(a));
    assert [FullLink(a, false)] + [Start(a)] == [FullLink(a, false), Start(a)];
    RunStep(su, [FullLink(a, false), Start(a)], FullLink(g, false));
    assert [FullLink(a, false), Start(a)] + [FullLink(g, false)] == [FullLink(a, false), Start(a), FullLink(g, false)];
    var w2 := Run(su, [FullLink(a, false), Start(a)]).value;
    assert w2.daemon.Some? && w2.daemon.value.inputs == w2.inputs;
  }

  /** A link that fails after it has begun to write leaves `layout.bin` and the inputs alone too. */
  lemma {:induction false} FailedEmitFoolsDaemon(su: Setup, a: nat)
    requires su.eligible(a)
    ensures var run := [FullLink(a, false), Start(a), FailedEmit];
            && Run(su, run).Some? && Run(su, run).value.daemon.Some?
            && Handle(su, Run(su, run).value, a, Refuse).status == NOCHANGE
            && !UpToDate(Handle(su, Run(su, run).value, a, Refuse).world, a)
  {
    hide Run, SameLayout;
    NothingRun(su);
    RunStep(su, [], FullLink(a, false));
    assert [] + [FullLink(a, false)] == [FullLink(a, false)];
    RunStep(su, [FullLink(a, false)], Start(a));
    assert [FullLink(a, false)] + [Start(a)] == [FullLink(a, false), Start(a)];
    RunStep(su, [FullLink(a, false), Start(a)], FailedEmit);
    assert [FullLink(a, false), Start(a)] + [FailedEmit] == [FullLink(a, false), Start(a), FailedEmit];
    var w2 := Run(su, [FullLink(a, false), Start(a)]).value;
    assert w2.daemon.Some? && w2.daemon.value.inputs == w2.inputs;
  }

  // ── The server in place ──────────────────────────────────────────────────

  /** The shared files and inputs. */
  class Disk {
    var clock: nat
    var inputs: seq<nat>
    var out: Output
    var outFp: nat
    var manifest: Option<Manifest>
    var layoutFile: Option<LayoutFile>
    var torn: Option<nat>

    function With(d: Option<Resident>): World
      reads this
    {
      World(clock, inputs, out, outFp, manifest, layoutFile, d, torn)
    }

    method Write(w: World)
      modifies this
      ensures With(w.daemon) == w
    {
      clock, inputs, out, outFp := w.clock, w.inputs, w.out, w.outFp;
      manifest, layoutFile, torn := w.manifest, w.layoutFile, w.torn;
    }
  }

  class DaemonState {
    const args: nat
    var layout: Layout
    var inputs: seq<nat>
    var mtime: nat

    constructor (r: Resident)
      ensures Held() == r
    {
      args, layout, inputs, mtime := r.args, r.layout, r.inputs, r.mtime;
    }

    function Held(): Resident
      reads this
    {
      Resident(args, layout, inputs, mtime)
    }

    /** One stat per input: the objects that changed, or nothing when some other input did. */
    method ChangedObjects(su: Setup, now: seq<nat>) returns (ids: Option<set<nat>>)
      requires |inputs| == |now| == |su.isObject|
      ensures ids.None? <==> exists i :: i in Changed(inputs, now) && !su.isObject[i]
      ensures ids.Some? ==> ids.value == Changed(inputs, now)
    {
      var found: set<nat> := {};
      for i := 0 to |now|
        invariant found == set j: nat | j < i && inputs[j] != now[j]
        invariant forall j | j in found :: su.isObject[j]
      {
        if inputs[i] == now[i] { continue; }
        if !su.isObject[i] { return None; }
        found := found + {i};
      }
      return Some(found);
    }

    method HandleRequest(su: Setup, disk: Disk, req: nat, attempt: Attempt) returns (status: Status)
      requires Shaped(su, disk.With(Some(Held())))
      modifies this, disk
      ensures var r := Handle(su, old(disk.With(Some(Held()))), req, attempt);
              status == r.status && disk.With(Some(Held())) == r.world
    {
      hide Tore, Relinked, SameDemand;
      if req != args { return FALLBACK; }
      if !(disk.layoutFile.Some? && disk.layoutFile.value.mtime == mtime) {
        match Load(disk.With(Some(Held())), args) {
          case None => return FALLBACK;
          case Some(r) => layout, inputs, mtime := r.layout, r.inputs, r.mtime;
        }
      }
      var v := disk.With(Some(Held()));
      var ids := ChangedObjects(su, disk.inputs);
      if ids.None? {
        var i :| i in Changed(inputs, disk.inputs) && !su.isObject[i];
        assert !MayPatch(su, layout, Changed(inputs, disk.inputs), disk.inputs);
        return FALLBACK;
      }
      if ids.value == {} { return NOCHANGE; }
      if !MayPatch(su, layout, ids.value, disk.inputs) || attempt.Refuse? { return FALLBACK; }
      if attempt.Tear? {
        KeepsDaemon(su, v, layout, ids.value);
        disk.Write(Tore(su, v, layout, ids.value));
        return FALLBACK;
      }
      KeepsDaemon(su, v, layout, ids.value);
      var w := Relinked(su, v, layout, ids.value);
      inputs := disk.inputs;
      disk.Write(w.(daemon := Some(Held())));
      return RELINKED;
    }
  }

  lemma {:induction false} KeepsDaemon(su: Setup, w: World, layout: Layout, ids: set<nat>)
    requires |layout.versions| == |w.inputs|
    ensures Tore(su, w, layout, ids).daemon == w.daemon && Relinked(su, w, layout, ids).daemon == w.daemon
    ensures Relinked(su, w, layout, ids).inputs == w.inputs
  {
  }
}
