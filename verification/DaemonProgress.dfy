/** The daemon makes progress: it relinks what it may, answers a second request without work, and leaves the files
    alone when it declines (`peony/src/daemon.rs:187-302`). */
module DaemonProgress {
  import opened Daemon

  /** The state that a request is served from: the resident one while `layout.bin` is the file it was loaded from, and
      otherwise what the cache holds for the same arguments, output and layout. */
  ghost predicate ServedFrom(w: World, d: Resident, r: Resident) {
    w.layoutFile.Some?
    && if w.layoutFile.value.mtime == d.mtime then r == d
       else
         && w.manifest.Some? && w.manifest.value.args == d.args && w.manifest.value.output == w.outFp
         && w.manifest.value.frontEnd == Some(w.layoutFile.value.layout)
         && r == Resident(d.args, w.layoutFile.value.layout, w.manifest.value.inputs, w.layoutFile.value.mtime)
  }

  /** Input `i` is another one now than when the state was recorded. */
  predicate Stale(w: World, r: Resident, i: nat) { i < |w.inputs| == |r.inputs| && r.inputs[i] != w.inputs[i] }

  /** Each input that changed is a plain object that demands of the layout what it did. */
  ghost predicate Patchable(su: Setup, w: World, r: Resident) {
    forall i: nat | Stale(w, r, i) ::
      && i < |su.isObject| && su.isObject[i] && i < |r.layout.versions|
      && su.demand(i, r.layout.versions[i]) == su.demand(i, w.inputs[i])
  }

  lemma {:induction false} ReloadedExactly(w: World, d: Resident, r: Resident)
    ensures Reloaded(w, d) == Some(r) <==> ServedFrom(w, d, r)
  {
  }

  lemma {:induction false} MayPatchExactly(su: Setup, w: World, r: Resident)
    requires |w.inputs| == |r.inputs| == |r.layout.versions|
    ensures MayPatch(su, r.layout, Changed(r.inputs, w.inputs), w.inputs) <==> Patchable(su, w, r)
    ensures Changed(r.inputs, w.inputs) == {} <==> forall i: nat :: !Stale(w, r, i)
  {
    var ids := Changed(r.inputs, w.inputs);
    assert forall i: nat :: i in ids <==> Stale(w, r, i);
    if forall i: nat :: !Stale(w, r, i) { assert ids == {}; }
  }

  /** When a request is answered NOCHANGE, when RELINKED, and when FALLBACK. */
  lemma {:induction false} AnswersExactly(su: Setup, w: World, args: nat, attempt: Attempt)
    requires Shaped(su, w) && w.daemon.Some?
    ensures var status, d := Handle(su, w, args, attempt).status, w.daemon.value;
            && (status == NOCHANGE <==>
                  args == d.args && exists r :: ServedFrom(w, d, r) && forall i: nat :: !Stale(w, r, i))
            && (status == RELINKED <==>
                  args == d.args && attempt.Succeed?
                  && exists r :: ServedFrom(w, d, r) && (exists i: nat :: Stale(w, r, i)) && Patchable(su, w, r))
  {
    hide MayPatch, Changed, ServedFrom, Patchable, Stale, Reloaded, Relinked, Tore;
    var d := w.daemon.value;
    forall r ensures Reloaded(w, d) == Some(r) <==> ServedFrom(w, d, r) { ReloadedExactly(w, d, r); }
    if Reloaded(w, d).Some? {
      var r := Reloaded(w, d).value;
      ReloadedShaped(su, w);
      MayPatchExactly(su, w, r);
    }
  }

  lemma {:induction false} ReloadedShaped(su: Setup, w: World)
    requires Shaped(su, w) && w.daemon.Some? && Reloaded(w, w.daemon.value).Some?
    ensures var r := Reloaded(w, w.daemon.value).value; |r.inputs| == |w.inputs| == |r.layout.versions|
  {
  }

  /** A request that is declined before anything is written leaves the files as they were. */
  lemma {:induction false} DeclinedLeavesFiles(su: Setup, w: World, args: nat, attempt: Attempt)
    requires Shaped(su, w) && w.daemon.Some? && Handle(su, w, args, attempt).status != RELINKED
    requires attempt.Tear? ==> Handle(su, w, args, attempt).status == NOCHANGE
    ensures Handle(su, w, args, attempt).world.(daemon := w.daemon) == w
  {
    hide MayPatch, Changed, Reloaded, Tore;
  }

  /** After a claim, a request without an edit in between is answered NOCHANGE and changes nothing. */
  lemma {:induction false} SecondRequestIsIdle(su: Setup, w: World, args: nat, first: Attempt, second: Attempt)
    requires Shaped(su, w) && w.daemon.Some? && Handle(su, w, args, first).status != FALLBACK
    ensures var v := Handle(su, w, args, first).world;
            Shaped(su, v) && v.daemon.Some? && Handle(su, v, args, second) == Reply(NOCHANGE, v)
  {
    hide MayPatch, Patched;
    var r, v := Reloaded(w, w.daemon.value).value, Handle(su, w, args, first).world;
    ReloadedShaped(su, w);
    assert v.daemon.value.mtime == r.mtime && v.layoutFile == w.layoutFile;
    assert Reloaded(v, v.daemon.value) == v.daemon;
    assert Changed(v.daemon.value.inputs, v.inputs) == {};
  }

  // ── From a link to a relink ──────────────────────────────────────────────

  /** A daemon started with some arguments serves if and only if the files are of a link with just these, which left
      the output and the layout that are there; it touches no file. */
  lemma {:induction false} StartsExactly(su: Setup, w: World, args: nat, r: Resident)
    requires Shaped(su, w)
    ensures var v := Next(su, w, Start(args));
            && v == w.(daemon := v.daemon)
            && (v.daemon == Some(r) <==>
                  && w.manifest.Some? && w.layoutFile.Some?
                  && w.manifest.value.args == args && w.manifest.value.output == w.outFp
                  && w.manifest.value.frontEnd == Some(w.layoutFile.value.layout)
                  && r == Resident(args, w.layoutFile.value.layout, w.manifest.value.inputs, w.layoutFile.value.mtime))
  {
  }

  /** After a full link without GC and ICF, started for its arguments, the daemon serves from that link. */
  lemma {:induction false} StartsAfterLink(su: Setup, w: World, args: nat, reuse: bool)
    requires Shaped(su, w) && Inv(su, w) && su.eligible(args)
    ensures var v := FullyLinked(su, w, args, reuse);
            && Load(v, args).Some? && Load(v, args).value.inputs == w.inputs && UpToDate(v, args)
            && |Load(v, args).value.layout.versions| == |w.inputs|
            && SameLayout(su, Load(v, args).value.layout.versions, w.inputs)
  {
    if reuse && LayoutReusable(su, w, args) { LoadAgrees(su, w, args); }
  }

  /** The inputs after any number of edits. */
  ghost predicate Edited(w: World, v: World) {
    v == w.(clock := v.clock, inputs := v.inputs) && |v.inputs| == |w.inputs|
  }

  /** Once linked and started, the daemon relinks every change to plain objects that keep their demand, and the output
      is then a link of the inputs as they are. */
  lemma {:induction false} EditsAreRelinked(su: Setup, w: World, args: nat, reuse: bool, v: World)
    requires Shaped(su, w) && Inv(su, w) && su.eligible(args)
    requires var linked := FullyLinked(su, w, args, reuse); Edited(linked.(daemon := Load(linked, args)), v)
    requires v.inputs != w.inputs && Shaped(su, v) && Inv(su, v)
    requires forall i: nat | i < |w.inputs| && v.inputs[i] != w.inputs[i] ::
               su.isObject[i] && su.demand(i, v.inputs[i]) == su.demand(i, w.inputs[i])
    ensures v.daemon.Some?
    ensures var r := Handle(su, v, args, Succeed);
            r.status == RELINKED && UpToDate(r.world, args) && r.world.inputs == v.inputs
  {
    StartsAfterLink(su, w, args, reuse);
    ServesLinked(su, w, args, reuse, v);
    hide Inv, Patched, FullyLinked, Load, Patchable, ServedFrom, Stale, SameLayout;
    AnswersExactly(su, v, args, Succeed);
    RequestIsSound(su, v, args, Succeed);
  }

  lemma {:induction false} ServesLinked(su: Setup, w: World, args: nat, reuse: bool, v: World)
    requires Shaped(su, w) && Inv(su, w) && su.eligible(args)
    requires var linked := FullyLinked(su, w, args, reuse);
             && Load(linked, args).Some? && Load(linked, args).value.inputs == w.inputs
             && |Load(linked, args).value.layout.versions| == |w.inputs|
             && SameLayout(su, Load(linked, args).value.layout.versions, w.inputs)
             && Edited(linked.(daemon := Load(linked, args)), v)
    requires v.inputs != w.inputs
    requires forall i: nat | i < |w.inputs| && v.inputs[i] != w.inputs[i] ::
               su.isObject[i] && su.demand(i, v.inputs[i]) == su.demand(i, w.inputs[i])
    ensures v.daemon.Some? && v.daemon.value.args == args && Sound(v, args)
    ensures ServedFrom(v, v.daemon.value, v.daemon.value) && Patchable(su, v, v.daemon.value)
    ensures exists i: nat :: Stale(v, v.daemon.value, i)
  {
    hide Inv;
    var i: nat :| i < |w.inputs| && v.inputs[i] != w.inputs[i];
    assert Stale(v, v.daemon.value, i);
  }
}
