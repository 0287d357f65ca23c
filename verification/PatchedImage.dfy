/** The daemon's patch on bytes: what the protocol says of the output is what the emitter does to the image
    (`peony/src/main.rs:1084-1146`, `peony-emit/src/lib.rs:317-423`). */
module PatchedImage {
  import opened Bytes
  import opened Objects
  import opened InputWork
  import Emit
  import Daemon
  import ShrinkingHdr

  /** What stands behind the versions: the object of each, the layout of one set of arguments, the symbol
      view, and the bytes an output starts from. */
  datatype Content = Content(
    objectAt: (nat, nat) -> InputObject, layout: Emit.Layout, lookup: seq<nat> -> Lookup, base: seq<byte>)
  {
    function Objects(versions: seq<nat>): seq<InputObject> {
      seq(|versions|, i requires 0 <= i < |versions| => objectAt(i, versions[i]))
    }

    function Relink(was: seq<nat>, now: seq<nat>): Emit.Relink
      requires |was| == |now|
    {
      Emit.Relink(layout, Objects(was), Objects(now), Daemon.Changed(was, now), lookup(was), lookup(now), base)
    }
  }

  /** The bytes of an output that links these versions. */
  ghost predicate Holds(c: Content, versions: seq<nat>, img: seq<byte>) {
    var job := Emit.WorkOf(c.layout, c.Objects(versions), c.lookup(versions), Emit.All);
    job.Valid(|c.base|) && img == Emit.FullImage(job, c.base, c.layout)
  }

  /** The protocol's `Linked` output at the recorded versions becomes the one at the current versions, and
      a minimal emit of the changed objects takes the bytes of the first to the bytes of the second, when
      one layout and one symbol view serve both and the digests cover `.eh_frame`. */
  lemma {:induction false} PatchRefines(su: Daemon.Setup, layout: Daemon.Layout, c: Content, was: seq<nat>,
          now: seq<nat>, img: seq<byte>)
    requires |was| == |now| == |layout.versions| && Daemon.SameLayout(su, layout.versions, was)
    requires Holds(c, was, img) && c.Relink(was, now).Valid()
    requires ShrinkingHdr.TableKept(c.Relink(was, now))
    ensures Daemon.Patched(su, Daemon.Linked(layout.args, Daemon.Versions(was)), layout, Daemon.Changed(was, now),
            now, false)
            == Daemon.Linked(layout.args, Daemon.Versions(now))
    ensures var r := c.Relink(was, now);
            r.PatchJob().Valid(|img|) && Holds(c, now, Emit.MinimalImage(r.PatchJob(), img, c.layout))
  {
    PatchedVersions(su, layout, was, now);
    hide Daemon.Patched, Emit.MinimalImage, Emit.FullImage, ShrinkingHdr.TableKept, Emit.CollectInputWorkItems,
        Emit.Tidy,
         Emit.Fits, Emit.Relink.OldData, Emit.Relink.NewData, Acceptable;
    var r := c.Relink(was, now);
    ShrinkingHdr.KeptTableIsEnough(r);
  }

  lemma {:induction false} PatchedVersions(su: Daemon.Setup, layout: Daemon.Layout, was: seq<nat>, now: seq<nat>)
    requires |was| == |now| == |layout.versions| && Daemon.SameLayout(su, layout.versions, was)
    ensures Daemon.Patched(su, Daemon.Linked(layout.args, Daemon.Versions(was)), layout, Daemon.Changed(was, now),
            now, false)
            == Daemon.Linked(layout.args, Daemon.Versions(now))
  {
    var ids, out := Daemon.Changed(was, now), Daemon.Linked(layout.args, Daemon.Versions(was));
    assert forall i | 0 <= i < |now| && i !in ids :: out.cells[i] == Daemon.V(now[i]);
    assert Daemon.Patched(su, out, layout, ids, now, false).Linked?;
    assert Daemon.Patched(su, out, layout, ids, now, false).cells == Daemon.Versions(now);
  }
}
