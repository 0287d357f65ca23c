/** Layout and emit agree: a work item sits where layout put its input section, in memory and in the file
    (`peony-layout/src/lib.rs:1449-2067`, `peony-emit/src/input_work.rs:85-119`). */
module EmittedAddresses {
  import opened Bytes
  import opened Objects
  import opened Placement
  import opened Emit
  import opened WorkList
  import opened InputWork
  import G = Grouping
  import opened Relro
  import opened ImagePlan

  /** The emitter's view of an output section, with the same contributions. */
  predicate Renders(out: OutSec, s: Sec) {
    && out.off == s.offset && out.va == s.addr && out.size == s.size && |out.contributions| == |s.contributions|
    && (s.contributions != [] ==> out.source.Input?)
    && forall i | 0 <= i < |s.contributions| ::
         var c, d := out.contributions[i], s.contributions[i];
         c.objectId == d.objectId && c.sectionPos == d.sectionPos && c.offset == d.offset && c.size == d.size
  }

  /** The placed sections come first; what follows them holds no input section. */
  predicate Rendered(outs: seq<OutSec>, secs: seq<Sec>) {
    && |secs| <= |outs| && (forall k | 0 <= k < |secs| :: Renders(outs[k], secs[k]))
    && (forall k | |secs| <= k < |outs| :: !outs[k].source.Input?)
    && forall k | 0 <= k < |secs| && secs[k].contributions == [] :: !outs[k].source.Input?
  }

  /** What layout's maps and sections say of a work item. */
  predicate AtLayout(objects: seq<InputObject>, secs: seq<Sec>, addresses: map<Key, nat>, base: nat, item: WorkItem) {
    var key := (item.objId, item.isec.index);
    && item.objId < |objects| && item.isec in objects[item.objId].sections
    && key in addresses && item.sectionVa == addresses[key] && item.fileOff + base == addresses[key]
  }

  /** The contributions name sections by position and index alike. */
  predicate Indexed(objects: seq<InputObject>, secs: seq<Sec>) {
    forall k, i | 0 <= k < |secs| && 0 <= i < |secs[k].contributions| ::
      var c := secs[k].contributions[i];
      c.objectId < |objects| && c.sectionPos < |objects[c.objectId].sections| ==>
        objects[c.objectId].sections[c.sectionPos].index == c.sectionIndex
  }

  /** Every item of the work list is at the address that layout has for its input section, which is as far from the
      base address as the item is into the file. */
  lemma {:induction false} ItemsAtLayout(objects: seq<InputObject>, outs: seq<OutSec>, secs: seq<Sec>,
          addresses: map<Key, nat>, secToOut: map<Key, nat>, base: nat, f: Filter, item: WorkItem)
    requires Rendered(outs, secs) && Indexed(objects, secs)
    requires forall k, i | 0 <= k < |secs| && 0 <= i < |secs[k].contributions| ::
               OwnAddress(secs, addresses, secToOut, k, i)
    requires forall k | 0 <= k < |secs| :: secs[k].offset + base == secs[k].addr
    requires forall key | key in addresses :: addresses[key] < TWO64
    requires item in CollectInputWorkItems(outs, objects, f)
    ensures AtLayout(objects, secs, addresses, base, item)
  {
    WorkExactly(outs, objects, f, item);
    hide CollectInputWorkItems;
    var sec, c :| Admits(outs, f, sec, c) && IsWork(item, sec, c, objects);
    var k :| 0 <= k < |outs| && outs[k] == sec;
    assert k < |secs| && Renders(sec, secs[k]);
    var i :| 0 <= i < |sec.contributions| && sec.contributions[i] == c;
    assert OwnAddress(secs, addresses, secToOut, k, i);
  }

  /** And every input section that layout has placed is there, at its address. */
  lemma {:induction false} PlacedIsEmitted(inp: G.Input, outs: seq<OutSec>, secs: seq<Sec>, addr: nat, out: nat,
          base: nat, q: G.Place)
    requires Rendered(outs, secs) && inp.Has(q.o, q.pos) && GoodAddress(inp, secs, addr, out, q) && addr < TWO64
    requires secs[out].offset + base == secs[out].addr
    ensures exists item ::
              && item in CollectInputWorkItems(outs, inp.objects, All) && item.isec == inp.Sec(q.o, q.pos)
              && item.objId == q.o && item.sectionVa == addr && item.fileOff + base == addr
  {
    hide CollectInputWorkItems;
    var i :| 0 <= i < |secs[out].contributions| && IsContribution(secs[out], i, q, addr);
    var sec := outs[out];
    assert Renders(sec, secs[out]);
    var c := sec.contributions[i];
    assert addr == sec.va + c.offset;
    var item := WorkItem(sec.off + c.offset, addr, q.o, inp.Sec(q.o, q.pos));
    assert Admits(outs, All, sec, c) && IsWork(item, sec, c, inp.objects);
    WorkExactly(outs, inp.objects, All, item);
  }
}
