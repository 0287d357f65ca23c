/** What the work list of an emit holds: one item for each admitted contribution of an input section, with its
    bytes, its place in the file and its address (`peony-emit/src/input_work.rs:85-119`). */
module WorkList {
  import opened Bytes
  import opened Objects
  import opened InputWork
  import opened Emit

  /** `item` carries the input section of contribution `c`, as far into the file as into memory from the start of
      `sec`; an address past the last one is the last one. */
  predicate IsWork(item: WorkItem, sec: OutSec, c: Contribution, objects: seq<InputObject>) {
    && c.objectId < |objects| && c.sectionPos < |objects[c.objectId].sections|
    && item.isec == objects[c.objectId].sections[c.sectionPos] && item.objId == c.objectId
    && item.fileOff - sec.off == c.offset
    && (if sec.va + c.offset < TWO64 then item.sectionVa - sec.va == c.offset else item.sectionVa == TWO64 - 1)
  }

  /** The contribution is one of an input section, and of an object to be written. */
  predicate Admits(secs: seq<OutSec>, f: Filter, sec: OutSec, c: Contribution) {
    && sec in secs && sec.source == Input && c in sec.contributions
    && (f == All || (f.ChangedObjects? && c.objectId in f.ids))
  }

  lemma {:induction false} OneWork(sec: OutSec, objects: seq<InputObject>, c: Contribution, item: WorkItem)
    ensures ItemOf(sec, objects, c) == Some(item) <==> IsWork(item, sec, c, objects)
  {
  }

  lemma {:induction false} SectionWork(sec: OutSec, objects: seq<InputObject>, cs: seq<Contribution>, f: Filter,
          item: WorkItem)
    ensures item in SectionItems(sec, objects, cs, f)
            <==> exists c :: c in cs && (f == All || (f.ChangedObjects? && c.objectId in f.ids))
                             && IsWork(item, sec, c, objects)
    decreases |cs|
  {
    hide ItemOf, IsWork;
    if cs != [] {
      OneWork(sec, objects, cs[0], item);
      SectionWork(sec, objects, cs[1..], f, item);
      assert forall c :: c in cs <==> c == cs[0] || c in cs[1..];
    }
  }

  /** The items are exactly the work of the admitted contributions. */
  lemma {:induction false} WorkExactly(secs: seq<OutSec>, objects: seq<InputObject>, f: Filter, item: WorkItem)
    ensures item in CollectInputWorkItems(secs, objects, f)
            <==> exists sec, c :: Admits(secs, f, sec, c) && IsWork(item, sec, c, objects)
    decreases |secs|
  {
    hide SectionItems, IsWork;
    if secs != [] {
      SectionWork(secs[0], objects, secs[0].contributions, f, item);
      WorkExactly(secs[1..], objects, f, item);
      if item in CollectInputWorkItems(secs, objects, f) {
        if item in CollectInputWorkItems(secs[1..], objects, f) {
          var sec, c :| Admits(secs[1..], f, sec, c) && IsWork(item, sec, c, objects);
          assert Admits(secs, f, sec, c);
        } else {
          var c :| c in secs[0].contributions && (f == All || (f.ChangedObjects? && c.objectId in f.ids))
                   && IsWork(item, secs[0], c, objects);
          assert Admits(secs, f, secs[0], c);
        }
      }
      if sec, c :| Admits(secs, f, sec, c) && IsWork(item, sec, c, objects) {
        if sec != secs[0] { assert Admits(secs[1..], f, sec, c); }
      }
    }
  }
}
