/** Which input sections layout keeps, and that no symbol of a live section loses its address
    (`peony-layout/src/lib.rs:1433-1475`, `3535-3550`). */
module SymbolHomes {
  import opened Bytes
  import opened Objects
  import opened Grouping
  import opened Placement

  /** The section is loaded into memory and not made or merged by the linker itself. */
  predicate Loaded(sec: InputSection) {
    Alloc in sec.flags && sec.kind != Debug && !(|sec.name| >= 5 && sec.name[..5] == Ascii(".note"))
  }

  /** Symbol `i` of object `o` is defined in the section. */
  predicate DefinedIn(objects: seq<InputObject>, o: nat, i: nat, sec: InputSection) {
    o < |objects| && i < |objects[o].symbols| && objects[o].symbols[i].section == Some(sec.index)
  }

  lemma {:induction false} NoteIsNote()
    ensures NOTE == Ascii(".note")
  {
    var note := Ascii(".note");
    assert note[0] == 0x2e && note[1] == 0x6e && note[2] == 0x6f && note[3] == 0x74 && note[4] == 0x65;
  }

  /** Kept are exactly the loaded sections that are live and not folded, if they have bytes or a symbol. */
  lemma {:induction false} KeptExactly(inp: Grouping.Input, q: Place)
    ensures q in Kept(inp) <==>
              && inp.Has(q.o, q.pos) && Loaded(inp.Sec(q.o, q.pos))
              && inp.emits(q.o, inp.Sec(q.o, q.pos).index) && !inp.folded(q.o, inp.Sec(q.o, q.pos).index)
              && (inp.Sec(q.o, q.pos).size > 0 || exists i: nat :: DefinedIn(inp.objects, q.o, i, inp.Sec(q.o, q.pos)))
  {
    if inp.Has(q.o, q.pos) {
      KeepsExactly(inp, q.o, q.pos);
      hide inp.Keeps, KeptUpTo;
      if inp.Keeps(q.o, q.pos) { KeptSoFar(inp, q.o, q.pos, q); }
    } else {
      hide inp.Keeps;
    }
  }

  lemma {:induction false} KeepsExactly(inp: Grouping.Input, o: nat, pos: nat)
    requires inp.Has(o, pos)
    ensures var sec := inp.Sec(o, pos);
            inp.Keeps(o, pos) <==>
              && Loaded(sec) && inp.emits(o, sec.index) && !inp.folded(o, sec.index)
              && (sec.size > 0 || exists i: nat :: DefinedIn(inp.objects, o, i, sec))
  {
    NoteIsNote();
    var sec := inp.Sec(o, pos);
    if inp.Anchored(o, pos) {
      var i :| 0 <= i < |inp.objects[o].symbols| && inp.objects[o].symbols[i].section == Some(sec.index);
      assert DefinedIn(inp.objects, o, i, sec);
    }
    hide Ascii;
  }

  /** Every symbol that is defined in a loaded, live and unfolded section has an address, even if the section is
      empty. */
  lemma {:induction false} NoSymbolLosesItsAddress(inp: Grouping.Input, addresses: map<Key, nat>, o: nat, pos: nat,
          i: nat)
    requires forall q | q in Kept(inp) && inp.Has(q.o, q.pos) :: (q.o, inp.Sec(q.o, q.pos).index) in addresses
    requires inp.Has(o, pos) && DefinedIn(inp.objects, o, i, inp.Sec(o, pos)) && Loaded(inp.Sec(o, pos))
    requires inp.emits(o, inp.Sec(o, pos).index) && !inp.folded(o, inp.Sec(o, pos).index)
    ensures (o, inp.Sec(o, pos).index) in addresses
  {
    hide Kept, Loaded;
    KeptExactly(inp, Place(o, pos));
  }
}
