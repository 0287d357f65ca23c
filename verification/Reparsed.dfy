/** Reading the symbols of a partial link again: each has the binding, type, visibility and definition that its symbol
    had, so the next link merges it as it would have merged the original (`peony-emit/src/relocatable.rs:148-232`,
    `peony-object/src/parse.rs:208-236`). */
module Reparsed {
  import opened Bytes
  import opened Objects
  import opened Symbols
  import opened Relocatable
  import opened RelocatableSymbols

  const STB_LOCAL := 0
  const STB_WEAK := 2
  const STT_GNU_IFUNC := 10

  /** The symbol that the parser reads from an entry. */
  function ParseSymbol(e: OutSym, index: nat, name: Name): InputSymbol {
    var bind, stType := e.info / 16, e.info % 16;
    InputSymbol(index, name, if bind == STB_LOCAL && e.shndx != SHN_UNDEF then Local else if bind == STB_WEAK then Weak
                             else Binding.Global,
                e.shndx == SHN_UNDEF, e.shndx == SHN_COMMON, stType == STT_GNU_IFUNC, stType, e.other,
                if e.shndx == SHN_UNDEF || e.shndx >= SHN_LORESERVE then None else Some(e.shndx), e.value, e.size)
  }

  lemma {:induction false} InfoParts(bind: nat, stType: nat)
    ensures StInfo(bind, stType) / 16 == bind && StInfo(bind, stType) % 16 == stType % 16
  {
  }

  /** The definition's section is kept, under a header index below the reserved ones; or it has none. */
  predicate Kept(objects: seq<InputObject>, placement: Placements, res: Resolution) {
    && res.definedIn.Some?
    && (res.section.Some? ==>
          match PlacedAt(objects, placement, res.definedIn.value, res.section.value)
          case None => false
          case Some((out, _)) => out + 1 < SHN_LORESERVE)
  }

  /** How far the definition moves: its section's offset in the output section. */
  function Moved(objects: seq<InputObject>, placement: Placements, res: Resolution): nat
    requires Kept(objects, placement, res)
  {
    match res.section
    case None => 0
    case Some(raw) => PlacedAt(objects, placement, res.definedIn.value, raw).value.1
  }

  /** A merged definition is read back as one: strong or weak as before, of its type, visibility and size, in the output
      section that holds it, moved with its section. */
  lemma {:induction false} DefinitionReparses(objects: seq<InputObject>, placement: Placements, res: Resolution,
          index: nat, n: Name, at: nat)
    requires res.common.None? && Kept(objects, placement, res) && res.stType < 16
    ensures var s := ParseSymbol(GlobalEntry(objects, placement, res).(name := at), index, n);
            && !s.isUndefined && !s.isCommon && s.name == n && s.stType == res.stType && s.visibility == res.visibility
            && (s.binding == Weak <==> res.binding == Weak) && s.binding != Local
            && s.size == res.size && s.value == res.value + Moved(objects, placement, res)
            && (s.section.None? <==> res.section.None?)
            && (s.section.Some? ==>
                  s.section.value
                  == PlacedAt(objects, placement, res.definedIn.value, res.section.value).value.0 + 1)
  {
    InfoParts(if res.binding == Weak then 2 else 1, res.stType);
    hide StInfo, PlacedAt;
  }

  /** A common symbol is read back as one of the same size and alignment, and what is defined nowhere as undefined, as
      strong or weak as before. */
  lemma {:induction false} OthersReparse(objects: seq<InputObject>, placement: Placements, res: Resolution, index: nat,
          n: Name, at: nat)
    requires res.common.Some? || res.definedIn.None?
    ensures var s := ParseSymbol(GlobalEntry(objects, placement, res).(name := at), index, n);
            && s.name == n && s.visibility == res.visibility && s.section.None?
            && (s.binding == Weak <==> res.binding == Weak) && s.binding != Local
            && (s.isCommon <==> res.common.Some?) && (s.isUndefined <==> res.common.None?)
            && (res.common.Some? ==> (s.size, s.value) == res.common.value)
  {
    InfoParts(if res.binding == Weak then 2 else 1, 0);
    InfoParts(if res.binding == Weak then 2 else 1, 1);
    hide StInfo, PlacedAt;
  }

  /** A local symbol is read back as a local one of its type, visibility and size. */
  lemma {:induction false} LocalReparses(objects: seq<InputObject>, placement: Placements, o: nat, sym: InputSymbol,
          index: nat, at: nat)
    requires LocalEntry(objects, placement, o, sym).Some? && sym.stType < 16
    requires sym.section.Some? && sym.stType != STT_FILE ==>
               PlacedAt(objects, placement, o, sym.section.value).value.0 + 1 < SHN_LORESERVE
    ensures var s := ParseSymbol(LocalEntry(objects, placement, o, sym).value.(name := at), index, sym.name);
            && s.binding == Local && !s.isUndefined && !s.isCommon && s.name == sym.name && s.stType == sym.stType
            && s.visibility == sym.visibility && s.size == sym.size
            && (s.section.Some? <==> sym.section.Some? && sym.stType != STT_FILE)
            && (s.section.None? ==> s.value == sym.value)
            && (s.section.Some? ==>
                  var (out, off) := PlacedAt(objects, placement, o, sym.section.value).value;
                  s.section.value == out + 1 && s.value == sym.value + off)
  {
    InfoParts(0, sym.stType);
    hide StInfo, PlacedAt;
  }

  /** The next link's table has for the name what this one had: bound as strongly, defined or common of the same size
      and alignment, or asked for. */
  lemma {:induction false} NextLinkAgrees(objects: seq<InputObject>, placement: Placements, res: Resolution, index: nat,
          n: Name, at: nat, obj: nat, next: nat)
    requires res.binding != Local && res.stType < 16 && (res.common.Some? ==> res.common.value.1 >= 1)
    requires res.common.None? && res.definedIn.Some? ==> Kept(objects, placement, res)
    ensures var s := ParseSymbol(GlobalEntry(objects, placement, res).(name := at), index, n);
            var m := MergeEntry(None, obj, s, next);
            && m.Ok? && m.value.entry.binding == res.binding
            && (m.value.entry.definedIn.Some? <==> res.common.Some? || res.definedIn.Some?)
            && m.value.entry.common == res.common
            && (m.value.entry.definedIn.Some? && res.common.None? ==>
                  && m.value.entry.size == res.size && m.value.entry.stType == res.stType
                  && m.value.entry.visibility == res.visibility
                  && m.value.entry.value == res.value + Moved(objects, placement, res)
                  && (m.value.entry.isIfunc <==> res.stType == STT_GNU_IFUNC))
  {
    hide GlobalEntry, PlacedAt, StInfo, Kept, Moved;
    if res.common.None? && res.definedIn.Some? {
      DefinitionReparses(objects, placement, res, index, n, at);
    } else {
      OthersReparse(objects, placement, res, index, n, at);
    }
  }
}
