/** Parsed input objects (`peony-object/src/model.rs`). */
module Objects {
  import opened Bytes
  import opened Reloc

  type Name = seq<byte>

  function Ascii(s: string): Name { seq(|s|, i requires 0 <= i < |s| => s[i] as int % 256) }

  predicate StartsWith(n: Name, prefix: Name) { |prefix| <= |n| && n[..|prefix|] == prefix }

  datatype Binding = Local | Global | Weak

  datatype SectionKind =
    | Text | ReadOnly | Data | Bss | Debug | EhFrame | MergeString | MergeConst | InitArray | Tdata | Tbss | OtherKind

  /** Section flag bits; a flag word is the set of its bits. */
  datatype Flag = Write | Alloc | Exec | Tls | Retain | Bit(number: nat)

  datatype InputReloc = InputReloc(offset: u64, rType: RType, symbol: nat, addend: int)

  datatype InputSection = InputSection(
    index: nat, name: Name, kind: SectionKind, shType: nat, data: seq<byte>,
    align: nat, size: nat, flags: set<Flag>, relocs: seq<InputReloc>)

  datatype InputSymbol = InputSymbol(
    index: nat, name: Name, binding: Binding, isUndefined: bool, isCommon: bool, isIfunc: bool,
    stType: nat, visibility: nat, section: Option<nat>, value: nat, size: nat)

  datatype ComdatGroup = ComdatGroup(signature: Name, members: seq<nat>)

  /** `sectionMap` and `symbolMap` take raw ELF indices to positions. */
  datatype InputObject = InputObject(
    path: string, sections: seq<InputSection>, symbols: seq<InputSymbol>,
    sectionMap: map<nat, nat>, symbolMap: map<nat, nat>, comdatGroups: seq<ComdatGroup>)
  {
    function SectionPos(raw: nat): Option<nat> {
      if raw in sectionMap then Some(sectionMap[raw]) else None
    }

    function SymbolPos(raw: nat): Option<nat> {
      if raw in symbolMap then Some(symbolMap[raw]) else None
    }

    function SymbolByIndex(raw: nat): Option<InputSymbol> {
      match SymbolPos(raw)
      case Some(pos) => if pos < |symbols| then Some(symbols[pos]) else None
      case None => None
    }

    /** The maps agree with the lists, as the parser builds them. */
    predicate Indexed() {
      && (forall pos | 0 <= pos < |sections| :: SectionPos(sections[pos].index) == Some(pos))
      && (forall pos | 0 <= pos < |symbols| :: SymbolPos(symbols[pos].index) == Some(pos))
    }
  }
}
