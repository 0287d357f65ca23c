/** The global symbol table (`peony-symbols/src/lib.rs`): strong, weak, common and undefined symbols. */
module Symbols {
  import opened Bytes
  import opened Objects

  /** The placeholder id of an entry that has not been given one. */
  const NO_ID: nat := 0xffff_ffff

  /** `common`: size and alignment of a tentative definition; `imported`: satisfied by a shared library. */
  datatype Resolution = Resolution(
    id: nat, binding: Binding, definedIn: Option<nat>, section: Option<nat>, value: nat, size: nat,
    common: Option<(nat, nat)>, imported: bool, copyReloc: bool, va: nat, gotAddress: nat,
    version: Option<seq<byte>>, soname: Option<string>, isIfunc: bool, stType: nat, visibility: nat)
  {
    predicate IsDefined() { definedIn.Some? || imported }
  }

  const UNDEFINED := Resolution(
    NO_ID, Global, None, None, 0, 0, None, false, false, 0, 0, None, None, false, 0, 0)

  datatype Result<+T> = Ok(value: T) | Duplicate(first: nat, second: nat)

  // ── Merging one symbol into one entry ────────────────────────────────────

  datatype Action = SatisfyUndef | Upgrade | KeepExisting

  function ConflictAction(e: Resolution, obj: nat, sym: InputSymbol): Result<Action> {
    if e.definedIn.None? then Ok(SatisfyUndef)
    else if e.binding == Weak && sym.binding == Global then Ok(Upgrade)
    else if e.binding == Global && sym.binding == Global then Duplicate(e.definedIn.value, obj)
    else Ok(KeepExisting)
  }

  /** The entry after a merge, and whether it was given the fresh id. */
  datatype Merged = Merged(entry: Resolution, minted: bool)

  function Bound(e: Resolution, obj: nat, sym: InputSymbol): Resolution {
    e.(binding := sym.binding, definedIn := Some(obj), section := sym.section, value := sym.value, size := sym.size,
       stType := sym.stType, visibility := sym.visibility)
  }

  function MergeDefinition(e: Option<Resolution>, obj: nat, sym: InputSymbol, next: nat): Result<Merged> {
    match e
    case None => Ok(Merged(Bound(UNDEFINED, obj, sym).(id := next, isIfunc := sym.isIfunc), true))
    case Some(r) =>
      if r.common.Some? then Ok(Merged(Bound(r, obj, sym).(common := None), false))
      else
        match ConflictAction(r, obj, sym)
        case Duplicate(a, b) => Duplicate(a, b)
        case Ok(SatisfyUndef) => Ok(Merged(Bound(r, obj, sym).(id := next, isIfunc := sym.isIfunc), true))
        case Ok(Upgrade) => Ok(Merged(Bound(r, obj, sym).(isIfunc := sym.isIfunc), false))
        case Ok(KeepExisting) => Ok(Merged(r, false))
  }

  /** A common symbol's value field holds its alignment. */
  function AlignOf(sym: InputSymbol): nat { Max(sym.value, 1) }

  function MergeCommon(e: Option<Resolution>, obj: nat, sym: InputSymbol, next: nat): Merged {
    match e
    case None =>
      Merged(UNDEFINED.(id := next, binding := sym.binding, definedIn := Some(obj), size := sym.size,
                        common := Some((sym.size, AlignOf(sym)))), true)
    case Some(r) =>
      if r.common.Some? then
        var (size, align) := r.common.value;
        Merged(r.(common := Some((Max(sym.size, size), Max(AlignOf(sym), align))), size := Max(sym.size, size)), false)
      else if r.definedIn.Some? then Merged(r, false)
      else
        Merged(r.(id := next, binding := sym.binding, definedIn := Some(obj), section := None, size := sym.size,
                  common := Some((sym.size, AlignOf(sym)))), true)
  }

  function MergeUndefined(e: Option<Resolution>, sym: InputSymbol): Resolution {
    match e
    case None => UNDEFINED.(binding := sym.binding)
    case Some(r) => if r.definedIn.None? && sym.binding == Global then r.(binding := Global) else r
  }

  function MergeEntry(e: Option<Resolution>, obj: nat, sym: InputSymbol, next: nat): Result<Merged> {
    if sym.isUndefined then Ok(Merged(MergeUndefined(e, sym), false))
    else if sym.isCommon then Ok(MergeCommon(e, obj, sym, next))
    else MergeDefinition(e, obj, sym, next)
  }

  // ── What a sequence of symbols of one name means ─────────────────────────

  /** A symbol that reaches the table: not local, with its object. */
  datatype Sym = Sym(obj: nat, sym: InputSymbol)
  {
    predicate Visible() { sym.binding != Local }

    predicate IsStrong() { !sym.isUndefined && !sym.isCommon && sym.binding == Binding.Global }

    predicate IsWeak() { !sym.isUndefined && !sym.isCommon && sym.binding == Weak }

    predicate IsCommon() { !sym.isUndefined && sym.isCommon }
  }

  function Fold(syms: seq<Sym>): Result<Option<Resolution>> {
    if syms == [] then Ok(None)
    else
      var n := |syms| - 1;
      match Fold(syms[..n])
      case Duplicate(a, b) => Duplicate(a, b)
      case Ok(e) =>
        match MergeEntry(e, syms[n].obj, syms[n].sym, 0)
        case Duplicate(a, b) => Duplicate(a, b)
        case Ok(m) => Ok(Some(m.entry))
  }

  predicate AtMostOneStrong(syms: seq<Sym>) {
    forall i, j | 0 <= i < j < |syms| :: !(syms[i].IsStrong() && syms[j].IsStrong())
  }

  predicate FirstWeak(syms: seq<Sym>, i: nat) {
    i < |syms| && syms[i].IsWeak() && forall j | 0 <= j < i :: !syms[j].IsWeak()
  }

  /** The definition that the rules select: the strong one, else the first weak one. */
  predicate Winner(syms: seq<Sym>, i: nat) {
    i < |syms| && (syms[i].IsStrong() || (FirstWeak(syms, i) && forall j | 0 <= j < |syms| :: !syms[j].IsStrong()))
  }

  predicate Defines(e: Resolution, s: Sym) {
    && e.definedIn == Some(s.obj) && e.common.None? && e.binding == s.sym.binding
    && e.section == s.sym.section && e.value == s.sym.value && e.size == s.sym.size
    && e.stType == s.sym.stType && e.visibility == s.sym.visibility
  }

  predicate HasCommon(syms: seq<Sym>) { exists i :: 0 <= i < |syms| && syms[i].IsCommon() }

  /** The largest size and the largest alignment asked for; they may come from different symbols. */
  predicate LargestCommon(syms: seq<Sym>, size: nat, align: nat) {
    && (forall i | 0 <= i < |syms| && syms[i].IsCommon() :: syms[i].sym.size <= size && AlignOf(syms[i].sym) <= align)
    && (exists i :: 0 <= i < |syms| && syms[i].IsCommon() && syms[i].sym.size == size)
    && (exists i :: 0 <= i < |syms| && syms[i].IsCommon() && AlignOf(syms[i].sym) == align)
  }

  predicate StrongReference(syms: seq<Sym>) {
    exists i :: 0 <= i < |syms| && syms[i].sym.isUndefined && syms[i].sym.binding == Binding.Global
  }

  ghost predicate Meaning(syms: seq<Sym>, e: Option<Resolution>) {
    if exists i: nat :: Winner(syms, i) then e.Some? && forall i: nat | Winner(syms, i) :: Defines(e.value, syms[i])
    else if HasCommon(syms) then
      && e.Some? && e.value.definedIn.Some? && e.value.common.Some?
      && LargestCommon(syms, e.value.common.value.0, e.value.common.value.1) && e.value.size == e.value.common.value.0
    else if syms != [] then
      e.Some? && !e.value.IsDefined() && e.value.common.None?
          && (e.value.binding == Binding.Global <==> StrongReference(syms))
    else e.None?
  }

  /** What has been seen so far: the last strong definition, the first weak one, the largest common,
      and whether there was a strong reference. */
  datatype Summary = Summary(strong: Option<nat>, weak: Option<nat>, common: Option<(nat, nat)>, reference: bool)

  function Summarize(syms: seq<Sym>): (m: Summary)
    ensures m.strong.Some? ==> m.strong.value < |syms| && syms[m.strong.value].IsStrong()
    ensures m.weak.Some? ==> m.weak.value < |syms| && syms[m.weak.value].IsWeak()
  {
    if syms == [] then Summary(None, None, None, false)
    else
      var n := |syms| - 1;
      var m, s := Summarize(syms[..n]), syms[n];
      if s.sym.isUndefined then m.(reference := m.reference || s.sym.binding == Binding.Global)
      else if s.sym.isCommon then
        m.(common := match m.common
                     case None => Some((s.sym.size, AlignOf(s.sym)))
                     case Some((size, align)) => Some((Max(s.sym.size, size), Max(AlignOf(s.sym), align))))
      else if s.IsStrong() then m.(strong := Some(n))
      else if s.IsWeak() && m.weak.None? then m.(weak := Some(n))
      else m
  }

  predicate AllVisible(syms: seq<Sym>) { forall s | s in syms :: s.Visible() }

  predicate Reflects(syms: seq<Sym>, e: Option<Resolution>) {
    var m := Summarize(syms);
    if m.strong.Some? then e.Some? && Defines(e.value, syms[m.strong.value])
    else if m.weak.Some? then e.Some? && Defines(e.value, syms[m.weak.value])
    else if m.common.Some? then
      e.Some? && e.value.definedIn.Some? && e.value.common == m.common && e.value.size == m.common.value.0
    else if syms != [] then
      e.Some? && !e.value.IsDefined() && e.value.common.None? && (e.value.binding == Binding.Global <==> m.reference)
    else e.None?
  }

  lemma {:induction false} MergeReflects(syms: seq<Sym>, e: Option<Resolution>, s: Sym, next: nat)
    requires Reflects(syms, e) && s.Visible()
    ensures MergeEntry(e, s.obj, s.sym, next).Duplicate? <==> s.IsStrong() && Summarize(syms).strong.Some?
    ensures MergeEntry(e, s.obj, s.sym, next).Ok? ==>
              Reflects(syms + [s], Some(MergeEntry(e, s.obj, s.sym, next).value.entry))
  {
    var more := syms + [s];
    assert more[..|syms|] == syms;
  }

  lemma {:induction false} FoldReflects(syms: seq<Sym>)
    requires AllVisible(syms)
    ensures Fold(syms).Ok? ==> Reflects(syms, Fold(syms).value)
    ensures Fold(syms).Ok? <==> AtMostOneStrong(syms)
  {
    if syms != [] {
      hide MergeEntry, Reflects, Summarize;
      var n := |syms| - 1;
      assert syms == syms[..n] + [syms[n]];
      FoldReflects(syms[..n]);
      StrongSeen(syms[..n]);
      if Fold(syms[..n]).Ok? { MergeReflects(syms[..n], Fold(syms[..n]).value, syms[n], 0); }
      assert AtMostOneStrong(syms) ==> AtMostOneStrong(syms[..n]);
    } else {
      assert Reflects([], None);
    }
  }

  lemma {:induction false} StrongSeen(syms: seq<Sym>)
    ensures Summarize(syms).strong.Some? <==> exists i :: 0 <= i < |syms| && syms[i].IsStrong()
  {
    if syms != [] {
      var n := |syms| - 1;
      StrongSeen(syms[..n]);
      if i :| 0 <= i < n && syms[..n][i].IsStrong() { assert syms[i].IsStrong(); }
      if i :| 0 <= i < |syms| && syms[i].IsStrong() { if i < n { assert syms[..n][i].IsStrong(); } }
    }
  }

  lemma {:induction false} WeakSeen(syms: seq<Sym>)
    ensures Summarize(syms).weak.Some? <==> exists i :: 0 <= i < |syms| && syms[i].IsWeak()
    ensures Summarize(syms).weak.Some? ==> FirstWeak(syms, Summarize(syms).weak.value)
  {
    if syms != [] {
      var n := |syms| - 1;
      WeakSeen(syms[..n]);
      if i :| 0 <= i < n && syms[..n][i].IsWeak() { assert syms[i].IsWeak(); }
      if i :| 0 <= i < |syms| && syms[i].IsWeak() { if i < n { assert syms[..n][i].IsWeak(); } }
    }
  }

  lemma {:induction false} ReferenceSeen(syms: seq<Sym>)
    ensures Summarize(syms).reference <==> StrongReference(syms)
  {
    if syms != [] {
      var n := |syms| - 1;
      ReferenceSeen(syms[..n]);
      if StrongReference(syms[..n]) {
        var i :| 0 <= i < n && syms[..n][i].sym.isUndefined && syms[..n][i].sym.binding == Binding.Global;
        assert syms[i].sym.isUndefined;
      }
      if StrongReference(syms) {
        var i :| 0 <= i < |syms| && syms[i].sym.isUndefined && syms[i].sym.binding == Binding.Global;
        if i < n { assert syms[..n][i].sym.isUndefined; }
      }
    }
  }

  lemma {:induction false} CommonSeen(syms: seq<Sym>)
    ensures Summarize(syms).common.Some? <==> HasCommon(syms)
    ensures Summarize(syms).common.Some? ==>
            LargestCommon(syms, Summarize(syms).common.value.0, Summarize(syms).common.value.1)
  {
    if syms != [] {
      hide Max, AlignOf;
      var n := |syms| - 1;
      CommonSeen(syms[..n]);
      assert HasCommon(syms[..n]) ==> HasCommon(syms) by {
        if i :| 0 <= i < n && syms[..n][i].IsCommon() { assert syms[i].IsCommon(); }
      }
      if i :| 0 <= i < |syms| && syms[i].IsCommon() { if i < n { assert syms[..n][i].IsCommon(); } }
      if HasCommon(syms) { CommonGrows(syms); }
    }
  }

  lemma {:induction false} CommonGrows(syms: seq<Sym>)
    requires syms != [] && HasCommon(syms)
    requires var m := Summarize(syms[..|syms| - 1]);
             (m.common.Some? <==> HasCommon(syms[..|syms| - 1]))
             && (m.common.Some? ==> LargestCommon(syms[..|syms| - 1], m.common.value.0, m.common.value.1))
    ensures Summarize(syms).common.Some?
    ensures LargestCommon(syms, Summarize(syms).common.value.0, Summarize(syms).common.value.1)
  {
    hide AlignOf;
    var n := |syms| - 1;
    var m, now, before := Summarize(syms[..n]), Summarize(syms), syms[..n];
    if i :| 0 <= i < |syms| && syms[i].IsCommon() { if i < n { assert before[i].IsCommon(); } }
    forall i | 0 <= i < |syms| && syms[i].IsCommon()
      ensures syms[i].sym.size <= now.common.value.0 && AlignOf(syms[i].sym) <= now.common.value.1
    {
      if i < n { assert before[i].IsCommon(); }
    }
    if m.common.Some? {
      var i :| 0 <= i < n && before[i].IsCommon() && before[i].sym.size == m.common.value.0;
      var j :| 0 <= j < n && before[j].IsCommon() && AlignOf(before[j].sym) == m.common.value.1;
      assert syms[i].IsCommon() && syms[j].IsCommon();
      assert syms[n].IsCommon() ==>
               now.common
               == Some((Max(syms[n].sym.size, m.common.value.0), Max(AlignOf(syms[n].sym), m.common.value.1)));
    }
  }

  /** Folding the symbols of one name fails exactly when two strong definitions occur; otherwise it
      selects the strong one, else the first weak one, else a common of the largest size and alignment,
      else an undefined entry that is strong exactly when some reference was. */
  lemma {:induction false} FoldMeaning(syms: seq<Sym>)
    requires AllVisible(syms)
    ensures Fold(syms).Ok? <==> AtMostOneStrong(syms)
    ensures Fold(syms).Ok? ==> Meaning(syms, Fold(syms).value)
  {
    hide Fold, Summarize, LargestCommon;
    FoldReflects(syms);
    if Fold(syms).Ok? {
      StrongSeen(syms);
      WeakSeen(syms);
      CommonSeen(syms);
      ReferenceSeen(syms);
      var m := Summarize(syms);
      if m.strong.Some? {
        assert Winner(syms, m.strong.value);
        forall i: nat | Winner(syms, i) ensures i == m.strong.value {}
      } else if m.weak.Some? {
        assert Winner(syms, m.weak.value);
        forall i: nat | Winner(syms, i) ensures i == m.weak.value {}
      }
    }
  }

  // ── A detail the rules do not promise ────────────────────────────────────

  /** No real definition precedes position `i`, but a common one does. */
  predicate OverCommon(syms: seq<Sym>, i: nat) {
    i <= |syms| && HasCommon(syms[..i]) && forall j | 0 <= j < i :: !syms[j].IsStrong() && !syms[j].IsWeak()
  }

  predicate IfuncKept(syms: seq<Sym>, e: Option<Resolution>) {
    var m := Summarize(syms);
    if m.strong.Some? then
      e.Some? && (e.value.isIfunc <==> syms[m.strong.value].sym.isIfunc && !OverCommon(syms, m.strong.value))
    else if m.weak.Some? then
      e.Some? && (e.value.isIfunc <==> syms[m.weak.value].sym.isIfunc && !OverCommon(syms, m.weak.value))
    else e.Some? ==> !e.value.isIfunc
  }

  lemma {:induction false} OverCommonPrefix(syms: seq<Sym>, s: Sym, i: nat)
    requires i <= |syms|
    ensures OverCommon(syms + [s], i) <==> OverCommon(syms, i)
  {
    assert (syms + [s])[..i] == syms[..i];
  }

  lemma {:induction false} MergeIfunc(syms: seq<Sym>, e: Option<Resolution>, s: Sym)
    requires Reflects(syms, e) && IfuncKept(syms, e) && s.Visible()
    requires MergeEntry(e, s.obj, s.sym, 0).Ok?
    ensures IfuncKept(syms + [s], Some(MergeEntry(e, s.obj, s.sym, 0).value.entry))
  {
    hide OverCommon;
    var more, m := syms + [s], Summarize(syms);
    assert more[..|syms|] == syms;
    if m.strong.Some? { OverCommonPrefix(syms, s, m.strong.value); }
    if m.weak.Some? { OverCommonPrefix(syms, s, m.weak.value); }
    OverCommonPrefix(syms, s, |syms|);
    OverCommonNow(syms);
  }

  lemma {:induction false} OverCommonNow(syms: seq<Sym>)
    ensures var m := Summarize(syms); OverCommon(syms, |syms|) <==> m.strong.None? && m.weak.None? && m.common.Some?
  {
    StrongSeen(syms);
    WeakSeen(syms);
    CommonSeen(syms);
    assert syms[..|syms|] == syms;
  }

  lemma {:induction false} FoldIfunc(syms: seq<Sym>)
    requires AllVisible(syms) && Fold(syms).Ok?
    ensures IfuncKept(syms, Fold(syms).value)
  {
    if syms != [] {
      hide MergeEntry, Reflects, IfuncKept, Summarize;
      var n := |syms| - 1;
      assert syms == syms[..n] + [syms[n]];
      FoldIfunc(syms[..n]);
      FoldReflects(syms[..n]);
      MergeIfunc(syms[..n], Fold(syms[..n]).value, syms[n]);
    }
  }

  /** The selected definition keeps its indirect-function flag exactly when it did not replace a
      tentative definition: overriding a common does not copy the flag. */
  lemma {:induction false} IfuncFlag(syms: seq<Sym>, i: nat)
    requires AllVisible(syms) && Fold(syms).Ok? && Winner(syms, i)
    ensures Fold(syms).value.Some?
    ensures Fold(syms).value.value.isIfunc <==> syms[i].sym.isIfunc && !OverCommon(syms, i)
  {
    hide Fold, Summarize, OverCommon;
    FoldMeaning(syms);
    FoldIfunc(syms);
    StrongSeen(syms);
    WeakSeen(syms);
    var m := Summarize(syms);
    assert m.strong.Some? ==> i == m.strong.value;
    assert m.strong.None? ==> i == m.weak.value;
  }

  /** A common followed by a strong indirect function: the flag is lost. */
  lemma {:induction false} IfuncLost(common: InputSymbol, f: InputSymbol)
    requires common.isCommon && !common.isUndefined && common.binding == Binding.Global
    requires !f.isCommon && !f.isUndefined && f.binding == Binding.Global && f.isIfunc
    ensures Fold([Sym(0, common), Sym(1, f)]).Ok? && Fold([Sym(0, common), Sym(1, f)]).value.Some?
    ensures !Fold([Sym(0, common), Sym(1, f)]).value.value.isIfunc
  {
    var syms := [Sym(0, common), Sym(1, f)];
    assert syms[..1] == [syms[0]] && [syms[0]][..0] == [];
    assert Fold(syms[..1]).Ok?;
  }

  // ── Where a common comes from ────────────────────────────────────────────

  predicate FirstCommon(syms: seq<Sym>, i: nat) {
    i < |syms| && syms[i].IsCommon() && forall j | 0 <= j < i :: !syms[j].IsCommon()
  }

  predicate NoDefinition(syms: seq<Sym>) { forall i | 0 <= i < |syms| :: !syms[i].IsStrong() && !syms[i].IsWeak() }

  /** An entry made by the common `s`, whatever its size has grown to. */
  predicate CommonOf(e: Resolution, s: Sym) {
    e.definedIn == Some(s.obj) && e.binding == s.sym.binding && e.section.None? && e.common.Some?
  }

  lemma {:induction false} StepCommon(e: Option<Resolution>, s: Sym)
    requires s.Visible() && !s.IsStrong() && !s.IsWeak() && MergeEntry(e, s.obj, s.sym, 0).Ok?
    requires e.Some? ==> (e.value.common.Some? <==> e.value.definedIn.Some?)
    ensures var m := MergeEntry(e, s.obj, s.sym, 0).value.entry;
            if e.Some? && e.value.common.Some? then
              m.definedIn == e.value.definedIn && m.binding == e.value.binding && m.section == e.value.section
              && m.common.Some?
            else if s.IsCommon() then CommonOf(m, s)
            else m.definedIn.None? && m.common.None?
  {
  }

  /** A name that nothing but commons defines belongs to the object of the first of them, with its binding. */
  lemma {:induction false} CommonOrigin(syms: seq<Sym>)
    requires AllVisible(syms) && NoDefinition(syms) && Fold(syms).Ok?
    ensures var e := Fold(syms).value;
            && (e.Some? ==> (e.value.common.Some? <==> e.value.definedIn.Some?))
            && (e.Some? && e.value.common.Some? <==> HasCommon(syms))
            && forall i: nat | FirstCommon(syms, i) :: CommonOf(e.value, syms[i])
    decreases |syms|
  {
    if syms != [] {
      var n := |syms| - 1;
      var front := syms[..n];
      assert syms[n] in syms && forall s | s in front :: s in syms;
      CommonOrigin(front);
      hide MergeEntry;
      StepCommon(Fold(front).value, syms[n]);
      assert HasCommon(syms) <==> HasCommon(front) || syms[n].IsCommon() by { CommonLonger(syms); }
      forall i: nat | FirstCommon(syms, i) ensures CommonOf(Fold(syms).value.value, syms[i]) {
        if i < n { assert FirstCommon(front, i); }
        else { assert !HasCommon(front); }
      }
    }
  }

  lemma {:induction false} CommonLonger(syms: seq<Sym>)
    requires syms != []
    ensures HasCommon(syms) <==> HasCommon(syms[..|syms| - 1]) || syms[|syms| - 1].IsCommon()
  {
    var front := syms[..|syms| - 1];
    if HasCommon(front) { var i :| 0 <= i < |front| && front[i].IsCommon(); assert syms[i].IsCommon(); }
    if HasCommon(syms) {
      var i :| 0 <= i < |syms| && syms[i].IsCommon();
      if i < |front| { assert front[i].IsCommon(); }
    }
  }
}
