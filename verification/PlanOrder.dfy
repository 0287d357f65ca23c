/** The order of the builders within each segment: by name, by the linker script, RELRO and `.tbss` first
    (`peony-layout/src/lib.rs:1552-1555`, `1845-1852`, `1966-1987`, `3723-3734`). */
module PlanOrder {
  import opened Bytes
  import opened Objects
  import opened Grouping
  import opened Placement

  predicate ByName(a: Builder, b: Builder) { NameLess(a.name, b.name) }

  /** `order_of`: the place of a name in the linker script, if it is listed. */
  type Script = Name -> Option<nat>

  predicate ScriptLess(script: Script, a: Builder, b: Builder) {
    match (script(a.name), script(b.name))
    case (Some(i), Some(j)) => i < j || (i == j && ByName(a, b))
    case (Some(_), None) => true
    case (None, Some(_)) => false
    case (None, None) => ByName(a, b)
  }

  predicate TbssFirst(a: Builder, b: Builder) { a.kind == Tbss && b.kind != Tbss }

  /** One bucket sorted by name, then the synthetic builders, then the script order. */
  function Arranged(script: Script, grouped: seq<Builder>, synthetic: seq<Builder>): seq<Builder> {
    SortBy((a, b) => ScriptLess(script, a, b), SortBy(ByName, grouped) + synthetic)
  }

  lemma {:induction false} ArrangedKeeps(script: Script, grouped: seq<Builder>, synthetic: seq<Builder>)
    ensures multiset(Arranged(script, grouped, synthetic)) == multiset(grouped) + multiset(synthetic)
  {
    hide SortBy, ScriptLess;
    SortByKeeps(ByName, grouped);
    SortByKeeps((a, b) => ScriptLess(script, a, b), SortBy(ByName, grouped) + synthetic);
  }

  // ── What sorting by an order gives ───────────────────────────────────────

  /** A strict order in which "neither is less" is transitive. */
  ghost predicate StrictWeak(less: Order) {
    && (forall a, b | less(a, b) :: !less(b, a))
    && (forall a, b, c | less(a, b) :: less(a, c) || less(c, b))
  }

  /** Nothing is less than what it follows; where `major` does not tell two apart, nor is it under `minor`. */
  predicate SortedUnder(major: Order, minor: Order, s: seq<Builder>) {
    forall i, j | 0 <= i < j < |s| ::
      !major(s[j], s[i]) && (major(s[i], s[j]) || !minor(s[j], s[i]))
  }

  predicate NoneBelow(less: Order, b: Builder, s: seq<Builder>) { forall i | 0 <= i < |s| :: !less(b, s[i]) }

  predicate InOrderOf(less: Order, s: seq<Builder>) { forall i, j | 0 <= i < j < |s| :: !less(s[j], s[i]) }

  lemma {:induction false} InsertSorted(major: Order, minor: Order, b: Builder, s: seq<Builder>)
    requires StrictWeak(major) && SortedUnder(major, minor, s) && NoneBelow(minor, b, s)
    ensures SortedUnder(major, minor, InsertBy(major, b, s))
    ensures forall x :: x in InsertBy(major, b, s) <==> x == b || x in s
    decreases |s|
  {
    if s == [] {
    } else if major(b, s[0]) {
      forall j | 0 <= j < |s| ensures major(b, s[j]) && !major(s[j], b) {
        if j > 0 { assert !major(s[j], s[0]); }
      }
      assert forall x :: x in [b] + s <==> x == b || x in s;
    } else {
      InsertSorted(major, minor, b, s[1..]);
      var t := InsertBy(major, b, s[1..]);
      assert forall j | 0 <= j < |t| :: t[j] in t;
      hide StrictWeak;
      forall j | 0 <= j < |t| ensures !major(t[j], s[0]) && (major(s[0], t[j]) || !minor(t[j], s[0])) {
        if t[j] != b {
          var k :| 0 <= k < |s[1..]| && s[1..][k] == t[j];
          assert s[k + 1] == t[j];
        }
      }
      assert forall x :: x in s <==> x == s[0] || x in s[1..];
    }
  }

  /** Sorting is stable: a sequence in the order of `minor` keeps it where `major` does not decide. */
  lemma {:induction false} SortBySorts(major: Order, minor: Order, s: seq<Builder>)
    requires StrictWeak(major) && InOrderOf(minor, s)
    ensures SortedUnder(major, minor, SortBy(major, s))
    ensures forall x :: x in SortBy(major, s) <==> x in s
    decreases |s|
  {
    hide StrictWeak, InsertBy, SortedUnder;
    if s == [] {
      NothingSorted(major, minor);
    } else {
      var front, b := s[..|s| - 1], s[|s| - 1];
      SortBySorts(major, minor, front);
      assert NoneBelow(minor, b, SortBy(major, front)) by {
        forall i | 0 <= i < |SortBy(major, front)| ensures !minor(b, SortBy(major, front)[i]) {
          assert SortBy(major, front)[i] in front;
          var k :| 0 <= k < |front| && front[k] == SortBy(major, front)[i];
        }
      }
      InsertSorted(major, minor, b, SortBy(major, front));
      assert forall x :: x in s <==> x == b || x in front;
    }
  }

  lemma {:induction false} NothingSorted(major: Order, minor: Order)
    ensures SortedUnder(major, minor, [])
  {
  }

  // ── The orders ───────────────────────────────────────────────────────────

  /** One name comes before another in dictionary order: a proper prefix, or the smaller byte at the first
      difference. */
  ghost predicate ComesBefore(a: Name, b: Name) { exists k: nat :: FirstDifference(a, b, k) }

  predicate FirstDifference(a: Name, b: Name, k: nat) {
    k <= |a| && k < |b| && a[..k] == b[..k] && (k == |a| || a[k] < b[k])
  }

  lemma {:induction false} SameFirst(a: Name, b: Name, k: nat)
    ensures FirstDifference(a, b, k) && k > 0 ==> a[0] == b[0]
  {
    if FirstDifference(a, b, k) && k > 0 { assert a[..k][0] == b[..k][0]; }
  }

  lemma {:induction false} NameLessExactly(a: Name, b: Name)
    ensures NameLess(a, b) <==> ComesBefore(a, b)
    decreases |a|
  {
    if b != [] && a != [] {
      NameLessExactly(a[1..], b[1..]);
      if a[0] == b[0] {
        if k: nat :| FirstDifference(a[1..], b[1..], k) {
          assert a[..k + 1] == [a[0]] + a[1..][..k] && b[..k + 1] == [b[0]] + b[1..][..k];
          assert FirstDifference(a, b, k + 1);
        }
        if k: nat :| FirstDifference(a, b, k) {
          assert k > 0;
          assert a[1..][..k - 1] == a[..k][1..] && b[1..][..k - 1] == b[..k][1..];
          assert FirstDifference(a[1..], b[1..], k - 1);
        }
      } else {
        if a[0] < b[0] { assert FirstDifference(a, b, 0); }
        if k: nat :| FirstDifference(a, b, k) { SameFirst(a, b, k); }
      }
    } else if b != [] {
      assert FirstDifference(a, b, 0);
    }
  }

  lemma {:induction false} NameLessWeak(a: Name, b: Name, c: Name)
    requires NameLess(a, b)
    ensures !NameLess(b, a) && (NameLess(a, c) || NameLess(c, b))
    decreases |a|
  {
    if a != [] && a[0] == b[0] {
      if c != [] && c[0] == a[0] { NameLessWeak(a[1..], b[1..], c[1..]); }
      else { NameLessWeak(a[1..], b[1..], []); }
    }
  }

  /** Two names that neither precedes the other are one. */
  lemma {:induction false} NamesApart(a: Name, b: Name)
    ensures NameLess(a, b) || NameLess(b, a) || a == b
    decreases |a|
  {
    if a != [] && b != [] && a[0] == b[0] {
      NamesApart(a[1..], b[1..]);
      assert a == [a[0]] + a[1..] && b == [b[0]] + b[1..];
    }
  }

  ghost predicate ScriptPair(script: Script, a: Name, b: Name) {
    && (script(b).Some? ==> script(a).Some? && script(a).value <= script(b).value)
    && (script(a) == script(b) ==> !ComesBefore(b, a))
  }

  /** Sections that the script lists come first, as it lists them; all others, and those of one place, by name. */
  ghost predicate InScriptOrder(script: Script, s: seq<Builder>) {
    forall i, j | 0 <= i < j < |s| :: ScriptPair(script, s[i].name, s[j].name)
  }

  ghost predicate WritablePair(a: Builder, b: Builder) {
    && (IsRelro(b.name) ==> IsRelro(a.name))
    && (IsRelro(a.name) == IsRelro(b.name) ==> !ComesBefore(b.name, a.name))
    && (a.name == b.name && a.kind == Tdata ==> b.kind == Tdata)
  }

  /** RELRO sections first, then by name, and of one name `.tdata` last: the script has no say here. */
  ghost predicate InWritableOrder(s: seq<Builder>) {
    forall i, j | 0 <= i < j < |s| :: WritablePair(s[i], s[j])
  }

  ghost predicate ZeroedPair(script: Script, a: Builder, b: Builder) {
    && (b.kind == Tbss ==> a.kind == Tbss)
    && ((a.kind == Tbss <==> b.kind == Tbss) ==> ScriptPair(script, a.name, b.name))
  }

  /** `.tbss` first, and then in script order. */
  ghost predicate InZeroedOrder(script: Script, s: seq<Builder>) {
    forall i, j | 0 <= i < j < |s| :: ZeroedPair(script, s[i], s[j])
  }

  lemma {:induction false} OrdersAreWeak(script: Script)
    ensures StrictWeak(ByName) && StrictWeak(TbssFirst) && StrictWeak((a, b) => ScriptLess(script, a, b))
  {
    hide NameLess;
    forall a: Builder, b: Builder | NameLess(a.name, b.name) ensures !NameLess(b.name, a.name) {
      NameLessWeak(a.name, b.name, []);
    }
    forall a: Builder, b: Builder, c: Builder | NameLess(a.name, b.name)
      ensures NameLess(a.name, c.name) || NameLess(c.name, b.name)
    {
      NameLessWeak(a.name, b.name, c.name);
    }
  }

  lemma {:induction false} PrecedesIsWeak()
    ensures StrictWeak(Precedes)
  {
    hide NameLess, IsRelro;
    forall a: Builder, b: Builder | NameLess(a.name, b.name) ensures !NameLess(b.name, a.name) {
      NameLessWeak(a.name, b.name, []);
    }
    forall a: Builder, b: Builder, c: Builder | NameLess(a.name, b.name)
      ensures NameLess(a.name, c.name) || NameLess(c.name, b.name)
    {
      NameLessWeak(a.name, b.name, c.name);
    }
    forall a: Builder, c: Builder ensures NameLess(a.name, c.name) || NameLess(c.name, a.name) || a.name == c.name {
      NamesApart(a.name, c.name);
    }
  }

  lemma {:induction false} AlwaysInOrder(s: seq<Builder>)
    ensures InOrderOf((a, b) => false, s)
  {
  }

  lemma {:induction false} ScriptPairOf(script: Script, a: Builder, b: Builder)
    requires !ScriptLess(script, b, a)
    ensures ScriptPair(script, a.name, b.name)
  {
    hide NameLess;
    NameLessExactly(b.name, a.name);
  }

  /** What the read-only and executable sections are sorted by. */
  lemma {:induction false} ArrangedInOrder(script: Script, grouped: seq<Builder>, synthetic: seq<Builder>)
    ensures InScriptOrder(script, Arranged(script, grouped, synthetic))
    ensures InOrderOf((a, b) => ScriptLess(script, a, b), Arranged(script, grouped, synthetic))
  {
    hide StrictWeak, ScriptLess, SortBy, ScriptPair;
    var less: Order := (a, b) => ScriptLess(script, a, b);
    var s := SortBy(ByName, grouped) + synthetic;
    OrdersAreWeak(script);
    AlwaysInOrder(s);
    SortBySorts(less, (a, b) => false, s);
    var t := SortBy(less, s);
    assert t == Arranged(script, grouped, synthetic);
    forall i, j | 0 <= i < j < |t| ensures ScriptPair(script, t[i].name, t[j].name) && !less(t[j], t[i]) {
      assert !less(t[j], t[i]);
      ScriptPairOf(script, t[i], t[j]);
    }
  }

  /** And the writable ones. */
  lemma {:induction false} WritableInOrder(s: seq<Builder>)
    ensures InWritableOrder(SortBy(Precedes, s))
  {
    hide StrictWeak, SortBy, WritablePair, Precedes;
    PrecedesIsWeak();
    AlwaysInOrder(s);
    SortBySorts(Precedes, (a, b) => false, s);
    var t := SortBy(Precedes, s);
    forall i, j | 0 <= i < j < |t| ensures WritablePair(t[i], t[j]) {
      assert !Precedes(t[j], t[i]);
      WritablePairOf(t[i], t[j]);
    }
  }

  lemma {:induction false} WritablePairOf(a: Builder, b: Builder)
    requires !Precedes(b, a)
    ensures WritablePair(a, b)
  {
    hide NameLess, IsRelro;
    NameLessExactly(b.name, a.name);
  }

  /** And those without file contents: stably, `.tbss` first. */
  lemma {:induction false} ZeroedInOrder(script: Script, s: seq<Builder>)
    requires InOrderOf((a, b) => ScriptLess(script, a, b), s)
    ensures InZeroedOrder(script, SortBy(TbssFirst, s))
  {
    hide StrictWeak, SortBy, ZeroedPair, TbssFirst, ScriptLess;
    OrdersAreWeak(script);
    var less: Order := (a, b) => ScriptLess(script, a, b);
    SortBySorts(TbssFirst, less, s);
    var t := SortBy(TbssFirst, s);
    forall i, j | 0 <= i < j < |t| ensures ZeroedPair(script, t[i], t[j]) {
      assert !TbssFirst(t[j], t[i]);
      ZeroedPairOf(script, t[i], t[j]);
    }
  }

  lemma {:induction false} ZeroedPairOf(script: Script, a: Builder, b: Builder)
    requires !TbssFirst(b, a) && (TbssFirst(a, b) || !ScriptLess(script, b, a))
    ensures ZeroedPair(script, a, b)
  {
    hide ScriptPair, ScriptLess;
    if !TbssFirst(a, b) { ScriptPairOf(script, a, b); }
  }
}
