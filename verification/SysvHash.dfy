/** The `.hash` section: building it, and walking it as a dynamic loader does (gABI chapter 5, "Hash
    Table"; `peony-layout/src/lib.rs:1057-1068`, `1327-1353`). */
module SysvHash {
  import opened Bytes
  import opened Objects
  import opened Tables

  /** One byte of the hash: the top nibble is folded back and cleared. */
  function HashStep(h: bv32, b: byte): bv32 {
    var sum := (h << 4) + b as bv32;
    var g := sum & 0xf000_0000;
    (if g != 0 then sum ^ (g >> 24) else sum) & !g
  }

  function HashBits(name: Name): (h: bv32)
    decreases |name|
  {
    if name == [] then 0 else HashStep(HashBits(name[..|name| - 1]), name[|name| - 1])
  }

  function HashOf(name: Name): (h: nat)
    ensures h < TWO32
  {
    HashBits(name) as nat
  }

  method ElfSysvHash(name: Name) returns (h: bv32)
    ensures h == HashBits(name)
  {
    h := 0;
    for i := 0 to |name|
      invariant h == HashBits(name[..i])
    {
      assert name[..i + 1][..i] == name[..i];
      h := HashStep(h, name[i]);
    }
    assert name[..|name|] == name;
  }

  /** A hash never uses its top four bits. */
  lemma {:induction false} TopNibbleClear(name: Name)
    ensures HashBits(name) & 0xf000_0000 == 0
  {
    if name != [] { StepClears(HashBits(name[..|name| - 1]), name[|name| - 1] as bv32); }
  }

  lemma {:induction false} StepClears(h: bv32, b: bv32)
    ensures var sum := (h << 4) + b; var g := sum & 0xf000_0000;
            ((if g != 0 then sum ^ (g >> 24) else sum) & !g) & 0xf000_0000 == 0
  {
  }

  // ── The dynamic symbols ──────────────────────────────────────────────────

  /** The `.dynsym` entries after the null one: imports, of which some are copied, then exports. */
  datatype DynSyms = DynSyms(imports: seq<Name>, copied: set<Name>, exports: seq<Name>)
  {
    function Total(): nat { 1 + |imports| + |exports| }

    function NameOf(i: nat): Name
      requires 0 < i < Total()
    {
      if i <= |imports| then imports[i - 1] else exports[i - 1 - |imports|]
    }

    /** Exports and copied imports are findable; the null symbol and plain imports are not. */
    predicate Findable(i: nat) {
      0 < i < Total() && (i <= |imports| ==> imports[i - 1] in copied)
    }

    function Bucket(i: nat, nb: nat): nat
      requires 0 < i < Total() && nb > 0
    {
      HashOf(NameOf(i)) % nb
    }

    /** The findable entries below `n` of one bucket, highest first. */
    function Listed(b: nat, nb: nat, n: nat): seq<nat>
      requires nb > 0 && n <= Total()
    {
      if n == 0 then []
      else
        var rest := Listed(b, nb, n - 1);
        if Findable(n - 1) && Bucket(n - 1, nb) == b then [n - 1] + rest else rest
    }
  }

  lemma {:induction false} ListedExactly(d: DynSyms, b: nat, nb: nat, n: nat, i: nat)
    requires nb > 0 && n <= d.Total()
    ensures i in d.Listed(b, nb, n) <==> i < n && d.Findable(i) && d.Bucket(i, nb) == b
  {
    hide d.Bucket;
    if n > 0 { ListedExactly(d, b, nb, n - 1, i); }
  }

  lemma {:induction false} ListedDescends(d: DynSyms, b: nat, nb: nat, n: nat)
    requires nb > 0 && n <= d.Total()
    ensures forall i | 0 <= i < |d.Listed(b, nb, n)| :: d.Listed(b, nb, n)[i] < n
    ensures forall i, j | 0 <= i < j < |d.Listed(b, nb, n)| :: d.Listed(b, nb, n)[i] > d.Listed(b, nb, n)[j]
  {
    hide d.Bucket, d.Findable;
    if n > 0 { ListedDescends(d, b, nb, n - 1); }
  }

  // ── Chains ───────────────────────────────────────────────────────────────

  /** Following the chain from `y` meets exactly `ys` and then ends, at 0. */
  ghost predicate Path(chain: seq<nat>, y: nat, ys: seq<nat>)
    decreases |ys|
  {
    if ys == [] then y == 0 else ys[0] == y && 0 < y < |chain| && Path(chain, chain[y], ys[1..])
  }

  ghost predicate Built(d: DynSyms, nb: nat, buckets: seq<nat>, chain: seq<nat>, n: nat) {
    && 0 < nb == |buckets| && |chain| == d.Total() && 0 < n <= d.Total()
    && (forall y | 0 < y < n :: chain[y] < y)
    && (forall b | 0 <= b < nb :: ChainOf(d, nb, buckets, chain, n, b))
  }

  /** Bucket `b` leads to its findable entries below `n`. */
  ghost predicate ChainOf(d: DynSyms, nb: nat, buckets: seq<nat>, chain: seq<nat>, n: nat, b: nat)
    requires b < nb == |buckets| && n <= d.Total()
  {
    buckets[b] < n && Path(chain, buckets[b], d.Listed(b, nb, n))
  }

  lemma {:induction false} PathBelow(chain: seq<nat>, y: nat, n: nat, v: nat, ys: seq<nat>)
    requires y < n < |chain| && (forall z | 0 < z < n :: chain[z] < z) && Path(chain, y, ys)
    ensures Path(chain[n := v], y, ys)
    decreases |ys|
  {
    if ys != [] { PathBelow(chain, chain[y], n, v, ys[1..]); }
  }

  /** Bucket `b` after entry `n` is pushed on the front of bucket `h`. */
  lemma {:induction false} PushChain(d: DynSyms, nb: nat, buckets: seq<nat>, chain: seq<nat>, n: nat, b: nat)
    requires 0 < n < d.Total() == |chain| && b < nb == |buckets| && d.Findable(n) && d.Bucket(n, nb) < nb
    requires forall y | 0 < y < n :: chain[y] < y
    requires ChainOf(d, nb, buckets, chain, n, b) && ChainOf(d, nb, buckets, chain, n, d.Bucket(n, nb))
    ensures var h := d.Bucket(n, nb); ChainOf(d, nb, buckets[h := n], chain[n := buckets[h]], n + 1, b)
  {
    hide d.Bucket, d.Findable;
    var h := d.Bucket(n, nb);
    var links := chain[n := buckets[h]];
    PathBelow(chain, buckets[b], n, buckets[h], d.Listed(b, nb, n));
    if b == h {
      assert ([n] + d.Listed(b, nb, n))[1..] == d.Listed(b, nb, n);
    }
  }

  lemma {:induction false} SkipChain(d: DynSyms, nb: nat, buckets: seq<nat>, chain: seq<nat>, n: nat, b: nat)
    requires n < d.Total() && b < nb == |buckets| && !d.Findable(n)
    requires ChainOf(d, nb, buckets, chain, n, b)
    ensures ChainOf(d, nb, buckets, chain, n + 1, b)
  {
    hide d.Bucket, d.Findable, Path;
  }

  /** Pushing entry `n` on the front of its bucket, or leaving it out. */
  lemma {:induction false} PushEntry(d: DynSyms, nb: nat, buckets: seq<nat>, chain: seq<nat>, n: nat)
    requires Built(d, nb, buckets, chain, n) && n < d.Total()
    ensures d.Findable(n) ==>
              var h := d.Bucket(n, nb); h < nb && Built(d, nb, buckets[h := n], chain[n := buckets[h]], n + 1)
    ensures !d.Findable(n) && chain[n] == 0 ==> Built(d, nb, buckets, chain, n + 1)
  {
    hide d.Bucket, d.Findable;
    var next := n + 1;
    if d.Findable(n) {
      var h := d.Bucket(n, nb);
      BucketInRange(d, n, nb);
      assert ChainOf(d, nb, buckets, chain, n, h);
      var heads, links := buckets[h := n], chain[n := buckets[h]];
      forall b | 0 <= b < nb
        ensures ChainOf(d, nb, heads, links, next, b)
      {
        assert ChainOf(d, nb, buckets, chain, n, b);
        PushChain(d, nb, buckets, chain, n, b);
      }
      assert buckets[h] < n by { hide Path; }
      hide ChainOf, Path;
    } else {
      forall b | 0 <= b < nb
        ensures ChainOf(d, nb, buckets, chain, next, b)
      {
        assert ChainOf(d, nb, buckets, chain, n, b);
        SkipChain(d, nb, buckets, chain, n, b);
      }
      hide ChainOf;
    }
  }

  lemma {:induction false} BucketInRange(d: DynSyms, i: nat, nb: nat)
    requires 0 < i < d.Total() && nb > 0
    ensures d.Bucket(i, nb) < nb
  {
    hide HashOf;
  }

  // ── The section ──────────────────────────────────────────────────────────

  /** The standard lookup from `y` on, `while y != 0: visit y; y = chain[y]`, visits `ys` and ends. Of a
      chain that runs on forever no list is the visit. */
  ghost predicate Visits(blob: seq<byte>, y: nat, ys: seq<nat>)
    decreases |ys|
  {
    if ys == [] then y == 0 else y != 0 && ys[0] == y && Visits(blob, NextOf(blob, y), ys[1..])
  }

  /** The first entry of bucket `b`. */
  function HeadOf(blob: seq<byte>, b: nat): nat { Field(blob, 4 * (2 + b), 4) }

  /** A lookup visits one list only. */
  lemma {:induction false} OneVisit(blob: seq<byte>, y: nat, xs: seq<nat>, ys: seq<nat>)
    requires Visits(blob, y, xs) && Visits(blob, y, ys)
    ensures xs == ys
    decreases |xs|
  {
    hide NextOf;
    if xs != [] {
      OneVisit(blob, NextOf(blob, y), xs[1..], ys[1..]);
      assert xs == [xs[0]] + xs[1..] && ys == [ys[0]] + ys[1..];
    }
  }

  /** The chain word of `y`, after the header and the buckets. */
  function NextOf(blob: seq<byte>, y: nat): nat { Field(blob, 4 * (2 + Field(blob, 0, 4) + y), 4) }

  predicate Serialized(blob: seq<byte>, nb: nat, buckets: seq<nat>, chain: seq<nat>) {
    && |chain| < TWO32 && |buckets| == nb < TWO32
    && blob == Words([nb, |chain|] + buckets + chain)
  }

  lemma {:induction false} HeaderReads(blob: seq<byte>, nb: nat, buckets: seq<nat>, chain: seq<nat>)
    requires Serialized(blob, nb, buckets, chain)
    ensures Field(blob, 0, 4) == nb
  {
    hide Words, Field;
    WordAt([nb, |chain|] + buckets + chain, 0);
  }

  lemma {:induction false} BucketReads(blob: seq<byte>, nb: nat, buckets: seq<nat>, chain: seq<nat>, b: nat)
    requires Serialized(blob, nb, buckets, chain) && b < nb && buckets[b] < TWO32
    ensures Field(blob, 4 * (2 + b), 4) == buckets[b]
  {
    hide Words, Field;
    var ws := [nb, |chain|] + buckets + chain;
    assert ws[2 + b] == buckets[b];
    WordAt(ws, 2 + b);
  }

  lemma {:induction false} ChainReads(blob: seq<byte>, nb: nat, buckets: seq<nat>, chain: seq<nat>, y: nat)
    requires Serialized(blob, nb, buckets, chain) && y < |chain| && chain[y] < TWO32
    ensures NextOf(blob, y) == chain[y]
  {
    hide Words, Field;
    HeaderReads(blob, nb, buckets, chain);
    var ws := [nb, |chain|] + buckets + chain;
    assert ws[2 + nb + y] == chain[y];
    WordAt(ws, 2 + nb + y);
  }

  /** Visiting the bytes is following the tables. */
  lemma {:induction false} LoaderReads(blob: seq<byte>, nb: nat, buckets: seq<nat>, chain: seq<nat>, y: nat,
          ys: seq<nat>)
    requires Serialized(blob, nb, buckets, chain) && (forall i | 0 <= i < |chain| :: chain[i] < TWO32)
    requires Path(chain, y, ys)
    ensures Visits(blob, y, ys)
    decreases |ys|
  {
    hide Words, Field, NextOf;
    if ys != [] {
      ChainReads(blob, nb, buckets, chain, y);
      hide Serialized;
      LoaderReads(blob, nb, buckets, chain, chain[y], ys[1..]);
    }
  }

  lemma {:induction false} NothingHashed(d: DynSyms, nb: nat, buckets: seq<nat>, chain: seq<nat>)
    requires 0 < nb == |buckets| && |chain| == d.Total()
    requires forall b | 0 <= b < nb :: buckets[b] == 0
    ensures Built(d, nb, buckets, chain, 1)
  {
    forall b | 0 <= b < nb
      ensures ChainOf(d, nb, buckets, chain, 1, b)
    {
      assert d.Listed(b, nb, 0) == [] && !d.Findable(0);
    }
  }

  lemma {:induction false} SkipPlain(d: DynSyms, nb: nat, buckets: seq<nat>, chain: seq<nat>, n: nat, m: nat)
    requires Built(d, nb, buckets, chain, n) && n <= m <= d.Total()
    requires forall i | n <= i < m :: !d.Findable(i)
    requires forall y | n <= y < |chain| :: chain[y] == 0
    ensures Built(d, nb, buckets, chain, m)
    decreases m - n
  {
    hide d.Findable, Built;
    if n < m {
      BuiltSizes(d, nb, buckets, chain, n);
      PushEntry(d, nb, buckets, chain, n);
      SkipPlain(d, nb, buckets, chain, n + 1, m);
    }
  }

  lemma {:induction false} BuiltSizes(d: DynSyms, nb: nat, buckets: seq<nat>, chain: seq<nat>, n: nat)
    requires Built(d, nb, buckets, chain, n)
    ensures |chain| == d.Total()
  {
  }

  /** In the section every chain word leads to a lower entry, and bucket `b` to exactly the findable
      entries that hash there. */
  ghost predicate Lookups(d: DynSyms, nb: nat, blob: seq<byte>) {
    && nb > 0 && Field(blob, 0, 4) == nb && |blob| == 4 * (2 + nb + d.Total())
    && (forall y: nat | 0 < y < d.Total() :: NextOf(blob, y) < y)
    && (forall b: nat | b < nb ::
         HeadOf(blob, b) < d.Total() && Visits(blob, HeadOf(blob, b), d.Listed(b, nb, d.Total())))
  }

  /** The finished tables, serialized, are visited as built. */
  lemma {:induction false} SectionReads(d: DynSyms, nb: nat, buckets: seq<nat>, chain: seq<nat>)
    requires Built(d, nb, buckets, chain, d.Total()) && d.Total() < TWO32 && nb < TWO32
    requires chain[0] == 0
    ensures Lookups(d, nb, Words([nb, d.Total()] + buckets + chain))
  {
    hide Words, Field, d.Listed, Path, Visits;
    var blob := Words([nb, d.Total()] + buckets + chain);
    HeaderReads(blob, nb, buckets, chain);
    forall y: nat | 0 < y < d.Total()
      ensures NextOf(blob, y) < y
    {
      ChainReads(blob, nb, buckets, chain, y);
    }
    forall b: nat | b < nb
      ensures HeadOf(blob, b) < d.Total() && Visits(blob, HeadOf(blob, b), d.Listed(b, nb, d.Total()))
    {
      assert ChainOf(d, nb, buckets, chain, d.Total(), b);
      BucketReads(blob, nb, buckets, chain, b);
      LoaderReads(blob, nb, buckets, chain, buckets[b], d.Listed(b, nb, d.Total()));
    }
  }

  /** Copied imports first, then exports, each pushed on the front of its bucket. */
  method BuildHash(d: DynSyms) returns (blob: seq<byte>, nb: nat)
    requires d.Total() < TWO32
    ensures nb > 0 && Field(blob, 0, 4) == nb && |blob| == 4 * (2 + nb + d.Total())
    ensures forall y: nat | 0 < y < d.Total() :: NextOf(blob, y) < y
    ensures forall b: nat | b < nb :: HeadOf(blob, b) < d.Total() && Finds(d, nb, blob, b)
  {
    hide d.Findable, NextOf, HeadOf, d.Bucket, d.Listed, Path, Words, Field, HashBits, Visits, Finds, ChainOf, Built,
         Lookups;
    var copies := CopyImportIndices(d);
    nb := Max(|copies| + |d.exports|, 1);
    var buckets := new nat[nb](i => 0);
    var chain := new nat[d.Total()](i => 0);
    NothingHashed(d, nb, buckets[..], chain[..]);
    ghost var n := 1;
    assert copies[0..] == copies;
    for k := 0 to |copies|
      invariant 0 < n <= 1 + |d.imports|
      invariant Built(d, nb, buckets[..], chain[..], n)
      invariant forall i: nat | n <= i <= |d.imports| && d.Findable(i) :: i in copies[k..]
      invariant forall j | k <= j < |copies| :: copies[j] >= n
      invariant chain[0] == 0 && forall y | n <= y < chain.Length :: chain[y] == 0
    {
      var sym := copies[k];
      assert sym in copies;
      assert copies[k..] == [sym] + copies[k + 1..];
      SkipPlain(d, nb, buckets[..], chain[..], n, sym);
      InsertEntry(d, nb, buckets, chain, sym);
      n := sym + 1;
    }
    assert copies[|copies|..] == [];
    var importBase := 1 + |d.imports|;
    SkipPlain(d, nb, buckets[..], chain[..], n, importBase);
    for i := 0 to |d.exports|
      invariant Built(d, nb, buckets[..], chain[..], importBase + i)
      invariant chain[0] == 0 && forall y | importBase + i <= y < chain.Length :: chain[y] == 0
    {
      ExportIsFindable(d, i);
      InsertEntry(d, nb, buckets, chain, importBase + i);
    }
    SectionReads(d, nb, buckets[..], chain[..]);
    blob := Serialize(buckets, chain);
    ListedMeaning(d, nb, blob);
  }

  lemma {:induction false} ExportIsFindable(d: DynSyms, i: nat)
    requires i < |d.exports|
    ensures d.Findable(1 + |d.imports| + i)
  {
  }

  predicate Descends(ys: seq<nat>) { forall i, j | 0 <= i < j < |ys| :: ys[i] > ys[j] }

  /** The lookup in bucket `b` ends, after visiting exactly the findable entries that hash to it, each
      once. */
  ghost predicate Finds(d: DynSyms, nb: nat, blob: seq<byte>, b: nat)
    requires nb > 0
  {
    exists ys :: Visits(blob, HeadOf(blob, b), ys) && Descends(ys)
                 && forall i: nat :: i in ys <==> d.Findable(i) && d.Bucket(i, nb) == b
  }

  lemma {:induction false} ListedMeaning(d: DynSyms, nb: nat, blob: seq<byte>)
    requires Lookups(d, nb, blob)
    ensures nb > 0 && Field(blob, 0, 4) == nb && |blob| == 4 * (2 + nb + d.Total())
    ensures forall y: nat | 0 < y < d.Total() :: NextOf(blob, y) < y
    ensures forall b: nat | b < nb :: HeadOf(blob, b) < d.Total() && Finds(d, nb, blob, b)
  {
    hide d.Listed, d.Bucket, Visits, NextOf, HeadOf;
    forall b: nat | b < nb
      ensures Finds(d, nb, blob, b)
    {
      forall i: nat ensures i in d.Listed(b, nb, d.Total()) <==> d.Findable(i) && d.Bucket(i, nb) == b {
        FindableBelow(d, i);
        ListedExactly(d, b, nb, d.Total(), i);
      }
      ListedDescends(d, b, nb, d.Total());
      assert Visits(blob, HeadOf(blob, b), d.Listed(b, nb, d.Total()));
    }
  }

  lemma {:induction false} FindableBelow(d: DynSyms, i: nat)
    ensures d.Findable(i) ==> i < d.Total()
  {
  }

  /** Looking a name up in its own bucket meets an entry of that name exactly when one is exported or
      copied. */
  lemma {:induction false} LookupFindsName(d: DynSyms, nb: nat, blob: seq<byte>, name: Name, ys: seq<nat>)
    requires nb > 0 && Finds(d, nb, blob, HashOf(name) % nb)
    requires Visits(blob, HeadOf(blob, HashOf(name) % nb), ys)
    ensures forall y | y in ys :: d.Findable(y)
    ensures (exists y :: y in ys && d.Findable(y) && d.NameOf(y) == name) <==>
            (exists i :: d.Findable(i) && d.NameOf(i) == name)
  {
    hide HashOf, Visits, HeadOf, Descends;
    var zs :| Visits(blob, HeadOf(blob, HashOf(name) % nb), zs) && Descends(zs)
              && forall i: nat :: i in zs <==> d.Findable(i) && d.Bucket(i, nb) == HashOf(name) % nb;
    OneVisit(blob, HeadOf(blob, HashOf(name) % nb), ys, zs);
    if i :| d.Findable(i) && d.NameOf(i) == name { assert d.Bucket(i, nb) == HashOf(name) % nb && i in zs; }
  }

  method Serialize(buckets: array<nat>, chain: array<nat>) returns (blob: seq<byte>)
    ensures blob == Words([buckets.Length, chain.Length] + buckets[..] + chain[..])
  {
    assert Words([]) == [];
    hide Words, Le;
    var header := [buckets.Length, chain.Length];
    blob := WordsOf([], [], header);
    assert [] + header == header;
    blob := WordsOf(blob, header, buckets[..]);
    blob := WordsOf(blob, header + buckets[..], chain[..]);
  }

  /** Pushes entry `sym` on the front of its bucket. */
  method InsertEntry(d: DynSyms, nb: nat, buckets: array<nat>, chain: array<nat>, sym: nat)
    requires buckets != chain && Built(d, nb, buckets[..], chain[..], sym) && d.Findable(sym)
    modifies buckets, chain
    ensures Built(d, nb, buckets[..], chain[..], sym + 1)
    ensures forall y | 0 <= y < chain.Length && y != sym :: chain[y] == old(chain[y])
  {
    hide d.Listed, Path, HashBits, ChainOf;
    PushEntry(d, nb, buckets[..], chain[..], sym);
    var bits := ElfSysvHash(d.NameOf(sym));
    var h := bits as nat % nb;
    ghost var was: seq<nat>, wasChain: seq<nat> := buckets[..], chain[..];
    chain[sym] := buckets[h];
    buckets[h] := sym;
    hide Built;
    assert buckets[..] == was[h := sym] && chain[..] == wasChain[sym := was[h]];
  }

  /** Appends words to a table that holds `done` so far. */
  method WordsOf(blob: seq<byte>, ghost done: seq<nat>, more: seq<nat>) returns (r: seq<byte>)
    requires blob == Words(done)
    ensures r == Words(done + more)
  {
    hide Words, Le;
    r := blob;
    assert done + more[..0] == done;
    for i := 0 to |more|
      invariant r == Words(done + more[..i])
    {
      WordsPush(done + more[..i], more[i]);
      assert done + more[..i + 1] == done + more[..i] + [more[i]];
      r := r + Le(more[i], 4);
    }
    assert more[..|more|] == more;
  }

  /** The positions of the copied imports, ascending. */
  method CopyImportIndices(d: DynSyms) returns (copies: seq<nat>)
    ensures forall i: nat :: i in copies <==> i <= |d.imports| && d.Findable(i)
    ensures forall i, j | 0 <= i < j < |copies| :: copies[i] < copies[j]
    ensures |copies| <= |d.imports| && forall k | 0 <= k < |copies| :: copies[k] > 0
  {
    copies := [];
    for i := 0 to |d.imports|
      invariant forall k: nat :: k in copies <==> k <= i && d.Findable(k)
      invariant forall k, j | 0 <= k < j < |copies| :: copies[k] < copies[j]
      invariant |copies| <= i && forall k | 0 <= k < |copies| :: 0 < copies[k] <= i
    {
      assert d.Findable(i + 1) <==> d.imports[i] in d.copied;
      if d.imports[i] in d.copied { copies := copies + [i + 1]; }
    }
  }
}
