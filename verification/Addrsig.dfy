/** The `.llvm_addrsig` table: ULEB128 symbol indices, decoded in full or not at all
    (`peony-layout/src/icf.rs:99-163`). */
module Addrsig {
  import opened Bytes
  import opened Objects

  const SHT_LLVM_ADDRSIG := 0x6fff_4c03

  datatype Decoded = Decoded(value: nat, next: nat)

  function Pow128(n: nat): (p: nat)
    ensures p > 0
  {
    if n == 0 then 1 else 128 * Pow128(n - 1)
  }

  /** Unsigned LEB128: seven bits a byte, least significant first, the top bit set on all but the last. */
  function Uleb(x: nat): (s: seq<byte>)
    ensures s != []
  {
    if x < 128 then [x] else [128 + x % 128] + Uleb(x / 128)
  }

  /** The digit in byte `n` of a number, shifted in 64-bit arithmetic. */
  function Digit(b: byte, n: nat): nat { (b % 128 * Pow128(n)) % TWO64 }

  /** Decoding from byte `n` of a number on, with `acc` read so far; no number has more than ten bytes. */
  function Decode(data: seq<byte>, pos: nat, n: nat, acc: nat): (r: Option<Decoded>)
    ensures r.Some? ==> pos < r.value.next <= |data|
    decreases |data| - pos
  {
    if pos >= |data| then None
    else if data[pos] < 128 then Some(Decoded(acc + Digit(data[pos], n), pos + 1))
    else if n + 1 >= 10 then None
    else Decode(data, pos + 1, n + 1, acc + Digit(data[pos], n))
  }

  method ReadUleb128(data: seq<byte>, start: nat) returns (r: Option<nat>, pos: nat)
    ensures r.Some? <==> Decode(data, start, 0, 0).Some?
    ensures r.Some? ==> Decode(data, start, 0, 0) == Some(Decoded(r.value, pos)) && start < pos <= |data|
  {
    hide Digit;
    var result: nat, n: nat := 0, 0;
    pos := start;
    while true
      invariant n < 10
      invariant start <= pos
      invariant Decode(data, start, 0, 0) == Decode(data, pos, n, result)
      decreases |data| - pos
    {
      if pos >= |data| { return None, pos; }
      var b := data[pos];
      pos := pos + 1;
      result := result + Digit(b, n);
      if b < 128 { return Some(result), pos; }
      n := n + 1;
      if n >= 10 { return None, pos; }
    }
  }

  lemma {:induction false} Pow128Ten()
    ensures Pow128(10) > TWO64
  {
    assert Pow128(2) == 16384;
    assert Pow128(4) == 268435456;
    assert Pow128(6) == 4398046511104;
    assert Pow128(8) == 72057594037927936;
  }

  lemma {:induction false} DigitStep(x: nat, n: nat)
    requires Pow128(n) * x < TWO64
    ensures Pow128(n) * (x % 128) < TWO64 && x % 128 * Pow128(n) == Pow128(n) * (x % 128)
    ensures Pow128(n) * x == Pow128(n) * (x % 128) + Pow128(n + 1) * (x / 128)
    ensures n < 10 && x >= 128 ==> n + 1 < 10
  {
    if n == 9 {
      Pow128Ten();
      MulAtLeast(Pow128(10), x / 128);
    }
    var p, q, r := Pow128(n), x / 128, x % 128;
    assert x == 128 * q + r;
    assert p * x == p * (128 * q) + p * r;
    assert p * (128 * q) == (128 * p) * q;
    assert p * (128 * q) >= 0;
  }

  lemma {:induction false} UlebParts(x: nat)
    ensures Uleb(x) == if x < 128 then [x] else [128 + x % 128] + Uleb(x / 128)
  {
  }

  lemma {:induction false} DecodeStep(data: seq<byte>, pos: nat, n: nat, acc: nat)
    requires pos < |data|
    ensures Decode(data, pos, n, acc) ==
      if data[pos] < 128 then Some(Decoded(acc + Digit(data[pos], n), pos + 1))
      else if n + 1 >= 10 then None
      else Decode(data, pos + 1, n + 1, acc + Digit(data[pos], n))
  {
  }

  /** Decoding reads back every 64-bit number, wherever its bytes lie. */
  lemma {:induction false} UlebReadsBack(data: seq<byte>, pos: nat, n: nat, acc: nat, x: nat)
    requires n < 10 && Pow128(n) * x < TWO64
    requires pos + |Uleb(x)| <= |data| && data[pos..pos + |Uleb(x)|] == Uleb(x)
    ensures Decode(data, pos, n, acc) == Some(Decoded(acc + Pow128(n) * x, pos + |Uleb(x)|))
    decreases x
  {
    hide Decode;
    UlebParts(x);
    DigitStep(x, n);
    assert data[pos..pos + |Uleb(x)|][0] == data[pos];
    DecodeStep(data, pos, n, acc);
    hide Uleb;
    var p, d := Pow128(n), x % 128;
    hide Pow128;
    assert Digit(data[pos], n) == p * d by {
      assert data[pos] % 128 == d;
    }
    if x >= 128 {
      var rest := Uleb(x / 128);
      assert Uleb(x)[1..] == rest;
      assert data[pos + 1..pos + 1 + |rest|] == data[pos..pos + |Uleb(x)|][1..];
      UlebReadsBack(data, pos + 1, n + 1, acc + p * d, x / 128);
    }
  }

  // ── The table ────────────────────────────────────────────────────────────

  /** Positions of the listed symbols; `None` when the table is cut short or lists an unknown symbol. */
  function Listed(obj: InputObject, data: seq<byte>, pos: nat): Option<seq<nat>>
    decreases |data| - pos
  {
    if pos >= |data| then Some([])
    else
      match Decode(data, pos, 0, 0)
      case None => None
      case Some(d) =>
        if obj.SymbolPos(d.value).None? then None
        else
          match Listed(obj, data, d.next)
          case None => None
          case Some(rest) => Some([obj.SymbolPos(d.value).value] + rest)
  }

  /** The first table of an object counts. */
  function TableOf(sections: seq<InputSection>): Option<InputSection>
    decreases |sections|
  {
    if sections == [] then None
    else if sections[0].shType == SHT_LLVM_ADDRSIG then Some(sections[0])
    else TableOf(sections[1..])
  }

  function Significant(obj: InputObject): Option<seq<nat>> {
    match TableOf(obj.sections) case None => None case Some(sec) => Listed(obj, sec.data, 0)
  }

  function Join(a: Option<seq<nat>>, done: seq<nat>): Option<seq<nat>> {
    match a case None => None case Some(rest) => Some(done + rest)
  }

  method ParseAddrsig(obj: InputObject) returns (r: Option<seq<nat>>)
    ensures r == Significant(obj)
  {
    hide Decode;
    var i := 0;
    while i < |obj.sections| && obj.sections[i].shType != SHT_LLVM_ADDRSIG
      invariant i <= |obj.sections|
      invariant TableOf(obj.sections) == TableOf(obj.sections[i..])
    {
      assert obj.sections[i..][1..] == obj.sections[i + 1..];
      i := i + 1;
    }
    if i == |obj.sections| { return None; }
    var data := obj.sections[i].data;
    var pos, listed := 0, [];
    JoinEmpty(Listed(obj, data, 0));
    while pos < |data|
      invariant Listed(obj, data, 0) == Join(Listed(obj, data, pos), listed)
      decreases |data| - pos
    {
      var raw, next := ReadUleb128(data, pos);
      if raw.None? || obj.SymbolPos(raw.value).None? { return None; }
      var more := [obj.SymbolPos(raw.value).value];
      JoinTwice(Listed(obj, data, next), more, listed);
      listed, pos := listed + more, next;
    }
    assert listed + [] == listed;
    r := Some(listed);
  }

  lemma {:induction false} JoinEmpty(a: Option<seq<nat>>)
    ensures Join(a, []) == a
  {
    if a.Some? { assert [] + a.value == a.value; }
  }

  lemma {:induction false} JoinTwice(a: Option<seq<nat>>, more: seq<nat>, done: seq<nat>)
    ensures Join(Join(a, more), done) == Join(a, done + more)
  {
    if a.Some? { assert done + (more + a.value) == (done + more) + a.value; }
  }

  // ── What a compiler writes reads back ────────────────────────────────────

  function Encoded(raws: seq<nat>): seq<byte>
    decreases |raws|
  {
    if raws == [] then [] else Uleb(raws[0]) + Encoded(raws[1..])
  }

  function Positions(obj: InputObject, raws: seq<nat>): Option<seq<nat>>
    decreases |raws|
  {
    if raws == [] then Some([])
    else
      match obj.SymbolPos(raws[0])
      case None => None
      case Some(p) => Join(Positions(obj, raws[1..]), [p])
  }

  /** A table of any symbol indices yields exactly their positions, or nothing when one is unknown. */
  lemma {:induction false} TableReadsBack(obj: InputObject, data: seq<byte>, pos: nat, raws: seq<nat>)
    requires forall i | 0 <= i < |raws| :: raws[i] < TWO64
    requires pos <= |data| && data[pos..] == Encoded(raws)
    ensures Listed(obj, data, pos) == Positions(obj, raws)
    decreases |raws|
  {
    hide Decode, Uleb;
    if raws != [] {
      var u := Uleb(raws[0]);
      var tail := Encoded(raws[1..]);
      assert Encoded(raws) == u + tail && |data[pos..]| == |data| - pos;
      assert (u + tail)[..|u|] == u && (u + tail)[|u|..] == tail;
      assert data[pos..pos + |u|] == data[pos..][..|u|];
      assert Pow128(0) * raws[0] == raws[0];
      UlebReadsBack(data, pos, 0, 0, raws[0]);
      assert data[pos + |u|..] == data[pos..][|u|..];
      TableReadsBack(obj, data, pos + |u|, raws[1..]);
    }
  }
}
