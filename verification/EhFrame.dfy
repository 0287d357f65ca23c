/** `.eh_frame` records: scanning, FDE listing and the `.eh_frame_hdr` search table
    (`peony-object/src/eh_frame.rs`, `peony-emit/src/eh_frame.rs`). */
module EhFrame {
  import opened Bytes

  const EXTENDED_LENGTH := 0xffff_ffff

  datatype Scan = Scan(cies: nat, fdes: nat, terms: nat, leftover: nat)

  function Add(a: Scan, b: Scan): Scan {
    Scan(a.cies + b.cies, a.fdes + b.fdes, a.terms + b.terms, b.leftover)
  }

  /** A little-endian 32-bit word. */
  function Word(data: seq<byte>, pos: nat): nat
    requires pos + 4 <= |data|
  {
    var b0: int, b1: int, b2: int, b3: int := data[pos], data[pos + 1], data[pos + 2], data[pos + 3];
    b0 + 0x100 * b1 + 0x1_0000 * b2 + 0x100_0000 * b3
  }

  /** One step of the scan at `pos`: past a terminator or a whole record, or the end of the scan. */
  datatype Step = Stop | Move(next: nat, tally: Scan)

  const TERMINATOR := Scan(0, 0, 1, 0)
  const CIE := Scan(1, 0, 0, 0)
  const FDE := Scan(0, 1, 0, 0)

  function StepAt(data: seq<byte>, pos: nat): (s: Step)
    requires pos <= |data|
    ensures s.Move? ==> pos < s.next <= |data| && s.tally.leftover == 0
  {
    if pos + 4 > |data| then Stop
    else
      var len := Word(data, pos);
      if len == 0 then Move(pos + 4, TERMINATOR)
      else if len == EXTENDED_LENGTH || pos + 8 > |data| || pos + 4 + len > |data| then Stop
      else Move(pos + 4 + len, if Word(data, pos + 4) == 0 then CIE else FDE)
  }

  /** The tally of the records from `pos` on. */
  function ScanFrom(data: seq<byte>, pos: nat): Scan
    requires pos <= |data|
    decreases |data| - pos
  {
    match StepAt(data, pos)
    case Stop => Scan(0, 0, 0, |data| - pos)
    case Move(next, tally) => Add(tally, ScanFrom(data, next))
  }

  lemma {:induction false} ScanStep(data: seq<byte>, pos: nat)
    requires pos <= |data|
    ensures match StepAt(data, pos)
            case Stop => ScanFrom(data, pos) == Scan(0, 0, 0, |data| - pos)
            case Move(next, tally) => ScanFrom(data, pos) == Add(tally, ScanFrom(data, next))
  {
    hide StepAt;
  }

  method ScanEhFrame(data: seq<byte>) returns (s: Scan)
    ensures s == ScanFrom(data, 0)
  {
    hide Word, ScanFrom;
    var pos, cies, fdes, terms := 0, 0, 0, 0;
    while pos + 4 <= |data|
      invariant pos <= |data|
      invariant ScanFrom(data, 0) == Add(Scan(cies, fdes, terms, 0), ScanFrom(data, pos))
      decreases |data| - pos
    {
      ScanStep(data, pos);
      var len := Word(data, pos);
      if len == 0 {
        terms, pos := terms + 1, pos + 4;
        continue;
      }
      if len == EXTENDED_LENGTH { break; }
      var start := pos + 4;
      if start + 4 > |data| || start + len > |data| { break; }
      if Word(data, start) == 0 { cies := cies + 1; } else { fdes := fdes + 1; }
      pos := start + len;
    }
    ScanStep(data, pos);
    return Scan(cies, fdes, terms, |data| - pos);
  }

  function CountFdes(data: seq<byte>): nat { ScanFrom(data, 0).fdes }

  // ── Concatenation ────────────────────────────────────────────────────────

  lemma {:induction false} WordInConcat(a: seq<byte>, b: seq<byte>, pos: nat)
    requires pos + 4 <= |a| + |b|
    ensures pos + 4 <= |a| ==> Word(a + b, pos) == Word(a, pos)
    ensures |a| <= pos ==> Word(a + b, pos) == Word(b, pos - |a|)
  {
  }

  lemma {:induction false} StepShift(a: seq<byte>, b: seq<byte>, pos: nat)
    requires pos <= |b|
    ensures StepAt(a + b, |a| + pos) == match StepAt(b, pos) case Stop => Stop case Move(n, t) => Move(|a| + n, t)
  {
    if pos + 4 <= |b| { WordInConcat(a, b, |a| + pos); }
    if pos + 8 <= |b| { WordInConcat(a, b, |a| + pos + 4); }
  }

  lemma {:induction false} StepConcat(a: seq<byte>, b: seq<byte>, pos: nat)
    requires pos <= |a| && StepAt(a, pos).Move?
    ensures StepAt(a + b, pos) == StepAt(a, pos)
  {
    WordInConcat(a, b, pos);
    if pos + 8 <= |a| { WordInConcat(a, b, pos + 4); }
  }

  lemma {:induction false} ScanShift(a: seq<byte>, b: seq<byte>, pos: nat)
    requires pos <= |b|
    ensures ScanFrom(a + b, |a| + pos) == ScanFrom(b, pos)
    decreases |b| - pos
  {
    hide Word, StepAt;
    StepShift(a, b, pos);
    match StepAt(b, pos)
    case Stop =>
    case Move(next, _) => ScanShift(a, b, next);
  }

  /** A piece that scans to its end is followed by whatever comes after it. */
  lemma {:induction false} ScanConcat(a: seq<byte>, b: seq<byte>, pos: nat)
    requires pos <= |a| && ScanFrom(a, pos).leftover == 0
    ensures ScanFrom(a + b, pos) == Add(ScanFrom(a, pos), ScanFrom(b, 0))
    decreases |a| - pos
  {
    hide Word, StepAt;
    var sa := StepAt(a, pos);
    if sa.Stop? {
      assert ScanFrom(a, pos) == Scan(0, 0, 0, |a| - pos);
      assert pos == |a|;
      ScanShift(a, b, 0);
    } else {
      StepConcat(a, b, pos);
      assert ScanFrom(a, pos) == Add(sa.tally, ScanFrom(a, sa.next));
      ScanConcat(a, b, sa.next);
      assert ScanFrom(a + b, pos) == Add(sa.tally, ScanFrom(a + b, sa.next));
    }
  }

  lemma {:induction false} ZeroWord(data: seq<byte>, pos: nat)
    requires pos + 4 <= |data| && data[pos] == data[pos + 1] == data[pos + 2] == data[pos + 3] == 0
    ensures Word(data, pos) == 0
  {
  }

  lemma {:induction false} ScanZeros(data: seq<byte>, pos: nat, k: nat)
    requires pos + 4 * k == |data| && forall i | 0 <= i < |data| :: data[i] == 0
    ensures ScanFrom(data, pos) == Scan(0, 0, k, 0)
    decreases k
  {
    hide Word;
    if k > 0 {
      assert Word(data, pos) == 0 by { ZeroWord(data, pos); }
      ScanZeros(data, pos + 4, k - 1);
      assert ScanFrom(data, pos) == Add(TERMINATOR, ScanFrom(data, pos + 4));
    }
  }

  /** One contribution to the merged section: alignment padding in words, then the piece. */
  datatype Piece = Piece(padWords: nat, bytes: seq<byte>)

  function Merged(pieces: seq<Piece>): seq<byte> {
    if pieces == [] then [] else Zeros(4 * pieces[0].padWords) + pieces[0].bytes + Merged(pieces[1..])
  }

  function TotalCies(pieces: seq<Piece>): nat {
    if pieces == [] then 0 else ScanFrom(pieces[0].bytes, 0).cies + TotalCies(pieces[1..])
  }

  /** What layout reserves `.eh_frame_hdr` for: the sum of the inputs' counts. */
  function TotalFdes(pieces: seq<Piece>): nat {
    if pieces == [] then 0 else CountFdes(pieces[0].bytes) + TotalFdes(pieces[1..])
  }

  predicate Clean(pieces: seq<Piece>) {
    forall p | p in pieces :: ScanFrom(p.bytes, 0).leftover == 0
  }

  /** Pieces that each scan with no leftover, padded with zero words, add up. */
  lemma {:induction false} MergedCounts(pieces: seq<Piece>)
    requires Clean(pieces)
    ensures var s := ScanFrom(Merged(pieces), 0);
            s.cies == TotalCies(pieces) && s.fdes == TotalFdes(pieces) && s.leftover == 0
  {
    if pieces != [] {
      hide Word, StepAt, ScanFrom;
      var p, rest := pieces[0], pieces[1..];
      assert p in pieces && forall q | q in rest :: q in pieces;
      MergedCounts(rest);
      PieceCounts(Zeros(4 * p.padWords), p.padWords, p.bytes, Merged(rest));
    }
  }

  lemma {:induction false} PieceCounts(pad: seq<byte>, k: nat, piece: seq<byte>, tail: seq<byte>)
    requires |pad| == 4 * k && forall i | 0 <= i < |pad| :: pad[i] == 0
    requires ScanFrom(piece, 0).leftover == 0
    ensures var s, a, b := ScanFrom(pad + piece + tail, 0), ScanFrom(piece, 0), ScanFrom(tail, 0);
            s.cies == a.cies + b.cies && s.fdes == a.fdes + b.fdes && s.leftover == b.leftover
  {
    hide Word, StepAt, ScanFrom;
    ScanConcat(piece, tail, 0);
    PadCounts(pad, k, piece + tail);
    assert pad + piece + tail == pad + (piece + tail);
  }

  lemma {:induction false} PadCounts(pad: seq<byte>, k: nat, data: seq<byte>)
    requires |pad| == 4 * k && forall i | 0 <= i < |pad| :: pad[i] == 0
    ensures var s, a := ScanFrom(pad + data, 0), ScanFrom(data, 0);
            s.cies == a.cies && s.fdes == a.fdes && s.leftover == a.leftover
  {
    hide Word, StepAt, ScanFrom;
    ScanZeros(pad, 0, k);
    ScanConcat(pad, data, 0);
  }

  // ── When the sum is a bound ──────────────────────────────────────────────

  /** Where the scan from `pos` on stops. */
  function StopAt(data: seq<byte>, pos: nat): (stop: nat)
    requires pos <= |data|
    ensures pos <= stop <= |data| && StepAt(data, stop).Stop?
    decreases |data| - pos
  {
    match StepAt(data, pos)
    case Stop => pos
    case Move(next, _) => StopAt(data, next)
  }

  /** The scan ends with the bytes, or at an extended length, which no following bytes can change. */
  predicate Sealed(data: seq<byte>) {
    var stop := StopAt(data, 0);
    stop == |data| || (stop + 4 <= |data| && Word(data, stop) == EXTENDED_LENGTH)
  }

  /** With more bytes after it a piece counts what it did, and then whatever follows its last record. */
  lemma {:induction false} ScanPast(a: seq<byte>, b: seq<byte>, pos: nat)
    requires pos <= |a|
    ensures ScanFrom(a + b, pos).fdes == ScanFrom(a, pos).fdes + ScanFrom(a + b, StopAt(a, pos)).fdes
    decreases |a| - pos
  {
    hide Word, StepAt;
    var step := StepAt(a, pos);
    if step.Stop? {
      assert ScanFrom(a, pos).fdes == 0;
    } else {
      StepConcat(a, b, pos);
      ScanPast(a, b, step.next);
      assert ScanFrom(a, pos) == Add(step.tally, ScanFrom(a, step.next));
      assert ScanFrom(a + b, pos) == Add(step.tally, ScanFrom(a + b, step.next));
    }
  }

  lemma {:induction false} SealedBound(a: seq<byte>, b: seq<byte>)
    requires Sealed(a)
    ensures CountFdes(a + b) <= CountFdes(a) + CountFdes(b)
  {
    hide StepAt, ScanFrom;
    ScanPast(a, b, 0);
    var stop := StopAt(a, 0);
    if stop == |a| {
      hide Word;
      ScanShift(a, b, 0);
    } else {
      WordInConcat(a, b, stop);
      hide Word;
      StopsThere(a + b, stop);
    }
  }

  lemma {:induction false} StopsThere(data: seq<byte>, pos: nat)
    requires pos + 4 <= |data| && Word(data, pos) != 0
    requires Word(data, pos) == EXTENDED_LENGTH || pos + 4 + Word(data, pos) > |data|
    ensures ScanFrom(data, pos).fdes == 0
  {
    hide Word;
  }

  lemma {:induction false} TooShort(data: seq<byte>)
    requires |data| < 4
    ensures CountFdes(data) == 0
  {
  }

  /** Bytes that turn the unfinished record at the end of `a` into one FDE more, and hold none by themselves. */
  ghost predicate Breaks(a: seq<byte>, b: seq<byte>) { CountFdes(b) == 0 && CountFdes(a + b) > CountFdes(a) }

  lemma {:induction false} FdeAt(data: seq<byte>, pos: nat)
    requires pos + 8 <= |data| && Word(data, pos) !in {0, EXTENDED_LENGTH} && pos + 4 + Word(data, pos) <= |data|
    requires Word(data, pos + 4) != 0
    ensures ScanFrom(data, pos).fdes >= 1
  {
    hide Word;
    assert StepAt(data, pos) == Move(pos + 4 + Word(data, pos), FDE);
  }

  function Ones(n: nat): (s: seq<byte>)
    ensures |s| == n && forall i | 0 <= i < n :: s[i] == 0xff
  {
    seq(n, i => 0xff)
  }

  lemma {:induction false} OnesCount(n: nat, tail: seq<byte>)
    requires n >= 4 || tail == [] || (n > 0 && tail == [4, 0, 0, 0, 1, 0, 0, 0])
    ensures CountFdes(Ones(n) + tail) == 0
  {
    var s := Ones(n) + tail;
    if |s| < 4 {
      TooShort(s);
    } else if n >= 4 {
      assert s[0] == s[1] == s[2] == s[3] == 0xff;
      assert Word(s, 0) == EXTENDED_LENGTH;
      StopsThere(s, 0);
    } else {
      assert s[0] == 0xff && s[n] == 4 && |s| == n + 8;
      assert Word(s, 0) > |s|;
      StopsThere(s, 0);
    }
  }

  /** The scan of `a` stops with one to three bytes left. */
  lemma {:induction false} BreakWord(a: seq<byte>) returns (b: seq<byte>)
    requires StopAt(a, 0) < |a| < StopAt(a, 0) + 4
    ensures Breaks(a, b)
  {
    var p := StopAt(a, 0);
    var rem := |a| - p;
    var head: seq<byte> := [1] + Zeros(3 - rem);
    var len := Word(a + head, p);
    b := head + Ones(len + 4);
    assert a + b == (a + head) + Ones(len + 4);
    WordInConcat(a + head, Ones(len + 4), p);
    WordInConcat(a + head, Ones(len + 4), p + 4);
    assert 256 <= len < 0x200_0000;
    assert b[3] == 0xff && Word(b, 0) >= 0xff00_0000 > |b|;
    StopsThere(b, 0);
    assert Word(a + b, p + 4) == Word(Ones(len + 4), 0) == EXTENDED_LENGTH;
    ScanPast(a, b, 0);
    FdeAt(a + b, p);
  }

  /** It stops at a record that lacks its end. */
  predicate Unfinished(a: seq<byte>, p: nat) {
    p == StopAt(a, 0) && p + 4 <= |a| && Word(a, p) != EXTENDED_LENGTH
  }

  lemma {:induction false} UnfinishedFacts(a: seq<byte>, p: nat)
    requires Unfinished(a, p)
    ensures Word(a, p) !in {0, EXTENDED_LENGTH} && Max(8, 4 + Word(a, p)) > |a| - p
  {
    hide Word;
  }

  lemma {:induction false} BreakCie(a: seq<byte>, p: nat) returns (b: seq<byte>)
    requires Unfinished(a, p) && p + 8 <= |a| && Word(a, p + 4) == 0
    ensures Breaks(a, b)
  {
    hide Word, ScanFrom;
    UnfinishedFacts(a, p);
    var fill, tail := p + 4 + Word(a, p) - |a|, [4, 0, 0, 0, 1, 0, 0, 0];
    b := Ones(fill) + tail;
    OnesCount(fill, tail);
    ScanPast(a, b, 0);
    var front := a + Ones(fill);
    assert front + tail == a + b;
    WordInConcat(a, b, p);
    WordInConcat(a, b, p + 4);
    TailWords(front, tail);
    FdeAt(a + b, |front|);
    CieAt(a + b, p);
  }

  lemma {:induction false} TailWords(front: seq<byte>, tail: seq<byte>)
    requires tail == [4, 0, 0, 0, 1, 0, 0, 0]
    ensures Word(front + tail, |front|) == 4 && Word(front + tail, |front| + 4) == 1
  {
    WordInConcat(front, tail, |front|);
    WordInConcat(front, tail, |front| + 4);
  }

  lemma {:induction false} CieAt(data: seq<byte>, pos: nat)
    requires pos + 8 <= |data| && Word(data, pos) !in {0, EXTENDED_LENGTH} && pos + 4 + Word(data, pos) <= |data|
    requires Word(data, pos + 4) == 0
    ensures ScanFrom(data, pos).fdes == ScanFrom(data, pos + 4 + Word(data, pos)).fdes
  {
    hide Word;
    assert StepAt(data, pos) == Move(pos + 4 + Word(data, pos), CIE);
  }

  lemma {:induction false} BreakFde(a: seq<byte>, p: nat) returns (b: seq<byte>)
    requires Unfinished(a, p) && (p + 8 <= |a| ==> Word(a, p + 4) != 0)
    ensures Breaks(a, b)
  {
    hide ScanFrom, StepAt;
    UnfinishedFacts(a, p);
    var fill := Max(8, 4 + Word(a, p)) - (|a| - p);
    b := Ones(fill);
    assert b + [] == b;
    OnesCount(fill, []);
    ScanPast(a, b, 0);
    WordInConcat(a, b, p);
    if p + 8 <= |a| {
      WordInConcat(a, b, p + 4);
    } else {
      assert (a + b)[p + 7] == 0xff;
    }
    assert Word(a + b, p + 4) != 0;
    hide Word;
    FdeAt(a + b, p);
  }

  /** Adding the counts of a piece and of what follows it is a bound for every continuation exactly when
      the piece is sealed. */
  lemma {:induction false} BoundExactly(a: seq<byte>)
    ensures (forall b :: CountFdes(a + b) <= CountFdes(a) + CountFdes(b)) <==> Sealed(a)
  {
    if Sealed(a) {
      forall b ensures CountFdes(a + b) <= CountFdes(a) + CountFdes(b) { SealedBound(a, b); }
    } else {
      var b;
      var p := StopAt(a, 0);
      if |a| < p + 4 {
        b := BreakWord(a);
      } else if p + 8 <= |a| && Word(a, p + 4) == 0 {
        b := BreakCie(a, p);
      } else {
        b := BreakFde(a, p);
      }
      assert CountFdes(a + b) > CountFdes(a) + CountFdes(b);
    }
  }

  /** Every piece but the last is sealed; after the last only the end of the section follows. */
  predicate SealedButLast(pieces: seq<Piece>) { forall i | 0 <= i < |pieces| - 1 :: Sealed(pieces[i].bytes) }

  /** Then the merged section has at most as many FDEs as its pieces were counted with. */
  lemma {:induction false} MergedBound(pieces: seq<Piece>)
    requires SealedButLast(pieces)
    ensures CountFdes(Merged(pieces)) <= TotalFdes(pieces)
  {
    hide Word, StepAt, ScanFrom, Sealed;
    if pieces == [] {
      TooShort([]);
    } else {
      var p, rest := pieces[0], pieces[1..];
      assert forall i | 0 <= i < |rest| - 1 :: rest[i] == pieces[i + 1];
      MergedBound(rest);
      PadCounts(Zeros(4 * p.padWords), p.padWords, p.bytes + Merged(rest));
      assert Zeros(4 * p.padWords) + p.bytes + Merged(rest) == Zeros(4 * p.padWords) + (p.bytes + Merged(rest));
      if rest == [] {
        assert p.bytes + [] == p.bytes;
      } else {
        SealedBound(p.bytes, Merged(rest));
      }
    }
  }

  /** A piece with no leftover is sealed. */
  lemma {:induction false} CleanIsSealed(data: seq<byte>)
    requires ScanFrom(data, 0).leftover == 0
    ensures Sealed(data)
  {
    hide ScanFrom;
    LeftoverAt(data, 0);
  }

  lemma {:induction false} LeftoverAt(data: seq<byte>, pos: nat)
    requires pos <= |data|
    ensures ScanFrom(data, pos).leftover == |data| - StopAt(data, pos)
    decreases |data| - pos
  {
    hide Word;
    match StepAt(data, pos)
    case Stop =>
    case Move(next, _) => LeftoverAt(data, next);
  }

  /** Without the no-leftover condition the sum is not even an upper bound: a truncated record in one
      piece can swallow the start of the next and leave its tail to be read as a new FDE. */
  lemma {:induction false} LeftoverBreaksTheBound(a: seq<byte>, b: seq<byte>)
    requires |a| == 4 && a[0] == 4 && a[1] == a[2] == a[3] == 0
    requires |b| == 4 && b[0] == 1 && b[1] == b[2] == b[3] == 0
    ensures ScanFrom(a, 0).leftover == 4 && CountFdes(a) == CountFdes(b) == 0 && CountFdes(a + b) == 1
  {
    hide Word, StepAt, ScanFrom;
    WordInConcat(a, b, 0);
    WordInConcat(a, b, 4);
    SmallWord(a, 4);
    SmallWord(b, 1);
    HeadOnly(a);
    HeadOnly(b);
    OneRecord(a + b);
  }

  lemma {:induction false} HeadOnly(a: seq<byte>)
    requires |a| == 4 && 0 < Word(a, 0)
    ensures ScanFrom(a, 0) == Scan(0, 0, 0, 4)
  {
    hide Word;
    assert StepAt(a, 0) == Stop;
  }

  lemma {:induction false} OneRecord(r: seq<byte>)
    requires |r| == 8 && Word(r, 0) == 4 && Word(r, 4) == 1
    ensures ScanFrom(r, 0) == Scan(0, 1, 0, 0)
  {
    hide Word;
    assert StepAt(r, 0) == Move(8, FDE);
    assert StepAt(r, 8) == Stop;
    assert ScanFrom(r, 8) == Scan(0, 0, 0, 0);
  }

  lemma {:induction false} SmallWord(a: seq<byte>, n: byte)
    requires |a| == 4 && a[0] == n && a[1] == a[2] == a[3] == 0
    ensures Word(a, 0) == n
  {
  }

  // ── Listing ──────────────────────────────────────────────────────────────

  /** An FDE: its offset, the offset of its `PC begin` field, and that field. */
  datatype Fde = Fde(at: nat, pcBegin: nat, rel: int)

  function SignedWord(data: seq<byte>, pos: nat): int
    requires pos + 4 <= |data|
  {
    var w := Word(data, pos);
    if w < TWO31 then w else w - TWO32
  }

  /** `iter_fdes` also wants the four bytes of `PC begin`. */
  function FdesFrom(data: seq<byte>, pos: nat): seq<Fde>
    requires pos <= |data|
    decreases |data| - pos
  {
    match StepAt(data, pos)
    case Stop => []
    case Move(next, tally) =>
      if tally == TERMINATOR then FdesFrom(data, next)
      else if pos + 12 > |data| then []
      else (if tally == FDE then [Fde(pos, pos + 8, SignedWord(data, pos + 8))] else []) + FdesFrom(data, next)
  }

  lemma {:induction false} FdesStep(data: seq<byte>, pos: nat)
    requires pos <= |data|
    ensures match StepAt(data, pos)
            case Stop => FdesFrom(data, pos) == []
            case Move(next, tally) =>
              var head := if tally == FDE && pos + 12 <= |data| then [Fde(pos, pos + 8, SignedWord(data, pos + 8))]
                          else [];
              FdesFrom(data, pos)
              == if tally == TERMINATOR then FdesFrom(data, next)
                 else if pos + 12 > |data| then []
                 else head + FdesFrom(data, next)
  {
    hide StepAt, Word;
  }

  method IterFdes(data: seq<byte>) returns (out: seq<Fde>)
    ensures out == FdesFrom(data, 0)
  {
    hide Word, FdesFrom, SignedWord;
    out := [];
    var pos := 0;
    while pos + 4 <= |data|
      invariant pos <= |data|
      invariant FdesFrom(data, 0) == out + FdesFrom(data, pos)
      decreases |data| - pos
    {
      FdesStep(data, pos);
      var len := Word(data, pos);
      if len == 0 {
        pos := pos + 4;
        continue;
      }
      if len == EXTENDED_LENGTH { break; }
      var start := pos + 4;
      if start + 8 > |data| || start + len > |data| { break; }
      if Word(data, start) != 0 { out := out + [Fde(pos, start + 4, SignedWord(data, start + 4))]; }
      pos := start + len;
    }
    FdesStep(data, pos);
  }

  /** On any bytes the listing is no longer than the count. */
  lemma {:induction false} ListingWithinCount(data: seq<byte>, pos: nat)
    requires pos <= |data|
    ensures |FdesFrom(data, pos)| <= ScanFrom(data, pos).fdes
    decreases |data| - pos
  {
    hide Word;
    match StepAt(data, pos)
    case Stop =>
    case Move(next, _) => ListingWithinCount(data, next);
  }

  // ── Relocation leaves the record structure alone ─────────────────────────

  /** `a` and `b` have the same record structure from `pos` on: same lengths, same CIE/FDE split. */
  predicate SameHeaders(a: seq<byte>, b: seq<byte>, pos: nat)
    requires |a| == |b| && pos <= |a|
    decreases |a| - pos
  {
    StepAt(a, pos) == StepAt(b, pos) && (StepAt(a, pos).Move? ==> SameHeaders(a, b, StepAt(a, pos).next))
  }

  lemma {:induction false} HeadersDecideScan(a: seq<byte>, b: seq<byte>, pos: nat)
    requires |a| == |b| && pos <= |a| && SameHeaders(a, b, pos)
    ensures ScanFrom(a, pos) == ScanFrom(b, pos) && |FdesFrom(a, pos)| == |FdesFrom(b, pos)|
    decreases |a| - pos
  {
    hide Word;
    match StepAt(a, pos)
    case Stop =>
    case Move(next, _) => HeadersDecideScan(a, b, next);
  }

  // ── The search table ─────────────────────────────────────────────────────

  datatype Entry = Entry(pc: int, fde: int)

  /** Rust's stable `sort_by_key` on the program counter. */
  function InsertEntry(e: Entry, s: seq<Entry>): seq<Entry> {
    if s == [] || e.pc < s[0].pc then [e] + s else [s[0]] + InsertEntry(e, s[1..])
  }

  function SortEntries(s: seq<Entry>): seq<Entry> {
    if s == [] then [] else InsertEntry(s[|s| - 1], SortEntries(s[..|s| - 1]))
  }

  predicate ByPc(s: seq<Entry>) {
    forall i, j | 0 <= i < j < |s| :: s[i].pc <= s[j].pc
  }

  lemma {:induction false} InsertAdds(e: Entry, s: seq<Entry>)
    ensures multiset(InsertEntry(e, s)) == multiset(s) + multiset{e}
  {
    if !(s == [] || e.pc < s[0].pc) {
      InsertAdds(e, s[1..]);
      assert s == [s[0]] + s[1..];
    }
  }

  lemma {:induction false} InsertSorts(e: Entry, s: seq<Entry>)
    requires ByPc(s)
    ensures ByPc(InsertEntry(e, s))
  {
    if !(s == [] || e.pc < s[0].pc) {
      var rest := InsertEntry(e, s[1..]);
      InsertSorts(e, s[1..]);
      InsertAdds(e, s[1..]);
      forall j | 0 <= j < |rest|
        ensures s[0].pc <= rest[j].pc
      {
        assert rest[j] in multiset(rest);
        assert rest[j] == e || rest[j] in s[1..];
      }
    }
  }

  /** The table is sorted by program counter and is a permutation of the FDEs. */
  lemma {:induction false} SortSorts(s: seq<Entry>)
    ensures ByPc(SortEntries(s)) && multiset(SortEntries(s)) == multiset(s) && |SortEntries(s)| == |s|
  {
    if s != [] {
      var n := |s| - 1;
      SortSorts(s[..n]);
      InsertSorts(s[n], SortEntries(s[..n]));
      InsertAdds(s[n], SortEntries(s[..n]));
      assert s == s[..n] + [s[n]];
      assert |multiset(SortEntries(s))| == |multiset(s)|;
    }
  }

  function EntriesOf(ehVa: nat, fdes: seq<Fde>): (es: seq<Entry>)
    ensures |es| == |fdes|
  {
    seq(|fdes|, i requires 0 <= i < |fdes| => Entry(ehVa + fdes[i].pcBegin + fdes[i].rel, ehVa + fdes[i].at))
  }

  function Row(hdrVa: nat, e: Entry): (b: seq<byte>)
    ensures |b| == 8
  {
    Le(e.pc - hdrVa, 4) + Le(e.fde - hdrVa, 4)
  }

  function TableBytes(hdrVa: nat, es: seq<Entry>): (b: seq<byte>)
    ensures |b| == 8 * |es|
  {
    if es == [] then [] else Row(hdrVa, es[0]) + TableBytes(hdrVa, es[1..])
  }

  const HDR_FIXED: seq<byte> := [1, 0x1b, 0x03, 0x3b]

  /** `.eh_frame_hdr` built from the relocated `.eh_frame` bytes. */
  function HdrBytes(ehVa: nat, hdrVa: nat, eh: seq<byte>): (b: seq<byte>)
    ensures |b| == 12 + 8 * |FdesFrom(eh, 0)|
  {
    var fdes := FdesFrom(eh, 0);
    SortSorts(EntriesOf(ehVa, fdes));
    HDR_FIXED + Le(ehVa - (hdrVa + 4), 4) + Le(|fdes|, 4) + TableBytes(hdrVa, SortEntries(EntriesOf(ehVa, fdes)))
  }

  /** Lists the FDEs, sorts them and writes the table row by row. */
  method BuildHdr(ehVa: nat, hdrVa: nat, eh: seq<byte>) returns (out: seq<byte>)
    ensures out == HdrBytes(ehVa, hdrVa, eh)
  {
    hide FdesFrom, Le;
    var fdes := IterFdes(eh);
    var entries: seq<Entry> := [];
    for i := 0 to |fdes|
      invariant entries == EntriesOf(ehVa, fdes)[..i]
    {
      entries := entries + [Entry(ehVa + fdes[i].pcBegin + fdes[i].rel, ehVa + fdes[i].at)];
    }
    assert entries == EntriesOf(ehVa, fdes);
    hide EntriesOf, TableBytes, SortEntries;
    entries := SortEntries(entries);
    SortSorts(EntriesOf(ehVa, fdes));
    out := BuildTable(hdrVa, entries);
    out := HDR_FIXED + Le(ehVa - (hdrVa + 4), 4) + Le(|entries|, 4) + out;
  }

  method BuildTable(hdrVa: nat, es: seq<Entry>) returns (out: seq<byte>)
    ensures out == TableBytes(hdrVa, es)
  {
    hide Row, TableBytes;
    out := [];
    assert es[0..] == es;
    for i := 0 to |es|
      invariant TableBytes(hdrVa, es) == out + TableBytes(hdrVa, es[i..])
    {
      NextRow(hdrVa, es, i, out);
      out := out + Row(hdrVa, es[i]);
    }
    NoRow(hdrVa, es[|es|..]);
  }

  lemma {:induction false} NextRow(hdrVa: nat, es: seq<Entry>, i: nat, out: seq<byte>)
    requires i < |es|
    ensures out + TableBytes(hdrVa, es[i..]) == (out + Row(hdrVa, es[i])) + TableBytes(hdrVa, es[i + 1..])
  {
    hide Row;
    assert es[i..][1..] == es[i + 1..];
  }

  lemma {:induction false} NoRow(hdrVa: nat, es: seq<Entry>)
    requires |es| == 0
    ensures TableBytes(hdrVa, es) == []
  {
  }

  lemma {:induction false} TableAt(hdrVa: nat, es: seq<Entry>, i: nat, k: nat)
    requires i < |es| && k == 8 * i
    ensures TableBytes(hdrVa, es)[k..k + 4] == Le(es[i].pc - hdrVa, 4)
    ensures TableBytes(hdrVa, es)[k + 4..k + 8] == Le(es[i].fde - hdrVa, 4)
  {
    var p, q, tail := Le(es[0].pc - hdrVa, 4), Le(es[0].fde - hdrVa, 4), TableBytes(hdrVa, es[1..]);
    var t := TableBytes(hdrVa, es);
    assert t == p + q + tail;
    if i == 0 {
      assert (p + q + tail)[0..4] == p && (p + q + tail)[4..8] == q;
    } else {
      var rest := es[1..];
      TableAt(hdrVa, rest, i - 1, k - 8);
      assert rest[i - 1] == es[i];
      DropFront(p + q, tail, k);
      DropFront(p + q, tail, k + 4);
      assert t[k..k + 4] == tail[k - 8..k - 4];
      assert t[k + 4..k + 8] == tail[k - 4..k];
    }
  }

  lemma {:induction false} DropFront(front: seq<byte>, tail: seq<byte>, k: nat)
    requires |front| <= k && k + 4 <= |front| + |tail|
    ensures (front + tail)[k..k + 4] == tail[k - |front|..k - |front| + 4]
  {
  }

  /** Reading the header back: the count field is the number of FDEs, and row `i` (at `k == 12 + 8 * i`)
      holds the `i`-th smallest program counter and its FDE, relative to the header. */
  lemma {:induction false} HdrReadsBack(ehVa: nat, hdrVa: nat, eh: seq<byte>, i: nat, k: nat)
    requires |FdesFrom(eh, 0)| < TWO32 && i < |FdesFrom(eh, 0)| && k == 12 + 8 * i
    ensures var b, es := HdrBytes(ehVa, hdrVa, eh), SortEntries(EntriesOf(ehVa, FdesFrom(eh, 0)));
            && |es| == |FdesFrom(eh, 0)| && ByPc(es)
            && multiset(es) == multiset(EntriesOf(ehVa, FdesFrom(eh, 0)))
            && FromLe(b[8..12]) == |es|
            && FromLe(b[k..k + 4]) == (es[i].pc - hdrVa) % TWO32
            && FromLe(b[k + 4..k + 8]) == (es[i].fde - hdrVa) % TWO32
  {
    hide FdesFrom, TableBytes, SortEntries, EntriesOf, FromLe, Le, Pow256;
    var fdes := FdesFrom(eh, 0);
    var es := SortEntries(EntriesOf(ehVa, fdes));
    SortSorts(EntriesOf(ehVa, fdes));
    HdrRow(ehVa, hdrVa, |fdes|, es, i, k);
  }

  lemma {:induction false} HdrRow(ehVa: nat, hdrVa: nat, n: nat, es: seq<Entry>, i: nat, k: nat)
    requires n < TWO32 && i < |es| && k == 12 + 8 * i
    ensures var b := HDR_FIXED + Le(ehVa - (hdrVa + 4), 4) + Le(n, 4) + TableBytes(hdrVa, es);
            && FromLe(b[8..12]) == n
            && FromLe(b[k..k + 4]) == (es[i].pc - hdrVa) % TWO32
            && FromLe(b[k + 4..k + 8]) == (es[i].fde - hdrVa) % TWO32
  {
    hide Le, FromLe, TableBytes, Pow256;
    var front, t := HDR_FIXED + Le(ehVa - (hdrVa + 4), 4) + Le(n, 4), TableBytes(hdrVa, es);
    assert (front + t)[8..12] == Le(n, 4);
    TableAt(hdrVa, es, i, k - 12);
    DropFront(front, t, k);
    DropFront(front, t, k + 4);
    Pow256Values();
    LeExact(n, 4);
    LeRoundTrip(es[i].pc - hdrVa, 4);
    LeRoundTrip(es[i].fde - hdrVa, 4);
  }
}
