/** Tables of little-endian fields and NUL-terminated strings, as ELF sections hold them. */
module Tables {
  import opened Bytes

  // ── Fields ───────────────────────────────────────────────────────────────

  /** The `w`-byte field at `off`; 0 when the blob is too short. */
  function Field(blob: seq<byte>, off: nat, w: nat): nat {
    if off + w <= |blob| then FromLe(blob[off..off + w]) else 0
  }

  /** Four-byte words, one after the other. */
  function Words(ws: seq<nat>): (blob: seq<byte>)
    ensures |blob| == 4 * |ws|
    decreases |ws|
  {
    if ws == [] then [] else Words(ws[..|ws| - 1]) + Le(ws[|ws| - 1], 4)
  }

  lemma {:induction false} FieldOf(pre: seq<byte>, v: nat, w: nat, post: seq<byte>)
    requires w in {1, 2, 4, 8} && v < Pow256(w)
    ensures Field(pre + Le(v, w) + post, |pre|, w) == v
  {
    var blob := pre + Le(v, w) + post;
    assert blob[|pre|..|pre| + w] == Le(v, w);
    LeExact(v, w);
    hide Le, FromLe, Pow256;
  }

  /** A value too wide for its field, or negative, is stored modulo the width. */
  lemma {:induction false} FieldModulo(pre: seq<byte>, v: int, w: nat, post: seq<byte>)
    ensures Field(pre + Le(v, w) + post, |pre|, w) == v % Pow256(w)
  {
    assert (pre + Le(v, w) + post)[|pre|..|pre| + w] == Le(v, w);
    LeRoundTrip(v, w);
    hide Le, FromLe, Pow256;
  }

  /** A field only depends on its own bytes. */
  lemma {:induction false} FieldInside(pre: seq<byte>, blob: seq<byte>, post: seq<byte>, off: nat, w: nat)
    requires off + w <= |blob|
    ensures Field(pre + blob + post, |pre| + off, w) == Field(blob, off, w)
  {
    hide FromLe;
    assert (pre + blob + post)[|pre| + off..|pre| + off + w] == blob[off..off + w];
  }

  lemma {:induction false} WordAt(ws: seq<nat>, i: nat)
    requires i < |ws| && ws[i] < TWO32
    ensures Field(Words(ws), 4 * i, 4) == ws[i]
    decreases |ws|
  {
    hide Field;
    var front := ws[..|ws| - 1];
    if i == |ws| - 1 {
      Pow256Values();
      FieldOf(Words(front), ws[i], 4, []);
      assert Words(front) + Le(ws[i], 4) + [] == Words(ws);
    } else {
      WordAt(front, i);
      FieldInside([], Words(front), Le(ws[|ws| - 1], 4), 4 * i, 4);
      assert [] + Words(front) + Le(ws[|ws| - 1], 4) == Words(ws);
    }
  }

  lemma {:induction false} WordsPush(ws: seq<nat>, w: nat)
    ensures Words(ws + [w]) == Words(ws) + Le(w, 4)
  {
    hide Le;
    assert (ws + [w])[..|ws|] == ws;
  }

  // ── Strings ──────────────────────────────────────────────────────────────

  /** `name` and its terminator are at `off`. */
  predicate ReadsString(strings: seq<byte>, off: nat, name: seq<byte>) {
    off + |name| < |strings| && strings[off..off + |name|] == name && strings[off + |name|] == 0
  }

  lemma {:induction false} StringStays(strings: seq<byte>, more: seq<byte>, off: nat, name: seq<byte>)
    requires ReadsString(strings, off, name)
    ensures ReadsString(strings + more, off, name)
  {
    assert (strings + more)[off..off + |name|] == strings[off..off + |name|];
  }

  lemma {:induction false} StringAppended(strings: seq<byte>, name: seq<byte>)
    ensures ReadsString(strings + name + [0], |strings|, name)
  {
    assert (strings + name + [0])[|strings|..|strings| + |name|] == name;
  }
}
