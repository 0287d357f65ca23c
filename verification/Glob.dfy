/** Wildcard patterns of `--exclude-libs` and the export lists: `wildcard_matches` searches greedily for
    the pattern's literal pieces; the reference below lets each `*` stand for any string. */
module Glob {

  const STAR := '*'

  /** The reference meaning of a pattern. */
  predicate Matches(pattern: string, name: string)
    decreases |pattern|
  {
    if pattern == "" then name == ""
    else if pattern[0] == STAR then exists k | 0 <= k <= |name| :: Matches(pattern[1..], name[k..])
    else name != "" && name[0] == pattern[0] && Matches(pattern[1..], name[1..])
  }

  /** Rust's `split('*')`: always at least one piece. */
  function Split(pattern: string): (parts: seq<string>)
    ensures |parts| >= 1
  {
    if pattern == "" then [""]
    else
      var rest := Split(pattern[1..]);
      if pattern[0] == STAR then [""] + rest
      else [[pattern[0]] + rest[0]] + rest[1..]
  }

  predicate EndsWith(s: string, t: string) {
    |t| <= |s| && s[|s| - |t|..] == t
  }

  predicate OccursAt(s: string, t: string, k: nat) {
    k + |t| <= |s| && s[k..k + |t|] == t
  }

  /** The text after a `*`: every piece but the last occurs in order, the last one ends the text. */
  predicate MatchRest(parts: seq<string>, text: string)
    requires |parts| >= 1
    decreases |parts|
  {
    if |parts| == 1 then EndsWith(text, parts[0])
    else exists k: nat | k <= |text| ::
      OccursAt(text, parts[0], k) && MatchRest(parts[1..], text[k + |parts[0]|..])
  }

  predicate MatchParts(parts: seq<string>, text: string)
    requires |parts| >= 1
  {
    if |parts| == 1 then text == parts[0]
    else parts[0] <= text && MatchRest(parts[1..], text[|parts[0]|..])
  }

  /** Dropping a literal head from the first piece and from the text changes nothing. */
  lemma {:induction false} ConsPiece(c: char, parts: seq<string>, text: string)
    requires |parts| >= 1
    ensures MatchParts([[c] + parts[0]] + parts[1..], text)
            <==> text != "" && text[0] == c && MatchParts(parts, text[1..])
  {
    var more := [[c] + parts[0]] + parts[1..];
    assert more[1..] == parts[1..];
    if text != "" && text[0] == c {
      assert text == [c] + text[1..];
      if |parts| > 1 && parts[0] <= text[1..] {
        assert text[|more[0]|..] == text[1..][|parts[0]|..];
      }
      assert parts[0] <= text[1..] ==> more[0] <= text;
      assert more[0] <= text ==> parts[0] <= text[1..] by {
        if more[0] <= text { assert text[1..][..|parts[0]|] == text[..|more[0]|][1..]; }
      }
    }
  }

  lemma {:induction false} StarPiece(parts: seq<string>, text: string)
    requires |parts| >= 1
    ensures MatchRest(parts, text) <==> exists k | 0 <= k <= |text| :: MatchParts(parts, text[k..])
  {
    if |parts| == 1 {
      if EndsWith(text, parts[0]) { assert MatchParts(parts, text[|text| - |parts[0]|..]); }
    } else {
      forall k: nat | k <= |text|
        ensures OccursAt(text, parts[0], k) <==> parts[0] <= text[k..]
        ensures OccursAt(text, parts[0], k) ==> text[k..][|parts[0]|..] == text[k + |parts[0]|..]
      {
        if k + |parts[0]| <= |text| { assert text[k..][..|parts[0]|] == text[k..k + |parts[0]|]; }
      }
      if MatchRest(parts, text) {
        var k: nat :| k <= |text| && OccursAt(text, parts[0], k) && MatchRest(parts[1..], text[k + |parts[0]|..]);
        assert MatchParts(parts, text[k..]);
      }
    }
  }

  /** Splitting the pattern at its stars keeps its meaning. */
  lemma {:induction false} SplitKeepsMeaning(pattern: string, name: string)
    ensures Matches(pattern, name) <==> MatchParts(Split(pattern), name)
    decreases |pattern|
  {
    if pattern != "" {
      var rest := Split(pattern[1..]);
      if pattern[0] == STAR {
        forall k | 0 <= k <= |name| { SplitKeepsMeaning(pattern[1..], name[k..]); }
        StarPiece(rest, name);
        assert Split(pattern)[1..] == rest;
        assert name[|""|..] == name;
      } else {
        ConsPiece(pattern[0], rest, name);
        if name != "" { SplitKeepsMeaning(pattern[1..], name[1..]); }
      }
    }
  }

  /** Text may be added in front of a `*`. */
  lemma {:induction false} Widen(parts: seq<string>, text: string, from: nat)
    requires |parts| >= 1 && from <= |text|
    requires MatchRest(parts, text[from..])
    ensures MatchRest(parts, text)
  {
    var tail := text[from..];
    if |parts| == 1 {
      assert text[|text| - |parts[0]|..] == tail[|tail| - |parts[0]|..];
    } else {
      var k: nat :| k <= |tail| && OccursAt(tail, parts[0], k) && MatchRest(parts[1..], tail[k + |parts[0]|..]);
      assert OccursAt(text, parts[0], from + k) by {
        assert text[from + k..from + k + |parts[0]|] == tail[k..k + |parts[0]|];
      }
      assert tail[k + |parts[0]|..] == text[from + k + |parts[0]|..];
    }
  }

  /** Taking the leftmost occurrence of a piece loses no match. */
  lemma {:induction false} LeftmostSuffices(parts: seq<string>, text: string, k: nat)
    requires |parts| >= 2 && OccursAt(text, parts[0], k)
    requires forall j: nat | j < k :: !OccursAt(text, parts[0], j)
    ensures MatchRest(parts, text) <==> MatchRest(parts[1..], text[k + |parts[0]|..])
  {
    if MatchRest(parts, text) {
      var j: nat :| j <= |text| && OccursAt(text, parts[0], j) && MatchRest(parts[1..], text[j + |parts[0]|..]);
      var tail := text[k + |parts[0]|..];
      assert tail[j - k..] == text[j + |parts[0]|..];
      Widen(parts[1..], tail, j - k);
    }
  }

  /** Rust's `str::find`: the leftmost occurrence, or -1. */
  method Find(s: string, t: string) returns (pos: int)
    ensures pos >= 0 ==> OccursAt(s, t, pos) && forall j: nat | j < pos :: !OccursAt(s, t, j)
    ensures pos < 0 ==> forall j: nat :: !OccursAt(s, t, j)
  {
    pos := 0;
    while pos + |t| <= |s|
      invariant 0 <= pos
      invariant forall j: nat | j < pos :: !OccursAt(s, t, j)
    {
      if s[pos..pos + |t|] == t { return; }
      pos := pos + 1;
    }
    pos := -1;
  }

  lemma {:induction false} SplitEnds(pattern: string)
    ensures pattern == "" ==> |Split(pattern)| == 1
    ensures pattern != "" && pattern[0] == STAR ==> Split(pattern)[0] == "" && |Split(pattern)| >= 2
    ensures pattern != "" && pattern[|pattern| - 1] == STAR ==>
              |Split(pattern)| >= 2 && Split(pattern)[|Split(pattern)| - 1] == ""
  {
    if |pattern| > 1 { SplitEnds(pattern[1..]); }
  }

  lemma {:induction false} SinglePiece(pattern: string)
    requires |Split(pattern)| == 1
    ensures Split(pattern)[0] == pattern
  {
    if pattern != "" { SinglePiece(pattern[1..]); }
  }

  lemma {:induction false} EmptyPiece(parts: seq<string>, text: string)
    requires |parts| >= 2 && parts[0] == ""
    ensures MatchRest(parts, text) <==> MatchRest(parts[1..], text)
  {
    assert OccursAt(text, "", 0);
    assert text[0..] == text;
    LeftmostSuffices(parts, text, 0);
  }

  /** The greedy search answers exactly the reference question. */
  method WildcardMatches(pattern: string, name: string) returns (matched: bool)
    ensures matched <==> Matches(pattern, name)
  {
    hide Matches, Split, MatchRest;
    SplitKeepsMeaning(pattern, name);
    var parts := Split(pattern);
    if pattern == "*" {
      LoneStar(name);
      return true;
    }
    SplitEnds(pattern);
    if |parts| == 1 {
      SinglePiece(pattern);
      return pattern == name;
    }
    var last := parts[|parts| - 1];
    if pattern[0] != STAR && !(parts[0] <= name) { return false; }
    var endsWithStar := pattern[|pattern| - 1] == STAR;
    if !endsWithStar && !EndsWith(name, last) {
      if Matches(pattern, name) { RestEnds(parts[1..], name[|parts[0]|..]); }
      return false;
    }
    var rest := name;
    ghost var at := 0;
    var i := 0;
    while i < |parts|
      invariant 0 <= i <= |parts| && 0 <= at <= |name| && rest == name[at..]
      invariant i == 0 ==> at == 0
      invariant 0 < i < |parts| ==> (Matches(pattern, name) <==> MatchRest(parts[i..], rest))
      invariant i == |parts| ==> Matches(pattern, name)
    {
      var part := parts[i];
      if i + 1 == |parts| { LastPiece(parts, name, at); }
      if part != "" {
        var pos := Find(rest, part);
        if i == 0 { assert OccursAt(rest, part, 0); }
        if 0 < i && i + 1 < |parts| && pos >= 0 { MiddlePiece(parts, i, rest, pos); }
        if pos < 0 {
          if 0 < i && i + 1 < |parts| { MissingPiece(parts[i..], rest); }
          return false;
        }
        assert rest[pos + |part|..] == name[at + pos + |part|..];
        at := at + pos + |part|;
        rest := rest[pos + |part|..];
      } else if 0 < i && i + 1 < |parts| {
        EmptyPiece(parts[i..], rest);
        assert parts[i..][1..] == parts[i + 1..];
      }
      i := i + 1;
    }
    return true;
  }

  lemma {:induction false} LoneStar(name: string)
    ensures Matches("*", name)
  {
    assert name[|name|..] == "" && "*"[1..] == "";
    assert Matches("*"[1..], name[|name|..]);
  }

  lemma {:induction false} MissingPiece(parts: seq<string>, text: string)
    requires |parts| >= 2 && forall j: nat :: !OccursAt(text, parts[0], j)
    ensures !MatchRest(parts, text)
  {
  }

  lemma {:induction false} MiddlePiece(parts: seq<string>, i: nat, rest: string, pos: nat)
    requires i + 1 < |parts| && OccursAt(rest, parts[i], pos)
    requires forall j: nat | j < pos :: !OccursAt(rest, parts[i], j)
    ensures MatchRest(parts[i..], rest) <==> MatchRest(parts[i + 1..], rest[pos + |parts[i]|..])
  {
    hide MatchRest;
    LeftmostSuffices(parts[i..], rest, pos);
    assert parts[i..][1..] == parts[i + 1..];
  }

  lemma {:induction false} LastPiece(parts: seq<string>, name: string, at: nat)
    requires |parts| > 0 && at <= |name| && EndsWith(name, parts[|parts| - 1])
    ensures var last, rest := parts[|parts| - 1], name[at..];
            MatchRest(parts[|parts| - 1..], rest) <==> exists j: nat :: OccursAt(rest, last, j)
    ensures parts[|parts| - 1] == "" ==> MatchRest(parts[|parts| - 1..], name[at..])
  {
    var last, rest := parts[|parts| - 1], name[at..];
    assert parts[|parts| - 1..] == [last];
    if EndsWith(rest, last) {
      assert OccursAt(rest, last, |rest| - |last|);
    }
    if exists j: nat :: OccursAt(rest, last, j) {
      var j: nat :| OccursAt(rest, last, j);
      assert rest[|rest| - |last|..] == name[|name| - |last|..];
    }
  }

  lemma {:induction false} RestEnds(parts: seq<string>, text: string)
    requires |parts| >= 1 && MatchRest(parts, text)
    ensures EndsWith(text, parts[|parts| - 1])
  {
    if |parts| > 1 {
      var k: nat :| k <= |text| && OccursAt(text, parts[0], k) && MatchRest(parts[1..], text[k + |parts[0]|..]);
      var tail := text[k + |parts[0]|..];
      RestEnds(parts[1..], tail);
      var last := parts[|parts| - 1];
      assert text[|text| - |last|..] == tail[|tail| - |last|..];
    }
  }
}
