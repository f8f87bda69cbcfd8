/**
 * The pattern side of the search command (src/commands/searchAndJump.ts:73-88): the
 * successive matches of the search pattern on one line, and the emphasised preview of a line.
 *
 * The regular-expression engine is not modelled. A compiled pattern is a Matcher: given a
 * line and the regex's lastIndex, it gives a match that starts at or after lastIndex and ends
 * inside the line, or None. Nothing here needs the match to be the leftmost one, so every
 * result holds for any engine that keeps to that.
 */
module Matching {
  import opened Options

  /** A match: its start offset in the line and its length (`match.index`, `match[0].length`). */
  datatype Hit = Hit(start: nat, len: nat) {
    function End(): nat { start + len }
  }

  /** What every regex engine guarantees of a search from `pos`: the match starts at or after
      `pos` and lies inside the line. */
  ghost predicate Sound(m: (string, nat) -> Option<Hit>) {
    forall line: string, pos: nat :: pos <= |line| && m(line, pos).Some? ==>
      pos <= m(line, pos).value.start && m(line, pos).value.End() <= |line|
  }

  /** A compiled search pattern (`new RegExp(searchText, 'gi')`). */
  type Matcher = m: (string, nat) -> Option<Hit> | Sound(m) witness (line: string, pos: nat) => None

  /** `regex.exec(line)` with the regex's lastIndex at `lastIndex`: no match once lastIndex
      is past the end of the line. */
  function Exec(m: Matcher, line: string, lastIndex: nat): (found: Option<Hit>)
    ensures found.Some? ==> lastIndex <= found.value.start && found.value.End() <= |line|
  {
    if lastIndex > |line| then None else m(line, lastIndex)
  }

  /** Where the next search starts after match `h`: its end, or one further when it is empty
      (as `String.prototype.replace` and `matchAll` do; see Findings). */
  function Advance(h: Hit): (next: nat)
    ensures next > h.start && next >= h.End()
  {
    if h.len == 0 then h.start + 1 else h.End()
  }

  /** Matches that lie in [lo, hi), each ending before the next one starts. */
  predicate Ordered(hs: seq<Hit>, lo: nat, hi: nat) {
    && (forall i :: 0 <= i < |hs| ==> lo <= hs[i].start && hs[i].End() <= hi)
    && (forall i, j :: 0 <= i < j < |hs| ==> hs[i].End() <= hs[j].start && hs[i].start < hs[j].start)
  }

  /** The matches the search loop visits on `line` from lastIndex `pos` until exec fails. */
  function HitsFrom(m: Matcher, line: string, pos: nat): (hs: seq<Hit>)
    ensures Ordered(hs, pos, |line|)
    decreases |line| + 1 - pos
  {
    match Exec(m, line, pos)
    case None => []
    case Some(h) => [h] + HitsFrom(m, line, Advance(h))
  }

  /** The search loop moves at least one character per match, so it visits at most
      |line| + 1 - pos matches (at most |line| - pos when no match is empty). */
  lemma {:induction false} HitsFromCount(m: Matcher, line: string, pos: nat)
    requires pos <= |line| + 1
    ensures |HitsFrom(m, line, pos)| <= |line| + 1 - pos
    ensures NoEmptyMatch(m, line) && pos <= |line| ==> |HitsFrom(m, line, pos)| <= |line| - pos
    decreases |line| + 1 - pos
  {
    match Exec(m, line, pos)
    case None =>
    case Some(h) =>
      HitsFromCount(m, line, Advance(h));
  }

  /** The pattern never matches the empty string on `line`. */
  ghost predicate NoEmptyMatch(m: Matcher, line: string) {
    forall pos :: 0 <= pos <= |line| && m(line, pos).Some? ==> m(line, pos).value.len > 0
  }

  /**
   * `line.replace(regex, (m) => `**${m}**`)` for the matches `hs` found from offset `from`:
   * the text between matches is copied and each match is wrapped in "**".
   */
  function Emphasize(line: string, hs: seq<Hit>, from: nat): string
    requires from <= |line| && Spaced(hs, from, |line|)
    decreases |hs|
  {
    if hs == [] then line[from..]
    else
      line[from..hs[0].start] + "**" + line[hs[0].start..hs[0].End()] + "**"
      + Emphasize(line, hs[1..], hs[0].End())
  }

  /** The preview of a line: the line with every match emphasised. */
  function Preview(m: Matcher, line: string): string {
    var hs := HitsFrom(m, line, 0);
    OrderedSpaced(hs, 0, |line|);
    Emphasize(line, hs, 0)
  }

  /** The matches one by one: each starts at or after `lo` (then the previous match's end)
      and ends by `hi`. This is what Emphasize walks through. */
  predicate Spaced(hs: seq<Hit>, lo: nat, hi: nat)
    decreases |hs|
  {
    hs == [] || (lo <= hs[0].start && hs[0].End() <= hi && Spaced(hs[1..], hs[0].End(), hi))
  }

  lemma {:induction false} SpacedBounds(hs: seq<Hit>, lo: nat, hi: nat, i: nat)
    requires Spaced(hs, lo, hi) && i < |hs|
    ensures lo <= hs[i].start && hs[i].End() <= hi
    decreases |hs|
  {
    if i > 0 {
      SpacedBounds(hs[1..], hs[0].End(), hi, i - 1);
    }
  }

  lemma {:induction false} OrderedSpaced(hs: seq<Hit>, lo: nat, hi: nat)
    requires Ordered(hs, lo, hi)
    ensures Spaced(hs, lo, hi)
    decreases |hs|
  {
    if hs != [] {
      OrderedSpaced(hs[1..], hs[0].End(), hi);
    }
  }

  /** The emphasis adds four characters per match and nothing else. */
  lemma {:induction false} EmphasizeLength(line: string, hs: seq<Hit>, from: nat)
    requires from <= |line| && Spaced(hs, from, |line|)
    ensures |Emphasize(line, hs, from)| == |line| - from + 4 * |hs|
    decreases |hs|
  {
    if hs != [] {
      EmphasizeLength(line, hs[1..], hs[0].End());
    }
  }

  /** Match i appears in the preview, wrapped in "**", shifted by the 4 * i characters of
      the markers added before it (character t of the wrapped match). */
  lemma {:induction false} EmphasizeWraps(line: string, hs: seq<Hit>, from: nat, i: nat, t: nat)
    requires from <= |line| && Spaced(hs, from, |line|) && i < |hs| && from <= hs[i].start && hs[i].End() <= |line|
    requires t < hs[i].len + 4
    ensures var p, off := Emphasize(line, hs, from), hs[i].start - from + 4 * i;
      off + t < |p| && p[off + t] == ("**" + line[hs[i].start..hs[i].End()] + "**")[t]
    decreases |hs|
  {
    var head := line[from..hs[0].start] + "**" + line[hs[0].start..hs[0].End()] + "**";
    var tail := Emphasize(line, hs[1..], hs[0].End());
    EmphasizeUnfold(line, hs, from);
    EmphasizeLength(line, hs[1..], hs[0].End());
    if i > 0 {
      SpacedBounds(hs[1..], hs[0].End(), |line|, i - 1);
      EmphasizeWraps(line, hs[1..], hs[0].End(), i - 1, t);
    }
  }

  /** One step of Emphasize: the text before the first match, the wrapped match, the rest. */
  lemma EmphasizeUnfold(line: string, hs: seq<Hit>, from: nat)
    requires from <= |line| && Spaced(hs, from, |line|) && hs != []
    ensures hs[0].End() <= |line| && Spaced(hs[1..], hs[0].End(), |line|)
    ensures var head := line[from..hs[0].start] + "**" + line[hs[0].start..hs[0].End()] + "**";
      && |head| == hs[0].End() - from + 4
      && head[hs[0].start - from..] == "**" + line[hs[0].start..hs[0].End()] + "**"
      && Emphasize(line, hs, from) == head + Emphasize(line, hs[1..], hs[0].End())
  {
  }

  /** The preview is the line plus four marker characters per match. */
  lemma PreviewLength(m: Matcher, line: string)
    ensures |Preview(m, line)| == |line| + 4 * |HitsFrom(m, line, 0)|
  {
    var hs := HitsFrom(m, line, 0);
    OrderedSpaced(hs, 0, |line|);
    EmphasizeLength(line, hs, 0);
  }

  /** Match i of the line appears in the preview as "**" + its text + "**", at its offset in
      the line plus the 4 * i marker characters before it. */
  lemma PreviewWraps(m: Matcher, line: string, i: nat)
    requires i < |HitsFrom(m, line, 0)|
    ensures var h, p := HitsFrom(m, line, 0)[i], Preview(m, line);
      h.start + 4 * i + h.len + 4 <= |p|
      && p[h.start + 4 * i..h.start + 4 * i + h.len + 4] == "**" + line[h.start..h.End()] + "**"
  {
    var hs := HitsFrom(m, line, 0);
    OrderedSpaced(hs, 0, |line|);
    EmphasizeWrapsSlice(line, hs, 0, i);
  }

  lemma EmphasizeWrapsSlice(line: string, hs: seq<Hit>, from: nat, i: nat)
    requires from <= |line| && Spaced(hs, from, |line|) && i < |hs|
    ensures var h, p := hs[i], Emphasize(line, hs, from);
      from <= h.start && h.End() <= |line|
      && h.start - from + 4 * i + h.len + 4 <= |p|
      && p[h.start - from + 4 * i..h.start - from + 4 * i + h.len + 4] == "**" + line[h.start..h.End()] + "**"
  {
    SpacedBounds(hs, from, |line|, i);
    var h, p := hs[i], Emphasize(line, hs, from);
    var wrapped := "**" + line[h.start..h.End()] + "**";
    var off := h.start - from + 4 * i;
    forall t | 0 <= t < |wrapped|
      ensures off + t < |p| && p[off + t] == wrapped[t]
    {
      EmphasizeWraps(line, hs, from, i, t);
    }
    EmphasizeWraps(line, hs, from, i, |wrapped| - 1);
  }

  /** Every character of the line that no match covers is kept in the preview, shifted by the
      markers of the matches that start at or before it. */
  lemma PreviewKeeps(m: Matcher, line: string, k: nat)
    requires k < |line|
    requires forall h :: h in HitsFrom(m, line, 0) ==> !(h.start <= k < h.End())
    ensures var p, at := Preview(m, line), k + 4 * StartedBy(HitsFrom(m, line, 0), k);
      at < |p| && p[at] == line[k]
  {
    var hs := HitsFrom(m, line, 0);
    OrderedSpaced(hs, 0, |line|);
    EmphasizeKeeps(line, hs, 0, k);
  }

  /** How many of the matches start at or before offset k. */
  function StartedBy(hs: seq<Hit>, k: nat): nat {
    if hs == [] then 0 else (if hs[0].start <= k then 1 else 0) + StartedBy(hs[1..], k)
  }

  lemma {:induction false} NoneStartedBefore(hs: seq<Hit>, lo: nat, hi: nat, k: nat)
    requires Spaced(hs, lo, hi) && k < lo
    ensures StartedBy(hs, k) == 0
    decreases |hs|
  {
    if hs != [] {
      NoneStartedBefore(hs[1..], lo, hi, k);
    }
  }

  /** Every character of the line outside the matches is kept, shifted by the markers of the
      matches that start at or before it. */
  lemma {:induction false} EmphasizeKeeps(line: string, hs: seq<Hit>, from: nat, k: nat)
    requires from <= k < |line| && Spaced(hs, from, |line|)
    requires forall h :: h in hs ==> !(h.start <= k < h.End())
    ensures var p, at := Emphasize(line, hs, from), k - from + 4 * StartedBy(hs, k);
      at < |p| && p[at] == line[k]
    decreases |hs|
  {
    EmphasizeLength(line, hs, from);
    if hs != [] {
      var head := line[from..hs[0].start] + "**" + line[hs[0].start..hs[0].End()] + "**";
      var tail := Emphasize(line, hs[1..], hs[0].End());
      assert Emphasize(line, hs, from) == head + tail;
      if k < hs[0].start {
        NoneStartedBefore(hs, hs[0].start, |line|, k);
      } else {
        assert !(hs[0].start <= k < hs[0].End());
        EmphasizeKeeps(line, hs[1..], hs[0].End(), k);
      }
    }
  }

  // ---------------------------------------------------------------------------
  // The search loop as written (src/commands/searchAndJump.ts:80). With the `g` flag, exec
  // leaves lastIndex at the end of the match, so an empty match leaves it where it was and
  // the next exec returns the same empty match again.

  /** The matches the loop `while ((match = regex.exec(lineText)) !== null)` pushes in its
      first `fuel` iterations, lastIndex set to the match's end after each one. */
  function ExecRun(m: Matcher, line: string, lastIndex: nat, fuel: nat): (hs: seq<Hit>)
    ensures |hs| <= fuel
    decreases fuel
  {
    if fuel == 0 then []
    else match Exec(m, line, lastIndex)
      case None => []
      case Some(h) => [h] + ExecRun(m, line, h.End(), fuel - 1)
  }

  /** An empty match at lastIndex repeats forever: every iteration finds it again, so the
      loop never reaches its exit. */
  lemma {:induction false} EmptyMatchRepeats(m: Matcher, line: string, p: nat, fuel: nat)
    requires p <= |line| && m(line, p) == Some(Hit(p, 0))
    ensures ExecRun(m, line, p, fuel) == seq(fuel, _ => Hit(p, 0))
    decreases fuel
  {
    if fuel > 0 {
      EmptyMatchRepeats(m, line, p, fuel - 1);
    }
  }

  /** The number of x or X characters from `pos` on. */
  function XRun(line: string, pos: nat): (n: nat)
    requires pos <= |line|
    ensures pos + n <= |line|
    decreases |line| - pos
  {
    if pos < |line| && (line[pos] == 'x' || line[pos] == 'X') then 1 + XRun(line, pos + 1) else 0
  }

  /** The pattern `x*` with flags `gi`: it matches, possibly emptily, at every position. */
  const XStar: Matcher := (line: string, pos: nat) =>
    if pos <= |line| then Some(Hit(pos, XRun(line, pos))) else None

  /** Searching `x*` on the line "ab": however many iterations run, each one finds a match,
      so the search loop never ends. */
  lemma XStarNeverStops(fuel: nat)
    ensures |ExecRun(XStar, "ab", 0, fuel)| == fuel
  {
    var line := "ab";
    assert line[0] == 'a';
    assert XRun(line, 0) == 0;
    EmptyMatchRepeats(XStar, line, 0, fuel);
  }

  /** Wherever the loop as written does end (no empty match), it visits exactly the matches
      HitsFrom visits. */
  lemma {:induction false} ExecRunAgrees(m: Matcher, line: string, pos: nat, fuel: nat)
    requires NoEmptyMatch(m, line) && |line| + 1 - pos <= fuel
    ensures ExecRun(m, line, pos, fuel) == HitsFrom(m, line, pos)
    decreases fuel
  {
    match Exec(m, line, pos)
    case None =>
    case Some(h) =>
      ExecRunAgrees(m, line, h.End(), fuel - 1);
  }

  // ---------------------------------------------------------------------------
  // A pattern made of letters, digits and spaces only: under the `gi` flags it matches its
  // own text, with ASCII letters compared without case.

  function Fold(c: char): char {
    if 'A' <= c <= 'Z' then (c as int + 32) as char else c
  }

  /** The pattern's text occurs, ignoring case, at offset i of the line. */
  predicate LiteralAt(line: string, pat: string, i: nat) {
    i + |pat| <= |line| && forall k :: 0 <= k < |pat| ==> Fold(line[i + k]) == Fold(pat[k])
  }

  /** The leftmost occurrence at or after `pos`. */
  function FindFrom(line: string, pat: string, pos: nat): (r: Option<nat>)
    ensures r.Some? ==> pos <= r.value && LiteralAt(line, pat, r.value)
    ensures r.Some? ==> forall j :: pos <= j < r.value ==> !LiteralAt(line, pat, j)
    ensures r.None? ==> forall j :: pos <= j ==> !LiteralAt(line, pat, j)
    decreases |line| - pos
  {
    if pos + |pat| > |line| then None
    else if LiteralAt(line, pat, pos) then Some(pos)
    else FindFrom(line, pat, pos + 1)
  }

  function LiteralSearch(pat: string, line: string, pos: nat): (found: Option<Hit>)
    ensures found.Some? ==> pos <= found.value.start && found.value.End() <= |line|
  {
    match FindFrom(line, pat, pos)
    case Some(i) => Some(Hit(i, |pat|))
    case None => None
  }

  /** The matcher of such a pattern. */
  function Literal(pat: string): Matcher {
    (line: string, pos: nat) => LiteralSearch(pat, line, pos)
  }

  /** A match at `pos`: the visited matches are that one, then those past it. */
  lemma HitsFromNext(m: Matcher, line: string, pos: nat, h: Hit)
    requires pos <= |line| && m(line, pos) == Some(h)
    ensures HitsFrom(m, line, pos) == [h] + HitsFrom(m, line, Advance(h))
  {
  }

  /** No match at `pos`: nothing more is visited. */
  lemma HitsFromEnd(m: Matcher, line: string, pos: nat)
    requires pos <= |line| ==> m(line, pos) == None
    ensures HitsFrom(m, line, pos) == []
  {
  }

  lemma LiteralApply(pat: string, line: string, pos: nat)
    ensures Literal(pat)(line, pos) == LiteralSearch(pat, line, pos)
  {
  }

  /** Searching "foo" in "foo bar foo": from 0 the first match is at 0, from 3 it is at 8,
      from 11 there is none. */
  lemma FooBarFooSearches()
    ensures FindFrom("foo bar foo", "foo", 0) == Some(0)
    ensures FindFrom("foo bar foo", "foo", 3) == Some(8)
    ensures FindFrom("foo bar foo", "foo", 11) == None
  {
    var line := "foo bar foo";
    assert LiteralAt(line, "foo", 0);
    assert LiteralAt(line, "foo", 8);
    forall j | 3 <= j < 8 ensures !LiteralAt(line, "foo", j) {
      assert Fold(line[j]) != Fold("foo"[0]);
    }
  }

  /** "foo" on the line "foo bar foo" matches at [0, 3) and [8, 11). */
  lemma FooBarFooHits()
    ensures HitsFrom(Literal("foo"), "foo bar foo", 0) == [Hit(0, 3), Hit(8, 3)]
  {
    var line, m := "foo bar foo", Literal("foo");
    FooBarFooSearches();
    assert LiteralSearch("foo", line, 0) == Some(Hit(0, 3));
    assert LiteralSearch("foo", line, 3) == Some(Hit(8, 3));
    assert LiteralSearch("foo", line, 11) == None;
    LiteralApply("foo", line, 0);
    LiteralApply("foo", line, 3);
    LiteralApply("foo", line, 11);
    HitsFromNext(m, line, 0, Hit(0, 3));
    HitsFromNext(m, line, 3, Hit(8, 3));
    HitsFromEnd(m, line, 11);
    assert Advance(Hit(0, 3)) == 3 && Advance(Hit(8, 3)) == 11;
    var rest := HitsFrom(m, line, 3);
    assert rest == [Hit(8, 3)];
    assert HitsFrom(m, line, 0) == [Hit(0, 3)] + rest;
  }

  /** ... and its preview is "**foo** bar **foo**". */
  lemma FooBarFooPreview()
    ensures Preview(Literal("foo"), "foo bar foo") == "**foo** bar **foo**"
  {
    FooBarFooHits();
    FooBarFooEmphasis();
  }

  /** Emphasising [0, 3) and [8, 11) of "foo bar foo". */
  lemma FooBarFooEmphasis()
    ensures Emphasize("foo bar foo", [Hit(0, 3), Hit(8, 3)], 0) == "**foo** bar **foo**"
  {
    var line, hs := "foo bar foo", [Hit(0, 3), Hit(8, 3)];
    assert Emphasize(line, hs, 0) == "**foo**" + " bar **foo**" by {
      FooBarFooEmphasisTail();
      assert line[0..0] == "" && line[0..3] == "foo";
      assert hs[1..] == [Hit(8, 3)];
      assert "" + "**" + "foo" + "**" == "**foo**";
    }
    FooBarFooJoin();
  }

  /** The two halves of the emphasised line put together. */
  lemma FooBarFooJoin()
    ensures "**foo**" + " bar **foo**" == "**foo** bar **foo**"
  {
  }

  /** Emphasising [8, 11) of "foo bar foo" from offset 3. */
  lemma FooBarFooEmphasisTail()
    ensures Emphasize("foo bar foo", [Hit(8, 3)], 3) == " bar **foo**"
  {
    var line := "foo bar foo";
    assert line[3..8] == " bar " && line[8..11] == "foo";
    assert Emphasize(line, [], 11) == [];
  }
}
