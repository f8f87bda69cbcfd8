/**
 * The scan of the search command (src/commands/searchAndJump.ts:64-100): every file, every
 * line, every match on the line, one result record per match.
 */
module Scanner {
  import opened Editor
  import opened JsText
  import opened Matching
  import opened Sequences

  /** One entry of `results`. */
  datatype Record = Record(labelText: string, description: string, detail: string, uri: Uri, range: Range, preview: string)

  /** The label of a result: the matched text, the arrow, the file's relative path and the
      1-based line number. */
  function Label(matched: string, relPath: string, lineNo: nat): string {
    matched + " " + Arrow + " " + relPath + ":" + Decimal(lineNo)
  }

  /** The record pushed for match `h` on line `lineNum` (0-based) of the file `uri`. */
  function MakeRecord(m: Matcher, relPath: string, uri: Uri, lineNum: nat, lineText: string, h: Hit): (r: Record)
    requires h.End() <= |lineText|
    ensures r.uri == uri
    ensures r.range.start == Position(lineNum, h.start) && r.range.end == Position(lineNum, h.End())
    ensures r.description == "Line " + Decimal(lineNum + 1)
    ensures |r.description| > 5 && r.description[..5] == "Line "
    ensures var lineNo := r.description[5..];
      (forall k :: 0 <= k < |lineNo| ==> IsDigit(lineNo[k])) && DecimalValue(lineNo) == r.range.start.line + 1
    ensures r.labelText == lineText[r.range.start.character..r.range.end.character] + " " + Arrow + " " + relPath + ":" + r.description[5..]
    ensures r.preview == Preview(m, lineText) && r.detail == Trim(lineText)
  {
    DecimalRoundTrip(lineNum + 1);
    Record(
      Label(lineText[h.start..h.End()], relPath, lineNum + 1),
      "Line " + Decimal(lineNum + 1),
      Trim(lineText),
      uri,
      Range(Position(lineNum, h.start), Position(lineNum, h.End())),
      Preview(m, lineText))
  }

  /** The records for the matches `hs` of one line, in order. */
  function LineRecords(m: Matcher, relPath: string, uri: Uri, lineNum: nat, lineText: string, hs: seq<Hit>): (rs: seq<Record>)
    requires forall i :: 0 <= i < |hs| ==> hs[i].End() <= |lineText|
    ensures |rs| == |hs|
  {
    if hs == [] then [] else [MakeRecord(m, relPath, uri, lineNum, lineText, hs[0])] + LineRecords(m, relPath, uri, lineNum, lineText, hs[1..])
  }

  lemma {:induction false} LineRecordsAt(m: Matcher, relPath: string, uri: Uri, lineNum: nat, lineText: string, hs: seq<Hit>, i: nat)
    requires forall j :: 0 <= j < |hs| ==> hs[j].End() <= |lineText|
    requires i < |hs|
    ensures LineRecords(m, relPath, uri, lineNum, lineText, hs)[i] == MakeRecord(m, relPath, uri, lineNum, lineText, hs[i])
    decreases |hs|
  {
    if i > 0 {
      LineRecordsAt(m, relPath, uri, lineNum, lineText, hs[1..], i - 1);
    }
  }

  /** Record a comes before record b in a file's results: an earlier line, or the same line
      and a match that ends before b's starts. */
  predicate Precedes(a: Record, b: Record) {
    || a.range.start.line < b.range.start.line
    || (&& a.range.start.line == b.range.start.line
        && a.range.end.character <= b.range.start.character
        && a.range.start.character < b.range.start.character)
  }

  /** Every record of rs comes before every later one. */
  predicate InOrder(rs: seq<Record>) {
    forall i, j :: 0 <= i < j < |rs| ==> Precedes(rs[i], rs[j])
  }

  /** Every record of rs points into file `uri` at a line in [lo, hi). */
  predicate OnLines(rs: seq<Record>, uri: Uri, lo: nat, hi: nat) {
    forall i :: 0 <= i < |rs| ==> rs[i].uri == uri && lo <= rs[i].range.start.line < hi
  }

  /** A line's records lie on that line of that file, in match order, without overlapping. */
  lemma LineRecordsOrdered(m: Matcher, relPath: string, uri: Uri, lineNum: nat, lineText: string, hs: seq<Hit>)
    requires Ordered(hs, 0, |lineText|)
    ensures var rs := LineRecords(m, relPath, uri, lineNum, lineText, hs);
      OnLines(rs, uri, lineNum, lineNum + 1) && InOrder(rs)
  {
    var rs := LineRecords(m, relPath, uri, lineNum, lineText, hs);
    forall i | 0 <= i < |rs| ensures rs[i] == MakeRecord(m, relPath, uri, lineNum, lineText, hs[i]) {
      LineRecordsAt(m, relPath, uri, lineNum, lineText, hs, i);
    }
  }

  /** Records of earlier lines followed by the records of one later line stay in order. */
  lemma InOrderAppend(a: seq<Record>, b: seq<Record>, uri: Uri, k: nat)
    requires OnLines(a, uri, 0, k) && InOrder(a)
    requires OnLines(b, uri, k, k + 1) && InOrder(b)
    ensures OnLines(a + b, uri, 0, k + 1) && InOrder(a + b)
  {
    var rs := a + b;
    forall i, j | 0 <= i < j < |rs|
      ensures Precedes(rs[i], rs[j])
    {
      if j < |a| {
        assert rs[i] == a[i] && rs[j] == a[j];
      } else if i < |a| {
        assert rs[i] == a[i] && rs[j] == b[j - |a|];
      } else {
        assert rs[i] == b[i - |a|] && rs[j] == b[j - |a|];
      }
    }
  }

  /** A file's records: all on lines of that file, ordered by line and, within a line, by
      match position, with no two matches of a line overlapping. */
  lemma {:induction false} FileRecordsOrdered(m: Matcher, relPath: string, uri: Uri, lines: seq<string>, n: nat)
    requires n <= |lines|
    ensures var rs := FileRecords(m, relPath, uri, lines, n);
      OnLines(rs, uri, 0, n) && InOrder(rs)
  {
    if n > 0 {
      var k := n - 1;
      var a := FileRecords(m, relPath, uri, lines, k);
      assert OnLines(a, uri, 0, k) && InOrder(a) by {
        FileRecordsOrdered(m, relPath, uri, lines, k);
      }
      var hs := HitsFrom(m, lines[k], 0);
      var b := LineRecords(m, relPath, uri, k, lines[k], hs);
      assert OnLines(b, uri, k, n) && InOrder(b) by {
        LineRecordsOrdered(m, relPath, uri, k, lines[k], hs);
      }
      InOrderAppend(a, b, uri, k);
    }
  }

  /** Scanning more files appends their records after the earlier files' records. */
  lemma AllRecordsAppend(m: Matcher, open: Uri -> seq<string>, rel: Uri -> string, a: seq<Uri>, b: seq<Uri>)
    ensures AllRecords(m, open, rel, a + b) == AllRecords(m, open, rel, a) + AllRecords(m, open, rel, b)
  {
    ConcatMapAppend(FileOf(m, open, rel), a, b);
  }

  /** None of the first `n` lines has a match. */
  predicate NoMatchOnLines(m: Matcher, lines: seq<string>, n: nat)
    requires n <= |lines|
  {
    forall l :: 0 <= l < n ==> |HitsFrom(m, lines[l], 0)| == 0
  }

  /** The first `n` lines yield no record exactly when none of them has a match. */
  predicate EmptyIffUnmatched(m: Matcher, relPath: string, uri: Uri, lines: seq<string>, n: nat)
    requires n <= |lines|
  {
    |FileRecords(m, relPath, uri, lines, n)| == 0 <==> NoMatchOnLines(m, lines, n)
  }

  /** A file has no record exactly when none of its lines has a match. */
  lemma FileRecordsEmpty(m: Matcher, relPath: string, uri: Uri, lines: seq<string>, n: nat)
    requires n <= |lines|
    ensures FileRecords(m, relPath, uri, lines, n) == [] <==> NoMatchOnLines(m, lines, n)
  {
    EmptyExactlyUnmatched(m, relPath, uri, lines, n);
  }

  /** EmptyIffUnmatched for every prefix of the file, by induction on the number of lines. */
  lemma EmptyExactlyUnmatched(m: Matcher, relPath: string, uri: Uri, lines: seq<string>, n: nat)
    requires n <= |lines|
    ensures EmptyIffUnmatched(m, relPath, uri, lines, n)
  {
    FileRecordsEmptyBase(m, relPath, uri, lines);
    var k := 0;
    while k < n
      invariant k <= n && EmptyIffUnmatched(m, relPath, uri, lines, k)
    {
      FileRecordsEmptyStep(m, relPath, uri, lines, k + 1);
      k := k + 1;
    }
  }

  /** The base case: no line, no record, and nothing to match. */
  lemma FileRecordsEmptyBase(m: Matcher, relPath: string, uri: Uri, lines: seq<string>)
    ensures EmptyIffUnmatched(m, relPath, uri, lines, 0)
  {
    assert FileRecords(m, relPath, uri, lines, 0) == [];
  }

  /** The inductive step: the equivalence for `n - 1` lines carries over to `n`. */
  lemma FileRecordsEmptyStep(m: Matcher, relPath: string, uri: Uri, lines: seq<string>, n: nat)
    requires 0 < n <= |lines|
    requires EmptyIffUnmatched(m, relPath, uri, lines, n - 1)
    ensures EmptyIffUnmatched(m, relPath, uri, lines, n)
  {
    FileRecordsLast(m, relPath, uri, lines, n);
    NoMatchOnLinesLast(m, lines, n);
  }

  /** The first `n` lines have no record exactly when the first `n - 1` have none and line
      `n - 1` has no match. */
  lemma FileRecordsLast(m: Matcher, relPath: string, uri: Uri, lines: seq<string>, n: nat)
    requires 0 < n <= |lines|
    ensures |FileRecords(m, relPath, uri, lines, n)| == 0
      <==> |FileRecords(m, relPath, uri, lines, n - 1)| == 0 && |HitsFrom(m, lines[n - 1], 0)| == 0
  {
    var hs := HitsFrom(m, lines[n - 1], 0);
    var a := FileRecords(m, relPath, uri, lines, n - 1);
    var b := LineRecords(m, relPath, uri, n - 1, lines[n - 1], hs);
    assert FileRecords(m, relPath, uri, lines, n) == a + b;
    assert |a + b| == |a| + |hs|;
  }

  /** The first `n` lines have no match exactly when the first `n - 1` have none and line
      `n - 1` has none either. */
  lemma NoMatchOnLinesLast(m: Matcher, lines: seq<string>, n: nat)
    requires 0 < n <= |lines|
    ensures NoMatchOnLines(m, lines, n) <==> NoMatchOnLines(m, lines, n - 1) && |HitsFrom(m, lines[n - 1], 0)| == 0
  {
  }

  /** No record at all exactly when no line of any file has a match. */
  lemma AllRecordsEmpty(m: Matcher, open: Uri -> seq<string>, rel: Uri -> string, uris: seq<Uri>)
    ensures AllRecords(m, open, rel, uris) == []
        <==> forall f, l :: 0 <= f < |uris| && 0 <= l < |open(uris[f])| ==> HitsFrom(m, open(uris[f])[l], 0) == []
  {
    ConcatMapEmpty(FileOf(m, open, rel), uris);
    forall f | 0 <= f < |uris|
      ensures FileOf(m, open, rel)(uris[f]) == [] <==> forall l :: 0 <= l < |open(uris[f])| ==> HitsFrom(m, open(uris[f])[l], 0) == []
    {
      var u := uris[f];
      FileRecordsEmpty(m, rel(u), u, open(u), |open(u)|);
    }
  }

  /** Record r lies on a match in the file `uri` with lines `lines`: on one of its lines,
      over exactly the characters of one of the matches the scan visits on that line. */
  predicate AtMatch(m: Matcher, r: Record, uri: Uri, lines: seq<string>) {
    && r.uri == uri
    && r.range.start.line < |lines|
    && exists h :: h in HitsFrom(m, lines[r.range.start.line], 0)
         && r.range == Range(Position(r.range.start.line, h.start), Position(r.range.start.line, h.End()))
  }

  lemma LineRecordsAtMatches(m: Matcher, relPath: string, uri: Uri, lines: seq<string>, k: nat)
    requires k < |lines|
    ensures forall r :: r in LineRecords(m, relPath, uri, k, lines[k], HitsFrom(m, lines[k], 0)) ==> AtMatch(m, r, uri, lines)
  {
    var hs := HitsFrom(m, lines[k], 0);
    var rs := LineRecords(m, relPath, uri, k, lines[k], hs);
    forall i | 0 <= i < |rs| ensures AtMatch(m, rs[i], uri, lines) {
      LineRecordsAt(m, relPath, uri, k, lines[k], hs, i);
      assert hs[i] in hs;
    }
  }

  lemma {:induction false} FileRecordsAtMatches(m: Matcher, relPath: string, uri: Uri, lines: seq<string>, n: nat)
    requires n <= |lines|
    ensures forall r :: r in FileRecords(m, relPath, uri, lines, n) ==> AtMatch(m, r, uri, lines)
  {
    if n > 0 {
      FileRecordsAtMatches(m, relPath, uri, lines, n - 1);
      LineRecordsAtMatches(m, relPath, uri, lines, n - 1);
    }
  }

  /** Every record of the scan lies on a match in one of the scanned files. */
  lemma AllRecordsAtMatches(m: Matcher, open: Uri -> seq<string>, rel: Uri -> string, uris: seq<Uri>)
    ensures forall r :: r in AllRecords(m, open, rel, uris) ==> r.uri in uris && AtMatch(m, r, r.uri, open(r.uri))
  {
    ConcatMapMember(FileOf(m, open, rel), uris);
    forall r | r in AllRecords(m, open, rel, uris)
      ensures r.uri in uris && AtMatch(m, r, r.uri, open(r.uri))
    {
      var u :| u in uris && r in FileOf(m, open, rel)(u);
      FileRecordsAtMatches(m, rel(u), u, open(u), |open(u)|);
    }
  }

  /** One turn of the match loop: the records still to come from `lastIndex` are the record
      of the match found there followed by those from past it. */
  lemma LineRecordsStep(m: Matcher, relPath: string, uri: Uri, lineNum: nat, lineText: string, lastIndex: nat)
    requires Exec(m, lineText, lastIndex).Some?
    ensures var h := Exec(m, lineText, lastIndex).value;
      LineRecords(m, relPath, uri, lineNum, lineText, HitsFrom(m, lineText, lastIndex))
      == [MakeRecord(m, relPath, uri, lineNum, lineText, h)] + LineRecords(m, relPath, uri, lineNum, lineText, HitsFrom(m, lineText, Advance(h)))
  {
    var h := Exec(m, lineText, lastIndex).value;
    var rest := HitsFrom(m, lineText, Advance(h));
    assert HitsFrom(m, lineText, lastIndex) == [h] + rest;
    assert ([h] + rest)[1..] == rest;
  }

  /** The records of the first `n` lines of one file. */
  function FileRecords(m: Matcher, relPath: string, uri: Uri, lines: seq<string>, n: nat): seq<Record>
    requires n <= |lines|
  {
    if n == 0 then []
    else
      var hs := HitsFrom(m, lines[n - 1], 0);
      FileRecords(m, relPath, uri, lines, n - 1) + LineRecords(m, relPath, uri, n - 1, lines[n - 1], hs)
  }

  /** The records of one whole file, as a function of its uri. `open` gives a file's lines
      (`openTextDocument` and `lineAt`), `rel` its label path. */
  function FileOf(m: Matcher, open: Uri -> seq<string>, rel: Uri -> string): Uri -> seq<Record> {
    u => FileRecords(m, rel(u), u, open(u), |open(u)|)
  }

  /** The records of all files, in file order. */
  function AllRecords(m: Matcher, open: Uri -> seq<string>, rel: Uri -> string, uris: seq<Uri>): seq<Record>
  {
    ConcatMap(FileOf(m, open, rel), uris)
  }

  /** The file loop (`for (const uri of uris)`): each file's records pushed onto `results`. */
  method ScanFiles(m: Matcher, open: Uri -> seq<string>, rel: Uri -> string, uris: seq<Uri>)
    returns (results: seq<Record>)
    ensures results == AllRecords(m, open, rel, uris)
  {
    results := [];
    for f := 0 to |uris|
      invariant results == AllRecords(m, open, rel, uris[..f])
    {
      var uri := uris[f];
      var fileResults := ScanFile(m, rel(uri), uri, open(uri));
      assert uris[..f + 1][..f] == uris[..f];
      results := results + fileResults;
    }
    assert uris[..|uris|] == uris;
  }

  /** The line loop of one file (`for (let lineNum = 0; lineNum < doc.lineCount; lineNum++)`). */
  method ScanFile(m: Matcher, relPath: string, uri: Uri, lines: seq<string>)
    returns (results: seq<Record>)
    ensures results == FileRecords(m, relPath, uri, lines, |lines|)
  {
    results := [];
    for lineNum := 0 to |lines|
      invariant results == FileRecords(m, relPath, uri, lines, lineNum)
    {
      var lineResults := ScanLine(m, relPath, uri, lineNum, lines[lineNum]);
      results := results + lineResults;
    }
  }

  /** The match loop of one line: `regex.exec` from lastIndex 0 until it fails, one record
      per match, lastIndex moved past each match. */
  method ScanLine(m: Matcher, relPath: string, uri: Uri, lineNum: nat, lineText: string)
    returns (results: seq<Record>)
    ensures results == LineRecords(m, relPath, uri, lineNum, lineText, HitsFrom(m, lineText, 0))
  {
    results := [];
    var lastIndex := 0;
    var found := Exec(m, lineText, lastIndex);
    while found.Some?
      invariant lastIndex <= |lineText| + 1
      invariant found == Exec(m, lineText, lastIndex)
      invariant results + LineRecords(m, relPath, uri, lineNum, lineText, HitsFrom(m, lineText, lastIndex))
                == LineRecords(m, relPath, uri, lineNum, lineText, HitsFrom(m, lineText, 0))
      decreases |lineText| + 1 - lastIndex
    {
      var h := found.value;
      var record := MakeRecord(m, relPath, uri, lineNum, lineText, h);
      LineRecordsStep(m, relPath, uri, lineNum, lineText, lastIndex);
      results := results + [record];
      lastIndex := Advance(h);
      found := Exec(m, lineText, lastIndex);
    }
  }
}
