/** Splitting oversized text under a size limit: on lines, and for a file's diff on hunks. */
module DiffSplitter {
  import opened Sequences

  // ----- lines

  predicate IsLineBreak(c: char) {
    c == '\n' || c == '\r' || c == '\U{0b}' || c == '\U{0c}' || c == '\U{1c}' || c == '\U{1d}' || c == '\U{1e}'
    || c == '\U{85}' || c == '\U{2028}' || c == '\U{2029}'
  }

  /** The length of the first line, its line break included; a carriage return and line feed are one break. */
  function FirstLine(text: string): (n: nat)
    requires text != ""
    ensures 1 <= n <= |text|
  {
    if text[0] == '\r' && |text| > 1 && text[1] == '\n' then 2
    else if IsLineBreak(text[0]) || |text| == 1 then 1
    else 1 + FirstLine(text[1..])
  }

  /** `text.splitlines(keepends=True)` */
  function SplitLines(text: string): (lines: seq<string>)
    ensures Join(lines) == text
    ensures forall l | l in lines :: l != ""
  {
    if text == "" then []
    else
      var n := FirstLine(text);
      assert text == text[..n] + text[n..];
      [text[..n]] + SplitLines(text[n..])
  }

  predicate IsReturnAndFeed(text: string, i: nat) {
    i + 1 < |text| && text[i] == '\r' && text[i + 1] == '\n'
  }

  /** A line has a break nowhere but at its end. */
  predicate IsLine(line: string) {
    line != "" && forall i: nat | i + 1 < |line| && IsLineBreak(line[i]) :: i + 2 == |line| && IsReturnAndFeed(line, i)
  }

  lemma {:induction false} FirstLineIsALine(text: string)
    requires text != ""
    ensures var n := FirstLine(text);
            && IsLine(text[..n])
            && (n < |text| ==> IsLineBreak(text[n - 1]) && !IsReturnAndFeed(text, n - 1))
  {
    var n := FirstLine(text);
    if !IsReturnAndFeed(text, 0) && !IsLineBreak(text[0]) && |text| > 1 {
      FirstLineIsALine(text[1..]);
      forall i: nat | i + 1 < n && IsLineBreak(text[..n][i])
        ensures i + 2 == n && IsReturnAndFeed(text[..n], i)
      {
        assert text[1..][..n - 1][i - 1] == text[i];
        assert IsReturnAndFeed(text[1..][..n - 1], i - 1);
      }
      assert n < |text| ==> (IsReturnAndFeed(text[1..], n - 2) <==> IsReturnAndFeed(text, n - 1));
    }
  }

  /** The line ends in a break that does not go on in the next one. */
  predicate EndsBefore(line: string, next: string)
    requires line != ""
  {
    var last := line[|line| - 1];
    IsLineBreak(last) && next != "" && !(last == '\r' && next[0] == '\n')
  }

  /** Every line but the last ends in a break, and no line feed is parted from its carriage return. */
  lemma {:induction false} LinesEndInBreaks(text: string, k: nat)
    requires k < |SplitLines(text)|
    ensures var lines := SplitLines(text);
            IsLine(lines[k]) && (k + 1 < |lines| ==> EndsBefore(lines[k], lines[k + 1]))
  {
    var n := FirstLine(text);
    FirstLineIsALine(text);
    if k > 0 {
      LinesEndInBreaks(text[n..], k - 1);
    } else if n < |text| {
      assert SplitLines(text)[1][0] == text[n];
    }
  }

  /** Where line `j` starts. */
  function LineStart(lines: seq<string>, j: nat): nat
    requires j <= |lines|
  {
    |Join(lines[..j])|
  }

  lemma NextLineStart(lines: seq<string>, j: nat)
    requires j < |lines|
    ensures Join(lines[..j + 1]) == Join(lines[..j]) + lines[j]
  {
    assert lines[..j + 1] == lines[..j] + [lines[j]];
    JoinOfMore(lines[..j], lines[j]);
  }

  /** A cut at a line start is called for: the line would not fit the piece before, or follows an oversized one. */
  predicate BetweenLines(lines: seq<string>, max: nat, piece: string, pos: nat, j: nat) {
    j <= |lines| && LineStart(lines, j) == pos
    && ((j < |lines| && |piece| + |lines[j]| > max) || (j > 0 && |lines[j - 1]| > max))
  }

  predicate IsMultiple(n: nat, unit: nat)
    requires unit > 0
  {
    n == 0 || (n >= unit && IsMultiple(n - unit, unit))
  }

  /** A cut inside a line is called for: the line is oversized and is cut every `max` characters. */
  predicate InsideLine(lines: seq<string>, max: nat, pos: nat, j: nat)
    requires max > 0
  {
    j < |lines| && |lines[j]| > max && LineStart(lines, j) < pos < LineStart(lines, j) + |lines[j]|
    && IsMultiple(pos - LineStart(lines, j), max)
  }

  ghost predicate CutAllowed(lines: seq<string>, max: nat, piece: string, pos: nat)
    requires max > 0
  {
    (exists j :: BetweenLines(lines, max, piece, pos, j)) || (exists j :: InsideLine(lines, max, pos, j))
  }

  /** Pieces within the limit and not empty, cut nowhere but where a cut is called for. */
  ghost predicate Pieces(lines: seq<string>, max: nat, pieces: seq<string>)
    requires max > 0
  {
    && (forall k | 0 <= k < |pieces| :: 0 < |pieces[k]| <= max)
    && (forall k | 0 < k < |pieces| :: CutAllowed(lines, max, pieces[k - 1], |Join(pieces[..k])|))
  }

  lemma AddPiece(lines: seq<string>, max: nat, pieces: seq<string>, piece: string)
    requires max > 0 && Pieces(lines, max, pieces) && 0 < |piece| <= max
    requires pieces != [] ==> CutAllowed(lines, max, pieces[|pieces| - 1], |Join(pieces)|)
    ensures Pieces(lines, max, pieces + [piece])
    ensures Join(pieces + [piece]) == Join(pieces) + piece
  {
    var more := pieces + [piece];
    JoinOfMore(pieces, piece);
    forall k | 0 < k < |more|
      ensures CutAllowed(lines, max, more[k - 1], |Join(more[..k])|)
    {
      assert more[..k] == if k == |pieces| then pieces else pieces[..k];
    }
  }

  /** What has been cut so far is text `done`, and a piece may be cut off there. */
  ghost predicate CutUpTo(lines: seq<string>, max: nat, pieces: seq<string>, done: string)
    requires max > 0
  {
    && Pieces(lines, max, pieces) && Join(pieces) == done
    && (pieces != [] ==> CutAllowed(lines, max, pieces[|pieces| - 1], |done|))
  }

  /** One more slice of the oversized line `i`. */
  lemma AddSlice(lines: seq<string>, max: nat, i: nat, pieces: seq<string>, start: nat, end: nat)
    requires max > 0 && i < |lines| && |lines[i]| > max && start < end <= |lines[i]| && end - start <= max
    requires IsMultiple(start, max) && (end == |lines[i]| || end == start + max)
    requires CutUpTo(lines, max, pieces, Join(lines[..i]) + lines[i][..start])
    ensures CutUpTo(lines, max, pieces + [lines[i][start..end]], Join(lines[..i]) + lines[i][..end])
  {
    var line := lines[i];
    AddPiece(lines, max, pieces, line[start..end]);
    assert line[..end] == line[..start] + line[start..end];
    Associative(Join(lines[..i]), line[..start], line[start..end]);
    NextLineStart(lines, i);
    if end < |line| {
      assert InsideLine(lines, max, LineStart(lines, i) + end, i);
    } else {
      assert line[..end] == line;
      assert BetweenLines(lines, max, line[start..end], LineStart(lines, i + 1), i + 1);
    }
  }

  /** The hard split of an oversized line. */
  method SplitLongLine(ghost lines: seq<string>, max: nat, ghost i: nat, line: string, before: seq<string>)
      returns (pieces: seq<string>)
    requires max > 0 && i < |lines| && line == lines[i] && |line| > max
    requires CutUpTo(lines, max, before, Join(lines[..i]))
    ensures CutUpTo(lines, max, pieces, Join(lines[..i + 1]))
  {
    pieces := before;
    var start := 0;
    NextLineStart(lines, i);
    assert line[..0] == "" && Join(lines[..i]) + "" == Join(lines[..i]);
    while start < |line|
      invariant IsMultiple(start, max)
      invariant start < |line| ==> CutUpTo(lines, max, pieces, Join(lines[..i]) + line[..start])
      invariant start >= |line| ==> CutUpTo(lines, max, pieces, Join(lines[..i + 1]))
      decreases |line| - start
    {
      var end := if start + max <= |line| then start + max else |line|;
      AddSlice(lines, max, i, pieces, start, end);
      pieces := pieces + [line[start..end]];
      start := start + max;
      assert end == |line| ==> line[..end] == line;
    }
  }

  /** A line that does not fit the current piece: the piece is cut off before it. */
  lemma FlushBefore(lines: seq<string>, max: nat, i: nat, pieces: seq<string>, current: string)
    requires max > 0 && i < |lines| && Pieces(lines, max, pieces)
    requires pieces != [] ==> CutAllowed(lines, max, pieces[|pieces| - 1], |Join(pieces)|)
    requires Join(pieces) + current == Join(lines[..i]) && 0 < |current| <= max && |current| + |lines[i]| > max
    ensures CutUpTo(lines, max, pieces + [current], Join(lines[..i]))
  {
    AddPiece(lines, max, pieces, current);
    assert BetweenLines(lines, max, current, LineStart(lines, i), i);
  }

  /** The loop's state: `pieces` cut off so far, and the lines of the piece being filled. */
  ghost predicate Filling(lines: seq<string>, max: nat, pieces: seq<string>, current: seq<string>, i: nat)
    requires max > 0 && i <= |lines|
  {
    && |Join(current)| <= max && (current != [] <==> Join(current) != "")
    && Pieces(lines, max, pieces) && Join(pieces) + Join(current) == Join(lines[..i])
    && (pieces != [] ==> CutAllowed(lines, max, pieces[|pieces| - 1], |Join(pieces)|))
  }

  /** One turn of the loop over the lines. */
  method TakeLine(ghost lines: seq<string>, max: nat, ghost i: nat, line: string, before: seq<string>, filling: seq<string>)
      returns (pieces: seq<string>, current: seq<string>)
    requires max > 0 && i < |lines| && line == lines[i] && line != ""
    requires Filling(lines, max, before, filling, i)
    ensures Filling(lines, max, pieces, current, i + 1)
  {
    pieces, current := before, filling;
    var currentSize := |Join(current)|;
    NextLineStart(lines, i);
    if |line| > max {
      if currentSize > 0 {
        FlushBefore(lines, max, i, pieces, Join(current));
        pieces, current := pieces + [Join(current)], [];
      }
      pieces := SplitLongLine(lines, max, i, line, pieces);
      return;
    }
    if currentSize + |line| > max && currentSize > 0 {
      FlushBefore(lines, max, i, pieces, Join(current));
      pieces, current := pieces + [Join(current)], [];
    }
    JoinOfMore(current, line);
    Associative(Join(pieces), Join(current), line);
    current := current + [line];
  }

  /**
   The pieces join to the text and keep within the limit; a piece ends at the end of a line, and
   only because the next line would not fit it or one of the two is oversized, or inside an
   oversized line at a multiple of the limit.
   */
  method SplitTextByLines(text: string, max: nat) returns (pieces: seq<string>)
    requires max > 0
    ensures Join(pieces) == text
    ensures |text| <= max ==> pieces == [text]
    ensures |text| > max ==> Pieces(SplitLines(text), max, pieces)
  {
    if |text| <= max {
      JoinOfOne(text);
      return [text];
    }
    var lines := SplitLines(text);
    pieces := [];
    var current: seq<string> := [];
    for i := 0 to |lines|
      invariant Filling(lines, max, pieces, current, i)
    {
      assert lines[i] in lines;
      pieces, current := TakeLine(lines, max, i, lines[i], pieces, current);
    }
    assert lines[..|lines|] == lines;
    if |Join(current)| > 0 {
      AddPiece(lines, max, pieces, Join(current));
      pieces := pieces + [Join(current)];
    }
  }

  /** What splitting a text on its lines yields. */
  ghost predicate SplitOnLines(text: string, max: nat, pieces: seq<string>)
    requires max > 0
  {
    Join(pieces) == text && if |text| <= max then pieces == [text] else Pieces(SplitLines(text), max, pieces)
  }

  // ----- hunks

  const CHUNK_TOKEN_TARGET: nat := 800_000

  /** Two characters a token in the worst case. */
  const MAX_CHARS_PER_PIECE: nat := CHUNK_TOKEN_TARGET * 2

  /** Where the hunks of a diff start: increasing positions of the diff. */
  predicate HunkStarts(diff: string, starts: seq<nat>) {
    && (forall i | 0 <= i < |starts| :: starts[i] < |diff|)
    && (forall i, j | 0 <= i < j < |starts| :: starts[i] < starts[j])
  }

  /** The hunk that starts at the `i`-th position reaches to the next one. */
  function HunkAt(diff: string, starts: seq<nat>, i: nat): (hunk: string)
    requires HunkStarts(diff, starts) && i < |starts|
    ensures hunk != ""
  {
    diff[starts[i]..HunkEnd(diff, starts, i)]
  }

  function HunkEnd(diff: string, starts: seq<nat>, i: nat): (end: nat)
    requires HunkStarts(diff, starts) && i < |starts|
    ensures starts[0] <= starts[i] < end <= |diff|
  {
    if i + 1 < |starts| then starts[i + 1] else |diff|
  }

  /** All hunks, in order. */
  function Hunks(diff: string, starts: seq<nat>): (hunks: seq<string>)
    requires HunkStarts(diff, starts)
    ensures |hunks| == |starts| && forall h | h in hunks :: h != ""
  {
    seq(|starts|, i requires 0 <= i < |starts| => HunkAt(diff, starts, i))
  }

  method CutHunks(diff: string, starts: seq<nat>) returns (hunks: seq<string>)
    requires HunkStarts(diff, starts) && starts != []
    ensures hunks == Hunks(diff, starts) && Join(hunks) == diff[starts[0]..]
  {
    hunks := [];
    ghost var end := starts[0];
    for i := 0 to |starts|
      invariant hunks == Hunks(diff, starts)[..i]
      invariant starts[0] <= end <= |diff| && end == if i < |starts| then starts[i] else |diff|
      invariant Join(hunks) == diff[starts[0]..end]
    {
      var hunk := HunkAt(diff, starts, i);
      JoinOfMore(hunks, hunk);
      end := HunkEnd(diff, starts, i);
      assert diff[starts[0]..end] == diff[starts[0]..starts[i]] + hunk;
      hunks := hunks + [hunk];
    }
  }

  function Rendered(header: string, groups: seq<seq<string>>): (chunks: seq<string>)
    ensures |chunks| == |groups|
  {
    seq(|groups|, k requires 0 <= k < |groups| => header + Join(groups[k]))
  }

  /** Whole hunks in order, grouped: over the limit only alone, and never split off without need. */
  ghost predicate Grouped(header: string, hunks: seq<string>, max: nat, groups: seq<seq<string>>) {
    && Join(groups) == hunks
    && (forall k | 0 <= k < |groups| :: groups[k] != [])
    && (forall k | 0 <= k < |groups| :: |header + Join(groups[k])| > max ==> |groups[k]| == 1)
    && (forall k | 0 < k < |groups| :: |header + Join(groups[k - 1])| + |groups[k][0]| > max)
  }

  /** The packing loop over the hunks. */
  method GroupHunks(header: string, hunks: seq<string>, max: nat) returns (chunks: seq<string>, ghost groups: seq<seq<string>>)
    requires hunks != []
    ensures Grouped(header, hunks, max, groups) && chunks == Rendered(header, groups)
  {
    chunks, groups := [], [];
    var current: seq<string> := [];
    var currentSize := |header|;
    for i := 0 to |hunks|
      invariant chunks == Rendered(header, groups)
      invariant currentSize == |header + Join(current)|
      invariant i > 0 ==> current != []
      invariant current != [] ==> Grouped(header, hunks[..i], max, groups + [current])
      invariant current == [] ==> groups == []
    {
      var hunk := hunks[i];
      assert hunks[..i + 1] == hunks[..i] + [hunk];
      ghost var done := groups;
      if currentSize + |hunk| > max && current != [] {
        chunks := chunks + [header + Join(current)];
        groups := groups + [current];
        NewGroup(header, hunks[..i], max, done, current, hunk);
        current, currentSize := [], |header|;
      } else {
        GrowGroup(header, hunks[..i], max, groups, current, hunk);
      }
      JoinOfMore(current, hunk);
      assert current == [] ==> current + [hunk] == [hunk];
      current := current + [hunk];
      currentSize := currentSize + |hunk|;
    }
    assert hunks[..|hunks|] == hunks;
    chunks := chunks + [header + Join(current)];
    groups := groups + [current];
  }

  lemma NewGroup(header: string, hunks: seq<string>, max: nat, groups: seq<seq<string>>, current: seq<string>, hunk: string)
    requires current != [] && Grouped(header, hunks, max, groups + [current])
    requires |header + Join(current)| + |hunk| > max
    ensures Grouped(header, hunks + [hunk], max, (groups + [current]) + [[hunk]])
  {
    JoinOfMore(groups + [current], [hunk]);
    JoinOfOne(hunk);
  }

  lemma GrowGroup(header: string, hunks: seq<string>, max: nat, groups: seq<seq<string>>, current: seq<string>, hunk: string)
    requires current != [] ==> Grouped(header, hunks, max, groups + [current])
    requires current != [] ==> |header + Join(current)| + |hunk| <= max
    requires current == [] ==> groups == [] && hunks == []
    ensures Grouped(header, hunks + [hunk], max, groups + [current + [hunk]])
  {
    var before, after := groups + [current], groups + [current + [hunk]];
    JoinOfMore(current, hunk);
    JoinOfMore(groups, current);
    JoinOfMore(groups, current + [hunk]);
    Associative(Join(groups), current, [hunk]);
    if current == [] {
      assert Join(groups) == [];
    } else {
      assert forall k | 0 <= k < |groups| :: before[k] == after[k] == groups[k];
      assert forall k | 0 <= k < |after| :: before[k] != [] && after[k] != [] && after[k][0] == before[k][0];
      forall k | 0 < k < |after|
        ensures |header + Join(after[k - 1])| + |after[k][0]| > max
      {
        assert |header + Join(before[k - 1])| + |before[k][0]| > max;
      }
    }
  }

  // ----- a whole file's diff

  /** What splitting an oversized file's diff yields: its body once, in order, under repeated headers. */
  ghost predicate Subsplit(diff: string, starts: seq<nat>, max: nat, chunks: seq<string>, bodies: seq<string>)
    requires HunkStarts(diff, starts) && starts != []
  {
    var header := diff[..starts[0]];
    && |bodies| == |chunks| && (forall k | 0 <= k < |chunks| :: chunks[k] == header + bodies[k])
    && Join(bodies) == diff[starts[0]..]
    && (forall k | 0 <= k < |chunks| :: bodies[k] != "")
  }

  lemma JoinOfJoins(groups: seq<seq<string>>, bodies: seq<string>)
    requires |bodies| == |groups| && forall k | 0 <= k < |groups| :: bodies[k] == Join(groups[k])
    ensures Join(bodies) == Join(Join(groups))
  {
    if groups != [] {
      JoinOfJoins(groups[1..], bodies[1..]);
      JoinOfParts(groups[0], Join(groups[1..]));
    }
  }

  lemma {:induction false} JoinIsNotEmpty(parts: seq<string>)
    requires parts != [] && forall p | p in parts :: p != ""
    ensures Join(parts) != ""
  {
    assert parts[0] in parts;
  }

  lemma {:induction false} MemberOfJoin(groups: seq<seq<string>>, h: string)
    ensures h in Join(groups) <==> exists k :: 0 <= k < |groups| && h in groups[k]
  {
    if groups != [] {
      MemberOfJoin(groups[1..], h);
      if h in Join(groups[1..]) {
        var k :| 0 <= k < |groups[1..]| && h in groups[1..][k];
        assert h in groups[k + 1];
      }
    }
  }

  lemma {:induction false} PartIsNoLonger(parts: seq<string>, part: string)
    requires part in parts
    ensures |part| <= |Join(parts)|
  {
    if part != parts[0] {
      PartIsNoLonger(parts[1..], part);
    }
  }

  /** Every chunk keeps within the limit exactly when every hunk does under the header. */
  lemma ChunksFitIffHunksFit(header: string, hunks: seq<string>, max: nat, groups: seq<seq<string>>)
    requires Grouped(header, hunks, max, groups)
    ensures (forall c | c in Rendered(header, groups) :: |c| <= max) <==> (forall h | h in hunks :: |header| + |h| <= max)
  {
    var chunks := Rendered(header, groups);
    forall h | h in hunks
      ensures exists c :: c in chunks && |header| + |h| <= |c|
    {
      MemberOfJoin(groups, h);
      var k :| 0 <= k < |groups| && h in groups[k];
      PartIsNoLonger(groups[k], h);
      assert chunks[k] in chunks;
    }
    forall c | c in chunks && |c| > max
      ensures exists h :: h in hunks && |header| + |h| > max
    {
      var k :| 0 <= k < |chunks| && chunks[k] == c;
      var h := groups[k][0];
      assert groups[k] == [h];
      JoinOfOne(h);
      MemberOfJoin(groups, h);
    }
  }

  /** Chunks of a header over line pieces keep within the limit exactly when the header leaves room. */
  lemma ChunksFitIffHeaderFits(header: string, pieces: seq<string>, max: nat)
    requires pieces != []
    requires forall p | p in pieces :: 0 < |p| <= if max > |header| then max - |header| else 1
    ensures (forall p | p in pieces :: |header + p| <= max) <==> |header| < max
  {
    assert pieces[0] in pieces;
  }

  /** The line pieces of a single hunk under its header. */
  method SplitSingleHunk(header: string, hunk: string, max: nat) returns (chunks: seq<string>, ghost bodies: seq<string>)
    requires hunk != ""
    ensures |bodies| == |chunks| && Join(bodies) == hunk
    ensures forall k | 0 <= k < |chunks| :: chunks[k] == header + bodies[k] && bodies[k] != ""
    ensures SplitOnLines(hunk, if max > |header| then max - |header| else 1, bodies)
    ensures (forall c | c in chunks :: |c| <= max) <==> |header| < max
  {
    var bodyBudget := if max > |header| then max - |header| else 1;
    var pieces := SplitTextByLines(hunk, bodyBudget);
    bodies := pieces;
    chunks := seq(|pieces|, k requires 0 <= k < |pieces| => header + pieces[k]);
    forall p | p in pieces
      ensures 0 < |p| <= bodyBudget
    {
      var k :| 0 <= k < |pieces| && pieces[k] == p;
    }
    ChunksFitIffHeaderFits(header, pieces, max);
    forall p | p in pieces
      ensures header + p in chunks
    {
      var k :| 0 <= k < |pieces| && pieces[k] == p;
      assert chunks[k] in chunks;
    }
    forall c | c in chunks
      ensures exists p :: p in pieces && c == header + p
    {
      var k :| 0 <= k < |chunks| && chunks[k] == c;
      assert pieces[k] in pieces;
    }
  }

  /** Every chunk keeps within the limit. */
  predicate AllWithin(chunks: seq<string>, max: nat) {
    forall c | c in chunks :: |c| <= max
  }

  /** The several-hunks case: whole hunks under repeated headers. */
  method SplitOnHunks(diff: string, starts: seq<nat>, hunks: seq<string>, max: nat)
      returns (chunks: seq<string>, ghost bodies: seq<string>, ghost groups: seq<seq<string>>)
    requires HunkStarts(diff, starts) && starts != []
    requires hunks == Hunks(diff, starts) && Join(hunks) == diff[starts[0]..]
    ensures Subsplit(diff, starts, max, chunks, bodies)
    ensures Grouped(diff[..starts[0]], hunks, max, groups) && chunks == Rendered(diff[..starts[0]], groups)
    ensures AllWithin(chunks, max) <==> forall h | h in hunks :: starts[0] + |h| <= max
  {
    var fileHeader := diff[..starts[0]];
    chunks, groups := GroupHunks(fileHeader, hunks, max);
    bodies := seq(|groups|, k requires 0 <= k < |groups| => Join(groups[k]));
    JoinOfJoins(groups, bodies);
    GroupsAreNotEmpty(groups, hunks);
    ChunksFitIffHunksFit(fileHeader, hunks, max, groups);
  }

  /**
   What splitting a file's diff with hunks yields: a single hunk on its lines, in the room its
   header leaves, or whole hunks grouped under the header; and exactly when all of it fits.
   */
  ghost predicate SplitsFile(diff: string, starts: seq<nat>, max: nat, chunks: seq<string>, bodies: seq<string>,
                             groups: seq<seq<string>>)
    requires HunkStarts(diff, starts) && starts != []
  {
    var header := diff[..starts[0]];
    && Subsplit(diff, starts, max, chunks, bodies)
    && if |starts| == 1 then
         && SplitOnLines(diff[starts[0]..], if max > starts[0] then max - starts[0] else 1, bodies)
         && (AllWithin(chunks, max) <==> starts[0] < max)
       else
         && Grouped(header, Hunks(diff, starts), max, groups) && chunks == Rendered(header, groups)
         && (AllWithin(chunks, max) <==> forall h | h in Hunks(diff, starts) :: starts[0] + |h| <= max)
  }

  /**
   Splits one file's diff. Nothing is lost or duplicated: without the repeated header the chunks
   join to the body. Every chunk keeps within the limit exactly when, for several hunks, each hunk
   does so under the header, and for a single one, when the header leaves room for a character.
   */
  method SubsplitLargeFileDiff(diff: string, starts: seq<nat>, max: nat)
      returns (chunks: seq<string>, ghost bodies: seq<string>, ghost groups: seq<seq<string>>)
    requires max > 0 && HunkStarts(diff, starts)
    ensures |diff| <= max ==> chunks == [diff]
    ensures |diff| > max && starts == [] ==> Join(chunks) == diff && Pieces(SplitLines(diff), max, chunks)
    ensures |diff| > max && starts != [] ==> SplitsFile(diff, starts, max, chunks, bodies, groups)
  {
    bodies, groups := [], [];
    if |diff| <= max { return [diff], [], []; }
    if starts == [] {
      chunks := SplitTextByLines(diff, max);
      return;
    }
    var hunks := CutHunks(diff, starts);
    if |hunks| == 1 {
      JoinOfOne(hunks[0]);
      assert hunks == [hunks[0]];
      chunks, bodies := SplitSingleHunk(diff[..starts[0]], hunks[0], max);
    } else {
      chunks, bodies, groups := SplitOnHunks(diff, starts, hunks, max);
    }
  }

  lemma GroupsAreNotEmpty(groups: seq<seq<string>>, hunks: seq<string>)
    requires Join(groups) == hunks && (forall k | 0 <= k < |groups| :: groups[k] != []) && forall h | h in hunks :: h != ""
    ensures forall k | 0 <= k < |groups| :: Join(groups[k]) != ""
  {
    forall k | 0 <= k < |groups|
      ensures Join(groups[k]) != ""
    {
      forall h | h in groups[k]
        ensures h != ""
      {
        MemberOfJoin(groups, h);
      }
      JoinIsNotEmpty(groups[k]);
    }
  }

  lemma {:induction false} NoMorePartsThanElements<T>(parts: seq<seq<T>>)
    requires forall k | 0 <= k < |parts| :: parts[k] != []
    ensures |parts| <= |Join(parts)|
  {
    if parts != [] {
      NoMorePartsThanElements(parts[1..]);
    }
  }

  /** Two hunks of which the first is oversized cannot but be kept apart. */
  lemma TwoGroups(header: string, first: string, second: string, max: nat, groups: seq<seq<string>>)
    requires Grouped(header, [first, second], max, groups) && |header| + |first| > max
    ensures groups == [[first], [second]]
  {
    var g, rest := groups[0], groups[1..];
    assert g + Join(rest) == [first, second];
    assert g[0] == (g + Join(rest))[0] == first;
    PartIsNoLonger(g, first);
    assert g == [first];
    assert Join(rest) == (g + Join(rest))[1..] == [second];
    NoMorePartsThanElements(rest);
    JoinOfOne(rest[0]);
    assert rest == [rest[0]];
    assert groups == [g] + rest;
  }

  /** The promised limit fails for a hunk longer than it, which is kept whole. */
  method OversizedHunkStaysWhole(header: string, first: string, second: string, max: nat) returns (chunks: seq<string>)
    requires first != "" && second != "" && max > 0 && |header| + |first| > max
    ensures chunks == [header + first, header + second] && !AllWithin(chunks, max)
  {
    var diff := header + first + second;
    var starts: seq<nat> := [|header|, |header| + |first|];
    assert diff[..|header|] == header && diff[|header|..|header| + |first|] == first && diff[|header| + |first|..] == second;
    assert HunkAt(diff, starts, 0) == first && HunkAt(diff, starts, 1) == second;
    assert Hunks(diff, starts) == [first, second];
    ghost var bodies, groups;
    chunks, bodies, groups := SubsplitLargeFileDiff(diff, starts, max);
    TwoGroups(header, first, second, max, groups);
    JoinOfOne(first);
    JoinOfOne(second);
    assert header + first in [header + first, header + second];
  }
}
