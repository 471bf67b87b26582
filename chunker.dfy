/**
  The ingestion chunker (nifi/scripts/chunk.py): strip the raw text, split it
  into sentences after `.`, `!` or `?`, pack the sentences greedily into chunks
  of at most `MaxChars` characters and emit one payload record per chunk.
 */
module Chunker {
  import opened Wrappers
  import opened Text

  const DefaultLang := "en"
  const DefaultUrl := "test"
  const DefaultSection := "test"
  const MaxChars := 480

  // ---------------------------------------------------------------------------
  // Sentence splitting: re.split(r'(?<=[\.\!\?])\s+', text)
  // ---------------------------------------------------------------------------

  predicate IsTerminator(c: char)
  {
    c == '.' || c == '!' || c == '?'
  }

  /** The pattern can start a match at `i`: whitespace right after a terminator. */
  predicate SplitsAt(s: string, i: int)
  {
    0 < i < |s| && IsTerminator(s[i - 1]) && IsSpace(s[i])
  }

  predicate NoSplitPoint(s: string)
  {
    forall i :: 0 <= i < |s| ==> !SplitsAt(s, i)
  }

  /** The first index at or after `i` where the pattern matches, or `|s|` if none. */
  function FindSplit(s: string, i: nat): (j: nat)
    requires i <= |s|
    ensures i <= j <= |s|
    ensures j < |s| ==> SplitsAt(s, j)
    ensures forall m :: i <= m < j ==> !SplitsAt(s, m)
    decreases |s| - i
  {
    if i == |s| then |s|
    else if SplitsAt(s, i) then i
    else FindSplit(s, i + 1)
  }

  /**
    The pieces `re.split` returns: the text up to the first match, then the
    pieces of what follows the matched whitespace run.
   */
  function SplitSentences(s: string): (r: seq<string>)
    ensures |r| >= 1
    decreases |s|
  {
    var i := FindSplit(s, 0);
    if i == |s| then [s]
    else [s[..i]] + SplitSentences(s[SpaceRunEnd(s, i)..])
  }

  /** No piece contains a match. */
  lemma {:induction false} SplitPiecesNoMatch(s: string)
    ensures forall k :: 0 <= k < |SplitSentences(s)| ==> NoSplitPoint(SplitSentences(s)[k])
    decreases |s|
  {
    var i, r := FindSplit(s, 0), SplitSentences(s);
    if i < |s| {
      var j := SpaceRunEnd(s, i);
      var rest := SplitSentences(s[j..]);
      SplitHead(s, i, j);
      SplitPiecesNoMatch(s[j..]);
      assert r == [s[..i]] + rest;
      forall k | 0 <= k < |r| ensures NoSplitPoint(r[k]) {
        if k > 0 {
          assert r[k] == rest[k - 1];
        }
      }
    }
  }

  /** Every piece but the last is non-empty and ends with its terminator. */
  lemma {:induction false} SplitPiecesTerminated(s: string)
    ensures forall k :: 0 <= k < |SplitSentences(s)| - 1 ==>
      SplitSentences(s)[k] != [] && IsTerminator(SplitSentences(s)[k][|SplitSentences(s)[k]| - 1])
    decreases |s|
  {
    var i, r := FindSplit(s, 0), SplitSentences(s);
    if i < |s| {
      var j := SpaceRunEnd(s, i);
      var rest := SplitSentences(s[j..]);
      SplitHead(s, i, j);
      SplitPiecesTerminated(s[j..]);
      assert r == [s[..i]] + rest;
      forall k | 0 <= k < |r| - 1 ensures r[k] != [] && IsTerminator(r[k][|r[k]| - 1]) {
        if k > 0 {
          assert r[k] == rest[k - 1];
        }
      }
    }
  }

  /** When the input is stripped and non-empty, every piece is too. */
  lemma {:induction false} SplitPiecesStripped(s: string)
    requires IsStripped(s) && s != []
    ensures forall k :: 0 <= k < |SplitSentences(s)| ==> SplitSentences(s)[k] != [] && IsStripped(SplitSentences(s)[k])
    decreases |s|
  {
    var i, r := FindSplit(s, 0), SplitSentences(s);
    if i < |s| {
      var j := SpaceRunEnd(s, i);
      var rest := SplitSentences(s[j..]);
      SplitHead(s, i, j);
      SplitPiecesStripped(s[j..]);
      assert r == [s[..i]] + rest;
      forall k | 0 <= k < |r| ensures r[k] != [] && IsStripped(r[k]) {
        if k > 0 {
          assert r[k] == rest[k - 1];
        }
      }
    }
  }

  /** The whitespace runs `re.split` consumes, in order: one between each two pieces. */
  function Gaps(s: string): (r: seq<string>)
    ensures |r| == |SplitSentences(s)| - 1
    decreases |s|
  {
    var i := FindSplit(s, 0);
    if i == |s| then []
    else [s[i..SpaceRunEnd(s, i)]] + Gaps(s[SpaceRunEnd(s, i)..])
  }

  /** The pieces with the gaps put back between them. */
  function Interleave(pieces: seq<string>, gaps: seq<string>): string
    requires |pieces| == |gaps| + 1
    decreases |gaps|
  {
    if gaps == [] then pieces[0] else pieces[0] + gaps[0] + Interleave(pieces[1..], gaps[1..])
  }

  /** The pieces and the whitespace runs between them make up the whole input: the split loses nothing else. */
  lemma {:induction false} SplitTiles(s: string)
    ensures Interleave(SplitSentences(s), Gaps(s)) == s
    decreases |s|
  {
    var i := FindSplit(s, 0);
    if i < |s| {
      var j := SpaceRunEnd(s, i);
      var rest := s[j..];
      SplitTiles(rest);
      var pieces, gaps := SplitSentences(s), Gaps(s);
      assert pieces == [s[..i]] + SplitSentences(rest);
      assert gaps == [s[i..j]] + Gaps(rest);
      assert pieces[1..] == SplitSentences(rest) && gaps[1..] == Gaps(rest);
      assert s == s[..i] + s[i..j] + rest;
    }
  }

  /** Every consumed run is non-empty and all whitespace. */
  lemma {:induction false} GapsAreSpaceRuns(s: string)
    ensures forall k :: 0 <= k < |Gaps(s)| ==> Gaps(s)[k] != [] && AllSpace(Gaps(s)[k])
    decreases |s|
  {
    var i := FindSplit(s, 0);
    if i < |s| {
      var j := SpaceRunEnd(s, i);
      var rest := s[j..];
      GapsAreSpaceRuns(rest);
      var gaps := Gaps(s);
      assert gaps == [s[i..j]] + Gaps(rest);
      forall k | 0 <= k < |gaps| ensures gaps[k] != [] && AllSpace(gaps[k]) {
        if k > 0 {
          assert gaps[k] == Gaps(rest)[k - 1];
        }
      }
    }
  }

  /** The runs are maximal, as `\s+` is greedy: every piece after the first is empty or starts with a non-space. */
  lemma {:induction false} SplitPiecesStartSolid(s: string)
    ensures forall k :: 1 <= k < |SplitSentences(s)| ==>
      SplitSentences(s)[k] == [] || !IsSpace(SplitSentences(s)[k][0])
    decreases |s|
  {
    var i := FindSplit(s, 0);
    if i < |s| {
      var j := SpaceRunEnd(s, i);
      var rest := s[j..];
      SplitPiecesStartSolid(rest);
      var r := SplitSentences(s);
      assert r == [s[..i]] + SplitSentences(rest);
      forall k | 1 <= k < |r| ensures r[k] == [] || !IsSpace(r[k][0]) {
        assert r[k] == SplitSentences(rest)[k - 1];
        if k == 1 && r[k] != [] {
          var h := FindSplit(rest, 0);
          assert r[1] == rest[..h] || r[1] == rest;
          assert r[1][0] == rest[0] == s[j];
        }
      }
    }
  }

  /** The first piece and what the split leaves of the input. */
  lemma SplitHead(s: string, i: nat, j: nat)
    requires i == FindSplit(s, 0) && i < |s| && j == SpaceRunEnd(s, i)
    ensures 0 < i < j && NoSplitPoint(s[..i]) && IsTerminator(s[..i][i - 1])
    ensures IsStripped(s) ==> j < |s| && IsStripped(s[..i]) && IsStripped(s[j..])
  {
    var head := s[..i];
    forall m | 0 <= m < |head| ensures !SplitsAt(head, m) {
      assert SplitsAt(head, m) ==> SplitsAt(s, m);
    }
    if IsStripped(s) {
      assert IsSpace(s[j - 1]);
      assert head[0] == s[0];
    }
  }

  /** Splitting the single-space join of well-formed sentences gives the sentences back. */
  lemma {:induction false} SplitJoined(xs: seq<string>)
    requires xs != []
    requires forall k :: 0 <= k < |xs| ==> xs[k] != [] && IsStripped(xs[k]) && NoSplitPoint(xs[k])
    requires forall k :: 0 <= k < |xs| - 1 ==> IsTerminator(xs[k][|xs[k]| - 1])
    ensures SplitSentences(Join(xs)) == xs
    decreases |xs|
  {
    if |xs| == 1 {
      assert FindSplit(xs[0], 0) == |xs[0]|;
    } else {
      var x, rest := xs[0], xs[1..];
      assert xs == [x] + rest;
      JoinWithCons(" ", x, rest);
      JoinWithStartsWithFirst(" ", rest);
      var tail := Join(rest);
      assert tail[0] == tail[..|rest[0]|][0] == rest[0][0];
      SplitCons(x, tail);
      SplitJoined(rest);
    }
  }

  /** A sentence, one space and a text that starts with a non-space: the sentence is the first piece. */
  lemma SplitCons(x: string, tail: string)
    requires x != [] && NoSplitPoint(x) && IsTerminator(x[|x| - 1])
    requires tail != [] && !IsSpace(tail[0])
    ensures SplitSentences(x + " " + tail) == [x] + SplitSentences(tail)
  {
    var s := x + " " + tail;
    forall m | 0 <= m < |x| ensures !SplitsAt(s, m) {
      assert SplitsAt(s, m) ==> SplitsAt(x, m);
    }
    assert SplitsAt(s, |x|);
    FindSplitAt(s, 0, |x|);
    assert s[|x| + 1] == tail[0];
    assert SpaceRunEnd(s, |x|) == |x| + 1;
    assert s[..|x|] == x;
    assert s[|x| + 1..] == tail;
  }

  /** The first match is the index before which there is none. */
  lemma {:induction false} FindSplitAt(s: string, i: nat, j: nat)
    requires i <= j < |s| && SplitsAt(s, j)
    requires forall m :: i <= m < j ==> !SplitsAt(s, m)
    ensures FindSplit(s, i) == j
    decreases j - i
  {
    if i < j { FindSplitAt(s, i + 1, j); }
  }

  lemma {:induction false} JoinWithStartsWithFirst(sep: string, xs: seq<string>)
    requires xs != [] && xs[0] != []
    ensures |JoinWith(sep, xs)| >= |xs[0]| && JoinWith(sep, xs)[..|xs[0]|] == xs[0]
    decreases |xs|
  {
    if |xs| > 1 {
      JoinWithStartsWithFirst(sep, xs[..|xs| - 1]);
      assert JoinWith(sep, xs) == JoinWith(sep, xs[..|xs| - 1]) + sep + xs[|xs| - 1];
    }
  }

  // ---------------------------------------------------------------------------
  // The packing loop
  // ---------------------------------------------------------------------------

  /** `" ".join(buf)`: the sentences with one space between each two of them. */
  function Join(xs: seq<string>): (r: string)
    ensures xs == [] ==> r == ""
    ensures xs != [] ==> |r| == TotalLength(xs) + |xs| - 1
  {
    JoinWith(" ", xs)
  }

  /** The sentences the loop keeps, in order: each one stripped, the empty ones skipped. */
  function Cleaned(ss: seq<string>): (r: seq<string>)
    ensures |r| <= |ss|
  {
    if ss == [] then []
    else
      var t := Strip(ss[|ss| - 1]);
      Cleaned(ss[..|ss| - 1]) + (if t == [] then [] else [t])
  }

  /** For sentences that are already stripped and non-empty, cleaning changes nothing. */
  lemma {:induction false} CleanedNoOp(ss: seq<string>)
    requires forall k :: 0 <= k < |ss| ==> ss[k] != [] && IsStripped(ss[k])
    ensures Cleaned(ss) == ss
  {
    if ss != [] {
      var init, last := ss[..|ss| - 1], ss[|ss| - 1];
      CleanedNoOp(init);
      assert Strip(last) == last;
      assert ss == init + [last];
    }
  }

  /** Every kept sentence is stripped and non-empty. */
  lemma {:induction false} CleanedWellFormed(ss: seq<string>)
    ensures forall k :: 0 <= k < |Cleaned(ss)| ==> Cleaned(ss)[k] != [] && IsStripped(Cleaned(ss)[k])
  {
    if ss != [] {
      CleanedWellFormed(ss[..|ss| - 1]);
    }
  }

  /** The sentences of all chunks, in emission order. */
  function Flatten(groups: seq<seq<string>>): seq<string>
  {
    if groups == [] then [] else Flatten(groups[..|groups| - 1]) + groups[|groups| - 1]
  }

  /**
    How far `curr_len` exceeds the length of chunk `k` when it is flushed.
    Every append adds `len(s) + 1`, so a buffer that the append branch began
    (only the first one, when its first sentence has fewer than `MaxChars`
    characters) counts one separator more than its join has; a buffer that
    the else branch began counts exactly its join.
   */
  function Offset(groups: seq<seq<string>>, k: nat): nat
  {
    if k == 0 && |groups| > 0 && |groups[0]| > 0 && |groups[0][0]| < MaxChars then 1 else 0
  }

  /** Each chunk is the single-space join of its non-empty list of sentences. */
  ghost predicate Joined(chunks: seq<string>, groups: seq<seq<string>>)
  {
    |chunks| == |groups| &&
    forall k :: 0 <= k < |groups| ==> groups[k] != [] && chunks[k] == Join(groups[k])
  }

  /** A chunk of two or more sentences passed the bound at its last append. */
  ghost predicate Fits(chunks: seq<string>, groups: seq<seq<string>>)
    requires |chunks| == |groups|
  {
    forall k :: 0 <= k < |groups| && |groups[k]| >= 2 ==> |chunks[k]| + Offset(groups, k) <= MaxChars
  }

  /** A chunk was closed only because the next sentence would not have fitted. */
  ghost predicate Closed(chunks: seq<string>, groups: seq<seq<string>>)
    requires Joined(chunks, groups)
  {
    forall k :: 0 <= k < |groups| - 1 ==>
      |chunks[k]| + Offset(groups, k) + |groups[k + 1][0]| + 1 > MaxChars
  }

  lemma JoinSnocLength(xs: seq<string>, s: string)
    requires xs != []
    ensures |Join(xs + [s])| == |Join(xs)| + 1 + |s|
  {
    JoinWithSnoc(" ", xs, s);
  }

  lemma FlattenSnoc(groups: seq<seq<string>>, g: seq<string>)
    ensures Flatten(groups + [g]) == Flatten(groups) + g
  {
    assert (groups + [g])[..|groups|] == groups;
  }

  lemma CleanedSnoc(ss: seq<string>, x: string)
    ensures Cleaned(ss + [x]) == Cleaned(ss) + (if Strip(x) == [] then [] else [Strip(x)])
  {
    assert (ss + [x])[..|ss|] == ss;
  }

  /**
    What the loop keeps true of the open buffer `buf` and the counter
    `curr_len`; `begun` records that the append branch began the buffer.
   */
  ghost predicate BufferInv(groups: seq<seq<string>>, buf: seq<string>, currLen: int, begun: bool)
  {
    (forall k :: 0 <= k < |buf| ==> buf[k] != []) &&
    (buf == [] ==> groups == [] && currLen == 0 && !begun) &&
    (buf != [] ==> currLen == |Join(buf)| + (if begun then 1 else 0)) &&
    (begun ==> groups == []) &&
    (buf != [] && groups == [] ==> (begun <==> |buf[0]| < MaxChars)) &&
    (|buf| >= 2 ==> currLen <= MaxChars)
  }

  /**
    Chunk `k` obeys the contract of PackSentences: it is the join of its
    non-empty sentences, it is non-empty, it fits when it has two or more
    sentences, and the next chunk's first sentence would not have fitted.
   */
  ghost predicate ChunkOk(chunks: seq<string>, groups: seq<seq<string>>, k: int)
    requires |chunks| == |groups| && 0 <= k < |groups|
  {
    groups[k] != [] && chunks[k] == Join(groups[k]) && chunks[k] != [] &&
    (|groups[k]| >= 2 ==> |chunks[k]| + Offset(groups, k) <= MaxChars) &&
    (k + 1 < |groups| ==>
      groups[k + 1] != [] && |chunks[k]| + Offset(groups, k) + |groups[k + 1][0]| + 1 > MaxChars)
  }

  /** The chunks emitted so far obey the contract of PackSentences. */
  ghost predicate Emitted(chunks: seq<string>, groups: seq<seq<string>>)
  {
    |chunks| == |groups| && forall k :: 0 <= k < |groups| ==> ChunkOk(chunks, groups, k)
  }

  /** A chunk of two or more sentences has at most `MaxChars` characters. */
  lemma FitsWithinMax(chunks: seq<string>, groups: seq<seq<string>>)
    requires |chunks| == |groups| && Fits(chunks, groups)
    ensures forall k :: 0 <= k < |chunks| && |groups[k]| >= 2 ==> |chunks[k]| <= MaxChars
  {
  }

  lemma EmittedMeans(chunks: seq<string>, groups: seq<seq<string>>)
    requires Emitted(chunks, groups)
    ensures Joined(chunks, groups) && Fits(chunks, groups) && Closed(chunks, groups)
    ensures forall k :: 0 <= k < |chunks| ==> chunks[k] != []
  {
    forall k | 0 <= k < |groups|
      ensures groups[k] != [] && chunks[k] == Join(groups[k]) && chunks[k] != []
      ensures |groups[k]| >= 2 ==> |chunks[k]| + Offset(groups, k) <= MaxChars
      ensures k + 1 < |groups| ==> groups[k + 1] != [] && |chunks[k]| + Offset(groups, k) + |groups[k + 1][0]| + 1 > MaxChars
    {
      assert ChunkOk(chunks, groups, k);
    }
  }

  /** The last chunk was closed because the buffer's first sentence did not fit. */
  ghost predicate ClosedBefore(chunks: seq<string>, groups: seq<seq<string>>, buf: seq<string>)
    requires |chunks| == |groups|
  {
    buf != [] && groups != [] ==>
      |chunks[|groups| - 1]| + Offset(groups, |groups| - 1) + |buf[0]| + 1 > MaxChars
  }

  /** Flushing a non-empty buffer keeps the emitted chunks within the contract. */
  lemma Flush(chunks: seq<string>, groups: seq<seq<string>>, buf: seq<string>, currLen: int, begun: bool)
    requires Emitted(chunks, groups) && BufferInv(groups, buf, currLen, begun)
    requires ClosedBefore(chunks, groups, buf) && buf != []
    ensures var chunks', groups' := chunks + [Join(buf)], groups + [buf];
      Emitted(chunks', groups') &&
      currLen == |chunks'[|groups'| - 1]| + Offset(groups', |groups'| - 1)
  {
    var chunks', groups' := chunks + [Join(buf)], groups + [buf];
    JoinWithEndsWithLast(" ", buf);
    assert buf[|buf| - 1] in buf;
    assert Offset(groups', |groups|) == if begun then 1 else 0;
    forall k | 0 <= k < |groups'| ensures ChunkOk(chunks', groups', k) {
      if k < |groups| {
        assert ChunkOk(chunks, groups, k);
        assert groups'[0] == groups[0];
        assert Offset(groups', k) == Offset(groups, k);
      }
    }
  }

  /** The append branch (lines 24-26). */
  lemma AppendStep(chunks: seq<string>, groups: seq<seq<string>>, buf: seq<string>, currLen: int, begun: bool, s: string)
    requires |chunks| == |groups| && BufferInv(groups, buf, currLen, begun)
    requires ClosedBefore(chunks, groups, buf)
    requires s != [] && currLen + |s| + 1 <= MaxChars
    ensures var begun' := if buf == [] then true else begun;
      BufferInv(groups, buf + [s], currLen + |s| + 1, begun') &&
      ClosedBefore(chunks, groups, buf + [s])
  {
    if buf != [] {
      JoinSnocLength(buf, s);
      assert (buf + [s])[0] == buf[0];
    } else {
      assert buf + [s] == [s];
    }
  }

  /** The else branch (lines 27-31), once the old buffer has been flushed. */
  lemma RestartStep(chunks: seq<string>, groups: seq<seq<string>>, currLen: int, s: string)
    requires Emitted(chunks, groups) && groups != []
    requires currLen == |chunks[|groups| - 1]| + Offset(groups, |groups| - 1)
    requires s != [] && currLen + |s| + 1 > MaxChars
    ensures BufferInv(groups, [s], |s|, false) && ClosedBefore(chunks, groups, [s])
  {
  }

  /** What holds after the loop of lines 16-34 has looked at `sentences[..i]`. */
  ghost predicate PackInv(sentences: seq<string>, i: int, chunks: seq<string>, groups: seq<seq<string>>,
                          buf: seq<string>, currLen: int, begun: bool)
    requires 0 <= i <= |sentences|
  {
    Flatten(groups) + buf == Cleaned(sentences[..i]) &&
    Emitted(chunks, groups) && BufferInv(groups, buf, currLen, begun) &&
    ClosedBefore(chunks, groups, buf)
  }

  /** A sentence that strips to nothing is skipped (lines 21-23). */
  lemma SkipInv(sentences: seq<string>, i: int, chunks: seq<string>, groups: seq<seq<string>>,
                buf: seq<string>, currLen: int, begun: bool)
    requires 0 <= i < |sentences| && PackInv(sentences, i, chunks, groups, buf, currLen, begun)
    requires Strip(sentences[i]) == []
    ensures PackInv(sentences, i + 1, chunks, groups, buf, currLen, begun)
  {
    assert sentences[..i + 1] == sentences[..i] + [sentences[i]];
    CleanedSnoc(sentences[..i], sentences[i]);
  }

  /** The append branch keeps the loop's invariant (lines 24-26). */
  lemma AppendInv(sentences: seq<string>, i: int, chunks: seq<string>, groups: seq<seq<string>>,
                  buf: seq<string>, currLen: int, begun: bool)
    requires 0 <= i < |sentences| && PackInv(sentences, i, chunks, groups, buf, currLen, begun)
    requires var s := Strip(sentences[i]); s != [] && currLen + |s| + 1 <= MaxChars
    ensures var s := Strip(sentences[i]);
      PackInv(sentences, i + 1, chunks, groups, buf + [s], currLen + |s| + 1, if buf == [] then true else begun)
  {
    var s := Strip(sentences[i]);
    assert sentences[..i + 1] == sentences[..i] + [sentences[i]];
    CleanedSnoc(sentences[..i], sentences[i]);
    AppendStep(chunks, groups, buf, currLen, begun, s);
  }

  /** The else branch flushes a non-empty buffer and restarts it (lines 27-31). */
  lemma RestartInv(sentences: seq<string>, i: int, chunks: seq<string>, groups: seq<seq<string>>,
                   buf: seq<string>, currLen: int, begun: bool)
    requires 0 <= i < |sentences| && PackInv(sentences, i, chunks, groups, buf, currLen, begun)
    requires var s := Strip(sentences[i]); s != [] && currLen + |s| + 1 > MaxChars && buf != []
    ensures PackInv(sentences, i + 1, chunks + [Join(buf)], groups + [buf], [Strip(sentences[i])], |Strip(sentences[i])|, false)
  {
    var s := Strip(sentences[i]);
    assert sentences[..i + 1] == sentences[..i] + [sentences[i]];
    CleanedSnoc(sentences[..i], sentences[i]);
    Flush(chunks, groups, buf, currLen, begun);
    FlattenSnoc(groups, buf);
    RestartStep(chunks + [Join(buf)], groups + [buf], currLen, s);
  }

  /** The else branch on an empty buffer: a first sentence of `MaxChars` characters or more. */
  lemma FirstLongInv(sentences: seq<string>, i: int, chunks: seq<string>, groups: seq<seq<string>>,
                     buf: seq<string>, currLen: int, begun: bool)
    requires 0 <= i < |sentences| && PackInv(sentences, i, chunks, groups, buf, currLen, begun)
    requires var s := Strip(sentences[i]); s != [] && currLen + |s| + 1 > MaxChars && buf == []
    ensures PackInv(sentences, i + 1, chunks, groups, [Strip(sentences[i])], |Strip(sentences[i])|, false)
  {
    assert sentences[..i + 1] == sentences[..i] + [sentences[i]];
    CleanedSnoc(sentences[..i], sentences[i]);
  }

  /** The final flush (lines 33-34) delivers the contract of PackSentences. */
  lemma FinalInv(sentences: seq<string>, chunks: seq<string>, groups: seq<seq<string>>,
                 buf: seq<string>, currLen: int, begun: bool)
    requires PackInv(sentences, |sentences|, chunks, groups, buf, currLen, begun)
    ensures buf == [] ==> Flatten(groups) == Cleaned(sentences) && Emitted(chunks, groups)
    ensures buf != [] ==>
      Flatten(groups + [buf]) == Cleaned(sentences) && Emitted(chunks + [Join(buf)], groups + [buf])
  {
    assert sentences[..|sentences|] == sentences;
    if buf != [] {
      Flush(chunks, groups, buf, currLen, begun);
      FlattenSnoc(groups, buf);
    }
  }

  /**
    The loop of lines 16-34. `groups` (ghost) records the sentences of each
    chunk. The result covers every kept sentence in order, each chunk is the
    join of its sentences, chunks of two or more sentences respect the bound,
    and each chunk was closed only when the next sentence did not fit.
   */
  method PackSentences(sentences: seq<string>) returns (chunks: seq<string>, ghost groups: seq<seq<string>>)
    ensures Flatten(groups) == Cleaned(sentences)
    ensures Joined(chunks, groups)
    ensures Fits(chunks, groups)
    ensures Closed(chunks, groups)
    ensures forall k :: 0 <= k < |chunks| ==> chunks[k] != []
  {
    chunks, groups := [], [];
    var buf: seq<string> := [];
    var currLen := 0;
    ghost var begun := false;
    for i := 0 to |sentences|
      invariant PackInv(sentences, i, chunks, groups, buf, currLen, begun)
    {
      var s := Strip(sentences[i]);
      if s == [] {
        SkipInv(sentences, i, chunks, groups, buf, currLen, begun);
      } else if currLen + |s| + 1 <= MaxChars {
        AppendInv(sentences, i, chunks, groups, buf, currLen, begun);
        begun := if buf == [] then true else begun;
        buf := buf + [s];
        currLen := currLen + |s| + 1;
      } else if buf != [] {
        RestartInv(sentences, i, chunks, groups, buf, currLen, begun);
        chunks, groups := chunks + [Join(buf)], groups + [buf];
        buf, currLen, begun := [s], |s|, false;
      } else {
        FirstLongInv(sentences, i, chunks, groups, buf, currLen, begun);
        buf, currLen, begun := [s], |s|, false;
      }
    }
    FinalInv(sentences, chunks, groups, buf, currLen, begun);
    if buf != [] {
      chunks, groups := chunks + [Join(buf)], groups + [buf];
    }
    EmittedMeans(chunks, groups);
  }

  /** Joining the chunks with single spaces gives back the joined sentence stream. */
  lemma {:induction false} ChunksJoinBack(chunks: seq<string>, groups: seq<seq<string>>)
    requires Joined(chunks, groups)
    ensures Join(chunks) == Join(Flatten(groups))
    decreases |groups|
  {
    if |groups| > 0 {
      var n := |groups|;
      var chunks', groups' := chunks[..n - 1], groups[..n - 1];
      assert Joined(chunks', groups');
      ChunksJoinBack(chunks', groups');
      assert Flatten(groups) == Flatten(groups') + groups[n - 1];
      if n > 1 {
        assert Flatten(groups') == Flatten(groups'[..n - 2]) + groups'[n - 2];
        assert groups'[n - 2] != [];
        JoinWithConcat(" ", Flatten(groups'), groups[n - 1]);
        assert Join(chunks) == Join(chunks') + " " + chunks[n - 1];
      } else {
        assert Flatten(groups) == groups[0];
      }
    }
  }

  // ---------------------------------------------------------------------------
  // Payload records (lines 36-44)
  // ---------------------------------------------------------------------------

  /** The payload record with `None` values removed (line 43). */
  function DropNone(m: map<string, Option<string>>): (r: map<string, string>)
    ensures r.Keys == set k | k in m && m[k].Some?
    ensures forall k :: k in r ==> m[k] == Some(r[k])
  {
    map k | k in m && m[k].Some? :: m[k].value
  }

  /** The payload of one chunk before the filter (lines 37-42): four fields, none of them `None`. */
  function RawPayload(c: string): (r: map<string, Option<string>>)
    ensures r.Keys == {"text", "lang", "url", "section"}
    ensures forall k :: k in r ==> r[k].Some?
    ensures r["text"] == Some(c)
  {
    map["text" := Some(c), "lang" := Some(DefaultLang), "url" := Some(DefaultUrl),
        "section" := Some(DefaultSection)]
  }

  /** The record of chunk `c`: all four fields, since none of them is `None`. */
  predicate IsRecord(r: map<string, string>, c: string)
  {
    r.Keys == {"text", "lang", "url", "section"} &&
    r["text"] == c && r["lang"] == DefaultLang && r["url"] == DefaultUrl && r["section"] == DefaultSection
  }

  lemma PayloadOfChunk(c: string)
    ensures IsRecord(DropNone(RawPayload(c)), c)
  {
    var m := RawPayload(c);
    assert forall k :: k in m ==> m[k].Some?;
  }

  /** The loop of lines 36-44: one record per chunk, in order. */
  method Payloads(chunks: seq<string>) returns (records: seq<map<string, string>>)
    ensures |records| == |chunks|
    ensures forall k :: 0 <= k < |chunks| ==> IsRecord(records[k], chunks[k])
  {
    records := [];
    for i := 0 to |chunks|
      invariant |records| == i
      invariant forall k :: 0 <= k < i ==> IsRecord(records[k], chunks[k])
    {
      var payload := DropNone(RawPayload(chunks[i]));
      PayloadOfChunk(chunks[i]);
      records := records + [payload];
    }
  }

  /**
    The whole script on standard input `raw`. An input that strips to nothing
    gives no records (lines 8-10). Otherwise the chunks carry, in order, exactly
    the sentences `re.split` finds in the stripped text, and one record per chunk
    carries its text.
   */
  method Chunk(raw: string) returns (records: seq<map<string, string>>, ghost chunks: seq<string>, ghost groups: seq<seq<string>>)
    ensures Strip(raw) == [] ==> records == [] && chunks == [] && groups == []
    ensures Strip(raw) != [] ==> Flatten(groups) == SplitSentences(Strip(raw))
    ensures Joined(chunks, groups) && Fits(chunks, groups) && Closed(chunks, groups)
    ensures forall k :: 0 <= k < |chunks| ==> chunks[k] != []
    ensures |records| == |chunks|
    ensures forall k :: 0 <= k < |chunks| ==> IsRecord(records[k], chunks[k])
  {
    var text := Strip(raw);
    if text == [] {
      return [], [], [];
    }
    var sentences := SplitSentences(text);
    StripFacts(raw);
    SplitPiecesStripped(text);
    CleanedNoOp(sentences);
    var cs;
    cs, groups := PackSentences(sentences);
    chunks := cs;
    records := Payloads(cs);
  }
}
