/** `chunk_text`: fixed-size overlapping chunks of whitespace-normalised text. */
module Chunker {
  import opened Text

  const DEFAULT_CHUNK_SIZE := 700
  const DEFAULT_CHUNK_OVERLAP := 120

  function SafeChunkSize(chunkSize: int): (c: int)
    ensures c >= 100 && (chunkSize >= 100 ==> c == chunkSize) && (chunkSize < 100 ==> c == 100)
  {
    if chunkSize < 100 then 100 else chunkSize
  }

  function SafeOverlap(chunkSize: int, overlap: int): (o: int)
    ensures 0 <= o < SafeChunkSize(chunkSize) && (0 <= overlap < SafeChunkSize(chunkSize) ==> o == overlap)
    ensures (overlap < 0 ==> o == 0) && (overlap >= SafeChunkSize(chunkSize) ==> o == SafeChunkSize(chunkSize) - 1)
  {
    var c := SafeChunkSize(chunkSize);
    var o := if overlap < c - 1 then overlap else c - 1;
    if o < 0 then 0 else o
  }

  /** The windows of c characters of a text, each sharing o characters with the one before. */
  function Chunks(text: string, c: int, o: int): seq<string>
    requires 0 <= o < c
    decreases |text|
  {
    if text == [] then []
    else if |text| <= c then [text]
    else [text[..c]] + Chunks(text[c - o..], c, o)
  }

  /** What an indexed or scanned page body is cut into. */
  function PageChunks(body: string): seq<string> {
    Chunks(Normalize(body), DEFAULT_CHUNK_SIZE, DEFAULT_CHUNK_OVERLAP)
  }

  /** The chunks from a position on: one chunk, and the chunks from where the next one starts. */
  lemma ChunksFrom(text: string, start: nat, c: int, o: int)
    requires 0 <= o < c && start < |text|
    ensures Chunks(text[start..], c, o)
      == if start + c < |text| then [text[start..start + c]] + Chunks(text[start + c - o..], c, o) else [text[start..]]
  {
    var rest := text[start..];
    if start + c < |text| {
      assert rest[..c] == text[start..start + c] && rest[c - o..] == text[start + c - o..];
    }
  }

  /** Moving one chunk from what is left to what is done. */
  lemma OneMoreChunk(done: seq<string>, text: string, start: nat, c: int, o: int)
    requires 0 <= o < c && start < |text| && done + Chunks(text[start..], c, o) == Chunks(text, c, o)
    ensures if start + c < |text| then (done + [text[start..start + c]]) + Chunks(text[start + c - o..], c, o) == Chunks(text, c, o)
            else done + [text[start..]] == Chunks(text, c, o)
  {
    ChunksFrom(text, start, c, o);
    if start + c < |text| { Assoc(done, [text[start..start + c]], Chunks(text[start + c - o..], c, o)); }
  }

  /** The loop terminates and cuts the normalised text, for every requested size and overlap. */
  method ChunkText(text: string, chunkSize: int := DEFAULT_CHUNK_SIZE, overlap: int := DEFAULT_CHUNK_OVERLAP)
    returns (chunks: seq<string>)
    ensures chunks == Chunks(Normalize(text), SafeChunkSize(chunkSize), SafeOverlap(chunkSize, overlap))
  {
    chunks := CutText(Normalize(text), SafeChunkSize(chunkSize), SafeOverlap(chunkSize, overlap));
  }

  method CutText(cleaned: string, safeChunkSize: int, safeOverlap: int) returns (chunks: seq<string>)
    requires 0 <= safeOverlap < safeChunkSize
    ensures chunks == Chunks(cleaned, safeChunkSize, safeOverlap)
  {
    chunks := [];
    if cleaned == [] { return; }
    var start := 0;
    assert cleaned[0..] == cleaned;
    while start < |cleaned|
      invariant 0 <= start < |cleaned|
      invariant chunks + Chunks(cleaned[start..], safeChunkSize, safeOverlap) == Chunks(cleaned, safeChunkSize, safeOverlap)
      decreases |cleaned| - start
    {
      var end := start + safeChunkSize;
      var chunk := if end < |cleaned| then cleaned[start..end] else cleaned[start..];
      OneMoreChunk(chunks, cleaned, start, safeChunkSize, safeOverlap);
      chunks := chunks + [chunk];
      if end >= |cleaned| {
        break;
      }
      start := end - safeOverlap;
    }
  }

  // ---- Lossless and exact -----------------------------------------------------------------------

  /** The chunks glued together, each without its first o characters. */
  function Tail(chunks: seq<string>, o: nat): string
    requires forall chunk :: chunk in chunks ==> |chunk| >= o
  {
    if chunks == [] then "" else chunks[0][o..] + Tail(chunks[1..], o)
  }

  /** The first chunk whole, every later one without the characters it shares. */
  function Rebuild(chunks: seq<string>, o: nat): string
    requires forall k :: 1 <= k < |chunks| ==> |chunks[k]| >= o
  {
    if chunks == [] then "" else chunks[0] + Tail(chunks[1..], o)
  }

  /** Chunking loses nothing; every chunk but the last is full; every later chunk is longer than
      the part it shares. */
  lemma {:induction false} ChunkingIsLossless(text: string, c: int, o: int)
    requires 0 <= o < c
    ensures var all := Chunks(text, c, o);
      && (forall k :: 0 <= k < |all| - 1 ==> |all[k]| == c)
      && (forall k :: 0 <= k < |all| ==> 0 < |all[k]| <= c)
      && (forall k :: 1 <= k < |all| ==> |all[k]| > o)
      && (|text| > o && text != [] ==> |all[0]| > o)
      && Rebuild(all, o) == text
    decreases |text|
  {
    if |text| > c {
      var rest := Chunks(text[c - o..], c, o);
      ChunkingIsLossless(text[c - o..], c, o);
      assert Tail(rest, o) == Rebuild(rest, o)[o..];
      assert text == text[..c] + text[c - o..][o..];
    }
  }

  /** The number of chunks of n characters is 0, 1 or 1 + ceil((n - c) / (c - o)). */
  lemma {:induction false} ChunkCount(text: string, c: int, o: int)
    requires 0 <= o < c
    ensures var m := |Chunks(text, c, o)|;
      if text == [] then m == 0
      else if |text| <= c then m == 1
      else (m - 2) * (c - o) < |text| - c <= (m - 1) * (c - o)
    decreases |text|
  {
    if |text| > c {
      var m, d := |Chunks(text, c, o)|, c - o;
      ChunkCount(text[d..], c, o);
      assert (m - 2) * d == (m - 3) * d + d && (m - 1) * d == (m - 2) * d + d;
    }
  }

  // ---- Phrase completeness ----------------------------------------------------------------------

  /** Every stretch of at most o + 1 characters lies wholly inside some chunk. */
  lemma {:induction false} StretchIsInSomeChunk(text: string, c: int, o: int, a: nat, b: nat)
    returns (k: nat, at: nat)
    requires 0 <= o < c && a < b <= |text| && b - a <= o + 1
    ensures k < |Chunks(text, c, o)| && at + (b - a) <= |Chunks(text, c, o)[k]|
    ensures Chunks(text, c, o)[k][at..at + (b - a)] == text[a..b]
    decreases |text|
  {
    if |text| <= c || b <= c {
      k, at := 0, a;
      assert |text| > c ==> text[..c][a..b] == text[a..b];
    } else {
      var d := c - o;
      k, at := StretchIsInSomeChunk(text[d..], c, o, a - d, b - d);
      k := k + 1;
      assert text[d..][a - d..b - d] == text[a..b];
    }
  }

  lemma {:induction false} ChunkIsSlice(text: string, c: int, o: int, k: nat) returns (from: nat)
    requires 0 <= o < c && k < |Chunks(text, c, o)|
    ensures from + |Chunks(text, c, o)[k]| <= |text|
    ensures Chunks(text, c, o)[k] == text[from..from + |Chunks(text, c, o)[k]|]
    decreases |text|
  {
    from := 0;
    if |text| > c && k > 0 {
      var r := ChunkIsSlice(text[c - o..], c, o, k - 1);
      from := c - o + r;
      var n := |Chunks(text, c, o)[k]|;
      assert text[c - o..][r..r + n] == text[from..from + n];
    }
  }

  lemma OccursInSlice(p: string, s: string, from: nat, n: nat)
    requires from + n <= |s| && Occurs(p, s[from..from + n])
    ensures Occurs(p, s)
  {
    var part := s[from..from + n];
    var i :| 0 <= i <= |part| - |p| && OccursAt(p, part, i);
    assert forall j :: 0 <= j < |p| ==> p[j] == part[i..i + |p|][j] == s[from + i + j];
    assert s[from + i..from + i + |p|] == p;
    assert OccursAt(p, s, from + i);
  }

  lemma LowerOfSlice(s: string, from: nat, to: nat)
    requires from <= to <= |s|
    ensures Lower(s[from..to]) == Lower(s)[from..to]
  {}

  lemma PhraseOfChunk(text: string, c: int, o: int, phrase: string, k: nat)
    requires 0 <= o < c && k < |Chunks(text, c, o)|
    requires Occurs(Lower(phrase), Lower(Chunks(text, c, o)[k]))
    ensures Occurs(Lower(phrase), Lower(text))
  {
    var chunk := Chunks(text, c, o)[k];
    var from := ChunkIsSlice(text, c, o, k);
    LowerOfSlice(text, from, from + |chunk|);
    OccursInSlice(Lower(phrase), Lower(text), from, |chunk|);
  }

  /** A phrase of at most o + 1 characters is found in some chunk iff it occurs in the text; upper
      and lower case are not told apart. */
  lemma PhraseCompleteness(text: string, c: int, o: int, phrase: string)
    requires 0 <= o < c && 0 < |phrase| <= o + 1
    ensures (exists k :: 0 <= k < |Chunks(text, c, o)| && Occurs(Lower(phrase), Lower(Chunks(text, c, o)[k])))
       <==> Occurs(Lower(phrase), Lower(text))
  {
    var p, t, all := Lower(phrase), Lower(text), Chunks(text, c, o);
    if Occurs(p, t) {
      var i :| 0 <= i <= |t| - |p| && OccursAt(p, t, i);
      var k, at := StretchIsInSomeChunk(text, c, o, i, i + |p|);
      LowerOfSlice(all[k], at, at + |p|);
      LowerOfSlice(text, i, i + |p|);
      assert Lower(all[k])[at..at + |p|] == Lower(text[i..i + |p|]) == p;
      assert OccursAt(p, Lower(all[k]), at);
    }
    if k :| 0 <= k < |all| && Occurs(p, Lower(all[k])) {
      PhraseOfChunk(text, c, o, phrase, k);
    }
  }

  /** The bound is sharp: for every size and overlap some text hides a phrase of o + 2 characters. */
  lemma LongerPhrasesCanBeMissed(c: int, o: int) returns (text: string, phrase: string)
    requires 0 <= o < c
    ensures |phrase| == o + 2 && Occurs(phrase, text)
    ensures forall k :: 0 <= k < |Chunks(text, c, o)| ==> !Occurs(phrase, Chunks(text, c, o)[k])
  {
    var d := c - o;
    phrase := "b" + seq(o, _ => 'a') + "z";
    text := seq(d - 1, _ => 'a') + phrase;
    assert text[d - 1..d - 1 + |phrase|] == phrase;
    assert OccursAt(phrase, text, d - 1);
    assert 0 < |text[d..]| <= c && Chunks(text[d..], c, o) == [text[d..]];
    assert Chunks(text, c, o) == [text[..c], text[d..]];
    forall i | 0 <= i < |text| ensures (text[i] == 'b' <==> i == d - 1) && (text[i] == 'z' <==> i == c) {
      if i >= d - 1 { assert text[i] == phrase[i - (d - 1)]; }
    }
    assert phrase[0] == 'b' && phrase[o + 1] == 'z';
    forall chunk | chunk == text[..c] || chunk == text[d..] ensures !Occurs(phrase, chunk) {
      if i :| 0 <= i <= |chunk| - |phrase| && OccursAt(phrase, chunk, i) {
        assert false;
      }
    }
  }
}
