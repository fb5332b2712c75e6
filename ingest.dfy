/**
 * The text chunker of the document ingestor: whitespace is collapsed, then
 * the text is cut into windows of `chunkSize` characters, each starting
 * `chunkOverlap` characters before the previous one ended.
 */
module Ingest {
  import opened Text

  // ----- Whitespace normalisation -----

  /** `re.sub(r"\s+", " ", s)`: every maximal run of whitespace becomes one space. */
  function Collapse(s: string): (r: string)
    ensures r == [] <==> s == []
    ensures r != [] ==> (r[0] == ' ' <==> s[0] in Whitespace)
    ensures forall i :: 0 <= i < |r| && r[i] in Whitespace ==> r[i] == ' '
    ensures forall i :: 0 <= i < |r| - 1 ==> !(r[i] == ' ' && r[i + 1] == ' ')
    decreases |s|
  {
    if s == [] then []
    else if s[0] in Whitespace then
      var rest := Collapse(s[LeadCount(s, Whitespace)..]);
      [' '] + rest
    else
      assert ' ' in Whitespace;
      [s[0]] + Collapse(s[1..])
  }

  /** One space for each gap, no other whitespace, and none at either end. */
  predicate Normalized(t: string) {
    && (forall i :: 0 <= i < |t| && t[i] in Whitespace ==> t[i] == ' ')
    && (forall i :: 0 <= i < |t| - 1 ==> !(t[i] == ' ' && t[i + 1] == ' '))
    && (t == [] || (t[0] != ' ' && t[|t| - 1] != ' '))
  }

  /** `re.sub(r"\s+", " ", text).strip()` */
  function Normalize(s: string): string {
    Strip(Collapse(s))
  }

  /** The first line of `_chunk` leaves single spaces between words and none at the ends. */
  lemma NormalizeShape(s: string)
    ensures Normalized(Normalize(s))
  {
    var c := Collapse(s);
    var a := LeadCount(c, Whitespace);
    var l := c[a..];
    var b := |l| - TrailCount(l, Whitespace);
    var t := Normalize(s);
    assert t == l[..b];
    assert forall i :: 0 <= i < |t| ==> t[i] == c[a + i];
    assert ' ' in Whitespace;
  }

  /** Text made only of whitespace normalises to nothing, and any other text to something. */
  lemma {:induction false} NormalizeEmpty(s: string)
    ensures Normalize(s) == [] <==> forall i :: 0 <= i < |s| ==> s[i] in Whitespace
  {
    if forall i :: 0 <= i < |s| ==> s[i] in Whitespace {
      if s != [] {
        CollapseBlank(s);
        assert ' ' in Whitespace;
        assert LeadCount([' '], Whitespace) == 1;
      }
    } else {
      var k :| 0 <= k < |s| && s[k] !in Whitespace;
      CollapseKeeps(s, k);
      var j :| 0 <= j < |Collapse(s)| && Collapse(s)[j] !in Whitespace;
      StripCharsNonEmpty(Collapse(s), Whitespace, j);
    }
  }

  /** Text made only of whitespace collapses to one space. */
  lemma CollapseBlank(s: string)
    requires s != [] && forall i :: 0 <= i < |s| ==> s[i] in Whitespace
    ensures Collapse(s) == [' ']
  {
    assert LeadCount(s, Whitespace) == |s|;
    assert s[|s|..] == [];
  }

  /** A character that is not whitespace survives the collapse. */
  lemma {:induction false} CollapseKeeps(s: string, k: nat)
    requires k < |s| && s[k] !in Whitespace
    ensures exists j :: 0 <= j < |Collapse(s)| && Collapse(s)[j] !in Whitespace
    decreases |s|
  {
    if s[0] in Whitespace {
      var n := LeadCount(s, Whitespace);
      assert n <= k;
      CollapseKeeps(s[n..], k - n);
      var rest := Collapse(s[n..]);
      var j :| 0 <= j < |rest| && rest[j] !in Whitespace;
      assert Collapse(s)[j + 1] == rest[j];
    } else {
      assert Collapse(s)[0] == s[0];
    }
  }

  // ----- What normalisation keeps -----

  /** The characters of `s` that are not whitespace, in order. */
  function Visible(s: string): string
    decreases |s|
  {
    if s == [] then [] else (if s[0] in Whitespace then [] else [s[0]]) + Visible(s[1..])
  }

  lemma {:induction false} VisibleConcat(a: string, b: string)
    ensures Visible(a + b) == Visible(a) + Visible(b)
    decreases |a|
  {
    if a != [] {
      assert (a + b)[1..] == a[1..] + b;
      VisibleConcat(a[1..], b);
    } else {
      assert a + b == b;
    }
  }

  lemma {:induction false} VisibleBlank(s: string)
    requires forall i :: 0 <= i < |s| ==> s[i] in Whitespace
    ensures Visible(s) == []
    decreases |s|
  {
    if s != [] {
      VisibleBlank(s[1..]);
    }
  }

  /** The collapse keeps every visible character, in order, and adds none. */
  lemma {:induction false} CollapseVisible(s: string)
    ensures Visible(Collapse(s)) == Visible(s)
    decreases |s|
  {
    if s != [] {
      if s[0] in Whitespace {
        var n := LeadCount(s, Whitespace);
        CollapseVisible(s[n..]);
        assert ' ' in Whitespace;
        VisibleConcat([' '], Collapse(s[n..]));
        assert s == s[..n] + s[n..];
        VisibleConcat(s[..n], s[n..]);
        VisibleBlank(s[..n]);
      } else {
        CollapseVisible(s[1..]);
        VisibleConcat([s[0]], Collapse(s[1..]));
      }
    }
  }

  /** Stripping removes only whitespace. */
  lemma StripVisible(t: string)
    ensures Visible(Strip(t)) == Visible(t)
  {
    var a := LeadCount(t, Whitespace);
    var l := t[a..];
    var b := |l| - TrailCount(l, Whitespace);
    assert Strip(t) == l[..b];
    assert t == t[..a] + (l[..b] + l[b..]);
    VisibleConcat(t[..a], l[..b] + l[b..]);
    VisibleConcat(l[..b], l[b..]);
    VisibleBlank(t[..a]);
    VisibleBlank(l[b..]);
  }

  /**
   * Normalisation changes only whitespace: with the whitespace taken out,
   * the normalised text is the input.
   */
  lemma NormalizeVisible(s: string)
    ensures Visible(Normalize(s)) == Visible(s)
  {
    CollapseVisible(s);
    StripVisible(Collapse(s));
  }

  // ----- The windows -----

  /**
   * The chunks the loop of `_chunk` appends from position `start` of `t` on:
   * the window `t[start:min(n, start + size)]`, then, unless it reached the
   * end, the chunks from `end - overlap` (clamped at 0).
   */
  function ChunksFrom(t: string, size: int, overlap: int, start: nat): seq<string>
    requires 0 < size && overlap < size
    decreases |t| - start
  {
    if start >= |t| then []
    else
      var end := if start + size < |t| then start + size else |t|;
      var chunk := t[start..end];
      if end == |t| then [chunk]
      else
        var next := if end - overlap < 0 then 0 else end - overlap;
        [chunk] + ChunksFrom(t, size, overlap, next)
  }

  /** One round of the loop: the window at `start`, then the chunks from the next start. */
  lemma ChunkStep(t: string, size: int, overlap: int, start: nat)
    requires 0 < size && overlap < size && start < |t|
    ensures var end := if start + size < |t| then start + size else |t|;
      var next := if end - overlap < 0 then 0 else end - overlap;
      ChunksFrom(t, size, overlap, start)
        == [t[start..end]] + if end == |t| then [] else ChunksFrom(t, size, overlap, next)
  {
  }

  /** The overlap-trimmed concatenation of following chunks: each loses its first `overlap` characters. */
  function Glue(cs: seq<string>, overlap: nat): string {
    if cs == [] then []
    else
      var c := cs[0];
      (if overlap <= |c| then c[overlap..] else []) + Glue(cs[1..], overlap)
  }

  /** The document ingestor, with the window size and overlap it is built with. */
  class TextIngestor {
    const chunkSize: int
    const chunkOverlap: int

    /** `TextIngestor(db, vector, chunk_size=1200, chunk_overlap=180)`; the store handles are not modelled. */
    constructor (chunkSize: int, chunkOverlap: int)
      ensures this.chunkSize == chunkSize && this.chunkOverlap == chunkOverlap
    {
      this.chunkSize := chunkSize;
      this.chunkOverlap := chunkOverlap;
    }

    /** The chunks `_chunk` returns for `text`. */
    function Chunks(text: string): seq<string>
      requires 0 < chunkSize && chunkOverlap < chunkSize
    {
      ChunksFrom(Normalize(text), chunkSize, chunkOverlap, 0)
    }

    /** `_chunk(text)`: normalise, then cut into windows. */
    method Chunk(text: string) returns (chunks: seq<string>)
      requires 0 < chunkSize && chunkOverlap < chunkSize
      ensures chunks == Chunks(text)
    {
      var t := Normalize(text);
      chunks := Windows(t);
    }

    /** The loop of `_chunk` over the normalised text `t`. */
    method Windows(t: string) returns (chunks: seq<string>)
      requires 0 < chunkSize && chunkOverlap < chunkSize
      ensures chunks == ChunksFrom(t, chunkSize, chunkOverlap, 0)
    {
      chunks := [];
      var start := 0;
      var n := |t|;
      while start < n
        invariant 0 <= start
        invariant chunks + ChunksFrom(t, chunkSize, chunkOverlap, start) == ChunksFrom(t, chunkSize, chunkOverlap, 0)
        decreases n - start
      {
        var end := if start + chunkSize < n then start + chunkSize else n;
        var chunk := t[start..end];
        ChunkStep(t, chunkSize, chunkOverlap, start);
        chunks := chunks + [chunk];
        if end == n {
          break;
        }
        start := end - chunkOverlap;
        if start < 0 {
          start := 0;
        }
      }
    }

    /**
     * `ingest_text(session_id, filename, text)`: the `(position, text)` pairs
     * handed to the chunk store, one per chunk and numbered from 0, and their
     * number.
     */
    method IngestText(text: string) returns (stored: seq<(nat, string)>, count: nat)
      requires 0 < chunkSize && chunkOverlap < chunkSize
      ensures count == |Chunks(text)| == |stored|
      ensures forall i :: 0 <= i < count ==> stored[i] == (i, Chunks(text)[i])
    {
      var chunks := Chunk(text);
      stored := [];
      var i := 0;
      while i < |chunks|
        invariant 0 <= i <= |chunks| && |stored| == i
        invariant forall j :: 0 <= j < i ==> stored[j] == (j, chunks[j])
      {
        stored := stored + [(i, chunks[i])];
        i := i + 1;
      }
      count := |chunks|;
    }
  }

  // ----- What the windows promise -----

  /** There is a chunk exactly when there is text left from `start`. */
  lemma ChunksEmpty(t: string, size: int, overlap: int, start: nat)
    requires 0 < size && overlap < size
    ensures ChunksFrom(t, size, overlap, start) == [] <==> start >= |t|
  {
  }

  /**
   * Every chunk holds between 1 and `size` characters, and every chunk but
   * the last holds exactly `size`.
   */
  lemma {:induction false} ChunkLengths(t: string, size: int, overlap: int, start: nat)
    requires 0 < size && overlap < size
    ensures forall i :: 0 <= i < |ChunksFrom(t, size, overlap, start)| ==>
      0 < |ChunksFrom(t, size, overlap, start)[i]| <= size
    ensures forall i :: 0 <= i < |ChunksFrom(t, size, overlap, start)| - 1 ==>
      |ChunksFrom(t, size, overlap, start)[i]| == size
    decreases |t| - start
  {
    if start < |t| && start + size < |t| {
      var next := if start + size - overlap < 0 then 0 else start + size - overlap;
      ChunkLengths(t, size, overlap, next);
    }
  }

  /** The first chunk is the first `size` characters (or all of the text). */
  lemma FirstChunk(t: string, size: int, overlap: int)
    requires 0 < size && overlap < size && t != []
    ensures ChunksFrom(t, size, overlap, 0)[0] == t[..if size < |t| then size else |t|]
  {
  }

  /**
   * With a non-negative overlap the chunks cover the text: the first chunk
   * followed by every later chunk without its first `overlap` characters is
   * the text again.
   */
  lemma {:induction false} ChunksRejoin(t: string, size: int, overlap: nat, start: nat)
    requires 0 < size && overlap < size && start < |t|
    ensures ChunksFrom(t, size, overlap, start) != []
    ensures ChunksFrom(t, size, overlap, start)[0]
      + Glue(ChunksFrom(t, size, overlap, start)[1..], overlap) == t[start..]
    decreases |t| - start
  {
    var cs := ChunksFrom(t, size, overlap, start);
    var end := if start + size < |t| then start + size else |t|;
    if end == |t| {
      assert cs[1..] == [];
    } else {
      var next := end - overlap;
      var rest := ChunksFrom(t, size, overlap, next);
      assert cs[1..] == rest;
      ChunksRejoin(t, size, overlap, next);
      var e2 := if next + size < |t| then next + size else |t|;
      assert rest[0] == t[next..e2];
      assert t[next..e2][overlap..] == t[end..e2];
      assert Glue(rest, overlap) == t[end..e2] + Glue(rest[1..], overlap);
      Rejoin(t, start, next, end, e2, Glue(rest[1..], overlap));
    }
  }

  /** A chunk from `start` to `end` and the rest from `end`, given how the next chunk from `next` continues. */
  lemma Rejoin(t: string, start: nat, next: nat, end: nat, e2: nat, g: string)
    requires start <= next <= end <= e2 <= |t|
    requires t[next..e2] + g == t[next..]
    ensures t[start..end] + (t[end..e2] + g) == t[start..]
  {
    assert g == t[e2..] by {
      assert |g| == |t| - e2;
      forall k | 0 <= k < |g| ensures g[k] == t[e2 + k] {
        assert g[k] == (t[next..e2] + g)[e2 - next + k];
      }
    }
    assert t[start..] == t[start..end] + t[end..e2] + t[e2..];
  }

  /** The text is the first chunk glued to the rest: the chunks lose nothing and add nothing. */
  lemma ChunksCover(t: string, size: int, overlap: nat)
    requires 0 < size && overlap < size && t != []
    ensures ChunksFrom(t, size, overlap, 0)[0] + Glue(ChunksFrom(t, size, overlap, 0)[1..], overlap) == t
  {
    ChunksRejoin(t, size, overlap, 0);
  }

  /** The last chunk ends where the text ends. */
  lemma {:induction false} LastChunkEnds(t: string, size: int, overlap: nat, start: nat)
    requires 0 < size && overlap < size && start < |t|
    ensures EndsWith(t, ChunksFrom(t, size, overlap, start)[|ChunksFrom(t, size, overlap, start)| - 1])
    decreases |t| - start
  {
    var end := if start + size < |t| then start + size else |t|;
    if end < |t| {
      LastChunkEnds(t, size, overlap, end - overlap);
    }
  }

  /** Two neighbouring chunks share exactly `overlap` characters: the end of one is the start of the next. */
  lemma {:induction false} ChunksOverlap(t: string, size: int, overlap: nat, start: nat, i: nat)
    requires 0 < size && overlap < size
    requires i + 1 < |ChunksFrom(t, size, overlap, start)|
    ensures |ChunksFrom(t, size, overlap, start)[i]| == size
    ensures overlap < |ChunksFrom(t, size, overlap, start)[i + 1]|
    ensures ChunksFrom(t, size, overlap, start)[i][size - overlap..]
      == ChunksFrom(t, size, overlap, start)[i + 1][..overlap]
    decreases |t| - start
  {
    var end := start + size;
    var next := end - overlap;
    var rest := ChunksFrom(t, size, overlap, next);
    if i == 0 {
      var e2 := if next + size < |t| then next + size else |t|;
      assert rest[0] == t[next..e2];
      assert t[start..end][size - overlap..] == t[next..end];
      assert t[next..e2][..overlap] == t[next..end];
    } else {
      ChunksOverlap(t, size, overlap, next, i - 1);
    }
  }

  /** Empty text, or text of whitespace only, is stored as no chunks at all. */
  lemma NoChunksForBlankText(ing: TextIngestor, text: string)
    requires 0 < ing.chunkSize && ing.chunkOverlap < ing.chunkSize
    ensures ing.Chunks(text) == [] <==> forall i :: 0 <= i < |text| ==> text[i] in Whitespace
  {
    NormalizeEmpty(text);
  }
}
