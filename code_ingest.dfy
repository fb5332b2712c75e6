/**
 * The source-code ingestor: code is split into lines, the lines are cut
 * into blocks of `linesPerChunk`, and every line of a block is prefixed
 * with its 1-based line number, zero-padded to five digits.
 */
module CodeIngest {
  import opened Wrappers
  import opened Text

  // ----- str.splitlines -----

  /** The line boundaries of `str.splitlines`. */
  predicate IsLineBreak(c: char) {
    c == '\n' || c == '\r' || c == '\U{000B}' || c == '\U{000C}' || c == '\U{001C}' || c == '\U{001D}'
    || c == '\U{001E}' || c == '\U{0085}' || c == '\U{2028}' || c == '\U{2029}'
  }

  /** A line that holds no boundary. */
  predicate IsLine(s: string) {
    forall i :: 0 <= i < |s| ==> !IsLineBreak(s[i])
  }

  /** Every element of `ls` is a line. */
  predicate AllLines(ls: seq<string>) {
    forall k :: 0 <= k < |ls| ==> IsLine(ls[k])
  }

  /** The index of the first boundary in `s`, or `|s|`. */
  function FirstBreak(s: string): (n: nat)
    ensures n <= |s|
    ensures forall i :: 0 <= i < n ==> !IsLineBreak(s[i])
    ensures n == |s| || IsLineBreak(s[n])
  {
    if s == [] || IsLineBreak(s[0]) then 0 else 1 + FirstBreak(s[1..])
  }

  /**
   * `s.splitlines()`: the text between boundaries, where `\r\n` counts as
   * one boundary and a boundary at the very end opens no extra line.
   */
  function SplitLines(s: string): (lines: seq<string>)
    ensures AllLines(lines)
    decreases |s|
  {
    if s == [] then []
    else
      var k := FirstBreak(s);
      assert IsLine(s[..k]) by {
        forall i | 0 <= i < k ensures !IsLineBreak(s[..k][i]) { assert s[..k][i] == s[i]; }
      }
      if k == |s| then [s]
      else
        var width := if s[k] == '\r' && k + 1 < |s| && s[k + 1] == '\n' then 2 else 1;
        [s[..k]] + SplitLines(s[k + width..])
  }

  /** The first boundary of a line followed by a boundary is the one just after it. */
  lemma {:induction false} FirstBreakOfLine(l: string)
    requires IsLine(l)
    ensures FirstBreak(l) == |l|
  {
    if l != [] {
      FirstBreakOfLine(l[1..]);
    }
  }

  /** A last line with no boundary after it is kept as it stands. */
  lemma SplitLinesLast(l: string)
    requires l != [] && IsLine(l)
    ensures SplitLines(l) == [l]
  {
    FirstBreakOfLine(l);
  }

  /**
   * A line and the boundary after it make the first element; the split goes
   * on after the boundary, where `\r` followed by `\n` is one boundary.
   */
  lemma SplitLinesBreak(l: string, c: char, rest: string)
    requires IsLine(l) && IsLineBreak(c)
    ensures SplitLines(l + [c] + rest)
      == [l] + SplitLines(if c == '\r' && rest != [] && rest[0] == '\n' then rest[1..] else rest)
  {
    var s := l + [c] + rest;
    assert s == l + ([c] + rest);
    BreakAfterLine(l, [c] + rest);
    assert s[..|l|] == l;
    if c == '\r' && rest != [] && rest[0] == '\n' {
      assert s[|l| + 2..] == rest[1..];
    } else {
      assert s[|l| + 1..] == rest;
    }
  }

  /** Lines each followed by `\n`, as a file of them is written. */
  function Terminated(lines: seq<string>): string {
    if lines == [] then "" else lines[0] + "\n" + Terminated(lines[1..])
  }

  /** Splitting a file of lines gives the lines back. */
  lemma {:induction false} SplitTerminated(lines: seq<string>)
    requires AllLines(lines)
    ensures SplitLines(Terminated(lines)) == lines
  {
    if lines != [] {
      var s := Terminated(lines);
      var l := lines[0];
      var rest := Terminated(lines[1..]);
      assert s == l + ("\n" + rest);
      BreakAfterLine(l, "\n" + rest);
      assert s[..|l|] == l;
      assert s[|l| + 1..] == rest;
      SplitTerminated(lines[1..]);
    }
  }

  lemma {:induction false} BreakAfterLine(l: string, rest: string)
    requires IsLine(l) && rest != [] && IsLineBreak(rest[0])
    ensures FirstBreak(l + rest) == |l|
  {
    if l != [] {
      assert (l + rest)[1..] == l[1..] + rest;
      BreakAfterLine(l[1..], rest);
    } else {
      assert l + rest == rest;
    }
  }

  // ----- Line numbers -----

  function DigitChar(d: nat): (c: char)
    requires d < 10
    ensures IsDigit(c) && DigitValue(c) == d
  {
    ('0' as int + d) as char
  }

  predicate AllDigits(s: string) {
    forall i :: 0 <= i < |s| ==> IsDigit(s[i])
  }

  /** `str(n)`: the decimal digits of `n`. */
  function Decimal(n: nat): (r: string)
    ensures 1 <= |r| && AllDigits(r) && DecimalValue(r) == n
    ensures n > 0 ==> r[0] != '0'
  {
    if n < 10 then
      assert [DigitChar(n)][..0] == [];
      [DigitChar(n)]
    else
      var r := Decimal(n / 10) + [DigitChar(n % 10)];
      assert r[..|r| - 1] == Decimal(n / 10);
      r
  }

  function Zeros(k: nat): (r: string)
    ensures |r| == k && AllDigits(r)
  {
    if k == 0 then "" else "0" + Zeros(k - 1)
  }

  /** `f"{n:05d}"`: at least five digits, with leading zeros. */
  function Pad5(n: nat): (r: string)
    ensures AllDigits(r) && |r| >= 5
    ensures |r| == if |Decimal(n)| < 5 then 5 else |Decimal(n)|
  {
    var d := Decimal(n);
    Zeros(if |d| < 5 then 5 - |d| else 0) + d
  }

  /** Leading zeros do not change a number's value. */
  lemma {:induction false} ZerosValue(k: nat, d: string)
    ensures DecimalValue(Zeros(k) + d) == DecimalValue(d)
    decreases |d|
  {
    if d == [] {
      assert Zeros(k) + d == Zeros(k);
      ZerosOnly(k);
    } else {
      var init := d[..|d| - 1];
      assert (Zeros(k) + d)[..|Zeros(k) + d| - 1] == Zeros(k) + init;
      ZerosValue(k, init);
    }
  }

  lemma {:induction false} ZerosOnly(k: nat)
    ensures DecimalValue(Zeros(k)) == 0
  {
    if k > 0 {
      var z := Zeros(k);
      assert z == Zeros(k - 1) + "0" by { ZerosSnoc(k - 1); }
      assert z[..|z| - 1] == Zeros(k - 1);
      ZerosOnly(k - 1);
    }
  }

  lemma {:induction false} ZerosSnoc(k: nat)
    ensures Zeros(k + 1) == Zeros(k) + "0"
  {
    if k > 0 {
      ZerosSnoc(k - 1);
    }
  }

  /** The padded number reads back as the number. */
  lemma Pad5Value(n: nat)
    ensures DecimalValue(Pad5(n)) == n
  {
    var d := Decimal(n);
    ZerosValue(if |d| < 5 then 5 - |d| else 0, d);
  }

  /** The text `ingest_code` writes for line `ln` numbered `num`. */
  function Numbered(num: nat, ln: string): string {
    Pad5(num) + ": " + ln
  }

  /** The number in front of a numbered line. */
  function LineNumber(s: string): nat {
    DecimalValue(BeforeFirst(s, ':'))
  }

  /** The line without its number. */
  function Unnumbered(s: string): string {
    var k := FirstIndex(s, ':');
    if k + 2 <= |s| then s[k + 2..] else ""
  }

  /** A numbered line gives back both its number and its text. */
  lemma NumberedRoundTrip(num: nat, ln: string)
    ensures LineNumber(Numbered(num, ln)) == num
    ensures Unnumbered(Numbered(num, ln)) == ln
  {
    var p := Pad5(num);
    assert forall i :: 0 <= i < |p| ==> p[i] != ':';
    assert Numbered(num, ln) == p + (": " + ln);
    FirstIndexOfPartThenSep(p, ": " + ln, ':');
    assert BeforeFirst(Numbered(num, ln), ':') == p;
    Pad5Value(num);
  }

  /** A numbered line is one line: the number and `: ` add no `\n`. */
  lemma NumberedHasNoNewline(num: nat, ln: string)
    requires IsLine(ln)
    ensures '\n' !in Numbered(num, ln)
  {
    var s := Numbered(num, ln);
    var p := |Pad5(num)|;
    forall i | 0 <= i < |s| ensures s[i] != '\n' {
      if i >= p + 2 {
        assert s[i] == ln[i - p - 2];
      }
    }
  }

  // ----- Blocks -----

  /** The lines of `block`, numbered from `first + 1`. */
  function NumberLines(block: seq<string>, first: nat): (r: seq<string>)
    ensures |r| == |block|
    ensures forall j :: 0 <= j < |block| ==> r[j] == Numbered(first + 1 + j, block[j])
  {
    seq(|block|, j requires 0 <= j < |block| => Numbered(first + 1 + j, block[j]))
  }

  /** `"\n".join(f"{i+1+j:05d}: {ln}" for j, ln in enumerate(block))`, one line at a time. */
  function NumberBlock(block: seq<string>, first: nat): string
    decreases |block|
  {
    if |block| == 0 then ""
    else if |block| == 1 then Numbered(first + 1, block[0])
    else Numbered(first + 1, block[0]) + "\n" + NumberBlock(block[1..], first + 1)
  }

  /** The block is the numbered lines joined by `\n`. */
  lemma {:induction false} NumberBlockJoin(block: seq<string>, first: nat)
    ensures NumberBlock(block, first) == Join(NumberLines(block, first), "\n")
    decreases |block|
  {
    if |block| > 1 {
      NumberBlockJoin(block[1..], first + 1);
      assert NumberLines(block[1..], first + 1) == NumberLines(block, first)[1..];
    }
  }

  /** `range(i, L, n)` for a step `n > 0`: where the blocks start. */
  function Starts(L: nat, n: nat, i: nat): (r: seq<nat>)
    requires 0 < n
    ensures forall k :: 0 <= k < |r| ==> i <= r[k] < L
    decreases L - i
  {
    if i >= L then [] else [i] + Starts(L, n, i + n)
  }

  /** `min(j + n, L)`: where the block starting at `j` ends, as slicing `lines[j:j+n]` cuts it. */
  function BlockEnd(L: nat, n: nat, j: nat): nat {
    if j + n < L then j + n else L
  }

  /** The numbered block of up to `n` lines starting at line `j`. */
  function BlockAt(lines: seq<string>, n: nat, j: nat): string
    requires j < |lines|
  {
    NumberBlock(lines[j..BlockEnd(|lines|, n, j)], j)
  }

  /** The chunks the `for` loop of `ingest_code` appends for the blocks starting at `i`, `i + n`, … */
  function CodeChunksFrom(lines: seq<string>, n: nat, i: nat): seq<string>
    requires 0 < n
  {
    var starts := Starts(|lines|, n, i);
    seq(|starts|, k requires 0 <= k < |starts| => BlockAt(lines, n, starts[k]))
  }

  /** One step of the loop: the block at `i`, then the blocks from `i + n`. */
  lemma CodeChunkStep(lines: seq<string>, n: nat, i: nat)
    requires 0 < n && i < |lines|
    ensures CodeChunksFrom(lines, n, i) == [BlockAt(lines, n, i)] + CodeChunksFrom(lines, n, i + n)
  {
    var starts := Starts(|lines|, n, i);
    assert starts == [i] + Starts(|lines|, n, i + n);
  }

  /** Past the last line there is nothing to chunk. */
  lemma NoChunksAfterEnd(lines: seq<string>, n: nat, i: nat)
    requires 0 < n && |lines| <= i
    ensures CodeChunksFrom(lines, n, i) == []
  {
  }

  /** The loop invariant of `BuildChunks` survives appending the block at `i`. */
  lemma AppendChunk(lines: seq<string>, n: nat, i: nat, chunks: seq<string>)
    requires 0 < n && i < |lines|
    requires chunks + CodeChunksFrom(lines, n, i) == CodeChunksFrom(lines, n, 0)
    ensures chunks + [BlockAt(lines, n, i)] + CodeChunksFrom(lines, n, i + n) == CodeChunksFrom(lines, n, 0)
  {
    CodeChunkStep(lines, n, i);
    assert chunks + [BlockAt(lines, n, i)] + CodeChunksFrom(lines, n, i + n)
      == chunks + ([BlockAt(lines, n, i)] + CodeChunksFrom(lines, n, i + n));
  }

  /** The code ingestor, with the block length it is built with. */
  class CodeIngestor {
    const linesPerChunk: int

    /** `CodeIngestor(db, vector, lines_per_chunk=120)`; the store handles are not modelled. */
    constructor (linesPerChunk: int)
      ensures this.linesPerChunk == linesPerChunk
    {
      this.linesPerChunk := linesPerChunk;
    }

    /** The chunks `ingest_code` builds for `codeText`; a negative step makes `range` empty. */
    function Chunks(codeText: string): seq<string>
      requires linesPerChunk != 0
    {
      if linesPerChunk < 0 then [] else CodeChunksFrom(SplitLines(codeText), linesPerChunk, 0)
    }

    /**
     * `ingest_code(session_id, filename, code_text)`: the `(position, text)`
     * pairs handed to the chunk store and their number. `range` refuses a
     * zero step with a `ValueError`.
     */
    method IngestCode(codeText: string) returns (r: Result<(seq<(nat, string)>, nat), string>)
      ensures r.Err? <==> linesPerChunk == 0
      ensures r.Ok? ==> |r.value.0| == r.value.1 == |Chunks(codeText)|
      ensures r.Ok? ==> forall k :: 0 <= k < r.value.1 ==> r.value.0[k] == (k, Chunks(codeText)[k])
    {
      if linesPerChunk == 0 {
        return Err("range() arg 3 must not be zero");
      }
      var lines := SplitLines(codeText);
      var chunks := BuildChunks(lines);
      var stored := [];
      var idx := 0;
      while idx < |chunks|
        invariant 0 <= idx <= |chunks| && |stored| == idx
        invariant forall k :: 0 <= k < idx ==> stored[k] == (k, chunks[k])
      {
        stored := stored + [(idx, chunks[idx])];
        idx := idx + 1;
      }
      return Ok((stored, |chunks|));
    }

    /** The first loop of `ingest_code`: one numbered block per step of `range(0, len(lines), n)`. */
    method BuildChunks(lines: seq<string>) returns (chunks: seq<string>)
      requires linesPerChunk != 0
      ensures linesPerChunk < 0 ==> chunks == []
      ensures linesPerChunk > 0 ==> chunks == CodeChunksFrom(lines, linesPerChunk, 0)
    {
      chunks := [];
      if linesPerChunk < 0 {
        return;
      }
      var n := linesPerChunk;
      var i: nat := 0;
      while i < |lines|
        invariant chunks + CodeChunksFrom(lines, n, i) == CodeChunksFrom(lines, n, 0)
        decreases |lines| - i
      {
        var block := lines[i..BlockEnd(|lines|, n, i)];
        var numbered := NumberBlock(block, i);
        AppendChunk(lines, n, i, chunks);
        chunks := chunks + [numbered];
        i := i + n;
      }
    }
  }

  // ----- What the blocks promise -----

  /** `|range(i, L, n)|` is `⌈(L - i) / n⌉`: enough steps of `n` to cover `L - i`, and one fewer would not be. */
  lemma {:induction false} StartsCount(L: nat, n: nat, i: nat)
    requires 0 < n && i <= L
    ensures |Starts(L, n, i)| * n >= L - i
    ensures L == i ==> |Starts(L, n, i)| == 0
    ensures L > i ==> (|Starts(L, n, i)| - 1) * n < L - i
    decreases L - i
  {
    if i < L {
      var c := |Starts(L, n, i + n)|;
      assert |Starts(L, n, i)| == c + 1;
      MulStep(c, n);
      if i + n < L {
        StartsCount(L, n, i + n);
      } else {
        assert c == 0;
      }
    }
  }

  lemma MulNat(k: nat, n: nat)
    ensures 0 <= k * n
  {
  }

  lemma MulStep(c: int, n: int)
    ensures (c + 1) * n == c * n + n
    ensures c * n - n == (c - 1) * n
  {
  }

  /** Step `k` of `range(i, L, n)` is `i + k * n`. */
  lemma {:induction false} StartsAt(L: nat, n: nat, i: nat, k: nat)
    requires 0 < n && k < |Starts(L, n, i)|
    ensures Starts(L, n, i)[k] == i + k * n
    decreases L - i
  {
    if k > 0 {
      assert Starts(L, n, i)[k] == Starts(L, n, i + n)[k - 1];
      StartsAt(L, n, i + n, k - 1);
      MulStep(k - 1, n);
    }
  }

  /** `L` lines make `⌈L / n⌉` chunks. */
  lemma ChunkCount(lines: seq<string>, n: nat, i: nat)
    requires 0 < n && i <= |lines|
    ensures |CodeChunksFrom(lines, n, i)| * n >= |lines| - i
    ensures |lines| == i ==> |CodeChunksFrom(lines, n, i)| == 0
    ensures |lines| > i ==> (|CodeChunksFrom(lines, n, i)| - 1) * n < |lines| - i
  {
    StartsCount(|lines|, n, i);
  }

  /** The lines of a chunk are its block, numbered from `first + 1`. */
  lemma BlockLines(block: seq<string>, first: nat)
    requires block != [] && AllLines(block)
    ensures Split(NumberBlock(block, first), '\n') == NumberLines(block, first)
  {
    var xs := NumberLines(block, first);
    forall k | 0 <= k < |xs| ensures '\n' !in xs[k] {
      NumberedHasNoNewline(first + 1 + k, block[k]);
    }
    SplitJoin(xs, '\n');
    NumberBlockJoin(block, first);
  }

  /**
   * Chunk `k` holds lines `k * n` up to `k * n + n` (fewer for the last
   * chunk), each numbered with its 1-based position in the whole text.
   */
  lemma ChunkContents(lines: seq<string>, n: nat, i: nat, k: nat)
    requires 0 < n && k < |CodeChunksFrom(lines, n, i)|
    ensures i + k * n < |lines|
    ensures var j := i + k * n;
      CodeChunksFrom(lines, n, i)[k] == NumberBlock(lines[j..BlockEnd(|lines|, n, j)], j)
  {
    StartsAt(|lines|, n, i, k);
  }

  /**
   * Line `j` of chunk `k` is line `k * n + j` of the text, written after
   * its 1-based number padded to five digits and `: `; the number reads back.
   */
  lemma ChunkLine(lines: seq<string>, n: nat, k: nat, j: nat)
    requires 0 < n && AllLines(lines) && k < |CodeChunksFrom(lines, n, 0)|
    requires k * n + j < BlockEnd(|lines|, n, k * n)
    ensures var parts := Split(CodeChunksFrom(lines, n, 0)[k], '\n');
      && j < |parts|
      && parts[j] == Numbered(k * n + j + 1, lines[k * n + j])
      && LineNumber(parts[j]) == k * n + j + 1
  {
    MulNat(k, n);
    var start: nat := k * n;
    ChunkContents(lines, n, 0, k);
    SliceLine(CodeChunksFrom(lines, n, 0)[k], lines, start, BlockEnd(|lines|, n, start), j);
  }

  /** Line `j` of the numbered block `lines[start..end]` is line `start + j` of `lines`. */
  lemma SliceLine(c: string, lines: seq<string>, start: nat, end: nat, j: nat)
    requires start + j < end <= |lines| && AllLines(lines)
    requires c == NumberBlock(lines[start..end], start)
    ensures var parts := Split(c, '\n');
      && j < |parts|
      && parts[j] == Numbered(start + j + 1, lines[start + j])
      && LineNumber(parts[j]) == start + j + 1
  {
    var block := lines[start..end];
    BlockLinesOf(lines, start, end);
    BlockLine(block, start, j);
    assert block[j] == lines[start + j];
  }

  /** Line `j` of a numbered block is the block's line `j` after the number `first + 1 + j`. */
  lemma BlockLine(block: seq<string>, first: nat, j: nat)
    requires AllLines(block) && j < |block|
    ensures var parts := Split(NumberBlock(block, first), '\n');
      && j < |parts|
      && parts[j] == Numbered(first + 1 + j, block[j])
      && LineNumber(parts[j]) == first + 1 + j
  {
    BlockLines(block, first);
    NumberedRoundTrip(first + 1 + j, block[j]);
  }

  /** Every chunk holds at most `n` lines, and every chunk but the last exactly `n`. */
  lemma ChunkSize(lines: seq<string>, n: nat, k: nat)
    requires 0 < n && AllLines(lines) && k < |CodeChunksFrom(lines, n, 0)|
    ensures 0 < |ChunkText(CodeChunksFrom(lines, n, 0)[k])| <= n
    ensures k + 1 < |CodeChunksFrom(lines, n, 0)| ==> |ChunkText(CodeChunksFrom(lines, n, 0)[k])| == n
  {
    ChunkContents(lines, n, 0, k);
    StartsAt(|lines|, n, 0, k);
    BlockAtText(lines, n, k * n);
    if k + 1 < |CodeChunksFrom(lines, n, 0)| {
      StartsAt(|lines|, n, 0, k + 1);
      MulStep(k, n);
    }
  }

  /** A slice of lines is made of lines. */
  lemma BlockLinesOf(lines: seq<string>, i: nat, j: nat)
    requires i <= j <= |lines| && AllLines(lines)
    ensures AllLines(lines[i..j])
  {
    assert forall k :: 0 <= k < j - i ==> lines[i..j][k] == lines[i + k];
  }

  /** The text of a chunk without its numbers. */
  function ChunkText(c: string): seq<string> {
    var parts := Split(c, '\n');
    seq(|parts|, j requires 0 <= j < |parts| => Unnumbered(parts[j]))
  }

  /** All chunks without their numbers, one after the other. */
  function Unchunk(cs: seq<string>): seq<string> {
    if cs == [] then [] else ChunkText(cs[0]) + Unchunk(cs[1..])
  }

  /** Removing the numbers from a block gives the block. */
  lemma BlockText(block: seq<string>, first: nat)
    requires block != [] && AllLines(block)
    ensures ChunkText(NumberBlock(block, first)) == block
  {
    BlockLines(block, first);
    forall j | 0 <= j < |block| ensures Unnumbered(Numbered(first + 1 + j, block[j])) == block[j] {
      NumberedRoundTrip(first + 1 + j, block[j]);
    }
  }

  /** Removing the numbers and putting the chunks together gives back the lines, in order. */
  lemma {:induction false} ChunksRoundTrip(lines: seq<string>, n: nat, i: nat)
    requires 0 < n && i <= |lines|
    requires AllLines(lines)
    ensures Unchunk(CodeChunksFrom(lines, n, i)) == lines[i..]
    decreases |lines| - i
  {
    if i < |lines| {
      if i + n < |lines| {
        ChunksRoundTrip(lines, n, i + n);
      } else {
        NoChunksAfterEnd(lines, n, i + n);
      }
      FirstBlockText(lines, n, i);
    } else {
      NoChunksAfterEnd(lines, n, i);
    }
  }

  /** The chunks from `i` give back the lines from `i` once the chunks after the first give back the lines after its block. */
  lemma FirstBlockText(lines: seq<string>, n: nat, i: nat)
    requires 0 < n && i < |lines| && AllLines(lines)
    requires Unchunk(CodeChunksFrom(lines, n, i + n)) == lines[BlockEnd(|lines|, n, i)..]
    ensures Unchunk(CodeChunksFrom(lines, n, i)) == lines[i..]
  {
    var end := BlockEnd(|lines|, n, i);
    CodeChunkStep(lines, n, i);
    UnchunkCons(BlockAt(lines, n, i), CodeChunksFrom(lines, n, i + n));
    BlockAtText(lines, n, i);
    SliceSplit(lines, i, end);
  }

  lemma SliceSplit<T>(s: seq<T>, i: nat, j: nat)
    requires i <= j <= |s|
    ensures s[i..] == s[i..j] + s[j..]
  {
  }

  /** Removing the numbers from the block at `i` gives its lines. */
  lemma BlockAtText(lines: seq<string>, n: nat, i: nat)
    requires 0 < n && i < |lines| && AllLines(lines)
    ensures ChunkText(BlockAt(lines, n, i)) == lines[i..BlockEnd(|lines|, n, i)]
  {
    var block := lines[i..BlockEnd(|lines|, n, i)];
    assert forall k :: 0 <= k < |block| ==> block[k] == lines[i + k];
    BlockText(block, i);
  }

  lemma UnchunkCons(c: string, rest: seq<string>)
    ensures Unchunk([c] + rest) == ChunkText(c) + Unchunk(rest)
  {
    assert ([c] + rest)[1..] == rest;
  }

  /** The stored chunks carry the code's lines, numbered from 1 without a gap. */
  lemma CodeRoundTrip(ing: CodeIngestor, codeText: string)
    requires ing.linesPerChunk > 0
    ensures Unchunk(ing.Chunks(codeText)) == SplitLines(codeText)
    ensures |ing.Chunks(codeText)| * ing.linesPerChunk >= |SplitLines(codeText)|
    ensures SplitLines(codeText) != [] ==> (|ing.Chunks(codeText)| - 1) * ing.linesPerChunk < |SplitLines(codeText)|
  {
    var lines := SplitLines(codeText);
    ChunksRoundTrip(lines, ing.linesPerChunk, 0);
    ChunkCount(lines, ing.linesPerChunk, 0);
  }
}
