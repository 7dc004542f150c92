/** Reading the last lines of a file backwards, block by block, against the whole-file definition. */
module LogTail {
  import opened Common

  const NEWLINE: byte := 10

  function Newlines(s: Bytes): nat {
    if s == [] then 0 else (if s[0] == NEWLINE then 1 else 0) + Newlines(s[1..])
  }

  /** Lines without their newlines; a last line without one counts, an empty rest does not. */
  function Lines(s: Bytes): seq<Bytes>
    decreases |s|
  {
    if s == [] then [] else
    var n := FirstLineLength(s);
    if n == |s| then [s] else [s[..n]] + Lines(s[n + 1..])
  }

  function FirstLineLength(s: Bytes): (n: nat)
    ensures n <= |s| && (n < |s| ==> s[n] == NEWLINE)
    ensures forall i :: 0 <= i < n ==> s[i] != NEWLINE
  {
    if s == [] || s[0] == NEWLINE then 0 else 1 + FirstLineLength(s[1..])
  }

  /** Where the tail starts: after the (n+1)-th newline from the end, or at the beginning. */
  ghost predicate IsCut(s: Bytes, n: nat, cut: nat) {
    && cut <= |s|
    && Newlines(s[cut..]) <= n
    && (cut == 0 || (s[cut - 1] == NEWLINE && Newlines(s[cut..]) == n))
  }

  lemma {:induction false} NewlinesConcat(a: Bytes, b: Bytes)
    ensures Newlines(a + b) == Newlines(a) + Newlines(b)
  {
    if a == [] {
      assert a + b == b;
    } else {
      NewlinesConcat(a[1..], b);
      assert (a + b)[1..] == a[1..] + b;
    }
  }

  lemma {:induction false} NewlinesFewer(s: Bytes, i: nat, j: nat)
    requires i <= j <= |s|
    ensures Newlines(s[j..]) <= Newlines(s[i..])
    decreases j - i
  {
    if i < j {
      NewlinesFewer(s, i + 1, j);
    }
  }

  lemma CutIsUnique(s: Bytes, n: nat, a: nat, b: nat)
    requires IsCut(s, n, a) && IsCut(s, n, b)
    ensures a == b
  {
    if a < b {
      NewlinesFewer(s, a, b - 1);
    } else if b < a {
      NewlinesFewer(s, b, a - 1);
    }
  }

  // ----- what the tail is in terms of lines -----

  predicate EndsInNewline(s: Bytes) {
    s != [] && s[|s| - 1] == NEWLINE
  }

  /** The newlines of the rest, after the first line. */
  lemma {:induction false} FirstLineNewlines(s: Bytes)
    ensures
      var n := FirstLineLength(s);
      Newlines(s) == if n == |s| then 0 else 1 + Newlines(s[n + 1..])
  {
    if s != [] && s[0] != NEWLINE {
      FirstLineNewlines(s[1..]);
      var n := FirstLineLength(s);
      if n < |s| {
        assert s[1..][n..] == s[n + 1..];
      }
    }
  }

  /** A line per newline, and one more for an unterminated rest. */
  lemma {:induction false} LineCount(s: Bytes)
    ensures |Lines(s)| == Newlines(s) + if s != [] && !EndsInNewline(s) then 1 else 0
    decreases |s|
  {
    if s != [] {
      var n := FirstLineLength(s);
      FirstLineNewlines(s);
      if n < |s| {
        var more := s[n + 1..];
        LineCount(more);
        LinesStep(s, n);
        assert if more == [] then EndsInNewline(s) else EndsInNewline(more) == EndsInNewline(s);
      } else {
        assert !EndsInNewline(s);
      }
    }
  }

  /** Cutting after a newline cuts between lines. */
  lemma {:induction false} LinesConcat(a: Bytes, b: Bytes)
    requires a == [] || EndsInNewline(a)
    ensures Lines(a + b) == Lines(a) + Lines(b)
    decreases |a|
  {
    if a == [] {
      assert a + b == b;
    } else {
      var n := FirstLineLength(a);
      assert a[|a| - 1] == NEWLINE && n < |a|;
      var more := a[n + 1..];
      assert more == [] || EndsInNewline(more);
      LinesConcat(more, b);
      LinesStep(a, n);
      FrontLine(a, b, n);
      ConcatAssoc([a[..n]], Lines(more), Lines(b));
    }
  }

  lemma FrontLine(a: Bytes, b: Bytes, n: nat)
    requires n < |a| && a[n] == NEWLINE && forall i :: 0 <= i < n ==> a[i] != NEWLINE
    ensures Lines(a + b) == [a[..n]] + Lines(a[n + 1..] + b)
  {
    LinesStep(a + b, n);
    assert (a + b)[n + 1..] == a[n + 1..] + b && (a + b)[..n] == a[..n];
  }

  function Min(a: nat, b: nat): nat {
    if a < b then a else b
  }

  function LastLines(s: Bytes, k: nat): seq<Bytes> {
    var all := Lines(s);
    all[|all| - Min(k, |all|)..]
  }

  /** Lines before and after a cut. */
  lemma {:induction false} CutLines(s: Bytes, n: nat, cut: nat)
    requires IsCut(s, n, cut)
    ensures Lines(s) == Lines(s[..cut]) + Lines(s[cut..])
    ensures Newlines(s) == Newlines(s[..cut]) + Newlines(s[cut..])
    ensures |Lines(s[..cut])| == Newlines(s[..cut])
  {
    var front, tail := s[..cut], s[cut..];
    assert s == front + tail;
    LinesConcat(front, tail);
    NewlinesConcat(front, tail);
    LineCount(front);
  }

  /** The tail is the last `n` lines of a file that ends in a newline, the last `n + 1` of one that does not. */
  lemma TailIsLastLines(s: Bytes, n: nat, cut: nat)
    requires IsCut(s, n, cut)
    ensures Lines(s[cut..]) == LastLines(s, if s == [] || EndsInNewline(s) then n else n + 1)
  {
    CutLines(s, n, cut);
    LineCount(s[cut..]);
    TailEnds(s, n, cut);
  }

  /** The tail ends as the file does; an empty tail follows a newline. */
  lemma TailEnds(s: Bytes, n: nat, cut: nat)
    requires IsCut(s, n, cut)
    ensures s[cut..] != [] ==> EndsInNewline(s[cut..]) == EndsInNewline(s)
    ensures s[cut..] == [] ==> s == [] || EndsInNewline(s)
    ensures cut == 0 ==> s[..cut] == []
  {
  }

  /** So it is the last `n` lines exactly when the file ends in a newline or has at most `n` lines. */
  lemma TailIsLastNExactly(s: Bytes, n: nat, cut: nat)
    requires IsCut(s, n, cut)
    ensures Lines(s[cut..]) == LastLines(s, n) <==> s == [] || EndsInNewline(s) || |Lines(s)| <= n
  {
    TailIsLastLines(s, n, cut);
  }

  /** Asked for one line of a file whose last line is unterminated, the tail has two. */
  lemma UnterminatedExample()
    ensures
      var file: Bytes := [97, 10, 98];
      forall cut: nat :: IsCut(file, 1, cut) ==> Lines(file[cut..]) == [[97], [98]] && LastLines(file, 1) == [[98]]
  {
    var file: Bytes := [97, NEWLINE, 98];
    LinesStep(file, 1);
    assert file[..1] == [97] && file[2..] == [98];
    assert Lines(file) == [[97], [98]];
    forall cut: nat | IsCut(file, 1, cut) ensures Lines(file[cut..]) == [[97], [98]] {
      TailIsLastLines(file, 1, cut);
    }
  }

  // ----- the backward reader -----

  method TailFile(file: Bytes, n: nat, blockSize: nat) returns (lines: seq<Bytes>)
    requires blockSize > 0
    ensures exists cut: nat :: IsCut(file, n, cut) && lines == Lines(file[cut..])
    ensures lines == LastLines(file, if file == [] || EndsInNewline(file) then n else n + 1)
  {
    if |file| == 0 {
      assert IsCut(file, n, 0) && file[0..] == [];
      TailIsLastLines(file, n, 0);
      return [];
    }
    var linesFound: nat, offset: nat := 0, |file|;
    assert file[offset..] == [];
    while offset > 0 && linesFound <= n
      invariant offset <= |file|
      invariant if linesFound <= n then linesFound == Newlines(file[offset..]) else IsCut(file, n, offset)
      decreases offset, n + 1 - linesFound
    {
      var readSize := blockSize;
      if readSize > offset {
        readSize := offset;
      }
      linesFound, offset := ScanBlock(file, n, offset - readSize, readSize, linesFound);
    }
    assert IsCut(file, n, offset);
    TailIsLastLines(file, n, offset);
    lines := SplitLines(file[offset..]);
  }

  /** Scan one block backwards for newlines, stopping at the one that makes too many. */
  method ScanBlock(file: Bytes, n: nat, offset: nat, size: nat, found: nat) returns (linesFound: nat, at: nat)
    requires 0 < size && offset + size <= |file|
    requires found <= n && found == Newlines(file[offset + size..])
    ensures if linesFound <= n then at == offset && linesFound == Newlines(file[offset..])
            else at <= offset + size && IsCut(file, n, at)
    ensures linesFound > found || at < offset + size
  {
    var buf := file[offset..offset + size];
    linesFound, at := found, offset;
    var i := size - 1;
    while i >= 0
      invariant -1 <= i < size
      invariant linesFound <= n && found <= linesFound && linesFound == Newlines(file[offset + i + 1..])
    {
      assert buf[i] == file[offset + i];
      if buf[i] == NEWLINE {
        linesFound := linesFound + 1;
        if linesFound > n {
          at := offset + i + 1;
          return;
        }
      }
      i := i - 1;
    }
  }

  lemma LinesStep(s: Bytes, k: nat)
    requires k < |s| && s[k] == NEWLINE && forall i :: 0 <= i < k ==> s[i] != NEWLINE
    ensures Lines(s) == [s[..k]] + Lines(s[k + 1..])
  {
  }

  lemma SplitStep(buf: Bytes, lines: seq<Bytes>, start: nat, i: nat)
    requires start <= i < |buf| && buf[i] == NEWLINE && forall k :: start <= k < i ==> buf[k] != NEWLINE
    ensures lines + Lines(buf[start..]) == lines + [buf[start..i]] + Lines(buf[i + 1..])
  {
    var rest, k := buf[start..], i - start;
    LinesStep(rest, k);
    assert rest[..k] == buf[start..i] && rest[k + 1..] == buf[i + 1..];
    ConcatAssoc(lines, [buf[start..i]], Lines(buf[i + 1..]));
  }

  method SplitLines(buf: Bytes) returns (lines: seq<Bytes>)
    ensures lines == Lines(buf)
  {
    lines := [];
    var start := 0;
    assert buf[start..] == buf;
    for i := 0 to |buf|
      invariant start <= i && forall k :: start <= k < i ==> buf[k] != NEWLINE
      invariant Lines(buf) == lines + Lines(buf[start..])
    {
      if buf[i] == NEWLINE {
        SplitStep(buf, lines, start, i);
        lines := lines + [buf[start..i]];
        start := i + 1;
      }
    }
    if start < |buf| {
      lines := lines + [buf[start..]];
    }
  }
}
