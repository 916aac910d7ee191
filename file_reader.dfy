/** The line reader of reference/file.c over a modelled stream: a FILE is
    its text and a read position, storage is a buffer of characters that
    grows by doubling, and an allocation of more than `limit` bytes is
    refused. Line texts and `strtok` tokens come from module Text. */
module FileReader {
  import opened Text

  /** Size of the buffer custom_getline allocates when it is given none. */
  const InitialSize: nat := 128

  /** What fgetc hands back: a character, or EOF. */
  datatype Got = Eof | Char(ch: char)

  /** A stream opened for reading. */
  class Stream {
    const text: string
    var offset: nat

    constructor (text: string)
      ensures this.text == text && offset == 0
    {
      this.text := text;
      offset := 0;
    }

    /** fgetc: the character at the read position, which then moves on by
        one, or EOF at the end of the text. */
    method Fgetc() returns (c: Got)
      requires offset <= |text|
      modifies this
      ensures old(offset) < |text| ==> c == Char(text[old(offset)]) && offset == old(offset) + 1
      ensures old(offset) == |text| ==> c == Eof && offset == old(offset)
    {
      if offset == |text| {
        return Eof;
      }
      c := Char(text[offset]);
      offset := offset + 1;
    }
  }

  /** The line that starts at `offset`: the characters up to the first
      newline or the end of the text, the newline excluded. */
  function LineAt(text: string, offset: nat): (line: string)
    requires offset <= |text|
    ensures offset + |line| <= |text| && line == text[offset..offset + |line|]
    ensures '\n' !in line
    ensures offset + |line| < |text| ==> text[offset + |line|] == '\n'
  {
    assert text[offset..][..FirstIndex(text[offset..], '\n')] == text[offset..offset + FirstIndex(text[offset..], '\n')];
    text[offset..][..FirstIndex(text[offset..], '\n')]
  }

  /** The read position once the line at `offset` has been read: past the
      newline that ends it, when there is one. */
  function After(text: string, offset: nat): (next: nat)
    requires offset <= |text|
    ensures next <= |text|
    ensures offset < |text| ==> offset < next
  {
    var e := offset + |LineAt(text, offset)|;
    if e < |text| then e + 1 else e
  }

  /** The lines that successive custom_getline calls return from `offset`
      on, when storage is never refused. */
  function LinesFrom(text: string, offset: nat): seq<string>
    requires offset <= |text|
    decreases |text| - offset
  {
    if offset == |text| then [] else [LineAt(text, offset)] + LinesFrom(text, After(text, offset))
  }

  /** The lines of the whole text. */
  function Lines(text: string): seq<string>
  {
    LinesFrom(text, 0)
  }

  /** The buffer size before the character at index `pos` is stored: one
      that leaves no room for it and the terminator is doubled. */
  function Grow(size: nat, pos: nat): nat
  {
    if pos + 1 >= size then 2 * size else size
  }

  /** The buffer size once `m` characters have been stored, starting from
      size `c0`. */
  function Capacity(c0: nat, m: nat): nat
  {
    if m == 0 then c0 else Grow(Capacity(c0, m - 1), m - 1)
  }

  /** Every reallocation needed to store `m` characters was granted. */
  predicate Fits(c0: nat, m: nat, limit: nat)
  {
    m == 0 || (Fits(c0, m - 1, limit) && (Capacity(c0, m) == Capacity(c0, m - 1) || Capacity(c0, m) <= limit))
  }

  function Max(a: nat, b: nat): nat
  {
    if a >= b then a else b
  }

  /** A non-empty buffer never shrinks, always has room for the characters
      stored and the terminator, and is at most twice as large as needed. */
  lemma {:induction false} CapacityBounds(c0: nat, m: nat)
    requires c0 >= 1
    ensures c0 <= Capacity(c0, m)
    ensures m < Capacity(c0, m)
    ensures Capacity(c0, m) <= Max(c0, 2 * m)
  {
    if m > 0 {
      CapacityBounds(c0, m - 1);
    }
  }

  /** The size only grows from one character to the next. */
  lemma {:induction false} CapacityMonotone(c0: nat, p: nat, m: nat)
    requires p <= m
    ensures Capacity(c0, p) <= Capacity(c0, m)
    decreases m - p
  {
    if p < m {
      CapacityMonotone(c0, p, m - 1);
    }
  }

  /** Storing a line succeeds exactly when it needs no reallocation or the
      final size is within the limit. */
  lemma {:induction false} FitsFinal(c0: nat, m: nat, limit: nat)
    ensures Fits(c0, m, limit) <==> Capacity(c0, m) == c0 || Capacity(c0, m) <= limit
  {
    if m > 0 {
      FitsFinal(c0, m - 1, limit);
      CapacityMonotone(c0, 0, m - 1);
    }
  }

  /** The sizes the reader asks for do not depend on the characters, so a
      line that fits, fits at every shorter length. */
  lemma {:induction false} FitsPrefix(c0: nat, p: nat, m: nat, limit: nat)
    requires p <= m && Fits(c0, m, limit)
    ensures Fits(c0, p, limit)
    decreases m - p
  {
    if p < m {
      FitsPrefix(c0, p, m - 1, limit);
    }
  }

  /** realloc(buf, size): a fresh buffer of `size` characters that starts
      with the old contents, or null when more than `limit` bytes are asked
      for. */
  method Realloc(buf: array<char>, size: nat, limit: nat) returns (b: array?<char>)
    requires buf.Length <= size
    ensures b == null <==> size > limit
    ensures b != null ==> fresh(b) && b.Length == size && b[..buf.Length] == buf[..]
  {
    if size > limit {
      return null;
    }
    b := new char[size];
    for i := 0 to buf.Length
      invariant b[..i] == buf[..i]
    {
      b[i] := buf[i];
    }
  }

  /** The size of the buffer custom_getline starts from: 128 bytes when it
      is given no buffer or a size of 0, the given size otherwise. */
  function StartSize(missing: bool, n: nat): nat
  {
    if missing then InitialSize else n
  }

  /** Storage for a line of `m` characters is refused: the first buffer
      when one is needed, or a reallocation. */
  predicate Refused(missing: bool, n: nat, m: nat, limit: nat)
  {
    (missing && InitialSize > limit) || !Fits(StartSize(missing, n), m, limit)
  }

  /** One pass of the loop of custom_getline: the buffer is doubled when
      index `pos` leaves no room for the terminator after it, then `ch` is
      stored at `pos`. `ok` is false when the reallocation is refused, and
      nothing is stored then. */
  method Put(buf: array<char>, pos: nat, ch: char, limit: nat) returns (ok: bool, buf': array<char>)
    requires pos < buf.Length
    modifies buf
    ensures ok <==> Grow(buf.Length, pos) == buf.Length || Grow(buf.Length, pos) <= limit
    ensures ok ==> ((buf' == buf || fresh(buf')) && buf'.Length == Grow(buf.Length, pos) &&
      buf'[..pos] == old(buf[..pos]) && buf'[pos] == ch)
    ensures !ok ==> buf' == buf
  {
    buf' := buf;
    if pos + 1 >= buf.Length {
      var b := Realloc(buf, buf.Length * 2, limit);
      if b == null {
        return false, buf;
      }
      buf' := b;
    }
    buf'[pos] := ch;
    ok := true;
  }

  /** The loop of custom_getline: characters are read up to a newline or
      EOF and stored from index 0. `ok` is false when a reallocation is
      refused; the stream then stands after the character that could not
      be stored. */
  method StoreLine(buf0: array<char>, stream: Stream, limit: nat)
    returns (ok: bool, last: Got, pos: nat, buf: array<char>)
    requires stream.offset <= |stream.text| && buf0.Length >= 1
    modifies stream, buf0
    ensures stream.offset <= |stream.text|
    ensures buf == buf0 || fresh(buf)
    ensures ok == Fits(buf0.Length, |LineAt(stream.text, old(stream.offset))|, limit)
    ensures ok ==> (pos == |LineAt(stream.text, old(stream.offset))| && pos < buf.Length &&
      buf.Length == Capacity(buf0.Length, pos) && buf[..pos] == LineAt(stream.text, old(stream.offset)) &&
      stream.offset == After(stream.text, old(stream.offset)) &&
      (last == Eof <==> old(stream.offset) + pos == |stream.text|))
    ensures !ok ==> (old(stream.offset) < stream.offset &&
      buf.Length == Capacity(buf0.Length, stream.offset - old(stream.offset) - 1))
  {
    ghost var text := stream.text;
    ghost var start := stream.offset;
    ghost var line := LineAt(text, start);
    ghost var c0 := buf0.Length;
    buf, pos := buf0, 0;
    var c := stream.Fgetc();
    while c.Char? && c.ch != '\n'
      invariant pos <= |line|
      invariant stream.offset == if start + pos < |text| then start + pos + 1 else start + pos
      invariant c == if start + pos < |text| then Char(text[start + pos]) else Eof
      invariant buf.Length == Capacity(c0, pos) && pos < buf.Length && Fits(c0, pos, limit)
      invariant buf == buf0 || fresh(buf)
      invariant buf[..pos] == line[..pos]
      decreases |line| - pos
    {
      var stored;
      stored, buf := Put(buf, pos, c.ch, limit);
      if !stored {
        if Fits(c0, |line|, limit) {
          FitsPrefix(c0, pos + 1, |line|, limit);
        }
        return false, c, pos, buf;
      }
      pos := pos + 1;
      c := stream.Fgetc();
    }
    assert pos == |line|;
    return true, c, pos, buf;
  }

  /** The buffer `line` of size `n` holds the line at `offset` of `text`,
      `read` characters long, followed by a NUL. */
  ghost predicate Holds(line: array?<char>, n: nat, read: int, text: string, offset: nat)
    requires offset <= |text|
    reads line
  {
    read == |LineAt(text, offset)| && offset < |text| &&
    line != null && line.Length == n && read < n &&
    line[..read] == LineAt(text, offset) && line[read] == '\0'
  }

  /** custom_getline(&lineptr, &n, stream) with allocations above `limit`
      refused. A missing or empty buffer is first replaced by a fresh one of
      128 bytes. The characters of the line are then stored from index 0
      and followed by a NUL; the newline is consumed but not stored. The
      result is the number of characters stored, or -1 exactly when the
      text was already at its end or storage was refused. */
  method CustomGetline(lineptr: array?<char>, n: nat, stream: Stream, limit: nat)
    returns (ret: int, lineptr': array?<char>, n': nat)
    requires stream.offset <= |stream.text|
    requires lineptr != null && n != 0 ==> lineptr.Length == n
    modifies stream, lineptr
    ensures stream.offset <= |stream.text|
    ensures lineptr' == null || lineptr' == lineptr || fresh(lineptr')
    ensures ret == -1 <==>
      old(stream.offset) == |stream.text| ||
      Refused(lineptr == null || n == 0, n, |LineAt(stream.text, old(stream.offset))|, limit)
    ensures ret != -1 ==>
      Holds(lineptr', n', ret, stream.text, old(stream.offset)) &&
      stream.offset == After(stream.text, old(stream.offset)) &&
      n' == Capacity(StartSize(lineptr == null || n == 0, n), ret)
    ensures (lineptr == null || n == 0) && InitialSize > limit ==>
      lineptr' == null && n' == InitialSize && stream.offset == old(stream.offset)
    ensures old(stream.offset) == |stream.text| && !Refused(lineptr == null || n == 0, n, 0, limit) ==>
      stream.offset == old(stream.offset) && lineptr' != null && lineptr'.Length == n' &&
      n' == StartSize(lineptr == null || n == 0, n)
    ensures (!((lineptr == null || n == 0) && InitialSize > limit) &&
      Refused(lineptr == null || n == 0, n, |LineAt(stream.text, old(stream.offset))|, limit)) ==>
      old(stream.offset) < stream.offset &&
      n' == Capacity(StartSize(lineptr == null || n == 0, n), stream.offset - old(stream.offset) - 1)
  {
    var size := n;
    var buf: array<char>;
    if lineptr == null || n == 0 {
      size := InitialSize;
      if InitialSize > limit {
        return -1, null, size;
      }
      buf := new char[size];
    } else {
      buf := lineptr;
    }
    var ok, c, pos;
    ok, c, pos, buf := StoreLine(buf, stream, limit);
    size := buf.Length;
    if !ok {
      return -1, buf, size;
    }
    if c == Eof && pos == 0 {
      return -1, buf, size;
    }
    buf[pos] := '\0';
    return pos, buf, size;
  }

  /** The first `c` of `s` is at `k` when `s[k]` is one and none comes
      before it. */
  lemma {:induction false} FirstIndexAt(s: string, c: char, k: nat)
    requires k < |s| && s[k] == c && c !in s[..k]
    ensures FirstIndex(s, c) == k
  {
    if k > 0 {
      assert s[0] == s[..k][0];
      assert s[1..][..k - 1] == s[1..k];
      FirstIndexAt(s[1..], c, k - 1);
    }
  }

  /** A buffer holding `line` followed by a NUL holds the C string of
      `line`. */
  lemma CStringOfStored(s: string, line: string)
    requires |line| < |s| && s[..|line|] == line && s[|line|] == '\0'
    ensures CString(s) == CString(line)
  {
    var k := FirstIndex(line, '\0');
    if k < |line| {
      assert s[..k] == line[..k];
      FirstIndexAt(s, '\0', k);
    } else {
      FirstIndexAt(s, '\0', |line|);
    }
  }

  /** The lines read from a position depend only on the text from that
      position on. */
  lemma {:induction false} LinesFromSuffix(a: string, oa: nat, b: string, ob: nat)
    requires oa <= |a| && ob <= |b| && a[oa..] == b[ob..]
    ensures LinesFrom(a, oa) == LinesFrom(b, ob)
    decreases |a| - oa
  {
    if oa < |a| {
      assert LineAt(a, oa) == LineAt(b, ob);
      var na, nb := After(a, oa), After(b, ob);
      assert a[na..] == a[oa..][na - oa..];
      assert b[nb..] == b[ob..][nb - ob..];
      LinesFromSuffix(a, na, b, nb);
    }
  }

  /** The first line of a text that starts with a newline-free line and a
      newline is that line. */
  lemma FirstNewline(line: string, rest: string)
    requires '\n' !in line
    ensures LineAt(line + "\n" + rest, 0) == line
    ensures After(line + "\n" + rest, 0) == |line| + 1
  {
    var text := line + "\n" + rest;
    assert text[..|line|] == line;
    FirstIndexAt(text, '\n', |line|);
    assert text[0..] == text;
  }

  /** A newline-free line and a newline in front of a text add that line
      in front of the text's lines. */
  lemma FirstLineSplit(line: string, rest: string)
    requires '\n' !in line
    ensures Lines(line + "\n" + rest) == [line] + Lines(rest)
  {
    var text := line + "\n" + rest;
    FirstNewline(line, rest);
    assert text[|line| + 1..] == rest[0..];
    LinesFromSuffix(text, |line| + 1, rest, 0);
  }

  /** Newline-terminated lines read back as themselves. */
  lemma {:induction false} LinesOfTerminated(lines: seq<string>)
    requires forall i :: 0 <= i < |lines| ==> '\n' !in lines[i]
    ensures Lines(Terminated(lines)) == lines
  {
    if |lines| > 0 {
      FirstLineSplit(lines[0], Terminated(lines[1..]));
      LinesOfTerminated(lines[1..]);
    }
  }

  /** The number of its columns: the `strtok` tokens of a line stored as a
      C string. */
  function Width(line: string): nat
  {
    |Tokens(CString(line))|
  }

  /** The number of lines successive custom_getline calls return from
      `offset` on before the first -1, starting from no buffer (`missing`)
      or from one of `n` bytes: each call that is not at the end of the
      text and is not refused storage reads one line and leaves the buffer
      at the size that line needed. */
  function LinesRead(text: string, offset: nat, missing: bool, n: nat, limit: nat): nat
    requires offset <= |text|
    decreases |text| - offset
  {
    if offset == |text| || Refused(missing, n, |LineAt(text, offset)|, limit) then 0
    else 1 + LinesRead(text, After(text, offset), false, Capacity(StartSize(missing, n), |LineAt(text, offset)|), limit)
  }

  /** The reader never returns more lines than the text has. */
  lemma {:induction false} LinesReadBound(text: string, offset: nat, missing: bool, n: nat, limit: nat)
    requires offset <= |text|
    ensures LinesRead(text, offset, missing, n, limit) <= |LinesFrom(text, offset)|
    decreases |text| - offset
  {
    if offset < |text| {
      var m := |LineAt(text, offset)|;
      LinesReadBound(text, After(text, offset), false, Capacity(StartSize(missing, n), m), limit);
    }
  }

  /** With room for twice the text, and a buffer, if there is one, no larger
      than that, the reader returns every line of the text. */
  lemma {:induction false} LinesReadUnlimited(text: string, offset: nat, missing: bool, n: nat, limit: nat)
    requires offset <= |text| && limit >= Max(InitialSize, 2 * |text|)
    requires !missing ==> 1 <= n <= Max(InitialSize, 2 * |text|)
    ensures LinesRead(text, offset, missing, n, limit) == |LinesFrom(text, offset)|
    decreases |text| - offset
  {
    if offset < |text| {
      var c0, m := StartSize(missing, n), |LineAt(text, offset)|;
      CapacityBounds(c0, m);
      FitsFinal(c0, m, limit);
      LinesReadUnlimited(text, After(text, offset), false, Capacity(c0, m), limit);
    }
  }

  /** count_rows_cols_in_file(file, &length, &width): reads lines until
      custom_getline reports -1; the length is the number of lines read and
      the width the number of ','-separated tokens of the first line, or -1
      when there is none. The length is the number of lines read before the
      first refused allocation, and when every allocation the reader can
      ask for is granted, lines are read to the end of the text. */
  method CountRowsColsInFile(file: Stream, limit: nat) returns (length: int, width: int)
    requires file.offset <= |file.text|
    modifies file
    ensures 0 <= length <= |LinesFrom(file.text, old(file.offset))|
    ensures length == 0 ==> width == -1
    ensures length > 0 ==> width == Width(LinesFrom(file.text, old(file.offset))[0])
    ensures limit >= Max(InitialSize, 2 * |file.text|) ==> length == |LinesFrom(file.text, old(file.offset))|
    ensures length == LinesRead(file.text, old(file.offset), true, 0, limit)
  {
    ghost var text := file.text;
    ghost var start := file.offset;
    ghost var lines := LinesFrom(text, start);
    var line: array?<char> := null;
    var len: nat := 0;
    var colCount := 0;
    length, width := 0, -1;
    while true
      invariant start <= file.offset <= |text|
      invariant length == 0 ==> file.offset == start && width == -1
      invariant length > 0 ==> |lines| > 0 && width == Width(lines[0])
      invariant line == null || fresh(line)
      invariant line != null && len != 0 ==> line.Length == len
      invariant length + LinesRead(text, file.offset, line == null || len == 0, len, limit) == LinesRead(text, start, true, 0, limit)
      decreases |text| - file.offset
    {
      var read;
      read, line, len := CustomGetline(line, len, file, limit);
      if read == -1 {
        break;
      }
      length := length + 1;
      if width == -1 {
        CStringOfStored(line[..], LineAt(text, start));
        colCount := |Tokens(CString(line[..]))|;
        width := colCount;
      }
    }
    LinesReadBound(text, start, true, 0, limit);
    if limit >= Max(InitialSize, 2 * |text|) {
      LinesReadUnlimited(text, start, true, 0, limit);
    }
  }
}
