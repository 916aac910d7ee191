/** The Python driver's own logic (reference/symnmf.py): the hard
    clustering of a factor H by the position of each row's largest entry,
    and the row printer used for every goal's output. `"%.4f" % x` is the
    parameter `fmt`, and the printed text is returned as a string. */
module SymNmfPy {
  import opened Wrappers
  import opened Lists
  import opened Text
  import opened Matrices
  import opened MatUtils
  import FileReader

  /** `row.index(max(row))`: the position of the first largest entry. */
  function Label(row: seq<real>): (l: nat)
    requires |row| > 0
    ensures l < |row|
    ensures forall j :: 0 <= j < |row| ==> row[j] <= row[l]
    ensures forall j :: 0 <= j < l ==> row[j] < row[l]
  {
    var l := IndexOf(row, MaxOf(row));
    assert forall j :: 0 <= j < l ==> row[j] == row[..l][j];
    l
  }

  predicate RowsNonEmpty(h: Mat)
  {
    forall i :: 0 <= i < |h| ==> |h[i]| > 0
  }

  /** parse_to_clusters(h): the label of every row, in row order. `max` of
      an empty row raises, which the driver reports as an error. */
  method ParseToClusters(h: Mat) returns (r: Option<seq<nat>>)
    ensures r.None? <==> !RowsNonEmpty(h)
    ensures r.Some? ==> |r.value| == |h| && forall i :: 0 <= i < |h| ==> r.value[i] == Label(h[i])
  {
    var clusters: seq<nat> := [];
    for i := 0 to |h|
      invariant |clusters| == i
      invariant forall i' :: 0 <= i' < i ==> |h[i']| > 0 && clusters[i'] == Label(h[i'])
    {
      if |h[i]| == 0 {
        return None;
      }
      var cluster := IndexOf(h[i], MaxOf(h[i]));
      clusters := clusters + [cluster];
    }
    return Some(clusters);
  }

  /** print_formatted_matrix prints without raising: the first row has an
      entry and no row is shorter than the first. */
  predicate Printable(m: Mat)
  {
    |m| == 0 || (|m[0]| >= 1 && forall i :: 0 <= i < |m| ==> |m[i]| >= |m[0]|)
  }

  /** The first `w` entries of a row, each formatted, joined by ','. */
  function RowLine(row: seq<real>, w: nat, fmt: real -> string): string
    requires w <= |row|
  {
    Join(',', EntryTexts(row[..w], fmt))
  }

  /** The printed lines of the first `n` rows, `w` entries each. */
  function FormattedLines(m: Mat, n: nat, w: nat, fmt: real -> string): (ls: seq<string>)
    requires n <= |m| && forall i :: 0 <= i < n ==> w <= |m[i]|
    ensures |ls| == n && forall i :: 0 <= i < n ==> ls[i] == RowLine(m[i], w, fmt)
  {
    seq(n, i requires 0 <= i < n => RowLine(m[i], w, fmt))
  }

  /** What print_formatted_matrix prints: as many entries of every row as
      the first row has, separated by ',', each row ended by a newline. */
  function FormattedText(m: Mat, fmt: real -> string): string
    requires Printable(m)
  {
    if |m| == 0 then "" else Terminated(FormattedLines(m, |m|, |m[0]|, fmt))
  }

  lemma {:induction false} TerminatedSnoc(lines: seq<string>, line: string)
    ensures Terminated(lines + [line]) == Terminated(lines) + line + "\n"
  {
    if |lines| > 0 {
      assert (lines + [line])[1..] == lines[1..] + [line];
      TerminatedSnoc(lines[1..], line);
    }
  }

  /** The first `j` entries of a row, each formatted and followed by ','. */
  function Commas(row: seq<real>, j: nat, fmt: real -> string): string
    requires j <= |row|
  {
    if j == 0 then "" else Commas(row, j - 1, fmt) + fmt(row[j - 1]) + ","
  }

  /** Entries followed by commas, then one more entry, are the entries
      joined by ','. */
  lemma {:induction false} CommasJoin(row: seq<real>, j: nat, fmt: real -> string)
    requires j < |row|
    ensures Commas(row, j, fmt) + fmt(row[j]) == Join(',', EntryTexts(row[..j + 1], fmt))
  {
    if j > 0 {
      CommasJoin(row, j - 1, fmt);
      assert EntryTexts(row[..j + 1], fmt)[..j] == EntryTexts(row[..j], fmt);
      JoinStep(',', EntryTexts(row[..j + 1], fmt), j);
    }
  }

  /** One row of print_formatted_matrix, `w` being len(matrix[0]): its
      first w - 1 entries each followed by ',', then entry w - 1 and a
      newline. An index past the end of the row, or index -1 of an empty
      first row, raises IndexError: printing stops there, with `ok`
      false. */
  method PrintRow(row: seq<real>, w: nat, fmt: real -> string) returns (text: string, ok: bool)
    ensures ok <==> 1 <= w <= |row|
    ensures ok ==> text == RowLine(row, w, fmt) + "\n"
  {
    text := "";
    if w >= 1 {
      for j := 0 to w - 1
        invariant j <= |row| && text == Commas(row, j, fmt)
      {
        if j >= |row| {
          return text, false;
        }
        text := text + fmt(row[j]) + ",";
      }
    }
    if w == 0 || w - 1 >= |row| {
      return text, false;
    }
    text := text + fmt(row[w - 1]) + "\n";
    CommasJoin(row, w - 1, fmt);
    ok := true;
  }

  /** print_formatted_matrix, with `%.4f` abstracted as `fmt` and the
      printed text returned: every row printed as wide as the first row;
      `ok` is false when a row raised IndexError, and the text is then
      what was printed before it. */
  method PrintFormattedMatrix(matrix: Mat, fmt: real -> string) returns (out: string, ok: bool)
    ensures ok <==> Printable(matrix)
    ensures ok ==> out == FormattedText(matrix, fmt)
  {
    out := "";
    for i := 0 to |matrix|
      invariant forall i' :: 0 <= i' < i ==> 1 <= |matrix[0]| <= |matrix[i']|
      invariant 0 < i ==> out == Terminated(FormattedLines(matrix, i, |matrix[0]|, fmt))
      invariant i == 0 ==> out == ""
    {
      var line, printed := PrintRow(matrix[i], |matrix[0]|, fmt);
      out := out + line;
      if !printed {
        return out, false;
      }
      ghost var w := |matrix[0]|;
      assert FormattedLines(matrix, i + 1, w, fmt) == FormattedLines(matrix, i, w, fmt) + [RowLine(matrix[i], w, fmt)];
      TerminatedSnoc(FormattedLines(matrix, i, w, fmt), RowLine(matrix[i], w, fmt));
    }
    ok := true;
  }

  lemma {:induction false} TerminatedIsJoin(lines: seq<string>)
    requires |lines| > 0
    ensures Terminated(lines) == Join('\n', lines) + "\n"
  {
    if |lines| > 1 {
      TerminatedIsJoin(lines[1..]);
      JoinFront('\n', lines);
    }
  }

  /** On a matrix of rows of equal length the Python printer prints what
      the C printer print_matrix prints, plus a final newline. */
  lemma PrintersAgree(m: Mat, fmt: real -> string)
    requires |m| > 0 && |m[0]| > 0 && IsMatrix(m, |m|, |m[0]|)
    ensures Printable(m)
    ensures FormattedText(m, fmt) == MatrixText(m, fmt) + "\n"
  {
    var w := |m[0]|;
    forall i | 0 <= i < |m|
      ensures FormattedLines(m, |m|, w, fmt)[i] == RowTexts(m, fmt)[i]
    {
      assert m[i][..w] == m[i];
    }
    assert FormattedLines(m, |m|, w, fmt) == RowTexts(m, fmt);
    TerminatedIsJoin(RowTexts(m, fmt));
  }

  /** Every formatted entry is a non-empty text free of ',', newlines and
      NUL, as "%.4f" produces. */
  predicate PlainEntries(m: Mat, fmt: real -> string)
  {
    forall i, j :: 0 <= i < |m| && 0 <= j < |m[i]| ==>
      fmt(m[i][j]) != "" && ',' !in fmt(m[i][j]) && '\n' !in fmt(m[i][j]) && '\0' !in fmt(m[i][j])
  }

  /** A printed matrix read back by the C shape counter's line reader
      gives one line per row, each with as many columns as the first row
      has entries. */
  lemma PrintedShapeReadsBack(m: Mat, fmt: real -> string)
    requires Printable(m) && |m| > 0 && PlainEntries(m, fmt)
    ensures FileReader.Lines(FormattedText(m, fmt)) == FormattedLines(m, |m|, |m[0]|, fmt)
    ensures |FileReader.Lines(FormattedText(m, fmt))| == |m|
    ensures forall i :: 0 <= i < |m| ==> FileReader.Width(FileReader.Lines(FormattedText(m, fmt))[i]) == |m[0]|
  {
    var w := |m[0]|;
    var lines := FormattedLines(m, |m|, w, fmt);
    forall i | 0 <= i < |m|
      ensures '\n' !in lines[i] && FileReader.Width(lines[i]) == w
    {
      var texts := EntryTexts(m[i][..w], fmt);
      assert Free(texts, '\n') && Free(texts, '\0') && Free(texts, ',');
      JoinFree(',', texts, '\n');
      JoinFree(',', texts, '\0');
      CStringOfPlain(lines[i]);
      TokensOfJoin(texts);
    }
    FileReader.LinesOfTerminated(lines);
  }
}
