/** Character-level layouts shared by the matrix printers and the line
    reader: joining pieces with a separator, splitting them apart again,
    and the C `strtok` view of a line as non-empty tokens. */
module Text {

  /** `parts` joined by `sep`: a separator between neighbours, none before
      the first piece and none after the last. */
  function Join(sep: char, parts: seq<string>): string
    decreases |parts|
  {
    if |parts| == 0 then ""
    else if |parts| == 1 then parts[0]
    else Join(sep, parts[..|parts| - 1]) + [sep] + parts[|parts| - 1]
  }

  /** Position of the last `c` in `s`, or -1 when there is none. */
  function LastIndex(s: string, c: char): (k: int)
    ensures -1 <= k < |s|
    ensures k >= 0 ==> s[k] == c && c !in s[k + 1..]
    ensures k == -1 ==> c !in s
  {
    if |s| == 0 then -1
    else if s[|s| - 1] == c then |s| - 1
    else LastIndex(s[..|s| - 1], c)
  }

  /** Position of the first `c` in `s`, or |s| when there is none. */
  function FirstIndex(s: string, c: char): (k: nat)
    ensures k <= |s|
    ensures c !in s[..k]
    ensures k < |s| ==> s[k] == c
  {
    if |s| == 0 then 0
    else if s[0] == c then 0
    else 1 + FirstIndex(s[1..], c)
  }

  /** The pieces of `s` between occurrences of `sep`, empty ones included. */
  function Split(s: string, sep: char): (parts: seq<string>)
    decreases |s|
    ensures |parts| >= 1
  {
    var k := LastIndex(s, sep);
    if k < 0 then [s] else Split(s[..k], sep) + [s[k + 1..]]
  }

  /** The non-empty strings of `parts`, in order. */
  function NonEmpty(parts: seq<string>): seq<string>
  {
    if |parts| == 0 then []
    else NonEmpty(parts[..|parts| - 1]) + (if parts[|parts| - 1] == "" then [] else [parts[|parts| - 1]])
  }

  /** The tokens that successive `strtok` calls with delimiter ',' return:
      the maximal non-empty runs of characters other than ','. */
  function Tokens(s: string): seq<string>
  {
    NonEmpty(Split(s, ','))
  }

  /** The text of a C string stored in a buffer: everything before the
      first NUL. */
  function CString(s: string): string
  {
    s[..FirstIndex(s, '\0')]
  }

  /** No piece contains `c`. */
  predicate Free(parts: seq<string>, c: char)
  {
    forall i :: 0 <= i < |parts| ==> c !in parts[i]
  }

  /** Splitting a joined text at the separator gives back the pieces, as
      long as no piece contains the separator. */
  lemma {:induction false} SplitJoin(sep: char, parts: seq<string>)
    requires |parts| >= 1 && Free(parts, sep)
    ensures Split(Join(sep, parts), sep) == parts
  {
    if |parts| > 1 {
      var init := parts[..|parts| - 1];
      var last := parts[|parts| - 1];
      var s := Join(sep, parts);
      assert s == Join(sep, init) + [sep] + last;
      var k := |Join(sep, init)|;
      assert s[k] == sep;
      assert s[k + 1..] == last;
      assert LastIndex(s, sep) == k by {
        LastIndexAfter(Join(sep, init), sep, last);
      }
      assert s[..k] == Join(sep, init);
      SplitJoin(sep, init);
      assert parts == init + [last];
    }
  }

  /** The last separator of `prefix + [sep] + tail` is the one just added,
      when `tail` has none. */
  lemma {:induction false} LastIndexAfter(prefix: string, sep: char, tail: string)
    requires sep !in tail
    ensures LastIndex(prefix + [sep] + tail, sep) == |prefix|
  {
    var s := prefix + [sep] + tail;
    assert s[|prefix|] == sep;
    assert s[|prefix| + 1..] == tail;
  }

  /** Keeping the non-empty pieces of a sequence that has no empty piece
      keeps them all. */
  lemma {:induction false} NonEmptyKeepsAll(parts: seq<string>)
    requires forall i :: 0 <= i < |parts| ==> parts[i] != ""
    ensures NonEmpty(parts) == parts
  {
    if |parts| > 0 {
      NonEmptyKeepsAll(parts[..|parts| - 1]);
      assert parts == parts[..|parts| - 1] + [parts[|parts| - 1]];
    }
  }

  /** A row printed as non-empty, comma-free entries joined by ',' has one
      `strtok` token per entry. */
  lemma TokensOfJoin(parts: seq<string>)
    requires |parts| >= 1 && Free(parts, ',')
    requires forall i :: 0 <= i < |parts| ==> parts[i] != ""
    ensures Tokens(Join(',', parts)) == parts
  {
    SplitJoin(',', parts);
    NonEmptyKeepsAll(parts);
  }

  /** A joined text starts with its first piece and a separator. */
  lemma {:induction false} JoinFront(sep: char, parts: seq<string>)
    requires |parts| >= 2
    ensures Join(sep, parts) == parts[0] + [sep] + Join(sep, parts[1..])
  {
    if |parts| > 2 {
      var init := parts[..|parts| - 1];
      JoinFront(sep, init);
      assert init[1..] == parts[1..][..|parts[1..]| - 1];
      assert init[0] == parts[0];
    } else {
      assert parts[1..] == [parts[1]];
    }
  }

  /** A joined text has no NUL when no piece has one. */
  lemma {:induction false} JoinFree(sep: char, parts: seq<string>, c: char)
    requires Free(parts, c) && sep != c
    ensures c !in Join(sep, parts)
  {
    if |parts| > 1 {
      JoinFree(sep, parts[..|parts| - 1], c);
    }
  }

  /** A string without NUL is its own C string. */
  lemma CStringOfPlain(s: string)
    requires '\0' !in s
    ensures CString(s) == s
  {
  }

  /** Each line followed by a newline. */
  function Terminated(lines: seq<string>): string
  {
    if |lines| == 0 then "" else lines[0] + "\n" + Terminated(lines[1..])
  }
}
