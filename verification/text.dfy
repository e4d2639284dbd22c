/** The string operations the reporter leans on: Python's `str.strip()`,
    `str.split(sep)`, `str.split(sep, 1)`, `str.replace(c, '')`, and the
    turning of a command's standard output into its non-blank lines.
    Python's `float()` is not re-implemented: it is an abstract parser
    handed in by the caller (see `FloatParse`). */
module Text {

  /** The characters for which Python's `str.isspace()` holds; `strip()`
      without an argument removes exactly these from both ends. */
  predicate IsSpace(c: char) {
    || c == ' '
    || ('\t' <= c <= '\r')
    || ('\U{1C}' <= c <= '\U{1F}')
    || c == '\U{85}' || c == '\U{A0}' || c == '\U{1680}'
    || ('\U{2000}' <= c <= '\U{200A}')
    || c == '\U{2028}' || c == '\U{2029}' || c == '\U{202F}' || c == '\U{205F}'
    || c == '\U{3000}'
  }

  ghost predicate AllSpace(s: string) {
    forall i :: 0 <= i < |s| ==> IsSpace(s[i])
  }

  /** Neither end of `s` is whitespace. */
  predicate IsStripped(s: string) {
    s == [] || (!IsSpace(s[0]) && !IsSpace(s[|s| - 1]))
  }

  /** `s` without its leading whitespace: a suffix of `s` that does not
      start with whitespace. */
  function TrimLeft(s: string): (r: string)
    ensures |r| <= |s| && r == s[|s| - |r|..]
    ensures r == [] || !IsSpace(r[0])
  {
    if s != [] && IsSpace(s[0]) then TrimLeft(s[1..]) else s
  }

  /** What `TrimLeft` removes is whitespace. */
  lemma {:induction false} TrimLeftRemovesSpace(s: string)
    ensures AllSpace(s[..|s| - |TrimLeft(s)|])
  {
    if s != [] && IsSpace(s[0]) {
      var r := TrimLeft(s[1..]);
      TrimLeftRemovesSpace(s[1..]);
      assert s[..|s| - |r|] == [s[0]] + s[1..][..|s| - 1 - |r|];
    }
  }

  /** `s` without its trailing whitespace: a prefix of `s` that does not
      end with whitespace. */
  function TrimRight(s: string): (r: string)
    ensures |r| <= |s| && r == s[..|r|]
    ensures r == [] || !IsSpace(r[|r| - 1])
  {
    if s != [] && IsSpace(s[|s| - 1]) then TrimRight(s[..|s| - 1]) else s
  }

  /** What `TrimRight` removes is whitespace. */
  lemma {:induction false} TrimRightRemovesSpace(s: string)
    ensures AllSpace(s[|TrimRight(s)|..])
  {
    if s != [] && IsSpace(s[|s| - 1]) {
      var r := TrimRight(s[..|s| - 1]);
      TrimRightRemovesSpace(s[..|s| - 1]);
      assert s[|r|..] == s[..|s| - 1][|r|..] + [s[|s| - 1]];
    }
  }

  /** Python's `s.strip()`: the infix of `s` left after removing the
      whitespace at both ends. */
  function Strip(s: string): (r: string)
    ensures IsStripped(r)
    ensures |r| <= |s|
    ensures var k := |s| - |TrimLeft(s)|; k + |r| <= |s| && r == s[k..k + |r|]
  {
    var t := TrimLeft(s);
    var r := TrimRight(t);
    var k := |s| - |t|;
    assert r == t[..|r|] && t == s[k..];
    assert r != [] ==> r[0] == t[0];
    assert s[k..][..|r|] == s[k..k + |r|];
    r
  }

  /** What `Strip` removes is whitespace only, at both ends. */
  lemma {:induction false} StripRemovesOnlySpace(s: string)
    ensures var k := |s| - |TrimLeft(s)|;
            && k + |Strip(s)| <= |s|
            && AllSpace(s[..k])
            && AllSpace(s[k + |Strip(s)|..])
  {
    var t := TrimLeft(s);
    var r := TrimRight(t);
    var k := |s| - |t|;
    TrimLeftRemovesSpace(s);
    TrimRightRemovesSpace(t);
    assert s[k..][|r|..] == s[k + |r|..];
  }

  /** A string that is already stripped is its own strip. */
  lemma {:induction false} StripOfStripped(s: string)
    requires IsStripped(s)
    ensures Strip(s) == s
  {
    assert TrimLeft(s) == s;
    assert TrimRight(s) == s;
  }

  /** Stripping never introduces a character: whatever is absent from `s`
      is absent from its strip. */
  lemma {:induction false} StripKeepsAbsence(s: string, c: char)
    ensures c !in s ==> c !in Strip(s)
  {
  }

  /** The position of the first `c` in `s`. */
  function IndexOf(s: string, c: char): (i: nat)
    requires c in s
    ensures i < |s| && s[i] == c
    ensures c !in s[..i]
  {
    if s[0] == c then 0
    else
      assert s == [s[0]] + s[1..];
      var j := IndexOf(s[1..], c);
      assert s[..j + 1] == [s[0]] + s[1..][..j];
      j + 1
  }

  /** The number of occurrences of `c` in `s`. */
  function Occurrences(s: string, c: char): nat {
    if s == [] then 0 else (if s[0] == c then 1 else 0) + Occurrences(s[1..], c)
  }

  lemma {:induction false} OccurrencesAppend(a: string, b: string, c: char)
    ensures Occurrences(a + b, c) == Occurrences(a, c) + Occurrences(b, c)
  {
    if a == [] {
      assert a + b == b;
    } else {
      assert (a + b)[1..] == a[1..] + b;
      OccurrencesAppend(a[1..], b, c);
    }
  }

  lemma {:induction false} NoOccurrences(s: string, c: char)
    requires c !in s
    ensures Occurrences(s, c) == 0
  {
    if s != [] {
      assert c !in s[1..];
      NoOccurrences(s[1..], c);
    }
  }

  /** The separator-joined concatenation of `parts`: Python's
      `sep.join(parts)`. */
  function Join(parts: seq<string>, sep: char): string {
    if |parts| == 0 then []
    else if |parts| == 1 then parts[0]
    else parts[0] + [sep] + Join(parts[1..], sep)
  }

  /** Python's `s.split(sep)` for a one-character separator: one more part
      than there are separators, no part holding the separator, and the
      parts joined back give `s`. */
  function Split(s: string, sep: char): (parts: seq<string>)
    ensures |parts| == Occurrences(s, sep) + 1
    ensures forall p :: p in parts ==> sep !in p
    ensures Join(parts, sep) == s
    decreases |s|
  {
    if sep !in s then
      NoOccurrences(s, sep);
      [s]
    else
      var i := IndexOf(s, sep);
      var rest := Split(s[i + 1..], sep);
      assert s == s[..i] + [sep] + s[i + 1..];
      NoOccurrences(s[..i], sep);
      assert s == s[..i] + ([sep] + s[i + 1..]);
      OccurrencesAppend(s[..i], [sep] + s[i + 1..], sep);
      OccurrencesAppend([sep], s[i + 1..], sep);
      assert [sep][1..] == [];
      assert Occurrences([sep], sep) == 1;
      assert ([s[..i]] + rest)[1..] == rest;
      [s[..i]] + rest
  }

  /** A split into more than one part means the separator occurs. */
  lemma SplitPartsNeedSeparator(s: string, sep: char)
    ensures |Split(s, sep)| >= 2 ==> sep in s
  {
    if sep !in s {
      NoOccurrences(s, sep);
    }
  }

  /** Python's `s.split(sep, 1)` on a string that holds `sep`: the text
      before the first separator and the text after it. */
  function SplitFirst(s: string, sep: char): (halves: (string, string))
    requires sep in s
    ensures sep !in halves.0
    ensures s == halves.0 + [sep] + halves.1
  {
    var i := IndexOf(s, sep);
    assert s == s[..i] + [sep] + s[i + 1..];
    (s[..i], s[i + 1..])
  }

  /** The first separator is where `SplitFirst` cuts: a string written as
      `a + [sep] + b` with no separator in `a` splits into `a` and `b`. */
  lemma SplitFirstUnique(a: string, sep: char, b: string)
    requires sep !in a
    ensures SplitFirst(a + [sep] + b, sep) == (a, b)
  {
    var s := a + [sep] + b;
    var i := IndexOf(s, sep);
    assert s[|a|] == sep;
    assert s[..i] == a;
    assert s[i + 1..] == b;
  }

  /** Python's `s.replace(c, '')`: `s` with every `c` deleted and every
      other character kept, in order. */
  function RemoveChar(s: string, c: char): (r: string)
    ensures c !in r
    ensures |r| + Occurrences(s, c) == |s|
    ensures c !in s ==> r == s
  {
    if s == [] then []
    else if s[0] == c then RemoveChar(s[1..], c)
    else [s[0]] + RemoveChar(s[1..], c)
  }

  lemma {:induction false} RemoveCharAppend(a: string, b: string, c: char)
    ensures RemoveChar(a + b, c) == RemoveChar(a, c) + RemoveChar(b, c)
  {
    if a == [] {
      assert a + b == b;
    } else {
      assert (a + b)[0] == a[0];
      assert (a + b)[1..] == a[1..] + b;
      RemoveCharAppend(a[1..], b, c);
    }
  }

  /** The strips of `pieces` that are not empty, in order: Python's
      `[p.strip() for p in pieces if p.strip()]`. */
  function NonBlankStripped(pieces: seq<string>): (lines: seq<string>)
    ensures |lines| <= |pieces|
    ensures forall l :: l in lines ==> l != [] && IsStripped(l)
    ensures (forall p :: p in pieces ==> '\n' !in p) ==> (forall l :: l in lines ==> '\n' !in l)
  {
    if pieces == [] then []
    else
      var l := Strip(pieces[0]);
      var rest := NonBlankStripped(pieces[1..]);
      StripKeepsAbsence(pieces[0], '\n');
      assert forall p :: p in pieces[1..] ==> p in pieces;
      if l == [] then rest else [l] + rest
  }

  /** Stripping and filtering go piece by piece: the lines of a
      concatenation are the concatenation of the lines. */
  lemma {:induction false} NonBlankStrippedAppend(a: seq<string>, b: seq<string>)
    ensures NonBlankStripped(a + b) == NonBlankStripped(a) + NonBlankStripped(b)
  {
    if a == [] {
      assert a + b == b;
    } else {
      assert (a + b)[0] == a[0];
      assert (a + b)[1..] == a[1..] + b;
      NonBlankStrippedAppend(a[1..], b);
    }
  }

  /** A single piece gives its strip when that is not empty, and nothing
      otherwise; with `NonBlankStrippedAppend` every non-blank piece yields
      exactly one line, in its position. */
  lemma NonBlankStrippedOfOne(p: string)
    ensures NonBlankStripped([p]) == if Strip(p) == [] then [] else [Strip(p)]
  {
    assert [p][1..] == [];
  }

  /** Pieces that are already non-blank and stripped come through unchanged. */
  lemma {:induction false} NonBlankStrippedOfLines(lines: seq<string>)
    requires forall i :: 0 <= i < |lines| ==> lines[i] != [] && IsStripped(lines[i])
    ensures NonBlankStripped(lines) == lines
  {
    if lines != [] {
      StripOfStripped(lines[0]);
      NonBlankStrippedOfLines(lines[1..]);
    }
  }

  /** Splitting a join of separator-free parts gives the parts back. */
  lemma {:induction false} SplitOfJoin(parts: seq<string>, sep: char)
    requires parts != []
    requires forall i :: 0 <= i < |parts| ==> sep !in parts[i]
    ensures Split(Join(parts, sep), sep) == parts
    decreases |parts|
  {
    if |parts| > 1 {
      var s := Join(parts, sep);
      var p := parts[0];
      assert s == p + [sep] + Join(parts[1..], sep);
      assert s[|p|] == sep && s[..|p|] == p;
      var i := IndexOf(s, sep);
      assert i == |p|;
      assert s[i + 1..] == Join(parts[1..], sep);
      SplitOfJoin(parts[1..], sep);
    }
  }

  /** The first character of a join is that of the first part, when that
      part is not empty. */
  lemma JoinStart(parts: seq<string>, sep: char)
    requires parts != [] && parts[0] != []
    ensures Join(parts, sep) != [] && Join(parts, sep)[0] == parts[0][0]
  {
    if |parts| > 1 {
      assert Join(parts, sep) == parts[0] + ([sep] + Join(parts[1..], sep));
    }
  }

  /** The last character of a join is that of the last part, when that part
      is not empty. */
  lemma {:induction false} JoinEnd(parts: seq<string>, sep: char)
    requires parts != [] && parts[|parts| - 1] != []
    ensures var s := Join(parts, sep);
            s != [] && s[|s| - 1] == parts[|parts| - 1][|parts[|parts| - 1]| - 1]
    decreases |parts|
  {
    if |parts| > 1 {
      var rest := Join(parts[1..], sep);
      JoinEnd(parts[1..], sep);
      assert Join(parts, sep) == (parts[0] + [sep]) + rest;
    }
  }

  /** A string that ends in a newline after stripped text strips to that
      text: the trailing newline of a command's output is dropped. */
  lemma StripTrailingNewline(s: string)
    requires s != [] && IsStripped(s)
    ensures Strip(s + "\n") == s
  {
    var t := s + "\n";
    assert TrimLeft(t) == t;
    assert t[..|t| - 1] == s;
    assert TrimRight(s) == s;
    assert TrimRight(t) == s;
  }

  /** The lines the metrics parser receives from a command's standard output:
      the output is stripped, split at every newline, each piece stripped,
      and the blank pieces dropped. */
  function CommandLines(stdout: string): (lines: seq<string>)
    ensures forall l :: l in lines ==> l != [] && IsStripped(l) && '\n' !in l
  {
    var body := Strip(stdout);
    if body == [] then [] else NonBlankStripped(Split(body, '\n'))
  }

  /** Output printed one line at a time, with or without a final newline,
      gives back exactly the printed lines. */
  lemma CommandLinesOfPrintedLines(lines: seq<string>)
    requires lines != []
    requires forall i :: 0 <= i < |lines| ==> lines[i] != [] && IsStripped(lines[i]) && '\n' !in lines[i]
    ensures CommandLines(Join(lines, '\n')) == lines
    ensures CommandLines(Join(lines, '\n') + "\n") == lines
  {
    var s := Join(lines, '\n');
    JoinStart(lines, '\n');
    JoinEnd(lines, '\n');
    assert IsStripped(s);
    StripOfStripped(s);
    StripTrailingNewline(s);
    SplitOfJoin(lines, '\n');
    NonBlankStrippedOfLines(lines);
  }

  /** What Python's `float()` makes of a string: an exception, a value that
      is not a finite number (`nan`, `inf`), or a finite value. The model
      takes the parser as a parameter instead of re-implementing Python's
      float grammar. */
  datatype FloatParse = Rejected | NonFinite | Finite(value: real)

  /** The reporter's range check `0 <= x <= 100` applied to a parse result;
      it fails for `nan` and the infinities as Python's comparisons do. */
  predicate InPercentRange(p: FloatParse) {
    p.Finite? && 0.0 <= p.value <= 100.0
  }
}
