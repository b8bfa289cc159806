/** Python's string operations as the scripts use them, over `seq<char>`,
    and the line filter `grep PATTERN` the scripts pipe tool output through. */
module PyText {

  /** `s.split(sep)` for a one-character separator: the pieces between
      separators, in order; never an empty list. */
  function Split(s: string, sep: char): (r: seq<string>)
    ensures |r| >= 1
    ensures forall i :: 0 <= i < |r| ==> sep !in r[i]
    decreases |s|
  {
    if s == [] then [""]
    else
      var rest := Split(s[1..], sep);
      if s[0] == sep then [""] + rest
      else [[s[0]] + rest[0]] + rest[1..]
  }

  /** `sep.join(parts)`. */
  function Join(parts: seq<string>, sep: char): string
    decreases |parts|
  {
    if |parts| == 0 then ""
    else if |parts| == 1 then parts[0]
    else parts[0] + [sep] + Join(parts[1..], sep)
  }

  /** Joining the pieces of a split gives back the original text. */
  lemma {:induction false} JoinSplit(s: string, sep: char)
    ensures Join(Split(s, sep), sep) == s
    decreases |s|
  {
    if s != [] {
      var rest := Split(s[1..], sep);
      JoinSplit(s[1..], sep);
      if s[0] == sep {
        assert Split(s, sep) == [""] + rest;
        assert ([""] + rest)[1..] == rest;
      } else {
        var r := Split(s, sep);
        assert r == [[s[0]] + rest[0]] + rest[1..];
        if |rest| == 1 {
          assert Join(r, sep) == [s[0]] + rest[0];
        } else {
          assert r[1..] == rest[1..];
          assert Join(rest, sep) == rest[0] + [sep] + Join(rest[1..], sep);
          assert Join(r, sep) == [s[0]] + rest[0] + [sep] + Join(rest[1..], sep);
        }
        assert [s[0]] + s[1..] == s;
      }
    }
  }

  /** Text without the separator splits into itself alone. */
  lemma {:induction false} SplitWithoutSep(s: string, sep: char)
    requires sep !in s
    ensures Split(s, sep) == [s]
    decreases |s|
  {
    if s != [] {
      SplitWithoutSep(s[1..], sep);
      assert [s[0]] + s[1..] == s;
    }
  }

  /** A separator splits the text into what is before and what is after it. */
  lemma {:induction false} SplitAround(a: string, sep: char, b: string)
    ensures Split(a + [sep] + b, sep) == Split(a, sep) + Split(b, sep)
    decreases |a|
  {
    var s := a + [sep] + b;
    if a == [] {
      assert s[1..] == b;
    } else {
      assert s[1..] == a[1..] + [sep] + b;
      SplitAround(a[1..], sep, b);
      if a[0] != sep {
        GlueFirst(a[0], Split(a[1..], sep), Split(b, sep));
      }
    }
  }

  /** Gluing a character to the first piece commutes with appending pieces. */
  lemma GlueFirst(c: char, x: seq<string>, y: seq<string>)
    requires |x| >= 1
    ensures [[c] + (x + y)[0]] + (x + y)[1..] == [[c] + x[0]] + x[1..] + y
  {
    assert (x + y)[1..] == x[1..] + y;
  }

  /** A separator-free line in front of a separator adds one piece to the split. */
  lemma SplitLineThen(line: string, sep: char, rest: string)
    requires sep !in line
    ensures Split(line + [sep] + rest, sep) == [line] + Split(rest, sep)
  {
    SplitWithoutSep(line, sep);
    SplitAround(line, sep, rest);
  }

  /** Splitting a join gives back the parts, provided no part holds the separator. */
  lemma {:induction false} SplitJoin(parts: seq<string>, sep: char)
    requires |parts| >= 1
    requires forall i :: 0 <= i < |parts| ==> sep !in parts[i]
    ensures Split(Join(parts, sep), sep) == parts
    decreases |parts|
  {
    if |parts| == 1 {
      SplitWithoutSep(parts[0], sep);
    } else {
      SplitJoin(parts[1..], sep);
      SplitWithoutSep(parts[0], sep);
      SplitAround(parts[0], sep, Join(parts[1..], sep));
      assert [parts[0]] + parts[1..] == parts;
    }
  }

  /** The first piece of `s.split(sep)`: everything before the first separator. */
  function FirstField(s: string, sep: char): (r: string)
  {
    Split(s, sep)[0]
  }

  /** The first piece is the longest separator-free prefix of the text. */
  lemma {:induction false} FirstFieldIsPrefix(s: string, sep: char)
    ensures var r := FirstField(s, sep);
      |r| <= |s| && r == s[..|r|] && sep !in r && (|r| == |s| || s[|r|] == sep)
    decreases |s|
  {
    if s != [] {
      FirstFieldIsPrefix(s[1..], sep);
    }
  }

  /** The first field of `a + sep + b` is `a` when `a` has no separator. */
  lemma FirstFieldBefore(a: string, sep: char, b: string)
    requires sep !in a
    ensures FirstField(a + [sep] + b, sep) == a
  {
    SplitAround(a, sep, b);
    SplitWithoutSep(a, sep);
  }

  // ---------------------------------------------------------------------------
  // str.split() without an argument

  /** The characters Python's `str.isspace` accepts: runs of these separate words. */
  const Whitespace: set<char> :=
    {'\U{9}', '\U{A}', '\U{B}', '\U{C}', '\U{D}', '\U{1C}', '\U{1D}', '\U{1E}',
     '\U{1F}', '\U{20}', '\U{85}', '\U{A0}', '\U{1680}', '\U{2000}', '\U{2001}', '\U{2002}',
     '\U{2003}', '\U{2004}', '\U{2005}', '\U{2006}', '\U{2007}', '\U{2008}', '\U{2009}', '\U{200A}',
     '\U{2028}', '\U{2029}', '\U{202F}', '\U{205F}', '\U{3000}'}

  predicate IsSpace(c: char)
  {
    c in Whitespace
  }

  /** The longest prefix of `s` that holds no whitespace. */
  function LeadingWord(s: string): (w: string)
    ensures |w| <= |s| && w == s[..|w|]
    ensures forall k :: 0 <= k < |w| ==> !IsSpace(w[k])
    ensures s != [] && !IsSpace(s[0]) ==> |w| >= 1
    ensures |w| < |s| ==> IsSpace(s[|w|])
    decreases |s|
  {
    if s == [] || IsSpace(s[0]) then ""
    else [s[0]] + LeadingWord(s[1..])
  }

  /** `s.split()`: the maximal whitespace-free runs of `s`, in order. */
  function Words(s: string): (r: seq<string>)
    ensures forall i :: 0 <= i < |r| ==> r[i] != ""
    ensures forall i, k :: 0 <= i < |r| && 0 <= k < |r[i]| ==> !IsSpace(r[i][k])
    decreases |s|
  {
    if s == [] then []
    else if IsSpace(s[0]) then Words(s[1..])
    else
      var w := LeadingWord(s);
      [w] + Words(s[|w|..])
  }

  /** A line is separated into words by whitespace only: words never contain
      a newline, so every word is a single line's text. */
  lemma WordsHaveNoNewline(s: string)
    ensures forall i :: 0 <= i < |Words(s)| ==> '\n' !in Words(s)[i]
  {
    assert IsSpace('\n');
  }

  /** A whitespace character after `a` ends `a`'s leading word, if it has not
      ended before. */
  lemma {:induction false} LeadingWordAppendSpace(a: string, t: string)
    requires |t| > 0 && IsSpace(t[0])
    ensures LeadingWord(a + t) == LeadingWord(a)
    decreases |a|
  {
    if a != [] && !IsSpace(a[0]) {
      assert (a + t)[0] == a[0] && (a + t)[1..] == a[1..] + t;
      LeadingWordAppendSpace(a[1..], t);
    } else if a == [] {
      assert a + t == t;
    }
  }

  /** A word followed by whitespace or by nothing is the leading word. */
  lemma LeadingWordOfWordThen(w: string, rest: string)
    requires forall k :: 0 <= k < |w| ==> !IsSpace(w[k])
    requires rest == [] || IsSpace(rest[0])
    ensures LeadingWord(w + rest) == w
  {
    assert |LeadingWord(w)| == |w|;
    if rest == [] {
      assert w + rest == w;
    } else {
      LeadingWordAppendSpace(w, rest);
    }
  }

  /** A single non-empty run without whitespace splits into itself. */
  lemma {:induction false} WordsOfWord(w: string)
    requires w != [] && forall k :: 0 <= k < |w| ==> !IsSpace(w[k])
    ensures Words(w) == [w]
  {
    LeadingWordOfWordThen(w, []);
    assert w + [] == w;
    assert w[|w|..] == [];
  }

  /** Splitting at one whitespace character: the words on either side are
      the words of the whole, in order. With `WordsOfWord` and `Words("") ==
      []` this determines `Words` on every string. */
  lemma {:induction false} WordsAtSpace(a: string, c: char, b: string)
    requires IsSpace(c)
    ensures Words(a + [c] + b) == Words(a) + Words(b)
    decreases |a|
  {
    var s := a + [c] + b;
    if a == [] {
      assert s[0] == c && s[1..] == b;
    } else if IsSpace(a[0]) {
      assert s[0] == a[0] && s[1..] == a[1..] + [c] + b;
      WordsAtSpace(a[1..], c, b);
    } else {
      var w := LeadingWord(a);
      assert LeadingWord(s) == w by {
        assert s == a + ([c] + b);
        LeadingWordAppendSpace(a, [c] + b);
      }
      assert s[0] == a[0];
      assert s[|w|..] == a[|w|..] + [c] + b;
      WordsAtSpace(a[|w|..], c, b);
    }
  }

  // ---------------------------------------------------------------------------
  // str.strip(chars)

  /** `s.lstrip(cs)`. */
  function LStrip(s: string, cs: set<char>): string
    decreases |s|
  {
    if s != [] && s[0] in cs then LStrip(s[1..], cs) else s
  }

  /** `s.rstrip(cs)`. */
  function RStrip(s: string, cs: set<char>): string
    decreases |s|
  {
    if s != [] && s[|s| - 1] in cs then RStrip(s[..|s| - 1], cs) else s
  }

  /** lstrip leaves a suffix that does not start with a character of `cs`,
      having cut only characters of `cs`. */
  lemma {:induction false} LStripShape(s: string, cs: set<char>)
    ensures var r := LStrip(s, cs);
      && |r| <= |s| && r == s[|s| - |r|..]
      && (forall k :: 0 <= k < |s| - |r| ==> s[k] in cs)
      && (r == [] || r[0] !in cs)
    decreases |s|
  {
    if s != [] && s[0] in cs {
      LStripShape(s[1..], cs);
    }
  }

  /** rstrip leaves a prefix that does not end with a character of `cs`,
      having cut only characters of `cs`. */
  lemma {:induction false} RStripShape(s: string, cs: set<char>)
    ensures var r := RStrip(s, cs);
      && |r| <= |s| && r == s[..|r|]
      && (forall k :: |r| <= k < |s| ==> s[k] in cs)
      && (r == [] || r[|r| - 1] !in cs)
    decreases |s|
  {
    if s != [] && s[|s| - 1] in cs {
      RStripShape(s[..|s| - 1], cs);
    }
  }

  /** `s[i..j]` is what is left of `s` once only characters of `cs` were
      cut from its two ends. */
  predicate TrimmedTo(s: string, cs: set<char>, i: int, j: int)
  {
    && 0 <= i <= j <= |s|
    && (forall k :: 0 <= k < i ==> s[k] in cs)
    && (forall k :: j <= k < |s| ==> s[k] in cs)
  }

  /** `s.strip(cs)`: both ends of `s` cleared of characters from `cs`. */
  function Strip(s: string, cs: set<char>): string
  {
    RStrip(LStrip(s, cs), cs)
  }

  /** What strip leaves is a slice of the text that begins and ends with a
      character outside `cs`, and everything it cut from either end was drawn
      from `cs`. */
  lemma StripIsTrim(s: string, cs: set<char>)
    ensures exists i, j :: TrimmedTo(s, cs, i, j) && Strip(s, cs) == s[i..j]
    ensures var r := Strip(s, cs); r == [] || (r[0] !in cs && r[|r| - 1] !in cs)
  {
    var l := LStrip(s, cs);
    var r := RStrip(l, cs);
    LStripShape(s, cs);
    RStripShape(l, cs);
    var i := |s| - |l|;
    var j := i + |r|;
    assert r == s[i..j];
    assert forall k :: j <= k < |s| ==> s[k] == l[k - i];
    assert TrimmedTo(s, cs, i, j);
  }

  /** Strip removes exactly the given leading characters when what follows
      starts with a character it keeps. */
  lemma {:induction false} LStripPrefix(p: string, s: string, cs: set<char>)
    requires forall k :: 0 <= k < |p| ==> p[k] in cs
    ensures LStrip(p + s, cs) == LStrip(s, cs)
    decreases |p|
  {
    if p != [] {
      assert (p + s)[0] == p[0] && p[0] in cs;
      assert (p + s)[1..] == p[1..] + s;
      assert LStrip(p + s, cs) == LStrip(p[1..] + s, cs);
      LStripPrefix(p[1..], s, cs);
    } else {
      assert p + s == s;
    }
  }

  /** The symmetric fact for trailing characters. */
  lemma {:induction false} RStripSuffix(s: string, p: string, cs: set<char>)
    requires forall k :: 0 <= k < |p| ==> p[k] in cs
    ensures RStrip(s + p, cs) == RStrip(s, cs)
    decreases |p|
  {
    if p != [] {
      var q := p[..|p| - 1];
      assert (s + p)[|s + p| - 1] == p[|p| - 1] && p[|p| - 1] in cs;
      assert (s + p)[..|s + p| - 1] == s + q;
      assert RStrip(s + p, cs) == RStrip(s + q, cs);
      RStripSuffix(s, q, cs);
    } else {
      assert s + p == s;
    }
  }

  /** A string that starts and ends outside `cs` is left alone by strip. */
  lemma StripKeeps(s: string, cs: set<char>)
    requires s == [] || (s[0] !in cs && s[|s| - 1] !in cs)
    ensures LStrip(s, cs) == s && RStrip(s, cs) == s && Strip(s, cs) == s
  {
  }

  // ---------------------------------------------------------------------------
  // substring search, str.replace(pattern, "")

  predicate IsPrefix(p: string, s: string)
  {
    |p| <= |s| && s[..|p|] == p
  }

  /** `p in s` for strings. */
  predicate Contains(s: string, p: string)
    decreases |s|
  {
    IsPrefix(p, s) || (s != [] && Contains(s[1..], p))
  }

  /** A text contains any of its own slices. */
  lemma {:induction false} ContainsSlice(s: string, i: nat, p: string)
    requires i + |p| <= |s| && s[i..i + |p|] == p
    ensures Contains(s, p)
    decreases i
  {
    if i > 0 {
      assert s[1..][i - 1..i - 1 + |p|] == p;
      ContainsSlice(s[1..], i - 1, p);
    }
  }

  /** A character absent from both halves is absent from their concatenation. */
  lemma AbsentFromConcat(c: char, a: string, b: string)
    requires c !in a && c !in b
    ensures c !in a + b
  {
    forall k | 0 <= k < |a + b|
      ensures (a + b)[k] != c
    {
      if k < |a| {
        assert (a + b)[k] == a[k];
      } else {
        assert (a + b)[k] == b[k - |a|];
      }
    }
  }

  /** A text contains whatever is spliced into it. */
  lemma ContainsMiddle(a: string, p: string, b: string)
    ensures Contains(a + p + b, p)
  {
    assert (a + p + b)[|a|..|a| + |p|] == p;
    ContainsSlice(a + p + b, |a|, p);
  }

  /** `s.replace(p, "")`: scanning left to right, every non-overlapping
      occurrence of `p` is cut out. */
  function RemoveAll(s: string, p: string): (r: string)
    requires p != []
    ensures |r| <= |s|
    decreases |s|
  {
    if s == [] then []
    else if IsPrefix(p, s) then RemoveAll(s[|p|..], p)
    else [s[0]] + RemoveAll(s[1..], p)
  }

  /** Cutting a pattern never touches a character outside the pattern's
      alphabet: those characters survive, in order. */
  function Without(s: string, cs: set<char>): (r: string)
    decreases |s|
  {
    if s == [] then [] else (if s[0] in cs then [] else [s[0]]) + Without(s[1..], cs)
  }

  lemma {:induction false} WithoutAppend(a: string, b: string, cs: set<char>)
    ensures Without(a + b, cs) == Without(a, cs) + Without(b, cs)
    decreases |a|
  {
    if a != [] {
      assert (a + b)[0] == a[0];
      assert (a + b)[1..] == a[1..] + b;
      WithoutAppend(a[1..], b, cs);
      assert Without(a + b, cs) == (if a[0] in cs then [] else [a[0]]) + Without(a[1..] + b, cs);
    } else {
      assert a + b == b;
    }
  }

  lemma {:induction false} WithoutAll(p: string, cs: set<char>)
    requires forall k :: 0 <= k < |p| ==> p[k] in cs
    ensures Without(p, cs) == []
    decreases |p|
  {
    if p != [] {
      WithoutAll(p[1..], cs);
    }
  }

  /** Removing occurrences of a pattern whose characters all lie in `cs`
      keeps every character outside `cs`, in order. */
  lemma {:induction false} RemoveAllKeepsOthers(s: string, p: string, cs: set<char>)
    requires p != []
    requires forall k :: 0 <= k < |p| ==> p[k] in cs
    ensures Without(RemoveAll(s, p), cs) == Without(s, cs)
    decreases |s|
  {
    if s != [] {
      if IsPrefix(p, s) {
        RemoveAllKeepsOthers(s[|p|..], p, cs);
        assert s == p + s[|p|..];
        WithoutAppend(p, s[|p|..], cs);
        WithoutAll(p, cs);
      } else {
        RemoveAllKeepsOthers(s[1..], p, cs);
        WithoutAppend([s[0]], RemoveAll(s[1..], p), cs);
      }
    }
  }

  /** Text that never contains the pattern's first character is unchanged. */
  lemma {:induction false} RemoveAllAbsent(s: string, p: string)
    requires p != [] && p[0] !in s
    ensures RemoveAll(s, p) == s
    decreases |s|
  {
    if s != [] {
      assert !IsPrefix(p, s) by { assert s[0] != p[0]; }
      RemoveAllAbsent(s[1..], p);
      assert [s[0]] + s[1..] == s;
    }
  }

  /** A leading occurrence of the pattern is cut and the scan goes on after it. */
  lemma RemoveAllLeading(p: string, s: string)
    requires p != []
    ensures RemoveAll(p + s, p) == RemoveAll(s, p)
  {
    assert IsPrefix(p, p + s);
    assert (p + s)[|p|..] == s;
  }

  // ---------------------------------------------------------------------------
  // grep

  /** The lines of a text as grep reads them: a final newline ends the last
      line rather than starting an empty one. */
  function GrepLines(text: string): (ls: seq<string>)
    ensures forall i :: 0 <= i < |ls| ==> '\n' !in ls[i]
  {
    var parts := Split(text, '\n');
    if parts[|parts| - 1] == "" then parts[..|parts| - 1] else parts
  }

  /** The lines of `ls` that contain `pattern`, in order (`MatchingKeeps`
      and `MatchingAppend` state the converse and the order). */
  function Matching(ls: seq<string>, pattern: string): (r: seq<string>)
    ensures |r| <= |ls|
    ensures forall i :: 0 <= i < |r| ==> r[i] in ls && Contains(r[i], pattern)
    decreases |ls|
  {
    if ls == [] then []
    else (if Contains(ls[0], pattern) then [ls[0]] else []) + Matching(ls[1..], pattern)
  }

  /** Every line that contains the pattern is kept: with the contract of
      `Matching`, a line of `ls` is in the result exactly when it contains
      the pattern. */
  lemma {:induction false} MatchingKeeps(ls: seq<string>, pattern: string)
    ensures forall i :: 0 <= i < |ls| && Contains(ls[i], pattern) ==> ls[i] in Matching(ls, pattern)
    decreases |ls|
  {
    if ls != [] {
      MatchingKeeps(ls[1..], pattern);
      var head := if Contains(ls[0], pattern) then [ls[0]] else [];
      assert Matching(ls, pattern) == head + Matching(ls[1..], pattern);
      forall i | 0 <= i < |ls| && Contains(ls[i], pattern)
        ensures ls[i] in Matching(ls, pattern)
      {
        if i > 0 {
          assert ls[i] == ls[1..][i - 1];
        }
      }
    }
  }

  /** grep works line by line: the matches of two blocks of lines are the
      matches of the first followed by those of the second, so the kept
      lines keep their input order. */
  lemma {:induction false} MatchingAppend(a: seq<string>, b: seq<string>, pattern: string)
    ensures Matching(a + b, pattern) == Matching(a, pattern) + Matching(b, pattern)
    decreases |a|
  {
    if a == [] {
      assert a + b == b;
    } else {
      var head := if Contains(a[0], pattern) then [a[0]] else [];
      assert (a + b)[0] == a[0] && (a + b)[1..] == a[1..] + b;
      assert Matching(a + b, pattern) == head + Matching(a[1..] + b, pattern);
      MatchingAppend(a[1..], b, pattern);
      assert Matching(a, pattern) == head + Matching(a[1..], pattern);
    }
  }

  /** Each line followed by a newline, the way grep writes its output. */
  function Unlines(ls: seq<string>): string
    decreases |ls|
  {
    if ls == [] then "" else ls[0] + "\n" + Unlines(ls[1..])
  }

  /** The standard output of `grep pattern` fed `text`. */
  function Grep(text: string, pattern: string): string
  {
    Unlines(Matching(GrepLines(text), pattern))
  }

  /** A single line that contains the pattern passes through grep unchanged. */
  lemma GrepOneLine(row: string, pattern: string)
    requires '\n' !in row && Contains(row, pattern)
    ensures Grep(row + "\n", pattern) == row + "\n"
  {
    assert row + "\n" == row + ['\n'] + "";
    SplitAround(row, '\n', "");
    SplitWithoutSep(row, '\n');
    assert GrepLines(row + "\n") == [row];
    assert [row][1..] == [];
    assert Matching([row], pattern) == [row];
    assert Unlines([row]) == row + "\n" + "";
  }

  /** Splitting grep-style output on newlines gives its lines and one empty
      piece after the final newline. */
  lemma {:induction false} SplitUnlines(ls: seq<string>)
    requires forall i :: 0 <= i < |ls| ==> '\n' !in ls[i]
    ensures Split(Unlines(ls), '\n') == ls + [""]
    decreases |ls|
  {
    if ls != [] {
      SplitUnlines(ls[1..]);
      SplitAround(ls[0], '\n', Unlines(ls[1..]));
      SplitWithoutSep(ls[0], '\n');
      assert Unlines(ls) == ls[0] + ['\n'] + Unlines(ls[1..]);
      assert [ls[0]] + (ls[1..] + [""]) == ls + [""];
    }
  }

  /** The lines grep prints, after the first empty piece is dropped from the
      split, are exactly the input lines that contain a non-empty pattern. */
  lemma GrepThenSplitLines(text: string, pattern: string)
    requires pattern != ""
    ensures var ls := Matching(GrepLines(text), pattern);
      Split(Grep(text, pattern), '\n') == ls + [""] && "" !in ls
  {
    var ls := Matching(GrepLines(text), pattern);
    assert forall i :: 0 <= i < |ls| ==> '\n' !in ls[i];
    SplitUnlines(ls);
  }
}
