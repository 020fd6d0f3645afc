/** Wrapping a Cabrillo soapbox text into lines: greedy filling, and why it is optimal. */
module Soapbox {
  import opened GoStrings
  import opened Sequences

  // ---------- words ----------

  function WordEnd(s: string): (n: nat)
    ensures n <= |s|
    ensures n < |s| ==> IsSpace(s[n])
    ensures forall i :: 0 <= i < n ==> !IsSpace(s[i])
  {
    if s == [] || IsSpace(s[0]) then 0 else 1 + WordEnd(s[1..])
  }

  /** strings.Fields */
  function Words(s: string): seq<string>
    decreases |s|
  {
    if s == [] then []
    else if IsSpace(s[0]) then Words(s[1..])
    else [s[..WordEnd(s)]] + Words(s[WordEnd(s)..])
  }

  predicate IsWord(w: string) {
    w != "" && forall i :: 0 <= i < |w| ==> !IsSpace(w[i])
  }

  lemma {:induction false} WordsAreWords(s: string)
    ensures forall i :: 0 <= i < |Words(s)| ==> IsWord(Words(s)[i])
    decreases |s|
  {
    if s != [] {
      if IsSpace(s[0]) {
        WordsAreWords(s[1..]);
      } else {
        WordsAreWords(s[WordEnd(s)..]);
      }
    }
  }

  // ---------- lines ----------

  /** Words separated by single blanks. */
  function Join(words: seq<string>): string {
    if words == [] then ""
    else if |words| == 1 then words[0]
    else Join(words[..|words| - 1]) + " " + words[|words| - 1]
  }

  function Joined(groups: seq<seq<string>>): seq<string> {
    if groups == [] then [] else Joined(groups[..|groups| - 1]) + [Join(groups[|groups| - 1])]
  }

  function Concat(groups: seq<seq<string>>): seq<string> {
    if groups == [] then [] else groups[0] + Concat(groups[1..])
  }

  /** A line that is short enough, or a single word that is too long for any line. */
  predicate Fits(line: seq<string>, max: int) {
    |line| == 1 || (line != [] && |Join(line)| <= max)
  }

  /** Consecutive groups of exactly these words, each fit for one line. */
  predicate IsWrapping(groups: seq<seq<string>>, words: seq<string>, max: int) {
    Concat(groups) == words && forall i :: 0 <= i < |groups| ==> Fits(groups[i], max)
  }

  // ---------- greedy filling ----------

  /** The lines made when `line` is being filled and `rest` is still to come. */
  function Fill(line: seq<string>, rest: seq<string>, max: int): (groups: seq<seq<string>>)
    decreases |rest|
  {
    if rest == [] then [line]
    else if |Join(line)| + 1 + |rest[0]| > max then [line] + Fill([rest[0]], rest[1..], max)
    else Fill(line + [rest[0]], rest[1..], max)
  }

  function Greedy(words: seq<string>, max: int): seq<seq<string>> {
    if words == [] then [] else Fill([words[0]], words[1..], max)
  }

  lemma JoinAppend(line: seq<string>, w: string)
    requires line != []
    ensures Join(line + [w]) == Join(line) + " " + w
  {
    assert (line + [w])[..|line|] == line;
  }

  method WrapSoapbox(text: string, maxLen: int) returns (lines: seq<string>)
    ensures lines == Joined(Greedy(Words(TrimSpace(text)), maxLen))
  {
    var words := Words(TrimSpace(text));
    if |words| == 0 {
      return [];
    }
    lines := [];
    var line := words[0];
    ghost var done: seq<seq<string>> := [];
    ghost var current := [words[0]];
    for i := 1 to |words|
      invariant current != [] && line == Join(current) && lines == Joined(done)
      invariant done + Fill(current, words[i..], maxLen) == Greedy(words, maxLen)
    {
      var w := words[i];
      assert words[i..][0] == w && words[i..][1..] == words[i + 1..];
      if |line| + 1 + |w| > maxLen {
        Associative(done, [current], Fill([w], words[i + 1..], maxLen));
        assert (done + [current])[..|done|] == done;
        lines := lines + [line];
        line := w;
        done, current := done + [current], [w];
      } else {
        JoinAppend(current, w);
        line := line + " " + w;
        current := current + [w];
      }
    }
    assert (done + [current])[..|done|] == done;
    lines := lines + [line];
  }

  // ---------- greedy wraps ----------

  lemma ConcatCons(g: seq<string>, groups: seq<seq<string>>)
    ensures Concat([g] + groups) == g + Concat(groups)
  {
    assert ([g] + groups)[1..] == groups;
  }

  lemma WrappingCons(g: seq<string>, groups: seq<seq<string>>, words: seq<string>, max: int)
    requires Fits(g, max) && IsWrapping(groups, words, max)
    ensures IsWrapping([g] + groups, g + words, max)
  {
    ConcatCons(g, groups);
  }

  lemma {:induction false} FillWraps(line: seq<string>, rest: seq<string>, max: int)
    requires Fits(line, max)
    ensures IsWrapping(Fill(line, rest, max), line + rest, max)
    decreases |rest|
  {
    if rest == [] {
      ConcatCons(line, []);
      assert [line] + [] == [line];
    } else {
      var w, more := rest[0], rest[1..];
      assert rest == [w] + more;
      if |Join(line)| + 1 + |w| > max {
        FillWraps([w], more, max);
        WrappingCons(line, Fill([w], more, max), [w] + more, max);
      } else {
        JoinAppend(line, w);
        FillWraps(line + [w], more, max);
        Associative(line, [w], more);
      }
    }
  }

  // ---------- greedy is optimal ----------

  /** Length of a line, counted from the front. */
  function Length(words: seq<string>): int {
    if words == [] then -1 else |words[0]| + 1 + Length(words[1..])
  }

  lemma {:induction false} LengthAppend(a: seq<string>, b: seq<string>)
    ensures Length(a + b) == Length(a) + 1 + Length(b)
  {
    if a == [] {
      assert a + b == b;
    } else {
      LengthAppend(a[1..], b);
      Uncons(a, b);
    }
  }

  lemma {:induction false} JoinLength(words: seq<string>)
    requires words != []
    ensures |Join(words)| == Length(words)
  {
    if |words| > 1 {
      var n := |words| - 1;
      JoinLength(words[..n]);
      LengthAppend(words[..n], [words[n]]);
      assert words == words[..n] + [words[n]];
      assert Length([words[n]]) == |words[n]|;
    } else {
      assert words[1..] == [];
    }
  }

  lemma {:induction false} LengthBound(words: seq<string>)
    ensures Length(words) >= -1
    ensures words != [] ==> Length(words) >= 0
  {
    if words != [] {
      LengthBound(words[1..]);
    }
  }

  /** Part of a line that fits fits. */
  lemma PartFits(a: seq<string>, b: seq<string>, c: seq<string>, max: int)
    requires b != [] && Fits(a + b + c, max)
    ensures Fits(b, max)
  {
    if |a + b + c| == 1 {
      assert |b| == 1;
    } else {
      JoinLength(a + b + c);
      JoinLength(b);
      LengthAppend(a + b, c);
      LengthAppend(a, b);
      LengthBound(a);
      LengthBound(c);
    }
  }

  /** The first word of a wrapping is the first word of its first line. */
  lemma FirstLine(groups: seq<seq<string>>, w: string, rest: seq<string>, max: int)
    requires IsWrapping(groups, [w] + rest, max)
    ensures groups != [] && groups[0] != []
    ensures groups[0] == [w] + groups[0][1..] && rest == groups[0][1..] + Concat(groups[1..])
    ensures IsWrapping(groups[1..], Concat(groups[1..]), max)
  {
    assert ([w] + rest)[0] == w && ([w] + rest)[1..] == rest;
    var g := groups[0];
    Uncons(g, Concat(groups[1..]));
    assert g == [g[0]] + g[1..];
  }

  /** A wrapping without its first word needs no more lines. */
  lemma DropWord(groups: seq<seq<string>>, w: string, rest: seq<string>, max: int) returns (fewer: seq<seq<string>>)
    requires IsWrapping(groups, [w] + rest, max)
    ensures IsWrapping(fewer, rest, max) && |fewer| <= |groups|
  {
    FirstLine(groups, w, rest, max);
    var g, others := groups[0], groups[1..];
    if |g| == 1 {
      assert g[1..] + Concat(others) == Concat(others);
      fewer := others;
    } else {
      assert [w] + g[1..] + [] == g;
      PartFits([w], g[1..], [], max);
      WrappingCons(g[1..], others, Concat(others), max);
      fewer := [g[1..]] + others;
    }
  }

  lemma {:induction false} DropWords(groups: seq<seq<string>>, front: seq<string>, rest: seq<string>, max: int)
    returns (fewer: seq<seq<string>>)
    requires IsWrapping(groups, front + rest, max)
    ensures IsWrapping(fewer, rest, max) && |fewer| <= |groups|
    decreases |front|
  {
    if front == [] {
      assert front + rest == rest;
      fewer := groups;
    } else {
      assert front + rest == [front[0]] + (front[1..] + rest);
      var h := DropWord(groups, front[0], front[1..] + rest, max);
      fewer := DropWords(h, front[1..], rest, max);
    }
  }

  /** When a word no longer fits behind `line`, the first line of any other wrapping ends within `line`. */
  lemma FirstLineEnds(g: seq<string>, tail: seq<string>, line: seq<string>, w: string, rest: seq<string>, max: int)
    requires line != [] && Fits(g, max)
    requires g + tail == line + ([w] + rest)
    requires |Join(line)| + 1 + |w| > max
    ensures |g| <= |line| && g == line[..|g|] && tail == line[|g|..] + ([w] + rest)
  {
    var all := line + ([w] + rest);
    if |g| > |line| {
      var k := |line| + 1;
      assert g == all[..|g|];
      assert all[..k] == line + [w];
      assert g == [] + (line + [w]) + g[k..];
      PartFits([], line + [w], g[k..], max);
      JoinAppend(line, w);
      assert false;
    }
    assert g == all[..|g|] && tail == all[|g|..];
  }

  lemma {:induction false} FillOptimal(line: seq<string>, rest: seq<string>, max: int, other: seq<seq<string>>)
    requires Fits(line, max) && IsWrapping(other, line + rest, max)
    ensures |Fill(line, rest, max)| <= |other|
    decreases |rest|
  {
    if rest == [] {
      assert line + rest == line;
      assert other != [];
    } else {
      var w, more := rest[0], rest[1..];
      assert rest == [w] + more;
      if |Join(line)| + 1 + |w| > max {
        var g, others := other[0], other[1..];
        assert other == [g] + others;
        ConcatCons(g, others);
        FirstLineEnds(g, Concat(others), line, w, more, max);
        var fewer := DropWords(others, line[|g|..], [w] + more, max);
        FillOptimal([w], more, max, fewer);
      } else {
        JoinAppend(line, w);
        Associative(line, [w], more);
        FillOptimal(line + [w], more, max, other);
      }
    }
  }

  /**
  For every text and length: the greedy lines are the words in order, each line fits or is
  one over-long word, and no other such grouping has fewer lines.
  */
  lemma GreedyOptimal(words: seq<string>, max: int, other: seq<seq<string>>)
    requires IsWrapping(other, words, max)
    ensures IsWrapping(Greedy(words, max), words, max)
    ensures |Greedy(words, max)| <= |other|
  {
    if words != [] {
      assert words == [words[0]] + words[1..];
      FillWraps([words[0]], words[1..], max);
      FillOptimal([words[0]], words[1..], max, other);
    }
  }

  // ---------- greedy lines are full ----------

  /** The first word of each later line does not fit behind the line before it. */
  predicate AreFull(groups: seq<seq<string>>, max: int) {
    forall i :: 0 < i < |groups| ==> groups[i] != [] && |Join(groups[i - 1])| + 1 + |groups[i][0]| > max
  }

  lemma FullCons(line: seq<string>, groups: seq<seq<string>>, max: int)
    requires AreFull(groups, max)
    requires groups != [] ==> groups[0] != [] && |Join(line)| + 1 + |groups[0][0]| > max
    ensures AreFull([line] + groups, max)
  {
    var all := [line] + groups;
    forall i | 0 < i < |all|
      ensures all[i] != [] && |Join(all[i - 1])| + 1 + |all[i][0]| > max
    {
      assert all[i] == groups[i - 1];
      assert i > 1 ==> all[i - 1] == groups[i - 2];
    }
  }

  lemma {:induction false} FillStarts(line: seq<string>, rest: seq<string>, max: int)
    requires line != []
    ensures var groups := Fill(line, rest, max);
      groups != [] && groups[0] != [] && groups[0][0] == line[0] && AreFull(groups, max)
    decreases |rest|
  {
    if rest != [] {
      if |Join(line)| + 1 + |rest[0]| > max {
        FillStarts([rest[0]], rest[1..], max);
        FullCons(line, Fill([rest[0]], rest[1..], max), max);
      } else {
        FillStarts(line + [rest[0]], rest[1..], max);
      }
    }
  }

  lemma GreedyFull(words: seq<string>, max: int)
    ensures AreFull(Greedy(words, max), max)
  {
    if words != [] {
      FillStarts([words[0]], words[1..], max);
    }
  }

  lemma LinesHaveWords(groups: seq<seq<string>>, words: seq<string>, max: int)
    requires groups != [] && IsWrapping(groups, words, max)
    ensures words != []
  {
    assert Fits(groups[0], max);
  }

  lemma NoWordsNoLines(groups: seq<seq<string>>, max: int)
    requires IsWrapping(groups, [], max)
    ensures groups == []
  {
    if groups != [] {
      LinesHaveWords(groups, [], max);
    }
  }

  /** The lines after the first one. */
  lemma WrappingTail(groups: seq<seq<string>>, words: seq<string>, max: int)
    requires groups != [] && IsWrapping(groups, words, max) && AreFull(groups, max)
    ensures words == groups[0] + Concat(groups[1..])
    ensures IsWrapping(groups[1..], Concat(groups[1..]), max) && AreFull(groups[1..], max)
  {
    forall i | 0 < i < |groups[1..]|
      ensures groups[1..][i] != [] && |Join(groups[1..][i - 1])| + 1 + |groups[1..][i][0]| > max
    {
      assert groups[1..][i] == groups[i + 1] && groups[1..][i - 1] == groups[i];
    }
  }

  /** A line that the next word does not fit behind is the whole first line. */
  lemma LineEnds(g: seq<string>, tail: seq<string>, line: seq<string>, w: string, more: seq<string>, max: int)
    requires line != [] && line <= g && Fits(g, max)
    requires g + tail == line + ([w] + more)
    requires |Join(line)| + 1 + |w| > max
    ensures g == line && tail == [w] + more
  {
    FirstLineEnds(g, tail, line, w, more, max);
    assert line[|g|..] == [] && [] + ([w] + more) == [w] + more;
  }

  lemma NextWordTooLong(groups: seq<seq<string>>, w: string, more: seq<string>, max: int)
    requires groups != [] && AreFull(groups, max) && IsWrapping(groups[1..], [w] + more, max)
    ensures |Join(groups[0])| + 1 + |w| > max
  {
    FirstOfRest(groups[1..], w, more, max);
    assert groups[1..][0] == groups[1];
  }

  /** A first line that ends although the next word fits is not full. */
  lemma LineGoesOn(groups: seq<seq<string>>, line: seq<string>, w: string, more: seq<string>, max: int)
    requires groups != [] && IsWrapping(groups, line + ([w] + more), max) && AreFull(groups, max)
    requires line != [] && line <= groups[0]
    requires |Join(line)| + 1 + |w| <= max
    ensures line + [w] <= groups[0]
  {
    var g, tail := groups[0], Concat(groups[1..]);
    WrappingTail(groups, line + ([w] + more), max);
    if g == line {
      CancelPrefix(line, tail, [w] + more);
      NextWordTooLong(groups, w, more, max);
    } else {
      var all := line + ([w] + more);
      assert g == all[..|g|];
      assert all[..|line| + 1] == line + [w];
      assert g[..|line| + 1] == all[..|line| + 1];
    }
  }

  lemma {:induction false} FillUnique(line: seq<string>, rest: seq<string>, max: int, groups: seq<seq<string>>)
    requires line != [] && groups != [] && line <= groups[0]
    requires IsWrapping(groups, line + rest, max) && AreFull(groups, max)
    ensures groups == Fill(line, rest, max)
    decreases |rest|
  {
    WrappingTail(groups, line + rest, max);
    var g, others := groups[0], groups[1..];
    assert groups == [g] + others;
    if rest == [] {
      assert g == line && Concat(others) == [] by {
        assert line + rest == line;
        assert |g| + |Concat(others)| == |line|;
      }
      NoWordsNoLines(others, max);
    } else {
      var w, more := rest[0], rest[1..];
      assert rest == [w] + more;
      if |Join(line)| + 1 + |w| > max {
        LineEnds(g, Concat(others), line, w, more, max);
        FirstOfRest(others, w, more, max);
        FillUnique([w], more, max, others);
      } else {
        LineGoesOn(groups, line, w, more, max);
        Associative(line, [w], more);
        FillUnique(line + [w], more, max, groups);
      }
    }
  }

  lemma FirstOfRest(groups: seq<seq<string>>, w: string, more: seq<string>, max: int)
    requires IsWrapping(groups, [w] + more, max)
    ensures groups != [] && [w] <= groups[0]
  {
    FirstLine(groups, w, more, max);
  }

  /** The greedy lines are the only wrapping in which every line is full. */
  lemma GreedyUnique(words: seq<string>, max: int, groups: seq<seq<string>>)
    ensures groups == Greedy(words, max) <==> IsWrapping(groups, words, max) && AreFull(groups, max)
  {
    GreedyWraps(words, max);
    GreedyFull(words, max);
    if IsWrapping(groups, words, max) && AreFull(groups, max) {
      if words == [] {
        NoWordsNoLines(groups, max);
      } else {
        var w, more := words[0], words[1..];
        assert words == [w] + more;
        FirstOfRest(groups, w, more, max);
        FillUnique([w], more, max, groups);
      }
    }
  }

  lemma GreedyWraps(words: seq<string>, max: int)
    ensures IsWrapping(Greedy(words, max), words, max)
  {
    if words != [] {
      assert words == [words[0]] + words[1..];
      FillWraps([words[0]], words[1..], max);
    }
  }

  // ---------- the text of the lines ----------

  lemma WordEndAt(s: string, n: nat)
    requires n <= |s| && (n < |s| ==> IsSpace(s[n]))
    requires forall i :: 0 <= i < n ==> !IsSpace(s[i])
    ensures WordEnd(s) == n
  {
  }

  lemma FrontAndBack(a: string, c: char, b: string, n: nat)
    requires n <= |a|
    ensures (a + [c] + b)[..n] == a[..n] && (a + [c] + b)[n..] == a[n..] + [c] + b
  {
  }

  /** White space separates: the words on both sides of it are the words of all. */
  lemma {:induction false} WordsSplit(a: string, c: char, b: string)
    requires IsSpace(c)
    ensures Words(a + [c] + b) == Words(a) + Words(b)
    decreases |a|
  {
    var t := a + [c] + b;
    if a == [] {
      assert t[1..] == b && [] + Words(b) == Words(b);
    } else if IsSpace(a[0]) {
      WordsSplit(a[1..], c, b);
      assert t[1..] == a[1..] + [c] + b;
    } else {
      var n := WordEnd(a);
      WordsSplit(a[n..], c, b);
      WordEndAt(t, n);
      FrontAndBack(a, c, b, n);
      Associative([a[..n]], Words(a[n..]), Words(b));
    }
  }

  /** Text without white space is one word. */
  lemma WordAlone(w: string)
    requires IsWord(w)
    ensures Words(w) == [w]
  {
    WordEndAt(w, |w|);
    assert w[|w|..] == [] && w[..|w|] == w;
  }

  lemma {:induction false} WordsOfJoin(words: seq<string>)
    requires forall i :: 0 <= i < |words| ==> IsWord(words[i])
    ensures Words(Join(words)) == words
  {
    var n := |words| - 1;
    if n == 0 {
      WordAlone(words[0]);
    } else if n > 0 {
      WordsOfJoin(words[..n]);
      WordsSplit(Join(words[..n]), ' ', words[n]);
      WordAlone(words[n]);
      Unsnoc(words);
    }
  }

  /** The words of all lines, in order. */
  function AllWords(lines: seq<string>): seq<string> {
    if lines == [] then [] else AllWords(lines[..|lines| - 1]) + Words(lines[|lines| - 1])
  }

  lemma {:induction false} ConcatLast(groups: seq<seq<string>>)
    requires groups != []
    ensures Concat(groups) == Concat(groups[..|groups| - 1]) + groups[|groups| - 1]
  {
    if |groups| == 1 {
      assert groups[1..] == [];
    } else {
      var n := |groups| - 1;
      ConcatLast(groups[1..]);
      assert groups[1..][..n - 1] == groups[..n][1..];
      Associative(groups[0], Concat(groups[..n][1..]), groups[n]);
    }
  }

  /** Reading the lines of a wrapping gives back the words. */
  lemma {:induction false} LinesKeepWords(groups: seq<seq<string>>)
    requires forall w :: w in Concat(groups) ==> IsWord(w)
    ensures AllWords(Joined(groups)) == Concat(groups)
  {
    if groups != [] {
      var n := |groups| - 1;
      ConcatLast(groups);
      LinesKeepWords(groups[..n]);
      WordsOfJoin(groups[n]);
    }
  }

  /** The wrapped lines have exactly the words of the text, in order. */
  lemma WrapKeepsWords(text: string, max: int)
    ensures AllWords(Joined(Greedy(Words(TrimSpace(text)), max))) == Words(text)
  {
    var words := Words(TrimSpace(text));
    GreedyWraps(words, max);
    WordsAreWords(TrimSpace(text));
    LinesKeepWords(Greedy(words, max));
    WordsTrimLeft(text);
    WordsTrimRight(TrimLeft(text));
  }

  lemma {:induction false} WordsTrimLeft(s: string)
    ensures Words(TrimLeft(s)) == Words(s)
  {
    if s != [] && IsSpace(s[0]) {
      WordsTrimLeft(s[1..]);
    }
  }

  lemma {:induction false} WordsTrimRight(s: string)
    ensures Words(TrimRight(s)) == Words(s)
  {
    if s != [] && IsSpace(s[|s| - 1]) {
      var n := |s| - 1;
      WordsTrimRight(s[..n]);
      WordsSplit(s[..n], s[n], "");
      assert s == s[..n] + [s[n]] + "" && Words(s[..n]) + Words("") == Words(s[..n]);
    }
  }
}
