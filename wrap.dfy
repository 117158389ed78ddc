/** The greedy word wrapper `_wrap_text` of the flyer generator. The width of a
    string as the font draws it (`draw.textbbox((0, 0), s, font)[2]`, the right edge
    of its bounding box) is an arbitrary function `measure`; nothing below assumes it
    grows with the string. */
module Wrap {
  import opened PyStr

  /** The lines the wrapper produces from `rest` when `cur` holds the words of the
      line being built: the next word joins that line when the joined text fits in
      `maxW`, and otherwise starts the next line. */
  function GroupFrom(cur: seq<string>, rest: seq<string>, measure: string -> int, maxW: int): seq<seq<string>>
    decreases |rest|
  {
    if rest == [] then [cur]
    else if measure(Join(cur + [rest[0]])) <= maxW then GroupFrom(cur + [rest[0]], rest[1..], measure, maxW)
    else [cur] + GroupFrom([rest[0]], rest[1..], measure, maxW)
  }

  /** The words of each line, in order. The first word of a line always stays on it,
      whether or not it fits on its own. */
  function Groups(words: seq<string>, measure: string -> int, maxW: int): seq<seq<string>> {
    if words == [] then [] else GroupFrom([words[0]], words[1..], measure, maxW)
  }

  function JoinEach(g: seq<seq<string>>): seq<string> {
    seq(|g|, i requires 0 <= i < |g| => Join(g[i]))
  }

  /** The lines `_wrap_text` returns for these words. */
  function WrapLines(words: seq<string>, measure: string -> int, maxW: int): seq<string> {
    JoinEach(Groups(words, measure, maxW))
  }

  function Flatten(g: seq<seq<string>>): seq<string> {
    if g == [] then [] else g[0] + Flatten(g[1..])
  }

  /** The words of every line, split again and run together. */
  function SplitEach(lines: seq<string>): seq<string> {
    if lines == [] then [] else Split(lines[0]) + SplitEach(lines[1..])
  }

  /** The greedy contract for a grouping `g` of `words` into lines: the lines take the
      words in order, no line is empty, every time a word was added to a line the
      joined text fitted, and no line could have taken the first word of the next. */
  predicate IsGreedy(words: seq<string>, g: seq<seq<string>>, measure: string -> int, maxW: int) {
    Flatten(g) == words
    && (forall i :: 0 <= i < |g| ==> g[i] != [])
    && (forall i, k :: 0 <= i < |g| && 2 <= k <= |g[i]| ==> measure(Join(g[i][..k])) <= maxW)
    && (forall i :: 0 <= i < |g| - 1 ==> measure(Join(g[i] + [g[i + 1][0]])) > maxW)
  }

  // ---------------------------------------------------------------- the function is greedy

  lemma FlattenCons(a: seq<string>, g: seq<seq<string>>)
    ensures Flatten([a] + g) == a + Flatten(g)
  {
    assert ([a] + g)[1..] == g;
  }

  /** Putting a line that cannot take the next word in front of a greedy grouping keeps it greedy. */
  lemma GreedyCons(cur: seq<string>, words: seq<string>, g: seq<seq<string>>, measure: string -> int, maxW: int)
    requires cur != [] && words != []
    requires forall k :: 2 <= k <= |cur| ==> measure(Join(cur[..k])) <= maxW
    requires measure(Join(cur + [words[0]])) > maxW
    requires IsGreedy(words, g, measure, maxW)
    ensures IsGreedy(cur + words, [cur] + g, measure, maxW)
  {
    FlattenCons(cur, g);
    GreedyEmpty(words, g);
    GreedyTail(words, g, measure, maxW);
    var h := [cur] + g;
    forall i | 0 <= i < |h| ensures h[i] != [] {
      if i > 0 { assert h[i] == g[i - 1]; }
    }
    forall i, k | 0 <= i < |h| && 2 <= k <= |h[i]| ensures measure(Join(h[i][..k])) <= maxW {
      if i > 0 { assert h[i] == g[i - 1]; }
    }
    forall i | 0 <= i < |h| - 1 ensures measure(Join(h[i] + [h[i + 1][0]])) > maxW {
      if i > 0 { assert h[i] == g[i - 1] && h[i + 1] == g[i]; } else { assert h[1][0] == words[0]; }
    }
  }

  /** Continuing from a line whose every extension fitted gives a greedy grouping of
      that line's words and the rest, whose first line begins with the line so far. */
  lemma {:induction false} GroupFromGreedy(cur: seq<string>, rest: seq<string>, measure: string -> int, maxW: int)
    requires cur != []
    requires forall k :: 2 <= k <= |cur| ==> measure(Join(cur[..k])) <= maxW
    ensures GroupFrom(cur, rest, measure, maxW) != []
    ensures |cur| <= |GroupFrom(cur, rest, measure, maxW)[0]|
    ensures GroupFrom(cur, rest, measure, maxW)[0][..|cur|] == cur
    ensures IsGreedy(cur + rest, GroupFrom(cur, rest, measure, maxW), measure, maxW)
    decreases |rest|
  {
    var g := GroupFrom(cur, rest, measure, maxW);
    if rest == [] {
      assert Flatten(g) == cur by { FlattenCons(cur, []); }
      assert cur + rest == cur;
    } else if measure(Join(cur + [rest[0]])) <= maxW {
      var c := cur + [rest[0]];
      forall k | 2 <= k <= |c| ensures measure(Join(c[..k])) <= maxW {
        if k <= |cur| { assert c[..k] == cur[..k]; } else { assert c[..k] == c; }
      }
      GroupFromGreedy(c, rest[1..], measure, maxW);
      assert c + rest[1..] == cur + rest;
      assert g[0][..|cur|] == g[0][..|c|][..|cur|];
    } else {
      var t := GroupFrom([rest[0]], rest[1..], measure, maxW);
      GroupFromGreedy([rest[0]], rest[1..], measure, maxW);
      assert [rest[0]] + rest[1..] == rest;
      GreedyCons(cur, rest, t, measure, maxW);
    }
  }

  /** `Groups` satisfies the greedy contract. */
  lemma GroupsGreedy(words: seq<string>, measure: string -> int, maxW: int)
    ensures IsGreedy(words, Groups(words, measure, maxW), measure, maxW)
  {
    if words != [] {
      GroupFromGreedy([words[0]], words[1..], measure, maxW);
      assert [words[0]] + words[1..] == words;
    }
  }

  // ---------------------------------------------------------------- the contract has one solution

  lemma GreedyTail(words: seq<string>, g: seq<seq<string>>, measure: string -> int, maxW: int)
    requires IsGreedy(words, g, measure, maxW) && g != []
    ensures |g[0]| <= |words| && words[..|g[0]|] == g[0]
    ensures IsGreedy(words[|g[0]|..], g[1..], measure, maxW)
    ensures |g| > 1 ==> |g[0]| < |words| && words[|g[0]|] == g[1][0]
  {
    FlattenCons(g[0], g[1..]);
    assert [g[0]] + g[1..] == g;
    assert words == g[0] + Flatten(g[1..]);
    if |g| > 1 {
      FlattenCons(g[1], g[2..]);
      assert [g[1]] + g[2..] == g[1..];
    }
    var t := g[1..];
    forall i, k | 0 <= i < |t| && 2 <= k <= |t[i]| ensures measure(Join(t[i][..k])) <= maxW {
      assert t[i] == g[i + 1];
    }
    forall i | 0 <= i < |t| - 1 ensures measure(Join(t[i] + [t[i + 1][0]])) > maxW {
      assert t[i] == g[i + 1] && t[i + 1] == g[i + 2];
    }
  }

  lemma GreedyEmpty(words: seq<string>, g: seq<seq<string>>)
    requires Flatten(g) == words && forall i :: 0 <= i < |g| ==> g[i] != []
    ensures g == [] <==> words == []
  {
    if g != [] {
      FlattenCons(g[0], g[1..]);
      assert g == [g[0]] + g[1..];
    }
  }

  /** In a greedy grouping, every prefix of the words that the first line holds, from
      two words on, fits. */
  lemma PrefixesFit(words: seq<string>, h: seq<seq<string>>, measure: string -> int, maxW: int)
    requires IsGreedy(words, h, measure, maxW) && h != []
    ensures |h[0]| <= |words|
    ensures forall k :: 2 <= k <= |h[0]| ==> measure(Join(words[..k])) <= maxW
  {
    GreedyTail(words, h, measure, maxW);
    forall k | 2 <= k <= |h[0]| ensures measure(Join(words[..k])) <= maxW {
      assert words[..k] == h[0][..k];
    }
  }

  /** In a greedy grouping, the first line either holds every word or stops just before
      the prefix that does not fit. */
  lemma FirstBreak(words: seq<string>, g: seq<seq<string>>, measure: string -> int, maxW: int)
    requires IsGreedy(words, g, measure, maxW) && g != []
    ensures |g[0]| == |words| || (|g[0]| < |words| && measure(Join(words[..|g[0]| + 1])) > maxW)
  {
    GreedyTail(words, g, measure, maxW);
    if |g| > 1 {
      assert words[..|g[0]| + 1] == g[0] + [g[1][0]];
    } else {
      FlattenCons(g[0], []);
      assert g == [g[0]];
    }
  }

  /** Two groupings that both meet the greedy contract are the same: the contract
      determines the wrapper's result completely. */
  lemma {:induction false} GreedyUnique(words: seq<string>, g: seq<seq<string>>, h: seq<seq<string>>, measure: string -> int, maxW: int)
    requires IsGreedy(words, g, measure, maxW) && IsGreedy(words, h, measure, maxW)
    ensures g == h
    decreases |words|
  {
    GreedyEmpty(words, g);
    GreedyEmpty(words, h);
    if words != [] {
      FirstBreak(words, g, measure, maxW);
      FirstBreak(words, h, measure, maxW);
      PrefixesFit(words, g, measure, maxW);
      PrefixesFit(words, h, measure, maxW);
      assert |g[0]| == |h[0]|;
      GreedyTail(words, g, measure, maxW);
      GreedyTail(words, h, measure, maxW);
      GreedyUnique(words[|g[0]|..], g[1..], h[1..], measure, maxW);
      assert g == [g[0]] + g[1..] && h == [h[0]] + h[1..];
    }
  }

  /** `Groups` is the one grouping that meets the greedy contract. */
  lemma GroupsCharacterised(words: seq<string>, g: seq<seq<string>>, measure: string -> int, maxW: int)
    ensures IsGreedy(words, g, measure, maxW) <==> g == Groups(words, measure, maxW)
  {
    GroupsGreedy(words, measure, maxW);
    if IsGreedy(words, g, measure, maxW) {
      GreedyUnique(words, g, Groups(words, measure, maxW), measure, maxW);
    }
  }

  // ---------------------------------------------------------------- from groups to lines

  lemma {:induction false} FlattenAllWords(g: seq<seq<string>>)
    requires AllWords(Flatten(g))
    ensures forall i :: 0 <= i < |g| ==> AllWords(g[i])
    decreases |g|
  {
    if g != [] {
      var f := Flatten(g);
      assert f == g[0] + Flatten(g[1..]);
      forall j | 0 <= j < |g[0]| ensures IsWord(g[0][j]) { assert g[0][j] == f[j]; }
      forall j | 0 <= j < |Flatten(g[1..])| ensures IsWord(Flatten(g[1..])[j]) {
        assert Flatten(g[1..])[j] == f[|g[0]| + j];
      }
      FlattenAllWords(g[1..]);
      forall i | 0 <= i < |g| ensures AllWords(g[i]) {
        if i > 0 { assert g[i] == g[1..][i - 1]; }
      }
    }
  }

  lemma {:induction false} SplitEachJoinEach(g: seq<seq<string>>)
    requires forall i :: 0 <= i < |g| ==> AllWords(g[i])
    ensures SplitEach(JoinEach(g)) == Flatten(g)
    decreases |g|
  {
    if g != [] {
      SplitJoin(g[0]);
      assert JoinEach(g)[1..] == JoinEach(g[1..]);
      SplitEachJoinEach(g[1..]);
    }
  }

  /** Each line is the join of its group of words, and splitting it gives that group back. */
  lemma WrapLinesGroups(words: seq<string>, measure: string -> int, maxW: int)
    requires AllWords(words)
    ensures |WrapLines(words, measure, maxW)| == |Groups(words, measure, maxW)|
    ensures IsGreedy(words, Groups(words, measure, maxW), measure, maxW)
    ensures forall i :: 0 <= i < |WrapLines(words, measure, maxW)| ==>
      AllWords(Groups(words, measure, maxW)[i]) && Split(WrapLines(words, measure, maxW)[i]) == Groups(words, measure, maxW)[i]
    ensures SplitEach(WrapLines(words, measure, maxW)) == words
  {
    var g := Groups(words, measure, maxW);
    GroupsGreedy(words, measure, maxW);
    FlattenAllWords(g);
    SplitEachJoinEach(g);
    forall i | 0 <= i < |g| ensures Split(Join(g[i])) == g[i] {
      SplitJoin(g[i]);
    }
  }

  /** No words give no lines; otherwise there is at least one. */
  lemma WrapLinesEmpty(words: seq<string>, measure: string -> int, maxW: int)
    ensures WrapLines(words, measure, maxW) == [] <==> words == []
  {
    if words != [] {
      GroupFromGreedy([words[0]], words[1..], measure, maxW);
    }
  }

  /** Each line is its own words joined by single spaces: neither empty nor padded. */
  lemma {:induction false} WrapLinesShape(words: seq<string>, measure: string -> int, maxW: int)
    requires AllWords(words)
    ensures forall i :: 0 <= i < |WrapLines(words, measure, maxW)| ==>
      var line := WrapLines(words, measure, maxW)[i];
      line != "" && Split(line) != [] && Join(Split(line)) == line && !IsSpace(line[0]) && !IsSpace(line[|line| - 1])
  {
    var g := Groups(words, measure, maxW);
    var lines := WrapLines(words, measure, maxW);
    WrapLinesGroups(words, measure, maxW);
    forall i | 0 <= i < |lines|
      ensures lines[i] != "" && Split(lines[i]) != [] && Join(Split(lines[i])) == lines[i]
      ensures !IsSpace(lines[i][0]) && !IsSpace(lines[i][|lines[i]| - 1])
    {
      JoinEnds(g[i]);
    }
  }

  /** A line of two or more words fits in `maxW`; only a single word may overflow. */
  lemma {:induction false} WrapLinesFit(words: seq<string>, measure: string -> int, maxW: int)
    requires AllWords(words)
    ensures forall i :: 0 <= i < |WrapLines(words, measure, maxW)| && |Split(WrapLines(words, measure, maxW)[i])| >= 2 ==>
      measure(WrapLines(words, measure, maxW)[i]) <= maxW
  {
    var g := Groups(words, measure, maxW);
    var lines := WrapLines(words, measure, maxW);
    WrapLinesGroups(words, measure, maxW);
    forall i | 0 <= i < |lines| && |Split(lines[i])| >= 2 ensures measure(lines[i]) <= maxW {
      GroupFits(words, g, measure, maxW, i);
    }
  }

  /** A line of a greedy grouping that took two or more words fits. */
  lemma GroupFits(words: seq<string>, g: seq<seq<string>>, measure: string -> int, maxW: int, i: int)
    requires IsGreedy(words, g, measure, maxW) && 0 <= i < |g| && |g[i]| >= 2
    ensures measure(Join(g[i])) <= maxW
  {
    assert g[i][..|g[i]|] == g[i];
  }

  /** No line could have taken the first word of the line after it. */
  lemma {:induction false} WrapLinesBreaks(words: seq<string>, measure: string -> int, maxW: int)
    requires AllWords(words)
    ensures forall i :: 1 <= i < |WrapLines(words, measure, maxW)| ==>
      Split(WrapLines(words, measure, maxW)[i]) != [] &&
      measure(WrapLines(words, measure, maxW)[i - 1] + " " + Split(WrapLines(words, measure, maxW)[i])[0]) > maxW
  {
    var g := Groups(words, measure, maxW);
    var lines := WrapLines(words, measure, maxW);
    WrapLinesGroups(words, measure, maxW);
    forall i | 1 <= i < |lines|
      ensures Split(lines[i]) != [] && measure(lines[i - 1] + " " + Split(lines[i])[0]) > maxW
    {
      JoinSnoc(g[i - 1], g[i][0]);
    }
  }

  // ---------------------------------------------------------------- the loop

  lemma JoinEachSnoc(g: seq<seq<string>>, c: seq<string>)
    ensures JoinEach(g + [c]) == JoinEach(g) + [Join(c)]
  {
  }

  /** The candidate line `(cur + " " + w).strip()` is the current words and `w` joined. */
  lemma CandidateLine(g: seq<string>, w: string)
    requires AllWords(g) && IsWord(w)
    ensures Strip(Join(g) + " " + w) == Join(g + [w])
  {
    if g == [] {
      var t := Join(g) + " " + w;
      assert t == [' '] + w && t[1..] == w;
      assert StripLeading(t) == StripLeading(w) == w;
      assert Join(g + [w]) == w by { assert g + [w] == [w]; }
      StripUnchanged(w);
    } else {
      JoinSnoc(g, w);
      assert AllWords(g + [w]);
      JoinEnds(g + [w]);
      StripUnchanged(Join(g + [w]));
    }
  }

  /** How the grouping continues when the next word is `w`. */
  lemma GroupFromStep(cur: seq<string>, w: string, rest: seq<string>, measure: string -> int, maxW: int)
    ensures GroupFrom(cur, [w] + rest, measure, maxW) ==
      if measure(Join(cur + [w])) <= maxW then GroupFrom(cur + [w], rest, measure, maxW)
      else [cur] + GroupFrom([w], rest, measure, maxW)
  {
    assert ([w] + rest)[0] == w && ([w] + rest)[1..] == rest;
  }

  /** What the loop of `WrapText` keeps after `i` words: `lines` holds the closed lines
      `done`, `cur` is the line being built from the words `g`, and finishing from there
      gives the greedy grouping of all the words. */
  ghost predicate LoopState(words: seq<string>, i: nat, lines: seq<string>, cur: string, done: seq<seq<string>>, g: seq<string>, measure: string -> int, maxW: int)
    requires i <= |words|
  {
    AllWords(g) && cur == Join(g) && lines == JoinEach(done)
    && (i == 0 ==> g == [] && done == [])
    && (i > 0 ==> g != [] && done + GroupFrom(g, words[i..], measure, maxW) == Groups(words, measure, maxW))
  }

  /** A word that fits joins the line being built. */
  lemma LoopStepFits(words: seq<string>, i: nat, lines: seq<string>, cur: string, done: seq<seq<string>>, g: seq<string>, measure: string -> int, maxW: int)
    requires i < |words| && AllWords(words)
    requires LoopState(words, i, lines, cur, done, g, measure, maxW)
    requires measure(Join(g + [words[i]])) <= maxW
    ensures LoopState(words, i + 1, lines, Join(g + [words[i]]), done, g + [words[i]], measure, maxW)
  {
    var w, rest := words[i], words[i + 1..];
    assert words[i..] == [w] + rest;
    if i == 0 {
      assert g + [w] == [w] && words == [w] + rest;
    } else {
      GroupFromStep(g, w, rest, measure, maxW);
    }
  }

  /** A word that does not fit closes the line being built and starts the next one. */
  lemma LoopStepBreak(words: seq<string>, i: nat, lines: seq<string>, cur: string, done: seq<seq<string>>, g: seq<string>, measure: string -> int, maxW: int)
    requires i < |words| && AllWords(words) && g != []
    requires LoopState(words, i, lines, cur, done, g, measure, maxW)
    requires measure(Join(g + [words[i]])) > maxW
    ensures LoopState(words, i + 1, lines + [cur], words[i], done + [g], [words[i]], measure, maxW)
  {
    var w, rest := words[i], words[i + 1..];
    JoinEachSnoc(done, g);
    assert Join([w]) == w;
    assert words[i..] == [w] + rest;
    GroupFromStep(g, w, rest, measure, maxW);
    assert done + GroupFrom(g, words[i..], measure, maxW) == (done + [g]) + GroupFrom([w], rest, measure, maxW);
  }

  /** The first word starts the first line even when it does not fit. */
  lemma LoopStepFirst(words: seq<string>, i: nat, lines: seq<string>, cur: string, done: seq<seq<string>>, g: seq<string>, measure: string -> int, maxW: int)
    requires i < |words| && AllWords(words) && g == []
    requires LoopState(words, i, lines, cur, done, g, measure, maxW)
    ensures LoopState(words, i + 1, lines, words[i], done, [words[i]], measure, maxW)
  {
    var w, rest := words[i], words[i + 1..];
    assert Join([w]) == w;
    assert words == [w] + rest;
  }

  /** After the last word, appending the line being built (if any) gives all the lines. */
  lemma LoopFinish(words: seq<string>, lines: seq<string>, cur: string, done: seq<seq<string>>, g: seq<string>, measure: string -> int, maxW: int)
    requires LoopState(words, |words|, lines, cur, done, g, measure, maxW)
    ensures (if cur != "" then lines + [cur] else lines) == WrapLines(words, measure, maxW)
  {
    JoinEnds(g);
    JoinEachSnoc(done, g);
  }

  /** `_wrap_text(draw, text, font, max_w)`: split the text into words and fill one line at
      a time, trying `(cur + " " + w).strip()` and closing the line when that does not fit. */
  method WrapText(text: string, measure: string -> int, maxW: int) returns (lines: seq<string>)
    ensures lines == WrapLines(Split(text), measure, maxW)
    ensures lines == [] <==> IsBlank(text)
    ensures SplitEach(lines) == Split(text)
    ensures forall i :: 0 <= i < |lines| ==> lines[i] != "" && Split(lines[i]) != [] && Join(Split(lines[i])) == lines[i]
    ensures forall i :: 0 <= i < |lines| && |Split(lines[i])| >= 2 ==> measure(lines[i]) <= maxW
    ensures forall i :: 0 <= i < |lines| - 1 ==> measure(lines[i] + " " + Split(lines[i + 1])[0]) > maxW
  {
    var words := Split(text);
    lines := [];
    var cur := "";
    ghost var done: seq<seq<string>> := [];
    ghost var g: seq<string> := [];
    for i := 0 to |words|
      invariant LoopState(words, i, lines, cur, done, g, measure, maxW)
    {
      var w := words[i];
      var test := Strip(cur + " " + w);
      CandidateLine(g, w);
      JoinEnds(g);
      if measure(test) <= maxW {
        LoopStepFits(words, i, lines, cur, done, g, measure, maxW);
        cur := test;
        g := g + [w];
      } else {
        if cur != "" {
          LoopStepBreak(words, i, lines, cur, done, g, measure, maxW);
          lines := lines + [cur];
          done := done + [g];
        } else {
          LoopStepFirst(words, i, lines, cur, done, g, measure, maxW);
        }
        cur := w;
        g := [w];
      }
    }
    LoopFinish(words, lines, cur, done, g, measure, maxW);
    if cur != "" {
      lines := lines + [cur];
    }
    SplitEmptyIffBlank(text);
    WrapLinesEmpty(words, measure, maxW);
    WrapLinesGroups(words, measure, maxW);
    WrapLinesShape(words, measure, maxW);
    WrapLinesFit(words, measure, maxW);
    WrapLinesBreaks(words, measure, maxW);
  }
}
