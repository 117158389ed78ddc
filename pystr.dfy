/** The parts of Python's `str` and `posixpath` that the flyer generator relies on:
    whitespace as `str.isspace` defines it, `split()` with no separator, `strip()`
    with no argument, `" ".join`, `replace(old, "")`, and `os.path.join` of two parts. */
module PyStr {

  /** The characters for which Python's `str.isspace()` holds. `split()` and `strip()`
      without arguments break and trim on exactly this set. */
  predicate IsSpace(c: char) {
    ('\U{9}' <= c <= '\U{d}') || ('\U{1c}' <= c <= '\U{20}') || c == '\U{85}' || c == '\U{a0}'
    || c == '\U{1680}' || ('\U{2000}' <= c <= '\U{200a}') || c == '\U{2028}' || c == '\U{2029}'
    || c == '\U{202f}' || c == '\U{205f}' || c == '\U{3000}'
  }

  predicate IsBlank(s: string) {
    forall i :: 0 <= i < |s| ==> IsSpace(s[i])
  }

  /** A word as `split()` yields it: non-empty and free of whitespace. */
  predicate IsWord(w: string) {
    w != [] && forall i :: 0 <= i < |w| ==> !IsSpace(w[i])
  }

  predicate AllWords(ws: seq<string>) {
    forall i :: 0 <= i < |ws| ==> IsWord(ws[i])
  }

  /** `s.lstrip()`: the suffix left after dropping the leading whitespace. */
  function StripLeading(s: string): (r: string)
    ensures |r| <= |s| && r == s[|s| - |r|..]
    ensures r == [] || !IsSpace(r[0])
    ensures IsBlank(s[..|s| - |r|])
  {
    if s != [] && IsSpace(s[0]) then
      var r := StripLeading(s[1..]);
      assert s[1..][|s| - 1 - |r|..] == s[|s| - |r|..];
      assert forall i :: 1 <= i < |s| - |r| ==> s[i] == s[1..][..|s| - 1 - |r|][i - 1];
      r
    else s
  }

  /** `s.rstrip()`: the prefix left after dropping the trailing whitespace. */
  function StripTrailing(s: string): (r: string)
    ensures |r| <= |s| && r == s[..|r|]
    ensures r == [] || !IsSpace(r[|r| - 1])
    ensures IsBlank(s[|r|..])
  {
    if s != [] && IsSpace(s[|s| - 1]) then
      var t := s[..|s| - 1];
      var r := StripTrailing(t);
      assert t[..|r|] == s[..|r|];
      assert forall i :: |r| <= i < |s| - 1 ==> s[i] == t[i];
      r
    else s
  }

  /** `s.strip()` */
  function Strip(s: string): string {
    StripTrailing(StripLeading(s))
  }

  /** The longest prefix of `s` that holds no whitespace. */
  function TakeWord(s: string): (w: string)
    ensures |w| <= |s| && w == s[..|w|]
    ensures forall i :: 0 <= i < |w| ==> !IsSpace(w[i])
    ensures |w| == |s| || IsSpace(s[|w|])
  {
    if s == [] || IsSpace(s[0]) then [] else [s[0]] + TakeWord(s[1..])
  }

  /** `s.split()`: the maximal runs of non-whitespace characters, in order. */
  function Split(s: string): (ws: seq<string>)
    ensures AllWords(ws)
    decreases |s|
  {
    if s == [] then []
    else if IsSpace(s[0]) then Split(s[1..])
    else
      var w := TakeWord(s);
      [w] + Split(s[|w|..])
  }

  /** `" ".join(ws)` */
  function Join(ws: seq<string>): string {
    if |ws| == 0 then "" else if |ws| == 1 then ws[0] else ws[0] + " " + Join(ws[1..])
  }

  /** The characters of `s` that are not whitespace, in order. */
  function NonSpace(s: string): string {
    if s == [] then "" else (if IsSpace(s[0]) then "" else [s[0]]) + NonSpace(s[1..])
  }

  /** All the parts of `ws` run together. */
  function Concat(ws: seq<string>): string {
    if ws == [] then "" else ws[0] + Concat(ws[1..])
  }

  // ---------------------------------------------------------------- strip()

  lemma StripUnchanged(s: string)
    requires s == [] || (!IsSpace(s[0]) && !IsSpace(s[|s| - 1]))
    ensures Strip(s) == s
  {
  }

  lemma {:induction false} BlankAppend(a: string, b: string)
    ensures IsBlank(a + b) <==> IsBlank(a) && IsBlank(b)
  {
    if IsBlank(a) && IsBlank(b) {
      forall i | 0 <= i < |a + b| ensures IsSpace((a + b)[i]) {
        if i < |a| { assert (a + b)[i] == a[i]; } else { assert (a + b)[i] == b[i - |a|]; }
      }
    }
    if IsBlank(a + b) {
      forall i | 0 <= i < |a| ensures IsSpace(a[i]) { assert (a + b)[i] == a[i]; }
      forall i | 0 <= i < |b| ensures IsSpace(b[i]) { assert (a + b)[i + |a|] == b[i]; }
    }
  }

  lemma StripBlank(s: string)
    requires IsBlank(s)
    ensures Strip(s) == []
  {
    var l := StripLeading(s);
    assert s == s[..|s| - |l|] + l;
    BlankAppend(s[..|s| - |l|], l);
    assert l == [];
  }

  lemma StripEmptyBlank(s: string)
    ensures Strip(s) == [] ==> IsBlank(s)
  {
    var l := StripLeading(s);
    if Strip(s) != [] { return; }
    assert IsBlank(l) by { assert l[0..] == l; }
    assert s == s[..|s| - |l|] + l;
    BlankAppend(s[..|s| - |l|], l);
  }

  /** `strip()` leaves nothing exactly when the text is blank. */
  lemma StripEmptyIffBlank(s: string)
    ensures Strip(s) == [] <==> IsBlank(s)
  {
    if IsBlank(s) { StripBlank(s); }
    StripEmptyBlank(s);
  }

  /** What `strip()` leaves neither starts nor ends with whitespace. */
  lemma StripMargins(s: string)
    ensures Strip(s) != [] ==> !IsSpace(Strip(s)[0]) && !IsSpace(Strip(s)[|Strip(s)| - 1])
  {
    var l := StripLeading(s);
    var r := StripTrailing(l);
    assert r != [] ==> r[0] == l[0];
  }

  lemma StripLeadingKeepsNonSpace(s: string)
    ensures NonSpace(StripLeading(s)) == NonSpace(s)
  {
    var l := StripLeading(s);
    var a := s[..|s| - |l|];
    assert s == a + l;
    NonSpaceAppend(a, l);
    NonSpaceBlank(a);
  }

  lemma StripTrailingKeepsNonSpace(s: string)
    ensures NonSpace(StripTrailing(s)) == NonSpace(s)
  {
    var r := StripTrailing(s);
    var b := s[|r|..];
    assert s == r + b;
    NonSpaceAppend(r, b);
    NonSpaceBlank(b);
  }

  /** `strip()` removes whitespace only. */
  lemma StripKeepsNonSpace(s: string)
    ensures NonSpace(Strip(s)) == NonSpace(s)
  {
    StripLeadingKeepsNonSpace(s);
    StripTrailingKeepsNonSpace(StripLeading(s));
  }

  // ---------------------------------------------------------------- non-space characters

  lemma {:induction false} NonSpaceAppend(a: string, b: string)
    ensures NonSpace(a + b) == NonSpace(a) + NonSpace(b)
    decreases |a|
  {
    if a == [] {
      assert a + b == b;
    } else {
      assert (a + b)[0] == a[0];
      assert (a + b)[1..] == a[1..] + b;
      NonSpaceAppend(a[1..], b);
    }
  }

  lemma {:induction false} NonSpaceBlank(s: string)
    requires IsBlank(s)
    ensures NonSpace(s) == ""
    decreases |s|
  {
    if s != [] { NonSpaceBlank(s[1..]); }
  }

  lemma {:induction false} NonSpaceSolid(s: string)
    requires forall i :: 0 <= i < |s| ==> !IsSpace(s[i])
    ensures NonSpace(s) == s
    decreases |s|
  {
    if s != [] { NonSpaceSolid(s[1..]); }
  }

  // ---------------------------------------------------------------- split()

  /** `split()` gives no words exactly when the text is empty or all whitespace. */
  lemma {:induction false} SplitEmptyIffBlank(s: string)
    ensures Split(s) == [] <==> IsBlank(s)
    decreases |s|
  {
    if s != [] && IsSpace(s[0]) {
      SplitEmptyIffBlank(s[1..]);
      assert s == [s[0]] + s[1..];
      BlankAppend([s[0]], s[1..]);
    }
  }

  /** `split()` loses nothing but whitespace: its words, run together, are the text's
      non-whitespace characters in their order. */
  lemma {:induction false} SplitKeepsCharacters(s: string)
    ensures Concat(Split(s)) == NonSpace(s)
    decreases |s|
  {
    if s != [] && IsSpace(s[0]) {
      SplitKeepsCharacters(s[1..]);
    } else if s != [] {
      var w := TakeWord(s);
      var rest := s[|w|..];
      assert s == w + rest;
      NonSpaceAppend(w, rest);
      NonSpaceSolid(w);
      SplitKeepsCharacters(rest);
      ConcatCons(w, Split(rest));
    }
  }

  lemma ConcatCons(w: string, ws: seq<string>)
    ensures Concat([w] + ws) == w + Concat(ws)
  {
    assert ([w] + ws)[1..] == ws;
  }

  lemma {:induction false} TakeWordBeforeSpace(w: string, c: char, x: string)
    requires IsWord(w) && IsSpace(c)
    ensures TakeWord(w + [c] + x) == w
    decreases |w|
  {
    var s := w + [c] + x;
    assert s[0] == w[0];
    if |w| == 1 {
      assert s[1..] == [c] + x;
    } else {
      assert s[1..] == w[1..] + [c] + x;
      TakeWordBeforeSpace(w[1..], c, x);
    }
  }

  lemma {:induction false} TakeWordWhole(w: string)
    requires IsWord(w)
    ensures TakeWord(w) == w
    decreases |w|
  {
    if |w| > 1 { TakeWordWhole(w[1..]); }
  }

  lemma SplitAfterSpace(c: char, s: string)
    requires IsSpace(c)
    ensures Split([c] + s) == Split(s)
  {
    assert ([c] + s)[0] == c && ([c] + s)[1..] == s;
  }

  /** A word ends at the first whitespace character or at the end of the text, so what
      follows a word-final position does not change it when it starts with whitespace. */
  lemma {:induction false} TakeWordPrefix(a: string, x: string)
    requires x == [] || IsSpace(x[0])
    ensures TakeWord(a + x) == TakeWord(a)
    decreases |a|
  {
    if a == [] {
      assert a + x == x;
    } else {
      assert (a + x)[0] == a[0];
      if !IsSpace(a[0]) {
        assert (a + x)[1..] == a[1..] + x;
        TakeWordPrefix(a[1..], x);
      }
    }
  }

  lemma SplitSpaceFirst(a: string, c: char, b: string)
    requires a != [] && IsSpace(a[0])
    requires Split(a[1..] + [c] + b) == Split(a[1..]) + Split(b)
    ensures Split(a + [c] + b) == Split(a) + Split(b)
  {
    var t := a + [c] + b;
    assert t[0] == a[0] && t[1..] == a[1..] + [c] + b;
  }

  /** Where the first word of `a + [c] + b` ends, for a whitespace `c`. */
  lemma WordBeforeSpace(a: string, c: char, b: string)
    requires a != [] && !IsSpace(a[0]) && IsSpace(c)
    ensures a + [c] + b != [] && !IsSpace((a + [c] + b)[0])
    ensures TakeWord(a + [c] + b) == TakeWord(a)
    ensures (a + [c] + b)[|TakeWord(a)|..] == a[|TakeWord(a)|..] + [c] + b
  {
    var t := a + [c] + b;
    assert t == a + ([c] + b);
    TakeWordPrefix(a, [c] + b);
    assert t[0] == a[0];
  }

  /** `split()` on text that starts with a word. */
  lemma SplitCons(t: string, w: string, rest: string)
    requires t != [] && !IsSpace(t[0]) && TakeWord(t) == w && t[|w|..] == rest
    ensures Split(t) == [w] + Split(rest)
  {
  }

  lemma SplitWordFirst(a: string, c: char, b: string)
    requires a != [] && !IsSpace(a[0]) && IsSpace(c)
    requires Split(a[|TakeWord(a)|..] + [c] + b) == Split(a[|TakeWord(a)|..]) + Split(b)
    ensures Split(a + [c] + b) == Split(a) + Split(b)
  {
    var w := TakeWord(a);
    var r := a[|w|..];
    WordBeforeSpace(a, c, b);
    SplitCons(a + [c] + b, w, r + [c] + b);
    SplitCons(a, w, r);
    assert [w] + (Split(r) + Split(b)) == ([w] + Split(r)) + Split(b);
  }

  /** Any whitespace character separates words: the words of the text on either side of
      it, in order, are the words of the whole. With `Split("") == []` and `SplitWord`,
      this determines `split()` completely. */
  lemma {:induction false} SplitAtSpace(a: string, c: char, b: string)
    requires IsSpace(c)
    ensures Split(a + [c] + b) == Split(a) + Split(b)
    decreases |a|
  {
    if a == [] {
      assert a + [c] + b == [c] + b;
      SplitAfterSpace(c, b);
    } else if IsSpace(a[0]) {
      SplitAtSpace(a[1..], c, b);
      SplitSpaceFirst(a, c, b);
    } else {
      var w := TakeWord(a);
      assert |w| >= 1;
      SplitAtSpace(a[|w|..], c, b);
      SplitWordFirst(a, c, b);
    }
  }

  lemma SplitLeadingWord(w: string, s: string)
    requires IsWord(w)
    ensures Split(w + " " + s) == [w] + Split(s)
  {
    var t := w + " " + s;
    assert t == w + [' '] + s;
    assert t[0] == w[0];
    TakeWordBeforeSpace(w, ' ', s);
    assert t[|w|..] == [' '] + s;
    SplitAfterSpace(' ', s);
  }

  lemma SplitWord(w: string)
    requires IsWord(w)
    ensures Split(w) == [w]
  {
    assert !IsSpace(w[0]);
    TakeWordWhole(w);
    assert w[|w|..] == [];
  }

  lemma SplitJoinCons(ws: seq<string>)
    requires AllWords(ws) && |ws| > 1 && Split(Join(ws[1..])) == ws[1..]
    ensures Split(Join(ws)) == ws
  {
    var tail := ws[1..];
    AllWordsTail(ws);
    assert Join(ws) == ws[0] + " " + Join(tail);
    SplitLeadingWord(ws[0], Join(tail));
    assert [ws[0]] + tail == ws;
  }

  lemma SplitJoinSingle(ws: seq<string>)
    requires AllWords(ws) && |ws| <= 1
    ensures Split(Join(ws)) == ws
  {
    if |ws| == 1 {
      SplitWord(ws[0]);
      assert Join(ws) == ws[0];
    }
  }

  /** Splitting text that `" ".join` built from words gives those words back. */
  lemma {:induction false} SplitJoin(ws: seq<string>)
    requires AllWords(ws)
    ensures Split(Join(ws)) == ws
    decreases |ws|
  {
    if |ws| <= 1 {
      SplitJoinSingle(ws);
    } else {
      AllWordsTail(ws);
      SplitJoin(ws[1..]);
      SplitJoinCons(ws);
    }
  }

  lemma AllWordsTail(ws: seq<string>)
    requires AllWords(ws) && ws != []
    ensures IsWord(ws[0]) && AllWords(ws[1..])
  {
  }

  // ---------------------------------------------------------------- " ".join

  /** Joining words gives text that is non-empty iff there was a word, and that starts
      and ends with a non-space character. */
  lemma {:induction false} JoinEnds(ws: seq<string>)
    requires AllWords(ws)
    ensures Join(ws) == "" <==> ws == []
    ensures ws != [] ==> !IsSpace(Join(ws)[0]) && !IsSpace(Join(ws)[|Join(ws)| - 1])
    decreases |ws|
  {
    if |ws| >= 2 {
      JoinEnds(ws[1..]);
      var j := Join(ws[1..]);
      assert (ws[0] + " " + j)[|ws[0] + " " + j| - 1] == j[|j| - 1];
    }
  }

  lemma {:induction false} JoinSnoc(ws: seq<string>, w: string)
    requires ws != []
    ensures Join(ws + [w]) == Join(ws) + " " + w
    decreases |ws|
  {
    if |ws| >= 2 {
      assert (ws + [w])[1..] == ws[1..] + [w];
      JoinSnoc(ws[1..], w);
    }
  }

  // ---------------------------------------------------------------- replace(p, "")

  predicate OccursAt(p: string, s: string, i: int) {
    0 <= i && i + |p| <= |s| && s[i..i + |p|] == p
  }

  /** `s.replace(p, "")` for a non-empty `p`: scanning left to right, each occurrence
      found is deleted and the scan resumes after it. */
  function RemoveAll(s: string, p: string): (r: string)
    requires p != []
    ensures |r| <= |s|
    decreases |s|
  {
    if |s| < |p| then s
    else if s[..|p|] == p then RemoveAll(s[|p|..], p)
    else [s[0]] + RemoveAll(s[1..], p)
  }

  /** Text without an occurrence of `p` is left as it is. */
  lemma {:induction false} RemoveAllAbsent(s: string, p: string)
    requires p != []
    requires forall i :: 0 <= i <= |s| - |p| ==> !OccursAt(p, s, i)
    ensures RemoveAll(s, p) == s
    decreases |s|
  {
    if |s| >= |p| {
      assert !OccursAt(p, s, 0);
      assert s[..|p|] != p;
      forall i | 0 <= i <= |s[1..]| - |p| ensures !OccursAt(p, s[1..], i) {
        assert !OccursAt(p, s, i + 1);
        assert s[1..][i..i + |p|] == s[i + 1..i + 1 + |p|];
      }
      RemoveAllAbsent(s[1..], p);
    }
  }

  /** A leading `p` followed by text free of `p` leaves exactly that text. */
  lemma RemoveAllLeading(p: string, t: string)
    requires p != []
    requires forall i :: 0 <= i <= |t| - |p| ==> !OccursAt(p, t, i)
    ensures RemoveAll(p + t, p) == t
  {
    assert (p + t)[..|p|] == p;
    assert (p + t)[|p|..] == t;
    RemoveAllAbsent(t, p);
  }

  /** One step of the scan: where `p` does not start, the first character is kept. */
  lemma RemoveAllKeeps(s: string, p: string)
    requires p != [] && |s| >= |p| && s[..|p|] != p
    ensures RemoveAll(s, p) == [s[0]] + RemoveAll(s[1..], p)
  {
  }

  lemma RemoveAllInner()
    ensures RemoveAll("https://tps://", "https://") == "tps://"
  {
    var s := "https://tps://";
    assert s[..8] == "https://" && s[8..] == "tps://";
  }

  lemma RemoveAllMiddle()
    ensures RemoveAll("thttps://tps://", "https://") == "ttps://"
  {
    var s := "thttps://tps://";
    assert s[..8][0] != 'h' && s[1..] == "https://tps://";
    RemoveAllKeeps(s, "https://");
    RemoveAllInner();
  }

  /** One pass does not remove every occurrence: deleting the inner one can join the
      pieces around it into a new one. */
  lemma RemoveAllSinglePass()
    ensures RemoveAll("hthttps://tps://", "https://") == "https://"
  {
    var s := "hthttps://tps://";
    assert s[..8][2] != 't' && s[1..] == "thttps://tps://";
    RemoveAllKeeps(s, "https://");
    RemoveAllMiddle();
  }

  // ---------------------------------------------------------------- os.path.join

  /** `posixpath.join(a, b)`: an absolute `b` replaces `a`; otherwise `b` is appended,
      with a `/` in between unless `a` is empty or already ends in one. */
  function PathJoin(a: string, b: string): (r: string)
    ensures |b| <= |r| && r[|r| - |b|..] == b
    ensures b != [] && b[0] == '/' ==> r == b
    ensures (b == [] || b[0] != '/') ==> r[..|r| - |b|] == a || r[..|r| - |b|] == a + "/"
    ensures (b == [] || b[0] != '/') ==> (r[..|r| - |b|] == a + "/" <==> a != [] && a[|a| - 1] != '/')
  {
    if b != [] && b[0] == '/' then b
    else if a == [] || a[|a| - 1] == '/' then a + b
    else a + "/" + b
  }

  /** `path` is the file `name` inside directory `dir`: the directory, then a `/` exactly
      when the directory is non-empty and does not already end in one, then the name. */
  predicate InDir(path: string, dir: string, name: string) {
    var sep := if dir != [] && dir[|dir| - 1] != '/' then "/" else "";
    path == dir + sep + name
  }

  /** A path inside a directory ends with the name it was given. */
  lemma InDirEndsWithName(path: string, dir: string, name: string)
    requires InDir(path, dir, name)
    ensures |name| <= |path| && path[|path| - |name|..] == name
  {
    var sep := if dir != [] && dir[|dir| - 1] != '/' then "/" else "";
    assert path == (dir + sep) + name;
  }

  /** Joining a relative name onto a directory puts the file in that directory. */
  lemma PathJoinInDir(a: string, b: string)
    requires b != [] && b[0] != '/'
    ensures InDir(PathJoin(a, b), a, b)
  {
    var r := PathJoin(a, b);
    assert r == r[..|r| - |b|] + b;
  }

  /** Joining a relative name onto one directory is one-to-one in the name. */
  lemma PathJoinInjective(a: string, b1: string, b2: string)
    requires b1 != [] && b1[0] != '/' && b2 != [] && b2[0] != '/'
    requires PathJoin(a, b1) == PathJoin(a, b2)
    ensures b1 == b2
  {
    var d := if a == [] || a[|a| - 1] == '/' then a else a + "/";
    assert PathJoin(a, b1) == d + b1 && PathJoin(a, b2) == d + b2;
    assert b1 == (d + b1)[|d|..];
  }
}
