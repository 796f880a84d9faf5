/** The line reader of StringListParser::Parse, repeated in Database::Load:
    one pass over the characters of a file that drops comments, squeezes
    blanks and hands every non-empty line on. */
module StringListParser {

  /** ' ' and '\t', the characters that separate words. */
  predicate Blank(c: char) {
    c == ' ' || c == '\t'
  }

  const BLANKS: set<char> := {' ', '\t'}
  const NEWLINE: set<char> := {'\n'}

  // -------------------------------------------------------------------------
  // What a line list is: a reference definition

  /** The pieces of `s` between the characters of `seps`: one more piece
      than there are separators, empty pieces included. */
  function SplitBy(s: string, seps: set<char>): (r: seq<string>)
    ensures |r| > 0
    decreases |s|
  {
    if |s| == 0 then [[]]
    else
      var init := SplitBy(s[..|s| - 1], seps);
      var c := s[|s| - 1];
      if c in seps then init + [[]]
      else init[..|init| - 1] + [init[|init| - 1] + [c]]
  }

  /** The pieces written out with `c` between each two. */
  function JoinWith(ps: seq<string>, c: char): string
    decreases |ps|
  {
    if |ps| == 0 then []
    else if |ps| == 1 then ps[0]
    else JoinWith(ps[..|ps| - 1], c) + [c] + ps[|ps| - 1]
  }

  /** The non-empty members of `ps`, in order. */
  function NonEmpty(ps: seq<string>): (r: seq<string>)
    ensures |r| <= |ps|
    ensures forall i :: 0 <= i < |r| ==> |r[i]| > 0
    decreases |ps|
  {
    if |ps| == 0 then []
    else NonEmpty(ps[..|ps| - 1]) + (if |ps[|ps| - 1]| > 0 then [ps[|ps| - 1]] else [])
  }

  /** The index of the first '#', or |s| when there is none. */
  function HashAt(s: string): (r: nat)
    ensures r <= |s| && '#' !in s[..r] && (r < |s| ==> s[r] == '#')
  {
    if |s| == 0 then 0
    else if s[0] == '#' then 0
    else
      assert s[1..][..HashAt(s[1..])] == s[1..HashAt(s[1..]) + 1];
      HashAt(s[1..]) + 1
  }

  /** What a line says before its comment. */
  function BeforeHash(s: string): string {
    s[..HashAt(s)]
  }

  /** The words of a text: its runs of non-blank characters. */
  function WordsOf(s: string): seq<string> {
    NonEmpty(SplitBy(s, BLANKS))
  }

  /** The words of a text, one space between each two. */
  function Squash(s: string): string {
    JoinWith(WordsOf(s), ' ')
  }

  /** One line as the reader emits it: its words before the comment, one
      space between each two. */
  function Clean(line: string): string {
    Squash(BeforeHash(line))
  }

  function Cleaned(ls: seq<string>): (r: seq<string>)
    ensures |r| == |ls| && forall i :: 0 <= i < |ls| ==> r[i] == Clean(ls[i])
  {
    seq(|ls|, i requires 0 <= i < |ls| => Clean(ls[i]))
  }

  /** The strings a file holds: its cleaned lines, the empty ones left out. */
  function Lines(text: string): seq<string> {
    NonEmpty(Cleaned(SplitBy(text, NEWLINE)))
  }

  // -------------------------------------------------------------------------
  // The reader

  /** The variables of the loop: the name being collected, the line
      counter, whether a blank was seen since the last character kept,
      whether a '#' was seen on this line, and the strings handed on. */
  datatype Reader = Reader(name: string, line: int, space: bool, comment: bool, out: seq<string>)

  const START: Reader := Reader([], 1, false, false, [])

  /** One character, with the blank flag dropped at every kept character
      (see the findings: the loop as written keeps it while the name is
      empty). */
  function Step(r: Reader, c: char): Reader {
    if c == '\n' then
      Reader([], r.line + 1, false, false, r.out + (if r.name != [] then [r.name] else []))
    else if r.comment then r
    else if c == '#' then r.(comment := true)
    else if Blank(c) then r.(space := true)
    else if r.space then r.(name := (if r.name != [] then r.name + [' '] else r.name) + [c], space := false)
    else r.(name := r.name + [c])
  }

  /** The characters of `s` read one after the other. */
  function Run(r: Reader, s: string): Reader
    decreases |s|
  {
    if |s| == 0 then r else Step(Run(r, s[..|s| - 1]), s[|s| - 1])
  }

  /** The end of the file: a last line without '\n' is still handed on. */
  function Finish(r: Reader): seq<string> {
    r.out + (if r.name != [] then [r.name] else [])
  }

  /** The loop of lib/stringlistparser.cc exactly as written: the blank
      flag is only dropped when a space is actually written. */
  function StepAsWritten(r: Reader, c: char): Reader {
    if c == '\n' then
      Reader([], r.line + 1, false, false, r.out + (if r.name != [] then [r.name] else []))
    else if r.comment then r
    else if c == '#' then r.(comment := true)
    else if Blank(c) then r.(space := true)
    else if r.space && r.name != [] then r.(name := r.name + [' '] + [c], space := false)
    else r.(name := r.name + [c])
  }

  function RunAsWritten(r: Reader, s: string): Reader
    decreases |s|
  {
    if |s| == 0 then r else StepAsWritten(RunAsWritten(r, s[..|s| - 1]), s[|s| - 1])
  }

  /** StringListParser::Parse over the buffers `read` returns, with the
      strings handed to ProcessString collected in order. */
  method Parse(chunks: seq<string>) returns (lines: seq<string>)
    ensures lines == Lines(Concat(chunks))
  {
    var name: string := [];
    var line := 1;
    var space := false;
    var comment := false;
    lines := [];
    var k := 0;
    while k < |chunks|
      invariant 0 <= k <= |chunks|
      invariant Reader(name, line, space, comment, lines) == Run(START, Concat(chunks[..k]))
    {
      ghost var before := Reader(name, line, space, comment, lines);
      name, line, space, comment, lines := ReadBuffer(name, line, space, comment, lines, chunks[k]);
      ConcatSnoc(chunks, k);
      RunConcat(START, Concat(chunks[..k]), chunks[k]);
      k := k + 1;
    }
    assert chunks[..k] == chunks;
    if name != [] {
      lines := lines + [name];
    }
    ReaderComputesLines(Concat(chunks));
  }

  /** The loop over one buffer: the variables go on from where the last
      buffer left them. */
  method ReadBuffer(name0: string, line0: int, space0: bool, comment0: bool, lines0: seq<string>, buffer: string)
    returns (name: string, line: int, space: bool, comment: bool, lines: seq<string>)
    ensures Reader(name, line, space, comment, lines) == Run(Reader(name0, line0, space0, comment0, lines0), buffer)
  {
    ghost var r0 := Reader(name0, line0, space0, comment0, lines0);
    name, line, space, comment, lines := name0, line0, space0, comment0, lines0;
    var i := 0;
    while i < |buffer|
      invariant 0 <= i <= |buffer|
      invariant Reader(name, line, space, comment, lines) == Run(r0, buffer[..i])
    {
      ghost var before := Reader(name, line, space, comment, lines);
      var c := buffer[i];
      if c == '\n' {
        if name != [] {
          lines := lines + [name];
          name := [];
        }
        line := line + 1;
        comment := false;
        space := false;
      } else if comment {
      } else if c == '#' {
        comment := true;
      } else if c == ' ' || c == '\t' {
        space := true;
      } else {
        if space {
          if name != [] {
            name := name + [' '];
          }
          space := false;
        }
        name := name + [c];
      }
      assert Reader(name, line, space, comment, lines) == Step(before, c);
      RunSnoc(r0, buffer[..i], c);
      assert buffer[..i + 1] == buffer[..i] + [c];
      i := i + 1;
    }
    assert buffer[..i] == buffer;
  }

  /** The buffers one after the other. */
  function Concat(chunks: seq<string>): string
    decreases |chunks|
  {
    if |chunks| == 0 then [] else Concat(chunks[..|chunks| - 1]) + chunks[|chunks| - 1]
  }

  lemma ConcatSnoc(chunks: seq<string>, k: nat)
    requires k < |chunks|
    ensures Concat(chunks[..k + 1]) == Concat(chunks[..k]) + chunks[k]
  {
    assert chunks[..k + 1][..k] == chunks[..k];
  }

  lemma RunSnoc(r: Reader, s: string, c: char)
    ensures Run(r, s + [c]) == Step(Run(r, s), c)
  {
    assert (s + [c])[..|s|] == s;
  }

  /** One more character of a buffer. */
  lemma RunPrefixSnoc(r: Reader, buffer: string, i: nat)
    requires i < |buffer|
    ensures Run(r, buffer[..i + 1]) == Step(Run(r, buffer[..i]), buffer[i])
  {
    assert buffer[..i + 1] == buffer[..i] + [buffer[i]];
    RunSnoc(r, buffer[..i], buffer[i]);
  }

  // -------------------------------------------------------------------------
  // The reader emits the reference lines

  /** Reading two pieces one after the other is reading them together: the
      output does not depend on how the file is cut into buffers. */
  lemma {:induction false} RunConcat(r: Reader, a: string, b: string)
    ensures Run(r, a + b) == Run(Run(r, a), b)
    decreases |b|
  {
    if |b| > 0 {
      var b' := b[..|b| - 1];
      var c := b[|b| - 1];
      assert a + b == (a + b') + [c];
      assert b == b' + [c];
      calc {
        Run(r, a + b);
        { RunSnoc(r, a + b', c); }
        Step(Run(r, a + b'), c);
        { RunConcat(r, a, b'); }
        Step(Run(Run(r, a), b'), c);
        { RunSnoc(Run(r, a), b', c); }
        Run(Run(r, a), b);
      }
    } else {
      assert a + b == a;
    }
  }

  /** The reader's state after a text: the lines finished so far, and the
      current line cleaned. */
  function Expected(t: string): Reader {
    ExpectedOf(SplitBy(t, NEWLINE))
  }

  /** The same, from the lines of the text. */
  function ExpectedOf(ls: seq<string>): Reader
    requires |ls| > 0
  {
    var cur := ls[|ls| - 1];
    Reader(Clean(cur), |ls|, SpaceAfter(cur), '#' in cur, NonEmpty(Cleaned(ls[..|ls| - 1])))
  }

  /** The line, before its comment, ends in a blank. */
  predicate SpaceAfter(cur: string) {
    var u := BeforeHash(cur);
    |u| > 0 && Blank(u[|u| - 1])
  }

  /** The reader, run from the start, is always in the expected state. */
  lemma {:induction false} RunIsExpected(t: string)
    ensures Run(START, t) == Expected(t)
    decreases |t|
  {
    if |t| == 0 {
      var ls := SplitBy(t, NEWLINE);
      assert ls == [[]];
      EmptyClean();
      assert Cleaned(ls[..0]) == [];
      assert NonEmpty(Cleaned(ls[..0])) == [];
    } else {
      var t' := t[..|t| - 1];
      var c := t[|t| - 1];
      assert t == t' + [c];
      calc {
        Run(START, t);
        Step(Run(START, t'), c);
        { RunIsExpected(t'); }
        Step(Expected(t'), c);
        { StepExpected(t', c); }
        Expected(t);
      }
    }
  }

  /** Hence Parse hands on exactly Lines(text). */
  lemma ReaderComputesLines(t: string)
    ensures Finish(Run(START, t)) == Lines(t)
  {
    RunIsExpected(t);
    FinishExpected(t);
  }

  lemma FinishExpected(t: string)
    ensures Finish(Expected(t)) == Lines(t)
  {
    var ls := SplitBy(t, NEWLINE);
    var init := ls[..|ls| - 1];
    var cur := ls[|ls| - 1];
    assert ls == init + [cur];
    CleanedSnoc(init, cur);
    NonEmptySnoc(Cleaned(init), Clean(cur));
    var e := Expected(t);
    assert e.out == NonEmpty(Cleaned(init)) && e.name == Clean(cur);
  }

  lemma EmptyClean()
    ensures Clean([]) == []
  {
    assert BeforeHash([]) == [];
    assert SplitBy([], BLANKS) == [[]];
    assert NonEmpty([[]]) == [];
  }

  lemma CleanedSnoc(ls: seq<string>, l: string)
    ensures Cleaned(ls + [l]) == Cleaned(ls) + [Clean(l)]
  {
  }

  lemma NonEmptySnoc(ps: seq<string>, p: string)
    ensures NonEmpty(ps + [p]) == NonEmpty(ps) + (if |p| > 0 then [p] else [])
  {
    assert (ps + [p])[..|ps|] == ps;
  }

  lemma SplitSnoc(s: string, seps: set<char>, c: char)
    ensures var init := SplitBy(s, seps);
      SplitBy(s + [c], seps) == if c in seps then init + [[]] else init[..|init| - 1] + [init[|init| - 1] + [c]]
  {
    assert (s + [c])[..|s|] == s;
  }

  /** The last piece is empty just when the text is empty or ends in a
      separator. */
  lemma LastPiece(s: string, seps: set<char>)
    ensures var ps := SplitBy(s, seps); ps[|ps| - 1] == [] <==> |s| == 0 || s[|s| - 1] in seps
  {
  }

  /** Comment text stays out of the line. */
  lemma BeforeHashSnoc(s: string, c: char)
    ensures BeforeHash(s + [c]) == if '#' in s || c == '#' then BeforeHash(s) else s + [c]
  {
    HashAtSnoc(s, c);
    if '#' !in s {
      assert HashAt(s) == |s|;
    }
  }

  lemma {:induction false} HashAtSnoc(s: string, c: char)
    ensures HashAt(s + [c]) == if '#' in s || c == '#' then HashAt(s) else |s| + 1
    decreases |s|
  {
    if |s| > 0 && s[0] != '#' {
      assert (s + [c])[1..] == s[1..] + [c];
      HashAtSnoc(s[1..], c);
    } else if |s| == 0 {
      assert s + [c] == [c];
    }
  }

  /** Adding a character to a text: a blank starts no word, any other
      character starts a new word after a blank and extends the last word
      otherwise. */
  lemma WordsSnoc(u: string, c: char)
    ensures Blank(c) ==> WordsOf(u + [c]) == WordsOf(u)
    ensures !Blank(c) && (|u| == 0 || Blank(u[|u| - 1])) ==> WordsOf(u + [c]) == WordsOf(u) + [[c]]
    ensures !Blank(c) && |u| > 0 && !Blank(u[|u| - 1]) ==>
      var w := WordsOf(u); |w| > 0 && WordsOf(u + [c]) == w[..|w| - 1] + [w[|w| - 1] + [c]]
  {
    if Blank(c) {
      WordsBlank(u, c);
    } else if |u| == 0 || Blank(u[|u| - 1]) {
      WordsStart(u, c);
    } else {
      WordsExtend(u, c);
    }
  }

  lemma WordsBlank(u: string, c: char)
    requires Blank(c)
    ensures WordsOf(u + [c]) == WordsOf(u)
  {
    SplitSnoc(u, BLANKS, c);
    NonEmptySnoc(SplitBy(u, BLANKS), []);
  }

  lemma WordsStart(u: string, c: char)
    requires !Blank(c) && (|u| == 0 || Blank(u[|u| - 1]))
    ensures WordsOf(u + [c]) == WordsOf(u) + [[c]]
  {
    var ps := SplitBy(u, BLANKS);
    SplitSnoc(u, BLANKS, c);
    LastPiece(u, BLANKS);
    var init := ps[..|ps| - 1];
    assert ps == init + [[]];
    assert ps[|ps| - 1] + [c] == [c];
    assert SplitBy(u + [c], BLANKS) == init + [[c]];
    NonEmptySnoc(init, []);
    NonEmptySnoc(init, [c]);
  }

  lemma WordsExtend(u: string, c: char)
    requires !Blank(c) && |u| > 0 && !Blank(u[|u| - 1])
    ensures var w := WordsOf(u); |w| > 0 && WordsOf(u + [c]) == w[..|w| - 1] + [w[|w| - 1] + [c]]
  {
    var ps := SplitBy(u, BLANKS);
    SplitSnoc(u, BLANKS, c);
    LastPiece(u, BLANKS);
    var init := ps[..|ps| - 1];
    var last := ps[|ps| - 1];
    assert ps == init + [last];
    NonEmptySnoc(init, last);
    NonEmptySnoc(init, last + [c]);
    var w := WordsOf(u);
    assert w == NonEmpty(init) + [last];
    assert w[..|w| - 1] == NonEmpty(init);
  }

  lemma JoinSnoc(ws: seq<string>, w: string, c: char)
    ensures JoinWith(ws + [w], c) == if |ws| == 0 then w else JoinWith(ws, c) + [c] + w
  {
    assert (ws + [w])[..|ws|] == ws;
  }

  lemma JoinExtend(ws: seq<string>, c: char, x: char)
    requires |ws| > 0
    ensures JoinWith(ws[..|ws| - 1] + [ws[|ws| - 1] + [x]], c) == JoinWith(ws, c) + [x]
  {
    JoinSnoc(ws[..|ws| - 1], ws[|ws| - 1] + [x], c);
    JoinSnoc(ws[..|ws| - 1], ws[|ws| - 1], c);
    assert ws == ws[..|ws| - 1] + [ws[|ws| - 1]];
  }

  /** Non-empty words never join to nothing. */
  lemma JoinNonEmpty(ws: seq<string>, c: char)
    requires |ws| > 0 && |ws[|ws| - 1]| > 0
    ensures |JoinWith(ws, c)| > 0
  {
  }

  /** The current line grows by a character that is not a line break. */
  lemma StepLine(t: string, c: char)
    requires c != '\n'
    ensures var ls := SplitBy(t, NEWLINE); var ls' := SplitBy(t + [c], NEWLINE);
      |ls'| == |ls| && ls'[..|ls'| - 1] == ls[..|ls| - 1] && ls'[|ls'| - 1] == ls[|ls| - 1] + [c]
  {
    SplitSnoc(t, NEWLINE, c);
  }

  /** One step of the reader keeps it in the expected state. */
  lemma StepExpected(t: string, c: char)
    ensures Step(Expected(t), c) == Expected(t + [c])
  {
    if c == '\n' {
      StepNewline(t);
    } else {
      var ls := SplitBy(t, NEWLINE);
      StepLine(t, c);
      ExpectedInLine(ls, SplitBy(t + [c], NEWLINE), c);
      StepInLine(ExpectedOf(ls), ls[|ls| - 1], c);
    }
  }

  /** Within a line only the reader's view of the current line changes. */
  lemma ExpectedInLine(ls: seq<string>, ls': seq<string>, c: char)
    requires |ls| == |ls'| > 0 && ls'[..|ls'| - 1] == ls[..|ls| - 1] && ls'[|ls'| - 1] == ls[|ls| - 1] + [c]
    ensures ExpectedOf(ls) == LineState(ExpectedOf(ls), ls[|ls| - 1])
    ensures ExpectedOf(ls') == LineState(ExpectedOf(ls), ls[|ls| - 1] + [c])
  {
  }

  /** A line break hands the cleaned line on and starts an empty one. */
  lemma StepNewline(t: string)
    ensures Step(Expected(t), '\n') == Expected(t + ['\n'])
  {
    var ls := SplitBy(t, NEWLINE);
    var cur := ls[|ls| - 1];
    SplitSnoc(t, NEWLINE, '\n');
    EmptyClean();
    assert ls == ls[..|ls| - 1] + [cur];
    CleanedSnoc(ls[..|ls| - 1], cur);
    NonEmptySnoc(Cleaned(ls[..|ls| - 1]), Clean(cur));
    assert (ls + [[]])[..|ls|] == ls;
  }

  /** The reader's view of the current line, without the finished ones. */
  function LineState(r: Reader, cur: string): Reader {
    r.(name := Clean(cur), space := SpaceAfter(cur), comment := '#' in cur)
  }

  lemma StepInLine(r: Reader, cur: string, c: char)
    requires c != '\n' && r == LineState(r, cur)
    ensures Step(r, c) == LineState(r, cur + [c])
  {
    if '#' in cur {
      StepInComment(r, cur, c);
    } else if c == '#' {
      StepAtHash(r, cur, c);
    } else if Blank(c) {
      StepAtBlank(r, cur, c);
    } else {
      StepAtLetter(r, cur, c);
    }
  }

  lemma StepInComment(r: Reader, cur: string, c: char)
    requires c != '\n' && r == LineState(r, cur) && '#' in cur
    ensures Step(r, c) == LineState(r, cur + [c])
  {
    BeforeHashSnoc(cur, c);
  }

  lemma StepAtHash(r: Reader, cur: string, c: char)
    requires c == '#' && r == LineState(r, cur) && '#' !in cur
    ensures Step(r, c) == LineState(r, cur + [c])
  {
    BeforeHashSnoc(cur, c);
    assert HashAt(cur) == |cur|;
  }

  lemma StepAtBlank(r: Reader, cur: string, c: char)
    requires c != '\n' && c != '#' && Blank(c) && r == LineState(r, cur) && '#' !in cur
    ensures Step(r, c) == LineState(r, cur + [c])
  {
    BeforeHashSnoc(cur, c);
    assert BeforeHash(cur) == cur;
    WordsSnoc(cur, c);
  }

  lemma StepAtLetter(r: Reader, cur: string, c: char)
    requires c != '\n' && c != '#' && !Blank(c) && r == LineState(r, cur) && '#' !in cur
    ensures Step(r, c) == LineState(r, cur + [c])
  {
    BeforeHashSnoc(cur, c);
    assert BeforeHash(cur) == cur;
    WordLetter(cur, c);
  }

  /** A character kept on the line: the name grows as Step says. */
  lemma WordLetter(u: string, c: char)
    requires !Blank(c) && c != '#' && '#' !in u
    ensures var name := Clean(u); var space := SpaceAfter(u);
      Clean(u + [c]) == (if space && name != [] then name + [' '] else name) + [c]
  {
    assert BeforeHash(u) == u;
    BeforeHashSnoc(u, c);
    assert Clean(u) == Squash(u) && Clean(u + [c]) == Squash(u + [c]);
    assert SpaceAfter(u) == (|u| > 0 && Blank(u[|u| - 1]));
    if |u| > 0 && !Blank(u[|u| - 1]) {
      LetterExtends(u, c);
    } else {
      LetterStarts(u, c);
    }
  }

  /** After a kept character the word goes on. */
  lemma LetterExtends(u: string, c: char)
    requires !Blank(c) && |u| > 0 && !Blank(u[|u| - 1])
    ensures Squash(u + [c]) == Squash(u) + [c]
  {
    WordsExtend(u, c);
    JoinExtend(WordsOf(u), ' ', c);
  }

  /** At the start of the line or after a blank a new word begins. */
  lemma LetterStarts(u: string, c: char)
    requires !Blank(c) && (|u| == 0 || Blank(u[|u| - 1]))
    ensures Squash(u + [c]) == (if Squash(u) != [] then Squash(u) + [' '] else []) + [c]
  {
    WordsStart(u, c);
    var w := WordsOf(u);
    JoinSnoc(w, [c], ' ');
    if |w| > 0 {
      JoinNonEmpty(w, ' ');
    }
  }

  // -------------------------------------------------------------------------
  // What the emitted strings look like

  /** No space at either end and never two in a row. */
  predicate SingleSpaced(l: string) {
    (|l| > 0 ==> l[0] != ' ' && l[|l| - 1] != ' ') &&
    forall i :: 0 <= i < |l| - 1 && l[i] == ' ' ==> l[i + 1] != ' '
  }

  /** Every piece avoids the separators and is made of characters of `s`. */
  lemma {:induction false} PiecesAvoid(s: string, seps: set<char>)
    ensures forall p, x :: p in SplitBy(s, seps) && x in p ==> x !in seps && x in s
    decreases |s|
  {
    if |s| > 0 {
      PiecesAvoid(s[..|s| - 1], seps);
    }
  }

  lemma {:induction false} NonEmptyKeeps(ps: seq<string>)
    ensures forall p :: p in NonEmpty(ps) ==> p in ps
    decreases |ps|
  {
    if |ps| > 0 {
      NonEmptyKeeps(ps[..|ps| - 1]);
    }
  }

  /** Joined with single spaces, non-empty words free of `bad` and of ' '
      give a single-spaced text free of `bad`. */
  lemma {:induction false} JoinShape(ws: seq<string>, bad: set<char>)
    requires ' ' !in bad
    requires forall i :: 0 <= i < |ws| ==> |ws[i]| > 0 && ' ' !in ws[i] && forall x :: x in ws[i] ==> x !in bad
    ensures var l := JoinWith(ws, ' '); SingleSpaced(l) && (forall x :: x in l ==> x !in bad)
    ensures |ws| > 0 ==> |JoinWith(ws, ' ')| > 0
    decreases |ws|
  {
    if |ws| > 1 {
      var init := ws[..|ws| - 1];
      JoinShape(init, bad);
      var a := JoinWith(init, ' ');
      var w := ws[|ws| - 1];
      var l := a + [' '] + w;
      assert l == JoinWith(ws, ' ');
      forall i | 0 <= i < |l| - 1 && l[i] == ' '
        ensures l[i + 1] != ' '
      {
        if i < |a| - 1 {
          assert l[i] == a[i] && l[i + 1] == a[i + 1];
        } else if i == |a| {
          assert l[i + 1] == w[0];
        } else {
          assert false;
        }
      }
      forall x | x in l
        ensures x !in bad
      {
        if x !in a && x !in w {
          assert x == ' ';
        }
      }
    }
  }

  /** Every string Parse emits is non-empty, holds no '\n', '\t' or '#',
      and is single-spaced. */
  lemma LinesShape(text: string)
    ensures forall l :: l in Lines(text) ==>
      |l| > 0 && '\n' !in l && '\t' !in l && '#' !in l && SingleSpaced(l)
  {
    var ls := SplitBy(text, NEWLINE);
    NonEmptyKeeps(Cleaned(ls));
    forall l | l in Lines(text)
      ensures |l| > 0 && '\n' !in l && '\t' !in l && '#' !in l && SingleSpaced(l)
    {
      var k :| 0 <= k < |ls| && Cleaned(ls)[k] == l;
      PiecesAvoid(text, NEWLINE);
      assert ls[k] in ls;
      CleanShape(ls[k]);
    }
  }

  lemma CleanShape(line: string)
    requires '\n' !in line
    ensures var l := Clean(line); '\n' !in l && '\t' !in l && '#' !in l && SingleSpaced(l)
  {
    var u := BeforeHash(line);
    var ws := WordsOf(u);
    PiecesAvoid(u, BLANKS);
    NonEmptyKeeps(SplitBy(u, BLANKS));
    forall i | 0 <= i < |ws|
      ensures |ws[i]| > 0 && ' ' !in ws[i] && forall x :: x in ws[i] ==> x !in {'\n', '\t', '#'}
    {
      assert ws[i] in SplitBy(u, BLANKS);
      forall x | x in ws[i]
        ensures x !in {'\n', '\t', '#'}
      {
        assert x in u;
        assert u == line[..HashAt(line)];
      }
    }
    JoinShape(ws, {'\n', '\t', '#'});
  }

  /** The text without its blanks. */
  function NonBlank(s: string): (r: string)
    decreases |s|
  {
    if |s| == 0 then [] else NonBlank(s[..|s| - 1]) + (if Blank(s[|s| - 1]) then [] else [s[|s| - 1]])
  }

  /** The characters of a line before its comment, blanks aside, reach the
      output unchanged and in their order. */
  lemma {:induction false} CleanKeepsCharacters(u: string)
    ensures NonBlank(Squash(u)) == NonBlank(u)
    decreases |u|
  {
    if |u| > 0 {
      var u', c := u[..|u| - 1], u[|u| - 1];
      assert u == u' + [c];
      CleanKeepsCharacters(u');
      KeepSnoc(u', c);
    }
  }

  lemma KeepSnoc(u: string, c: char)
    requires NonBlank(Squash(u)) == NonBlank(u)
    ensures NonBlank(Squash(u + [c])) == NonBlank(u + [c])
  {
    KeepStep(u, c);
    NonBlankSnoc(u, c);
  }

  lemma KeepStep(u: string, c: char)
    ensures NonBlank(Squash(u + [c])) == NonBlank(Squash(u)) + (if Blank(c) then [] else [c])
  {
    if Blank(c) {
      WordsBlank(u, c);
    } else if |u| > 0 && !Blank(u[|u| - 1]) {
      LetterExtends(u, c);
      NonBlankSnoc(Squash(u), c);
    } else {
      LetterStarts(u, c);
      if Squash(u) != [] {
        NonBlankSnoc(Squash(u) + [' '], c);
        NonBlankSnoc(Squash(u), ' ');
      } else {
        NonBlankSnoc([], c);
      }
    }
  }

  lemma NonBlankSnoc(s: string, c: char)
    ensures NonBlank(s + [c]) == NonBlank(s) + (if Blank(c) then [] else [c])
  {
    assert (s + [c])[..|s|] == s;
  }

  /** Splitting on one separator and joining with it gives the text back. */
  lemma {:induction false} SplitJoin(s: string, c: char)
    ensures JoinWith(SplitBy(s, {c}), c) == s
    decreases |s|
  {
    if |s| > 0 {
      var s', x := s[..|s| - 1], s[|s| - 1];
      assert s == s' + [x];
      SplitJoin(s', c);
      SplitJoinSnoc(s', x, c);
    }
  }

  lemma SplitJoinSnoc(s': string, x: char, c: char)
    requires JoinWith(SplitBy(s', {c}), c) == s'
    ensures JoinWith(SplitBy(s' + [x], {c}), c) == s' + [x]
  {
    var ps := SplitBy(s', {c});
    SplitSnoc(s', {c}, x);
    if x == c {
      JoinSnoc(ps, [], c);
      assert JoinWith(ps + [[]], c) == s' + [c];
    } else {
      JoinExtend(ps, c, x);
      assert JoinWith(ps[..|ps| - 1] + [ps[|ps| - 1] + [x]], c) == s' + [x];
    }
  }

  // -------------------------------------------------------------------------
  // The loop as written

  /** A blank at the start of a line makes the loop as written split the
      first word after its first character, where the intended lines are
      the words of the line. */
  lemma LeadingBlankSplitsWord()
    ensures Finish(RunAsWritten(START, " ab")) == ["a b"]
    ensures Lines(" ab") == ["ab"]
  {
    assert " ab"[..2] == " a" && " a"[..1] == " " && " "[..0] == "";
    assert RunAsWritten(START, " ") == START.(space := true);
    assert RunAsWritten(START, " a") == START.(name := "a", space := true);
    assert RunAsWritten(START, " ab") == START.(name := "a b");
    ReaderComputesLines(" ab");
    assert Run(START, " ") == START.(space := true);
    assert Run(START, " a") == START.(name := "a");
    assert Run(START, " ab") == START.(name := "ab");
  }
}
