/** StreetMangler::Name: a street name split into tokens, with the best
    status part ("улица", "ул", ...) picked out, and Join, which writes the
    name back out with the status part expanded, shrunk, moved or removed
    and with punctuation and whitespace normalised under bit flags. */
module Names {
  import opened Wrappers
  import opened Unicode
  import opened Locale

  /** Name::JoinFlags. */
  const STATUS_TO_LEFT: bv32 := 0x0001
  const STATUS_TO_RIGHT: bv32 := 0x0002
  const STATUS_POS_MASK: bv32 := 0x0003
  const EXPAND_STATUS: bv32 := 0x0010
  const SHRINK_STATUS: bv32 := 0x0020
  const CANONICALIZE_STATUS: bv32 := 0x0030
  const REMOVE_ALL_STATUSES: bv32 := 0x0040
  const STATUS_MODE_MASK: bv32 := 0x0070
  const NORMALIZE_PUNCT: bv32 := 0x0100
  const NORMALIZE_WHITESPACE: bv32 := 0x0200

  /** Name::TokenType. */
  datatype TokenType = Space | Punct | Alpha | NoType

  /** Name::Token: a run of characters of one class, with the status part
      its lower-cased text names, if any. */
  datatype Token = Token(kind: TokenType, text: string, part: Option<StatusPart>) {
    predicate IsValid() {
      |text| > 0
    }
  }

  /** Token(): no type, no text. */
  const NO_TOKEN: Token := Token(NoType, "", None)

  /** Token(SPACE, " "), the separator Join inserts. */
  const SPACE_TOKEN: Token := Token(Space, " ", None)

  /** Name: its tokens and the index of the chosen status token, or -1. */
  datatype Name = Name(tokens: seq<Token>, statusPos: int) {
    /** What the constructor establishes: the status index, when there is
        one, points at a token carrying a status part. */
    predicate Valid() {
      statusPos == -1 || (0 <= statusPos < |tokens| && tokens[statusPos].part.Some?)
    }

    predicate HasStatusPart() {
      statusPos != -1
    }

    predicate IsStatusPartAtLeft() {
      statusPos == 0
    }

    predicate IsStatusPartAtRight() {
      statusPos == |tokens| - 1
    }

    function GetStatusFlags(): int
      requires Valid()
    {
      if statusPos == -1 then 0 else tokens[statusPos].part.value.flags
    }
  }

  // ---------------------------------------------------------------------
  // The tokenizer

  /** The class a character starts or continues. The source classifies the
      bytes of the UTF-8 text; every byte of a multi-byte character is at
      least 0x80 and so ALPHA, like the character, so classifying
      characters gives the same token texts. */
  function ClassOf(c: char): TokenType {
    if c == ' ' || c == '\t' then Space
    else if c == '.' || c == ',' then Punct
    else Alpha
  }

  /** The length of the text the constructor reads: it walks the C string,
      so it stops at the first NUL character. */
  function NulIndex(s: string): (r: nat)
    ensures r <= |s|
    ensures forall j :: 0 <= j < r ==> s[j] != '\0'
    ensures r < |s| ==> s[r] == '\0'
  {
    if |s| == 0 || s[0] == '\0' then 0 else 1 + NulIndex(s[1..])
  }

  function UpToNul(s: string): string {
    s[..NulIndex(s)]
  }

  /** One more character: it continues the last token if it is of the same
      class, or else starts a new token. */
  function Extend(ts: seq<Token>, c: char): seq<Token> {
    if |ts| > 0 && ts[|ts| - 1].kind == ClassOf(c) then
      ts[..|ts| - 1] + [ts[|ts| - 1].(text := ts[|ts| - 1].text + [c])]
    else
      ts + [Token(ClassOf(c), [c], None)]
  }

  /** The tokens of a text, character by character from the left. */
  function Tokenize(s: string): seq<Token>
    decreases |s|
  {
    if |s| == 0 then [] else Extend(Tokenize(s[..|s| - 1]), s[|s| - 1])
  }

  /** The concatenation of the token texts. */
  function Texts(ts: seq<Token>): string {
    if |ts| == 0 then "" else ts[0].text + Texts(ts[1..])
  }

  /** Every character of the token is of the token's class. */
  predicate OfClass(t: Token) {
    forall j :: 0 <= j < |t.text| ==> ClassOf(t.text[j]) == t.kind
  }

  /** A sequence of tokens an independent reading of the tokenizer's loop
      promises: non-empty tokens of a single class with no status part yet,
      and no two neighbours of the same class. */
  ghost predicate WellSplit(ts: seq<Token>) {
    (forall i :: 0 <= i < |ts| ==> ts[i].IsValid() && ts[i].part.None? && OfClass(ts[i])) &&
    (forall i :: 0 < i < |ts| ==> ts[i - 1].kind != ts[i].kind)
  }

  lemma {:induction false} TextsConcat(a: seq<Token>, b: seq<Token>)
    ensures Texts(a + b) == Texts(a) + Texts(b)
  {
    if |a| == 0 {
      assert a + b == b;
    } else {
      assert (a + b)[1..] == a[1..] + b;
      TextsConcat(a[1..], b);
    }
  }

  lemma TextsOne(t: Token)
    ensures Texts([t]) == t.text
  {
    assert [t][1..] == [];
  }

  /** Tokenize keeps the text and splits it well. */
  lemma TokenizeSpec(s: string)
    ensures Texts(Tokenize(s)) == s
    ensures WellSplit(Tokenize(s))
  {
    TokenizeTexts(s);
    TokenizeSplits(s);
  }

  lemma {:induction false} TokenizeTexts(s: string)
    ensures Texts(Tokenize(s)) == s
  {
    if |s| > 0 {
      var init := s[..|s| - 1];
      var c := s[|s| - 1];
      var ts := Tokenize(init);
      TokenizeTexts(init);
      assert s == init + [c];
      if |ts| > 0 && ts[|ts| - 1].kind == ClassOf(c) {
        var last := ts[|ts| - 1];
        var last' := last.(text := last.text + [c]);
        assert ts == ts[..|ts| - 1] + [last];
        TextsConcat(ts[..|ts| - 1], [last]);
        TextsConcat(ts[..|ts| - 1], [last']);
        TextsOne(last);
        TextsOne(last');
      } else {
        TextsConcat(ts, [Token(ClassOf(c), [c], None)]);
        TextsOne(Token(ClassOf(c), [c], None));
      }
    }
  }

  lemma {:induction false} TokenizeSplits(s: string)
    ensures WellSplit(Tokenize(s))
  {
    if |s| > 0 {
      TokenizeSplits(s[..|s| - 1]);
      ExtendSplits(Tokenize(s[..|s| - 1]), s[|s| - 1]);
    }
  }

  /** One more character keeps the tokens well split. */
  lemma ExtendSplits(ts: seq<Token>, c: char)
    requires WellSplit(ts)
    ensures WellSplit(Extend(ts, c))
  {
    if |ts| > 0 && ts[|ts| - 1].kind == ClassOf(c) {
      ExtendSameSplits(ts, c);
    }
  }

  lemma ExtendSameSplits(ts: seq<Token>, c: char)
    requires WellSplit(ts) && |ts| > 0 && ts[|ts| - 1].kind == ClassOf(c)
    ensures WellSplit(ts[..|ts| - 1] + [ts[|ts| - 1].(text := ts[|ts| - 1].text + [c])])
  {
    var last := ts[|ts| - 1];
    var last' := last.(text := last.text + [c]);
    assert OfClass(last');
    var r := ts[..|ts| - 1] + [last'];
    assert forall i :: 0 <= i < |ts| - 1 ==> r[i] == ts[i];
  }

  /** Conversely, every well-split sequence of tokens of a text is the
      tokenizer's: the tokenization is the only one with those properties. */
  lemma {:induction false} TokenizeUnique(ts: seq<Token>, s: string)
    requires WellSplit(ts) && Texts(ts) == s
    ensures ts == Tokenize(s)
    decreases |s|
  {
    if |ts| > 0 {
      var last := ts[|ts| - 1];
      LastChar(ts, s);
      if |last.text| == 1 {
        TokenizeUnique(ts[..|ts| - 1], s[..|s| - 1]);
        UniqueNewToken(ts, s);
      } else {
        DropLastChar(ts, s);
        TokenizeUnique(ts[..|ts| - 1] + [last.(text := last.text[..|last.text| - 1])], s[..|s| - 1]);
        UniqueLongerToken(ts, s);
      }
    } else {
      assert |s| == 0;
    }
  }

  /** The step of TokenizeUnique where the last token is one character. */
  lemma UniqueNewToken(ts: seq<Token>, s: string)
    requires |ts| > 0 && |s| > 0 && |ts[|ts| - 1].text| == 1 && ts[|ts| - 1].part.None?
    requires |ts| > 1 ==> ts[|ts| - 2].kind != ts[|ts| - 1].kind
    requires s[|s| - 1] == ts[|ts| - 1].text[0] && ClassOf(s[|s| - 1]) == ts[|ts| - 1].kind
    requires ts[..|ts| - 1] == Tokenize(s[..|s| - 1])
    ensures ts == Tokenize(s)
  {
    var init := ts[..|ts| - 1];
    var last := ts[|ts| - 1];
    var c := s[|s| - 1];
    assert Tokenize(s) == Extend(init, c);
    assert |init| > 0 ==> init[|init| - 1] == ts[|ts| - 2];
    ExtendNew(init, c);
    assert last.text == [c];
    assert ts == init + [last];
  }

  /** A character of another class than the last token starts a token. */
  lemma ExtendNew(ts: seq<Token>, c: char)
    requires |ts| > 0 ==> ts[|ts| - 1].kind != ClassOf(c)
    ensures Extend(ts, c) == ts + [Token(ClassOf(c), [c], None)]
  {
  }

  /** A character of the last token's class continues it: the tokens with
      the last one a character shorter, extended by that character. */
  lemma ExtendLonger(ts: seq<Token>, c: char)
    requires |ts| > 0 && |ts[|ts| - 1].text| > 1
    requires ts[|ts| - 1].text[|ts[|ts| - 1].text| - 1] == c && ts[|ts| - 1].kind == ClassOf(c)
    ensures var last := ts[|ts| - 1];
      Extend(ts[..|ts| - 1] + [last.(text := last.text[..|last.text| - 1])], c) == ts
  {
    var init := ts[..|ts| - 1];
    var last := ts[|ts| - 1];
    var shorter := last.(text := last.text[..|last.text| - 1]);
    var prev := init + [shorter];
    assert prev[..|prev| - 1] == init;
    assert shorter.text + [c] == last.text;
    assert ts == init + [last];
  }

  /** The step of TokenizeUnique where the last token is longer. */
  lemma UniqueLongerToken(ts: seq<Token>, s: string)
    requires |ts| > 0 && |s| > 0 && |ts[|ts| - 1].text| > 1
    requires var last := ts[|ts| - 1];
      s[|s| - 1] == last.text[|last.text| - 1] && ClassOf(s[|s| - 1]) == last.kind &&
      ts[..|ts| - 1] + [last.(text := last.text[..|last.text| - 1])] == Tokenize(s[..|s| - 1])
    ensures ts == Tokenize(s)
  {
    ExtendLonger(ts, s[|s| - 1]);
  }

  /** The text ends with the last token's last character. */
  lemma LastChar(ts: seq<Token>, s: string)
    requires WellSplit(ts) && Texts(ts) == s && |ts| > 0
    ensures var last := ts[|ts| - 1];
      |s| > 0 && s[|s| - 1] == last.text[|last.text| - 1] && ClassOf(s[|s| - 1]) == last.kind &&
      (|last.text| == 1 ==> s[..|s| - 1] == Texts(ts[..|ts| - 1]) && WellSplit(ts[..|ts| - 1]))
  {
    var init := ts[..|ts| - 1];
    var last := ts[|ts| - 1];
    assert ts == init + [last];
    TextsConcat(init, [last]);
    TextsOne(last);
    assert s == Texts(init) + last.text;
    assert last.IsValid() && OfClass(last);
    assert ClassOf(last.text[|last.text| - 1]) == last.kind;
    if |last.text| == 1 {
      assert s[..|s| - 1] == Texts(init);
      InitSplit(ts);
    }
  }

  /** A well-split sequence stays well split without its last token. */
  lemma InitSplit(ts: seq<Token>)
    requires WellSplit(ts) && |ts| > 0
    ensures WellSplit(ts[..|ts| - 1])
  {
    var init := ts[..|ts| - 1];
    assert forall i :: 0 <= i < |init| ==> init[i] == ts[i];
  }

  /** The text without its last character, split with the last token one
      character shorter. */
  lemma DropLastChar(ts: seq<Token>, s: string)
    requires WellSplit(ts) && Texts(ts) == s && |ts| > 0 && |ts[|ts| - 1].text| > 1
    ensures var last := ts[|ts| - 1];
      var ts' := ts[..|ts| - 1] + [last.(text := last.text[..|last.text| - 1])];
      |s| > 0 && WellSplit(ts') && Texts(ts') == s[..|s| - 1]
  {
    var init := ts[..|ts| - 1];
    var last := ts[|ts| - 1];
    var c := last.text[|last.text| - 1];
    var shorter := last.(text := last.text[..|last.text| - 1]);
    var ts' := init + [shorter];
    assert ts == init + [last];
    TextsConcat(init, [last]);
    TextsOne(last);
    TextsConcat(init, [shorter]);
    TextsOne(shorter);
    assert last.text == shorter.text + [c];
    assert OfClass(shorter);
  }

  /** One step of the character loop, on the tokens pushed so far and the
      token being built. */
  lemma ExtendCurrent(tokens: seq<Token>, cur: Token, c: char)
    requires cur.IsValid() || tokens == []
    ensures Extend(tokens + (if cur.IsValid() then [cur] else []), c) ==
      if cur.IsValid() && cur.kind == ClassOf(c) then tokens + [cur.(text := cur.text + [c])]
      else tokens + (if cur.IsValid() then [cur] else []) + [Token(ClassOf(c), [c], None)]
  {
    var before := tokens + (if cur.IsValid() then [cur] else []);
    if cur.IsValid() {
      assert before[|before| - 1] == cur;
      assert before[..|before| - 1] == tokens;
    }
  }

  /** One character of the loop: a change of class pushes the token being
      built and starts a new one. */
  method Push(tokens: seq<Token>, cur: Token, c: char) returns (tokens': seq<Token>, cur': Token)
    requires cur.IsValid() || tokens == []
    requires cur.part.None?
    ensures cur'.IsValid() && cur'.kind == ClassOf(c) && cur'.part.None?
    ensures tokens' + [cur'] == Extend(tokens + (if cur.IsValid() then [cur] else []), c)
  {
    var ty := ClassOf(c);
    ExtendCurrent(tokens, cur, c);
    tokens', cur' := tokens, cur;
    if ty != cur.kind {
      if cur.IsValid() {
        tokens' := tokens' + [cur];
      }
      cur' := Token(ty, "", None);
      assert cur'.text + [c] == [c];
    } else if !cur.IsValid() {
      assert cur.text == [];
      assert cur.text + [c] == [c];
    }
    cur' := cur'.(text := cur'.text + [c]);
  }

  /** The first half of Name::Name: the character loop. */
  method Split(s: string) returns (tokens: seq<Token>)
    ensures tokens == Tokenize(UpToNul(s))
  {
    tokens := [];
    var cur := NO_TOKEN;
    var i := 0;
    while i < |s| && s[i] != '\0'
      invariant 0 <= i <= |s|
      invariant forall j :: 0 <= j < i ==> s[j] != '\0'
      invariant cur.part.None?
      invariant i == 0 ==> cur == NO_TOKEN && tokens == []
      invariant i > 0 ==> cur.IsValid() && cur.kind == ClassOf(s[i - 1])
      invariant tokens + (if cur.IsValid() then [cur] else []) == Tokenize(s[..i])
    {
      assert s[..i + 1][..i] == s[..i];
      assert Tokenize(s[..i + 1]) == Extend(Tokenize(s[..i]), s[i]);
      tokens, cur := Push(tokens, cur, s[i]);
      i := i + 1;
    }
    if cur.IsValid() {
      tokens := tokens + [cur];
    }
    assert i == NulIndex(s);
  }

  // ---------------------------------------------------------------------
  // Status part selection

  /** A token after lookup: the part its lower-cased text names, if the
      locale has one; an unknown text leaves the token as it was. */
  function Mark(t: Token, l: Locale): Token {
    var part := FindStatus(l, LowerString(t.text));
    if part.Some? then t.(part := part) else t
  }

  /** The lookup over all tokens: every token keeps its class and text, and
      takes the part its lower-cased text names when the locale has one. */
  function Marked(ts: seq<Token>, l: Locale): (r: seq<Token>)
    ensures |r| == |ts| && forall i :: 0 <= i < |ts| ==> r[i] == Mark(ts[i], l)
    ensures forall i :: 0 <= i < |ts| ==> r[i].kind == ts[i].kind && r[i].text == ts[i].text
    ensures forall i :: 0 <= i < |ts| ==>
      r[i].part == if FindStatus(l, LowerString(ts[i].text)).Some? then FindStatus(l, LowerString(ts[i].text)) else ts[i].part
  {
    seq(|ts|, i requires 0 <= i < |ts| => Mark(ts[i], l))
  }

  /** The best part seen so far and its index. */
  datatype Choice = Choice(best: Option<StatusPart>, pos: int)

  /** The selection over the tokens from the left: a part replaces the
      best one only when it IsPrior to it. */
  function Best(ts: seq<Token>): Choice
    decreases |ts|
  {
    if |ts| == 0 then Choice(None, -1)
    else
      var c := Best(ts[..|ts| - 1]);
      var part := ts[|ts| - 1].part;
      if part.Some? && IsPrior(part.value, c.best) then Choice(part, |ts| - 1) else c
  }

  /** The part of the token at index i has the lowest priority of all. */
  ghost predicate Lowest(ts: seq<Token>, i: int) {
    0 <= i < |ts| && ts[i].part.Some? &&
    forall j :: 0 <= j < |ts| && ts[j].part.Some? ==> ts[i].part.value.priority <= ts[j].part.value.priority
  }

  /** Best picks the first token whose part has the lowest priority, and
      -1 when no token has a part. */
  lemma {:induction false} BestSpec(ts: seq<Token>)
    ensures Best(ts).pos == -1 <==> forall j :: 0 <= j < |ts| ==> ts[j].part.None?
    ensures Best(ts).pos != -1 ==> Lowest(ts, Best(ts).pos) && Best(ts).best == ts[Best(ts).pos].part
    ensures Best(ts).pos != -1 ==> forall j :: 0 <= j < Best(ts).pos && ts[j].part.Some? ==>
      ts[j].part.value.priority > ts[Best(ts).pos].part.value.priority
    ensures Best(ts).pos == -1 ==> Best(ts).best.None?
    decreases |ts|
  {
    if |ts| > 0 {
      var init := ts[..|ts| - 1];
      BestSpec(init);
      assert forall j :: 0 <= j < |init| ==> init[j] == ts[j];
    }
  }

  /** The second half of Name::Name: the lookup loop. */
  method SelectStatus(tokens0: seq<Token>, l: Locale) returns (tokens: seq<Token>, pos: int)
    requires forall i :: 0 <= i < |tokens0| ==> tokens0[i].part.None?
    ensures tokens == Marked(tokens0, l)
    ensures pos == Best(tokens).pos
  {
    tokens := tokens0;
    var best: Option<StatusPart> := None;
    pos := -1;
    var i := 0;
    while i < |tokens|
      invariant 0 <= i <= |tokens| == |tokens0|
      invariant tokens[..i] == Marked(tokens0, l)[..i]
      invariant tokens[i..] == tokens0[i..]
      invariant Choice(best, pos) == Best(tokens[..i])
    {
      var part := FindStatus(l, LowerString(tokens[i].text));
      ghost var prev := tokens;
      if part.Some? {
        tokens := tokens[i := tokens[i].(part := part)];
        if IsPrior(part.value, best) {
          best := part;
          pos := i;
        }
      }
      MarkStep(tokens0, l, prev, tokens, i);
      BestStep(prev, tokens, i);
      i := i + 1;
    }
    assert tokens == tokens[..i];
  }

  /** One step of the lookup loop marks token i and leaves the rest. */
  lemma MarkStep(tokens0: seq<Token>, l: Locale, prev: seq<Token>, tokens: seq<Token>, i: int)
    requires 0 <= i < |prev| == |tokens0| == |tokens|
    requires prev[..i] == Marked(tokens0, l)[..i] && prev[i..] == tokens0[i..]
    requires tokens[i] == Mark(prev[i], l)
    requires forall j :: 0 <= j < |tokens| && j != i ==> tokens[j] == prev[j]
    ensures tokens[..i + 1] == Marked(tokens0, l)[..i + 1]
    ensures tokens[i + 1..] == tokens0[i + 1..]
  {
    var m := Marked(tokens0, l);
    forall j | 0 <= j < i + 1
      ensures tokens[j] == m[j]
    {
      if j < i {
        assert tokens[j] == prev[j] == prev[..i][j] == m[..i][j];
      } else {
        assert prev[i] == prev[i..][0] == tokens0[i];
      }
    }
    assert tokens[..i + 1] == m[..i + 1];
    forall j | i + 1 <= j < |tokens|
      ensures tokens[j] == tokens0[j]
    {
      assert tokens[j] == prev[j] == prev[i..][j - i];
    }
    assert tokens[i + 1..] == tokens0[i + 1..];
  }

  /** The selection over one more token, as the loop computes it. */
  lemma BestStep(prev: seq<Token>, tokens: seq<Token>, i: int)
    requires 0 <= i < |prev| == |tokens|
    requires forall j :: 0 <= j < |tokens| && j != i ==> tokens[j] == prev[j]
    ensures Best(tokens[..i + 1]) ==
      var c := Best(prev[..i]);
      if tokens[i].part.Some? && IsPrior(tokens[i].part.value, c.best) then Choice(tokens[i].part, i) else c
  {
    assert tokens[..i + 1][..i] == tokens[..i] == prev[..i];
  }

  /** The Name the constructor builds from a text and a locale. */
  function NameOf(s: string, l: Locale): Name {
    var ts := Marked(Tokenize(UpToNul(s)), l);
    Name(ts, Best(ts).pos)
  }

  /** Name::Name. */
  method NewName(s: string, l: Locale) returns (n: Name)
    ensures n == NameOf(s, l)
  {
    var tokens := Split(s);
    TokenizeSplits(UpToNul(s));
    var marked, pos := SelectStatus(tokens, l);
    n := Name(marked, pos);
  }

  function Lower(t: Token): string {
    LowerString(t.text)
  }

  /** What the constructor's Name is: the tokens of the text up to the
      first NUL, each looked up in lower case; the chosen status is the
      first token with the lowest priority; and the status queries answer
      accordingly. */
  lemma NameOfSpec(s: string, l: Locale)
    ensures NameOf(s, l).Valid()
    ensures Texts(NameOf(s, l).tokens) == UpToNul(s)
    ensures forall i :: 0 <= i < |NameOf(s, l).tokens| ==>
      NameOf(s, l).tokens[i].IsValid() && NameOf(s, l).tokens[i].part == FindStatus(l, Lower(NameOf(s, l).tokens[i]))
    ensures NameOf(s, l).HasStatusPart() <==>
      exists i :: 0 <= i < |NameOf(s, l).tokens| && FindStatus(l, Lower(NameOf(s, l).tokens[i])).Some?
    ensures NameOf(s, l).HasStatusPart() ==> Lowest(NameOf(s, l).tokens, NameOf(s, l).statusPos)
    ensures NameOf(s, l).GetStatusFlags() ==
      if NameOf(s, l).HasStatusPart() then NameOf(s, l).tokens[NameOf(s, l).statusPos].part.value.flags else 0
  {
    var ts0 := Tokenize(UpToNul(s));
    TokenizeSpec(UpToNul(s));
    var ts := Marked(ts0, l);
    BestSpec(ts);
    MarkedTexts(ts0, l);
    forall i | 0 <= i < |ts|
      ensures ts[i].IsValid() && ts[i].part == FindStatus(l, Lower(ts[i]))
    {
      assert ts0[i].part.None?;
    }
  }

  /** The constructor always gives a valid Name. */
  lemma NameOfValid(s: string, l: Locale)
    ensures NameOf(s, l).Valid()
  {
    NameOfSpec(s, l);
  }

  lemma {:induction false} MarkedTexts(ts: seq<Token>, l: Locale)
    ensures Texts(Marked(ts, l)) == Texts(ts)
  {
    if |ts| > 0 {
      MarkedTexts(ts[1..], l);
      assert Marked(ts, l)[1..] == Marked(ts[1..], l);
    }
  }

  // ---------------------------------------------------------------------
  // Join: the edits around the status token

  /** The token list Join works on and the index of the status token in it. */
  datatype Draft = Draft(toks: seq<Token>, status: nat) {
    predicate Valid() {
      status < |toks| && toks[status].part.Some?
    }
  }

  /** Moving or removing the status normalises punctuation as well. */
  function Effective(flags: bv32): bv32 {
    if flags & (STATUS_TO_LEFT | STATUS_TO_RIGHT | REMOVE_ALL_STATUSES) != 0 then flags | NORMALIZE_PUNCT else flags
  }

  /** The status text in the form the mode asks for; any other mode
      (none, or REMOVE_ALL_STATUSES, or a mix with it) keeps the text. */
  function Rewrite(t: Token, mode: bv32): (r: Token)
    requires t.part.Some?
    ensures r.kind == t.kind && r.part == t.part
  {
    if mode == EXPAND_STATUS then t.(text := t.part.value.full)
    else if mode == SHRINK_STATUS then t.(text := t.part.value.abbrev)
    else if mode == CANONICALIZE_STATUS then t.(text := t.part.value.canonical)
    else t
  }

  /** A "." token right after the status: unless EXPAND or SHRINK bits are
      set it is appended to the status text; it then becomes a space when
      a non-space token follows, and disappears otherwise. */
  function MergeDot(d: Draft, flags: bv32): (r: Draft)
    requires d.Valid()
    ensures r.Valid() && r.status == d.status && r.toks[r.status].part == d.toks[d.status].part
    ensures flags & (EXPAND_STATUS | SHRINK_STATUS) != 0 ==> r.toks[r.status] == d.toks[d.status]
  {
    var s := d.status;
    if s + 1 < |d.toks| && d.toks[s + 1].text == "." then
      var t1 := if flags & (EXPAND_STATUS | SHRINK_STATUS) == 0 then d.toks[s := d.toks[s].(text := d.toks[s].text + ".")] else d.toks;
      if s + 2 < |t1| && t1[s + 2].kind != Space then
        Draft(t1[s + 1 := t1[s + 1].(kind := Space, text := " ")], s)
      else
        Draft(t1[..s + 1] + t1[s + 2..], s)
    else d
  }

  /** Under NORMALIZE_WHITESPACE a space goes between a comma and the status. */
  function SpaceAfterComma(d: Draft, flags: bv32): (r: Draft)
    requires d.Valid()
    ensures r.Valid() && r.toks[r.status] == d.toks[d.status]
  {
    var s := d.status;
    if flags & NORMALIZE_WHITESPACE != 0 && s > 0 && d.toks[s - 1].text == "," then
      Draft(d.toks[..s] + [SPACE_TOKEN] + d.toks[s..], s + 1)
    else d
  }

  /** Under NORMALIZE_PUNCT a comma right before the status becomes a space,
      and a comma before the space before the status is dropped. */
  function CommaToSpace(d: Draft, flags: bv32): (r: Draft)
    requires d.Valid()
    ensures r.Valid() && r.toks[r.status] == d.toks[d.status]
  {
    if flags & NORMALIZE_PUNCT == 0 then d
    else
      var s := d.status;
      var t1 := if s > 0 && d.toks[s - 1].text == "," then d.toks[s - 1 := d.toks[s - 1].(kind := Space, text := " ")] else d.toks;
      var c := if s > 0 then s - 1 else s;
      if t1[c].kind == Space && c > 0 && t1[c - 1].text == "," then
        Draft(t1[..c - 1] + t1[c..], s - 1)
      else
        Draft(t1, s)
  }

  /** The block Join runs when a mode or NORMALIZE_PUNCT is set. */
  function EditStatus(d: Draft, flags: bv32): (r: Draft)
    requires d.Valid()
    ensures r.Valid() && r.toks[r.status].part == d.toks[d.status].part
  {
    var d1 := Draft(d.toks[d.status := Rewrite(d.toks[d.status], flags & STATUS_MODE_MASK)], d.status);
    CommaToSpace(SpaceAfterComma(MergeDot(d1, flags), flags), flags)
  }

  // ---------------------------------------------------------------------
  // Join: taking a token out of the list

  /** The list with one token taken out, and where the list goes on. */
  datatype Unlinked = Unlinked(toks: seq<Token>, at: nat, merged: bool)

  /** The list with the token at k erased. */
  function Without(ts: seq<Token>, k: nat): (r: seq<Token>)
    requires k < |ts|
    ensures |r| == |ts| - 1
    ensures forall m :: 0 <= m < k ==> r[m] == ts[m]
    ensures forall m :: k <= m < |r| ==> r[m] == ts[m + 1]
  {
    ts[..k] + ts[k + 1..]
  }

  /** The space before the token at i, when there, erased; `at` is where
      the token is now and `merged` says that there was one. */
  function DropSpaceBefore(toks: seq<Token>, i: nat): (r: Unlinked)
    requires i < |toks|
    ensures r.at < |r.toks| <= |toks| && r.at <= i && r.toks[r.at] == toks[i]
    ensures forall k :: 0 <= k < r.at ==> r.toks[k] == toks[k]
    ensures r.merged ==> |r.toks| == |toks| - 1
  {
    if i > 0 && toks[i - 1].kind == Space then Unlinked(Without(toks, i - 1), i - 1, true)
    else Unlinked(toks, i, false)
  }

  /** The first half of taking out the token at i: the space before it and
      the space after it, when there, are erased; `at` is where the token is
      now and `merged` says that both spaces were there. */
  function Unspaced(toks: seq<Token>, i: nat): (r: Unlinked)
    requires i < |toks|
    ensures r.at < |r.toks| <= |toks| && r.at <= i && r.toks[r.at] == toks[i]
    ensures forall k :: 0 <= k < r.at ==> r.toks[k] == toks[k]
    ensures r.merged ==> |r.toks| == |toks| - 2
  {
    var d := DropSpaceBefore(toks, i);
    if d.at < |d.toks| - 1 && d.toks[d.at + 1].kind == Space then
      Unlinked(Without(d.toks, d.at + 1), d.at, d.merged)
    else Unlinked(d.toks, d.at, false)
  }

  /** What Join does to take out the token at i: a space on either side is
      erased; when both were there the token itself becomes the one space
      left between its neighbours (merged), otherwise it is erased as well.
      In both cases `at` is the index where the token was. */
  function Unlink(toks: seq<Token>, i: nat): (r: Unlinked)
    requires i < |toks|
    ensures r.at <= |r.toks| < |toks|
    ensures r.merged ==> r.at < |r.toks| && r.toks[r.at] == toks[i].(kind := Space, text := " ") && |r.toks| == |toks| - 2
  {
    var s := Unspaced(toks, i);
    if s.merged then
      Unlinked(s.toks[s.at := s.toks[s.at].(kind := Space, text := " ")], s.at, true)
    else
      Unlinked(Without(s.toks, s.at), s.at, false)
  }

  /** The tokens other than spaces and status parts: the words of the name
      that Join never touches when it moves or removes statuses. */
  function Words(ts: seq<Token>): seq<Token> {
    if |ts| == 0 then []
    else (if ts[0].kind != Space && ts[0].part.None? then [ts[0]] else []) + Words(ts[1..])
  }

  lemma {:induction false} WordsConcat(a: seq<Token>, b: seq<Token>)
    ensures Words(a + b) == Words(a) + Words(b)
  {
    if |a| == 0 {
      assert a + b == b;
    } else {
      assert (a + b)[1..] == a[1..] + b;
      WordsConcat(a[1..], b);
    }
  }

  /** A space or a status token holds no word. */
  lemma WordsOfNone(t: Token)
    requires t.kind == Space || t.part.Some?
    ensures Words([t]) == []
  {
    assert [t][1..] == [];
  }

  /** A space or a status token in front adds no word. */
  lemma WordsSkip(t: Token, b: seq<Token>)
    requires t.kind == Space || t.part.Some?
    ensures Words([t] + b) == Words(b)
  {
    assert ([t] + b)[1..] == b;
  }

  /** Erasing a space or a status token leaves the words as they are. */
  lemma WordsWithout(ts: seq<Token>, k: nat)
    requires k < |ts| && (ts[k].kind == Space || ts[k].part.Some?)
    ensures Words(Without(ts, k)) == Words(ts)
  {
    var a, b := ts[..k], ts[k + 1..];
    calc {
      Words(ts);
      { assert ts == a + ([ts[k]] + b); }
      Words(a + ([ts[k]] + b));
      { WordsConcat(a, [ts[k]] + b); }
      Words(a) + Words([ts[k]] + b);
      { WordsSkip(ts[k], b); }
      Words(a) + Words(b);
      { WordsConcat(a, b); }
      Words(a + b);
    }
  }

  /** Turning a token into a space removes it from the words. */
  lemma WordsToSpace(ts: seq<Token>, i: nat)
    requires i < |ts|
    ensures Words(ts[i := ts[i].(kind := Space, text := " ")]) == Words(Without(ts, i))
  {
    var t := ts[i := ts[i].(kind := Space, text := " ")];
    WordsWithout(t, i);
    assert Without(t, i) == Without(ts, i);
  }

  /** Erasing the spaces around a token keeps the words. */
  lemma UnspacedWords(toks: seq<Token>, i: nat)
    requires i < |toks|
    ensures Words(Unspaced(toks, i).toks) == Words(toks)
  {
    DropSpaceBeforeWords(toks, i);
    UnspacedStep(toks, i);
    UnspacedAfter(DropSpaceBefore(toks, i));
  }

  /** Erasing the space after the token keeps the words. */
  lemma UnspacedAfter(d: Unlinked)
    requires d.at < |d.toks|
    ensures Words(if d.at < |d.toks| - 1 && d.toks[d.at + 1].kind == Space then Without(d.toks, d.at + 1) else d.toks) == Words(d.toks)
  {
    if d.at < |d.toks| - 1 && d.toks[d.at + 1].kind == Space {
      WordsWithout(d.toks, d.at + 1);
    }
  }

  lemma UnspacedStep(toks: seq<Token>, i: nat)
    requires i < |toks|
    ensures var d := DropSpaceBefore(toks, i);
      Unspaced(toks, i).toks == if d.at < |d.toks| - 1 && d.toks[d.at + 1].kind == Space then Without(d.toks, d.at + 1) else d.toks
  {
  }

  /** Erasing the space before a token keeps the words. */
  lemma DropSpaceBeforeWords(toks: seq<Token>, i: nat)
    requires i < |toks|
    ensures Words(DropSpaceBefore(toks, i).toks) == Words(toks)
  {
    if i > 0 && toks[i - 1].kind == Space {
      WordsWithout(toks, i - 1);
    }
  }

  /** Taking out a status token keeps the other words in order. */
  lemma UnlinkWords(toks: seq<Token>, i: nat)
    requires i < |toks| && toks[i].part.Some?
    ensures Words(Unlink(toks, i).toks) == Words(toks)
  {
    var s := Unspaced(toks, i);
    UnspacedWords(toks, i);
    WordsWithout(s.toks, s.at);
    if s.merged {
      WordsToSpace(s.toks, s.at);
    }
  }

  // ---------------------------------------------------------------------
  // Join: REMOVE_ALL_STATUSES and STATUS_TO_LEFT / STATUS_TO_RIGHT

  /** The REMOVE_ALL_STATUSES loop from cursor i on: every token with a
      status part is unlinked; the cursor steps past a token that became a
      space. */
  function RemoveStatuses(toks: seq<Token>, i: nat): seq<Token>
    decreases |toks| - i
  {
    if i >= |toks| then toks
    else if toks[i].part.None? then RemoveStatuses(toks, i + 1)
    else
      var u := Unlink(toks, i);
      RemoveStatuses(u.toks, if u.merged then u.at + 1 else u.at)
  }

  /** No word with a status part is left: only spaces may carry one. */
  ghost predicate NoStatusWords(ts: seq<Token>) {
    forall i :: 0 <= i < |ts| && ts[i].part.Some? ==> ts[i].kind == Space
  }

  /** REMOVE_ALL_STATUSES keeps the words, in order, and leaves no status
      outside of a space. */
  lemma {:induction false} RemoveStatusesSpec(toks: seq<Token>, i: nat)
    requires i <= |toks| && NoStatusWords(toks[..i])
    ensures Words(RemoveStatuses(toks, i)) == Words(toks)
    ensures NoStatusWords(RemoveStatuses(toks, i))
    decreases |toks| - i
  {
    if i >= |toks| {
      assert toks[..i] == toks;
    } else if toks[i].part.None? {
      NoStatusSnoc(toks, i);
      RemoveStatusesSpec(toks, i + 1);
    } else {
      var u := Unlink(toks, i);
      var next := if u.merged then u.at + 1 else u.at;
      assert RemoveStatuses(toks, i) == RemoveStatuses(u.toks, next);
      UnlinkProgress(toks, i);
      UnlinkWords(toks, i);
      UnlinkPrefix(toks, i);
      RemoveStatusesSpec(u.toks, next);
    }
  }

  /** The cursor of the REMOVE_ALL_STATUSES loop after an unlink: fewer
      tokens are left to visit. */
  lemma UnlinkProgress(toks: seq<Token>, i: nat)
    requires i < |toks|
    ensures var u := Unlink(toks, i); var next := if u.merged then u.at + 1 else u.at;
      next <= |u.toks| && |u.toks| - next < |toks| - i
  {
  }

  /** A token without a status part extends a prefix without status words. */
  lemma NoStatusSnoc(toks: seq<Token>, i: nat)
    requires i < |toks| && NoStatusWords(toks[..i]) && toks[i].part.None?
    ensures NoStatusWords(toks[..i + 1])
  {
    assert forall k :: 0 <= k < i ==> toks[..i + 1][k] == toks[..i][k];
  }

  /** Unlinking keeps the tokens before it, and the merged space carries no
      word. */
  lemma UnlinkPrefix(toks: seq<Token>, i: nat)
    requires i < |toks| && NoStatusWords(toks[..i])
    ensures var u := Unlink(toks, i); NoStatusWords(u.toks[..if u.merged then u.at + 1 else u.at])
  {
    var u := Unlink(toks, i);
    var j := Unspaced(toks, i).at;
    assert u.at == j;
    assert forall k :: 0 <= k < j ==> u.toks[k] == toks[k];
    assert forall k :: 0 <= k < j ==> toks[..i][k] == toks[k];
  }

  /** STATUS_TO_LEFT / STATUS_TO_RIGHT: the status is unlinked and put in
      front (or at the end), with one space between it and the rest. */
  function MoveStatus(d: Draft, flags: bv32): (r: seq<Token>)
    requires d.Valid()
  {
    var saved := d.toks[d.status];
    var rest := Unlink(d.toks, d.status).toks;
    if flags & STATUS_TO_LEFT != 0 then
      (if |rest| > 0 then [saved, SPACE_TOKEN] else [saved]) + rest
    else if flags & STATUS_TO_RIGHT != 0 then
      rest + (if |rest| > 0 then [SPACE_TOKEN, saved] else [saved])
    else rest
  }

  /** The moved status comes first (last), followed (preceded) by one
      space when anything else is left, and the words keep their order. */
  lemma MoveStatusSpec(d: Draft, flags: bv32)
    requires d.Valid() && flags & (STATUS_TO_LEFT | STATUS_TO_RIGHT) != 0
    ensures var r := MoveStatus(d, flags);
      |r| > 0 && Words(r) == Words(d.toks) &&
      (flags & STATUS_TO_LEFT != 0 ==> r[0] == d.toks[d.status] && (|r| > 1 ==> r[1] == SPACE_TOKEN)) &&
      (flags & STATUS_TO_LEFT == 0 ==> r[|r| - 1] == d.toks[d.status] && (|r| > 1 ==> r[|r| - 2] == SPACE_TOKEN))
  {
    var saved := d.toks[d.status];
    var rest := Unlink(d.toks, d.status).toks;
    UnlinkWords(d.toks, d.status);
    PlaceStatus(saved, rest);
    if flags & STATUS_TO_LEFT == 0 {
      OtherBit(flags);
      assert MoveStatus(d, flags) == rest + (if |rest| > 0 then [SPACE_TOKEN, saved] else [saved]);
    } else {
      assert MoveStatus(d, flags) == (if |rest| > 0 then [saved, SPACE_TOKEN] else [saved]) + rest;
    }
  }

  /** Of the two moving flags, one is set when the first is not. */
  lemma OtherBit(flags: bv32)
    requires flags & (STATUS_TO_LEFT | STATUS_TO_RIGHT) != 0 && flags & STATUS_TO_LEFT == 0
    ensures flags & STATUS_TO_RIGHT != 0
  {
  }

  /** The status put in front of or after the rest, with a space between
      when the rest is not empty, adds no word. */
  lemma PlaceStatus(saved: Token, rest: seq<Token>)
    requires saved.part.Some?
    ensures Words((if |rest| > 0 then [saved, SPACE_TOKEN] else [saved]) + rest) == Words(rest)
    ensures Words(rest + (if |rest| > 0 then [SPACE_TOKEN, saved] else [saved])) == Words(rest)
  {
    PlaceStatusLeft(saved, rest);
    PlaceStatusRight(saved, rest);
  }

  lemma PlaceStatusLeft(saved: Token, rest: seq<Token>)
    requires saved.part.Some?
    ensures Words((if |rest| > 0 then [saved, SPACE_TOKEN] else [saved]) + rest) == Words(rest)
  {
    WordsOfNone(saved);
    if |rest| > 0 {
      WordsOfNone(SPACE_TOKEN);
      WordsConcat([saved], [SPACE_TOKEN]);
      assert [saved] + [SPACE_TOKEN] == [saved, SPACE_TOKEN];
      WordsConcat([saved, SPACE_TOKEN], rest);
    } else {
      WordsConcat([saved], rest);
    }
  }

  lemma PlaceStatusRight(saved: Token, rest: seq<Token>)
    requires saved.part.Some?
    ensures Words(rest + (if |rest| > 0 then [SPACE_TOKEN, saved] else [saved])) == Words(rest)
  {
    WordsOfNone(saved);
    if |rest| > 0 {
      WordsOfNone(SPACE_TOKEN);
      WordsConcat([SPACE_TOKEN], [saved]);
      assert [SPACE_TOKEN] + [saved] == [SPACE_TOKEN, saved];
      WordsConcat(rest, [SPACE_TOKEN, saved]);
    } else {
      WordsConcat(rest, [saved]);
    }
  }

  // ---------------------------------------------------------------------
  // Join: writing the tokens out

  /** NORMALIZE_WHITESPACE: leading spaces are skipped... */
  function SkipSpaces(ts: seq<Token>): (r: seq<Token>)
    ensures |r| <= |ts| && r == ts[|ts| - |r|..]
    ensures |r| > 0 ==> r[0].kind != Space
  {
    if |ts| > 0 && ts[0].kind == Space then SkipSpaces(ts[1..]) else ts
  }

  /** ...a run of space tokens is written as one " "... */
  function Squeeze(ts: seq<Token>, wasSpace: bool): string {
    if |ts| == 0 then ""
    else if ts[0].kind == Space then (if wasSpace then "" else " ") + Squeeze(ts[1..], true)
    else ts[0].text + Squeeze(ts[1..], false)
  }

  /** ...and trailing blanks are cut off. */
  function TrimBlanks(s: string): (r: string)
    ensures r <= s
  {
    if |s| > 0 && IsBlank(s[|s| - 1]) then TrimBlanks(s[..|s| - 1]) else s
  }

  function Serialize(ts: seq<Token>, normalize: bool): string {
    if normalize then TrimBlanks(Squeeze(SkipSpaces(ts), false)) else Texts(ts)
  }

  /** The token list after the in-place edits of the status (C++ lines of
      Join up to the atleft/atright test). */
  function Edited(n: Name, flags: bv32): (d: Draft)
    requires n.Valid() && n.statusPos != -1
    ensures d.Valid() && d.toks[d.status].part == n.tokens[n.statusPos].part
  {
    var f := Effective(flags);
    var d0 := Draft(n.tokens, n.statusPos);
    if f & (STATUS_MODE_MASK | NORMALIZE_PUNCT) != 0 then EditStatus(d0, f) else d0
  }

  /** The token list Join writes out. */
  function JoinTokens(n: Name, flags: bv32): seq<Token>
    requires n.Valid()
  {
    if n.statusPos == -1 then n.tokens
    else
      var f := Effective(flags);
      var d := Edited(n, flags);
      var atLeft := d.status == 0;
      var atRight := d.status == |d.toks| - 1;
      if f & REMOVE_ALL_STATUSES != 0 then RemoveStatuses(d.toks, 0)
      else if (!atLeft && f & STATUS_TO_LEFT != 0) || (!atRight && f & STATUS_TO_RIGHT != 0) then MoveStatus(d, f)
      else d.toks
  }

  /** What Name::Join returns. */
  function JoinSpec(n: Name, flags: bv32): string
    requires n.Valid()
  {
    Serialize(JoinTokens(n, flags), flags & NORMALIZE_WHITESPACE != 0)
  }

  /** The REMOVE_ALL_STATUSES loop. */
  method RemoveAllStatuses(toks0: seq<Token>) returns (toks: seq<Token>)
    ensures toks == RemoveStatuses(toks0, 0)
  {
    toks := toks0;
    var cur: nat := 0;
    while cur < |toks|
      invariant RemoveStatuses(toks, cur) == RemoveStatuses(toks0, 0)
      decreases |toks| - cur
    {
      if toks[cur].part.None? {
        cur := cur + 1;
      } else {
        var u := Unlink(toks, cur);
        toks := u.toks;
        cur := if u.merged then u.at + 1 else u.at;
      }
    }
  }

  /** The plain output loop. */
  method PlainText(ts: seq<Token>) returns (out: string)
    ensures out == Texts(ts)
  {
    out := "";
    var i := 0;
    while i < |ts|
      invariant 0 <= i <= |ts|
      invariant out + Texts(ts[i..]) == Texts(ts)
    {
      assert ts[i..][1..] == ts[i + 1..];
      out := out + ts[i].text;
      i := i + 1;
    }
  }

  /** The NORMALIZE_WHITESPACE output: the three loops below. */
  method NormalizedText(ts: seq<Token>) returns (out: string)
    ensures out == TrimBlanks(Squeeze(SkipSpaces(ts), false))
  {
    var start := SkipLeadingSpaces(ts);
    var squeezed := SqueezeSpaces(ts[start..]);
    out := TrimTrailingBlanks(squeezed);
  }

  method SkipLeadingSpaces(ts: seq<Token>) returns (i: nat)
    ensures i <= |ts| && ts[i..] == SkipSpaces(ts)
  {
    i := 0;
    while i < |ts| && ts[i].kind == Space
      invariant 0 <= i <= |ts|
      invariant SkipSpaces(ts[i..]) == SkipSpaces(ts)
    {
      assert ts[i..][1..] == ts[i + 1..];
      i := i + 1;
    }
  }

  method SqueezeSpaces(ts: seq<Token>) returns (out: string)
    ensures out == Squeeze(ts, false)
  {
    var wasSpace := false;
    out := "";
    var i := 0;
    while i < |ts|
      invariant 0 <= i <= |ts|
      invariant out + Squeeze(ts[i..], wasSpace) == Squeeze(ts, false)
    {
      SqueezeMove(ts, i, wasSpace, out);
      if ts[i].kind == Space && wasSpace {
      } else if ts[i].kind == Space {
        out := out + " ";
        wasSpace := true;
      } else {
        out := out + ts[i].text;
        wasSpace := false;
      }
      i := i + 1;
    }
  }

  /** The loop invariant carried over one token: the piece the token gives
      moves from the rest to the output. */
  lemma SqueezeMove(ts: seq<Token>, i: nat, wasSpace: bool, out: string)
    requires i < |ts|
    ensures out + Squeeze(ts[i..], wasSpace) ==
      (out + (if ts[i].kind == Space then (if wasSpace then "" else " ") else ts[i].text)) + Squeeze(ts[i + 1..], ts[i].kind == Space)
  {
    SqueezeStep(ts, i, wasSpace);
  }

  /** One token of the squeezing loop. */
  lemma SqueezeStep(ts: seq<Token>, i: nat, wasSpace: bool)
    requires i < |ts|
    ensures Squeeze(ts[i..], wasSpace) ==
      if ts[i].kind == Space then (if wasSpace then "" else " ") + Squeeze(ts[i + 1..], true)
      else ts[i].text + Squeeze(ts[i + 1..], false)
  {
    assert ts[i..][1..] == ts[i + 1..];
  }

  method TrimTrailingBlanks(s: string) returns (out: string)
    ensures out == TrimBlanks(s)
  {
    var newSize := |s|;
    assert s[..newSize] == s;
    while newSize > 0 && IsBlank(s[newSize - 1])
      invariant 0 <= newSize <= |s|
      invariant TrimBlanks(s[..newSize]) == TrimBlanks(s)
    {
      assert s[..newSize - 1] == s[..newSize][..newSize - 1];
      newSize := newSize - 1;
    }
    out := s[..newSize];
  }

  /** Name::Join. */
  method Join(n: Name, flags: bv32) returns (out: string)
    requires n.Valid()
    ensures out == JoinSpec(n, flags)
  {
    var toks := n.tokens;
    var f := flags;
    if n.statusPos != -1 {
      if f & (STATUS_TO_LEFT | STATUS_TO_RIGHT | REMOVE_ALL_STATUSES) != 0 {
        f := f | NORMALIZE_PUNCT;
      }
      var d := Draft(toks, n.statusPos);
      if f & (STATUS_MODE_MASK | NORMALIZE_PUNCT) != 0 {
        d := EditStatus(d, f);
      }
      assert d == Edited(n, flags);
      var atLeft := d.status == 0;
      var atRight := d.status == |d.toks| - 1;
      if f & REMOVE_ALL_STATUSES != 0 {
        toks := RemoveAllStatuses(d.toks);
      } else if (!atLeft && f & STATUS_TO_LEFT != 0) || (!atRight && f & STATUS_TO_RIGHT != 0) {
        toks := MoveStatus(d, f);
      } else {
        toks := d.toks;
      }
    }
    assert toks == JoinTokens(n, flags);
    assert (f & NORMALIZE_WHITESPACE != 0) == (flags & NORMALIZE_WHITESPACE != 0);
    if f & NORMALIZE_WHITESPACE != 0 {
      out := NormalizedText(toks);
    } else {
      out := PlainText(toks);
    }
  }

  // ---------------------------------------------------------------------
  // What Join promises

  /** Join() writes the tokens back as they were. */
  lemma JoinPlain(n: Name)
    requires n.Valid()
    ensures JoinSpec(n, 0) == Texts(n.tokens)
  {
  }

  /** So Join() of a constructed Name returns its text up to the first NUL. */
  lemma JoinRoundTrip(s: string, l: Locale)
    ensures NameOf(s, l).Valid() && JoinSpec(NameOf(s, l), 0) == UpToNul(s)
  {
    NameOfSpec(s, l);
    JoinPlain(NameOf(s, l));
  }

  /** With no status part only NORMALIZE_WHITESPACE has an effect. */
  lemma JoinWithoutStatus(n: Name, flags: bv32)
    requires n.Valid() && !n.HasStatusPart()
    ensures JoinSpec(n, flags) == JoinSpec(n, flags & NORMALIZE_WHITESPACE)
    ensures flags & NORMALIZE_WHITESPACE == 0 ==> JoinSpec(n, flags) == Texts(n.tokens)
  {
  }

  /** Under EXPAND_STATUS, SHRINK_STATUS or CANONICALIZE_STATUS the status
      text is exactly the chosen form: all three modes share a bit with
      EXPAND_STATUS | SHRINK_STATUS, so a following dot is never appended. */
  lemma EditedStatusText(n: Name, flags: bv32)
    requires n.Valid() && n.statusPos != -1
    requires flags & STATUS_MODE_MASK in {EXPAND_STATUS, SHRINK_STATUS, CANONICALIZE_STATUS}
    ensures var d := Edited(n, flags); var p := n.tokens[n.statusPos].part.value;
      d.toks[d.status].text ==
        if flags & STATUS_MODE_MASK == EXPAND_STATUS then p.full
        else if flags & STATUS_MODE_MASK == SHRINK_STATUS then p.abbrev
        else p.canonical
  {
    var f := Effective(flags);
    var d0 := Draft(n.tokens, n.statusPos);
    var m := flags & STATUS_MODE_MASK;
    EffectiveMode(flags);
    var d1 := Draft(d0.toks[d0.status := Rewrite(d0.toks[d0.status], m)], d0.status);
    assert Edited(n, flags) == CommaToSpace(SpaceAfterComma(MergeDot(d1, f), f), f);
  }

  /** The status mode survives Effective, and each of the three forms sets a
      bit of EXPAND_STATUS | SHRINK_STATUS. */
  lemma EffectiveMode(flags: bv32)
    requires flags & STATUS_MODE_MASK == EXPAND_STATUS || flags & STATUS_MODE_MASK == SHRINK_STATUS ||
      flags & STATUS_MODE_MASK == CANONICALIZE_STATUS
    ensures Effective(flags) & STATUS_MODE_MASK == flags & STATUS_MODE_MASK
    ensures Effective(flags) & (STATUS_MODE_MASK | NORMALIZE_PUNCT) != 0
    ensures Effective(flags) & (EXPAND_STATUS | SHRINK_STATUS) != 0
  {
  }

  /** REMOVE_ALL_STATUSES leaves no word carrying a status part, and every
      other word of the edited list stays, in order. */
  lemma JoinRemovesStatuses(n: Name, flags: bv32)
    requires n.Valid() && n.statusPos != -1 && flags & REMOVE_ALL_STATUSES != 0
    ensures NoStatusWords(JoinTokens(n, flags))
    ensures Words(JoinTokens(n, flags)) == Words(Edited(n, flags).toks)
  {
    var d := Edited(n, flags);
    assert Effective(flags) & REMOVE_ALL_STATUSES != 0;
    assert d.toks[..0] == [];
    RemoveStatusesSpec(d.toks, 0);
  }

  /** STATUS_TO_LEFT (without REMOVE_ALL_STATUSES) puts the status token
      first, whether it is moved or already there, and keeps the words in
      order. */
  lemma JoinStatusToLeft(n: Name, flags: bv32)
    requires n.Valid() && n.statusPos != -1
    requires flags & REMOVE_ALL_STATUSES == 0 && flags & STATUS_TO_LEFT != 0
    ensures var d := Edited(n, flags); var r := JoinTokens(n, flags);
      |r| > 0 && r[0] == d.toks[d.status] && Words(r) == Words(d.toks)
  {
    var d := Edited(n, flags);
    var f := Effective(flags);
    assert f & REMOVE_ALL_STATUSES == 0 && f & STATUS_TO_LEFT != 0;
    if d.status != 0 {
      MoveStatusSpec(d, f);
    } else if d.status != |d.toks| - 1 && f & STATUS_TO_RIGHT != 0 {
      MoveStatusSpec(d, f);
    }
  }

  /** STATUS_TO_RIGHT alone puts the status token last. */
  lemma JoinStatusToRight(n: Name, flags: bv32)
    requires n.Valid() && n.statusPos != -1
    requires flags & REMOVE_ALL_STATUSES == 0 && flags & STATUS_TO_LEFT == 0 && flags & STATUS_TO_RIGHT != 0
    ensures var d := Edited(n, flags); var r := JoinTokens(n, flags);
      |r| > 0 && r[|r| - 1] == d.toks[d.status] && Words(r) == Words(d.toks)
  {
    var d := Edited(n, flags);
    var f := Effective(flags);
    assert f & REMOVE_ALL_STATUSES == 0 && f & STATUS_TO_LEFT == 0 && f & STATUS_TO_RIGHT != 0;
    if d.status != |d.toks| - 1 {
      MoveStatusSpec(d, f);
    }
  }

  /** No blank at either end, and every blank a single ' ' followed by a
      non-blank. */
  predicate SingleSpaced(r: string) {
    (|r| > 0 ==> !IsBlank(r[0]) && !IsBlank(r[|r| - 1])) &&
    forall i :: 0 <= i < |r| - 1 && IsBlank(r[i]) ==> r[i] == ' ' && !IsBlank(r[i + 1])
  }

  /** The tokens other than spaces are non-empty and hold no blank. */
  ghost predicate SolidWords(ts: seq<Token>) {
    forall i :: 0 <= i < |ts| && ts[i].kind != Space ==>
      ts[i].IsValid() && forall j :: 0 <= j < |ts[i].text| ==> !IsBlank(ts[i].text[j])
  }

  /** Blanks inside the squeezed text: single spaces, never doubled, and
      none in front when a space was just written. */
  lemma {:induction false} SqueezeSpacing(ts: seq<Token>, wasSpace: bool)
    requires SolidWords(ts)
    ensures var r := Squeeze(ts, wasSpace);
      (forall i :: 0 <= i < |r| - 1 && IsBlank(r[i]) ==> r[i] == ' ' && !IsBlank(r[i + 1])) &&
      (forall i :: 0 <= i < |r| && IsBlank(r[i]) ==> r[i] == ' ') &&
      (wasSpace && |r| > 0 ==> !IsBlank(r[0])) &&
      (|ts| > 0 && ts[0].kind != Space ==> |r| > 0 && !IsBlank(r[0]))
  {
    if |ts| > 0 {
      var rest := Squeeze(ts[1..], ts[0].kind == Space);
      assert SolidWords(ts[1..]) by {
        forall i | 0 <= i < |ts[1..]| && ts[1..][i].kind != Space
          ensures ts[1..][i].IsValid()
        {
          assert ts[1..][i] == ts[i + 1];
        }
      }
      SqueezeSpacing(ts[1..], ts[0].kind == Space);
      if ts[0].kind != Space {
        assert ts[0].IsValid();
      }
    }
  }

  lemma {:induction false} TrimBlanksSpec(s: string)
    ensures var r := TrimBlanks(s); |r| > 0 ==> !IsBlank(r[|r| - 1])
    decreases |s|
  {
    if |s| > 0 && IsBlank(s[|s| - 1]) {
      TrimBlanksSpec(s[..|s| - 1]);
    }
  }

  /** Skipping the leading spaces keeps the words one word each. */
  lemma SkipSpacesSolid(ts: seq<Token>)
    requires SolidWords(ts)
    ensures SolidWords(SkipSpaces(ts))
  {
    var k := SkipSpaces(ts);
    forall i | 0 <= i < |k| && k[i].kind != Space
      ensures k[i].IsValid()
    {
      assert k[i] == ts[|ts| - |k| + i];
    }
  }

  /** Blanks that are single spaces stay so in a prefix. */
  lemma InnerBlanksPrefix(q: string, r: string)
    requires r <= q
    requires forall i :: 0 <= i < |q| - 1 && IsBlank(q[i]) ==> q[i] == ' ' && !IsBlank(q[i + 1])
    requires forall i :: 0 <= i < |q| && IsBlank(q[i]) ==> q[i] == ' '
    ensures forall i :: 0 <= i < |r| - 1 && IsBlank(r[i]) ==> r[i] == ' ' && !IsBlank(r[i + 1])
  {
    forall i | 0 <= i < |r| - 1 && IsBlank(r[i])
      ensures r[i] == ' ' && !IsBlank(r[i + 1])
    {
      assert r[i] == q[i] && r[i + 1] == q[i + 1];
    }
  }

  /** Cutting the trailing blanks of a text that starts with no blank and
      has single spaces inside leaves no blank at either end. */
  lemma TrimmedEnds(q: string)
    requires |q| > 0 ==> !IsBlank(q[0])
    ensures var r := TrimBlanks(q); |r| > 0 ==> !IsBlank(r[0]) && !IsBlank(r[|r| - 1])
  {
    TrimBlanksSpec(q);
    var r := TrimBlanks(q);
    if |r| > 0 {
      assert r[0] == q[0];
    }
  }

  /** NORMALIZE_WHITESPACE: once the words hold no blanks, the output has no
      leading or trailing blank and each run of spaces became one ' '. */
  lemma NormalizedSpacing(ts: seq<Token>)
    requires SolidWords(ts)
    ensures SingleSpaced(Serialize(ts, true))
  {
    var k := SkipSpaces(ts);
    SkipSpacesSolid(ts);
    SqueezeSpacing(k, false);
    var q := Squeeze(k, false);
    TrimmedEnds(q);
    InnerBlanksPrefix(q, TrimBlanks(q));
  }

  // ---------------------------------------------------------------------
  // Join keeps words whole

  /** A token that is one word unless it is a space, and whose part, if
      any, has one-word forms. */
  ghost predicate TokenOk(t: Token) {
    (t.kind != Space ==> OneWord(t.text)) && (t.part.Some? ==> WordForms(t.part.value))
  }

  ghost predicate AllOk(ts: seq<Token>) {
    forall i :: 0 <= i < |ts| ==> TokenOk(ts[i])
  }

  lemma AllOkSolid(ts: seq<Token>)
    requires AllOk(ts)
    ensures SolidWords(ts)
  {
    forall i | 0 <= i < |ts| && ts[i].kind != Space
      ensures ts[i].IsValid()
    {
      assert TokenOk(ts[i]);
    }
  }

  lemma OkConcat(a: seq<Token>, b: seq<Token>)
    requires AllOk(a) && AllOk(b)
    ensures AllOk(a + b)
  {
    forall i | 0 <= i < |a + b|
      ensures TokenOk((a + b)[i])
    {
      if i < |a| {
        assert (a + b)[i] == a[i];
      } else {
        assert (a + b)[i] == b[i - |a|];
      }
    }
  }

  lemma OkSlice(ts: seq<Token>, i: nat, j: nat)
    requires AllOk(ts) && i <= j <= |ts|
    ensures AllOk(ts[i..j])
  {
    forall k | 0 <= k < j - i
      ensures TokenOk(ts[i..j][k])
    {
      assert ts[i..j][k] == ts[i + k];
    }
  }

  lemma OkWithout(ts: seq<Token>, k: nat)
    requires AllOk(ts) && k < |ts|
    ensures AllOk(Without(ts, k))
  {
    var r := Without(ts, k);
    forall m | 0 <= m < |r|
      ensures TokenOk(r[m])
    {
      if m >= k {
        assert r[m] == ts[m + 1];
      }
    }
  }

  /** The space a token is turned into keeps its part. */
  lemma OkToSpace(ts: seq<Token>, k: nat)
    requires AllOk(ts) && k < |ts|
    ensures AllOk(ts[k := ts[k].(kind := Space, text := " ")])
  {
    assert TokenOk(ts[k]);
  }

  lemma OneWordDot(s: string)
    requires OneWord(s)
    ensures OneWord(s + ".")
  {
    forall j | 0 <= j < |s + "."|
      ensures !IsBlank((s + ".")[j])
    {
      if j < |s| {
        assert (s + ".")[j] == s[j];
      }
    }
  }

  lemma RewriteOk(t: Token, mode: bv32)
    requires t.part.Some? && TokenOk(t)
    ensures TokenOk(Rewrite(t, mode))
  {
  }

  lemma MergeDotOk(d: Draft, flags: bv32)
    requires d.Valid() && AllOk(d.toks)
    ensures AllOk(MergeDot(d, flags).toks)
  {
    var s := d.status;
    if s + 1 < |d.toks| && d.toks[s + 1].text == "." {
      var t := d.toks[s];
      if t.kind != Space {
        OneWordDot(t.text);
      }
      assert TokenOk(t.(text := t.text + "."));
      var t1 := if flags & (EXPAND_STATUS | SHRINK_STATUS) == 0 then d.toks[s := t.(text := t.text + ".")] else d.toks;
      assert AllOk(t1);
      if s + 2 < |t1| && t1[s + 2].kind != Space {
        OkToSpace(t1, s + 1);
      } else {
        OkWithout(t1, s + 1);
        assert t1[..s + 1] + t1[s + 2..] == Without(t1, s + 1);
      }
    }
  }

  lemma SpaceAfterCommaOk(d: Draft, flags: bv32)
    requires d.Valid() && AllOk(d.toks)
    ensures AllOk(SpaceAfterComma(d, flags).toks)
  {
    var s := d.status;
    if flags & NORMALIZE_WHITESPACE != 0 && s > 0 && d.toks[s - 1].text == "," {
      OkSlice(d.toks, 0, s);
      OkSlice(d.toks, s, |d.toks|);
      assert AllOk([SPACE_TOKEN]);
      OkConcat(d.toks[..s], [SPACE_TOKEN]);
      OkConcat(d.toks[..s] + [SPACE_TOKEN], d.toks[s..]);
    }
  }

  lemma CommaToSpaceOk(d: Draft, flags: bv32)
    requires d.Valid() && AllOk(d.toks)
    ensures AllOk(CommaToSpace(d, flags).toks)
  {
    if flags & NORMALIZE_PUNCT != 0 {
      var s := d.status;
      if s > 0 && d.toks[s - 1].text == "," {
        OkToSpace(d.toks, s - 1);
      }
      var t1 := if s > 0 && d.toks[s - 1].text == "," then d.toks[s - 1 := d.toks[s - 1].(kind := Space, text := " ")] else d.toks;
      var c := if s > 0 then s - 1 else s;
      if t1[c].kind == Space && c > 0 && t1[c - 1].text == "," {
        OkWithout(t1, c - 1);
        assert t1[..c - 1] + t1[c..] == Without(t1, c - 1);
      }
    }
  }

  lemma EditedOk(n: Name, flags: bv32)
    requires n.Valid() && n.statusPos != -1 && AllOk(n.tokens)
    ensures AllOk(Edited(n, flags).toks)
  {
    var f := Effective(flags);
    var d0 := Draft(n.tokens, n.statusPos);
    if f & (STATUS_MODE_MASK | NORMALIZE_PUNCT) != 0 {
      RewriteOk(d0.toks[d0.status], f & STATUS_MODE_MASK);
      var d1 := Draft(d0.toks[d0.status := Rewrite(d0.toks[d0.status], f & STATUS_MODE_MASK)], d0.status);
      MergeDotOk(d1, f);
      var d2 := MergeDot(d1, f);
      SpaceAfterCommaOk(d2, f);
      CommaToSpaceOk(SpaceAfterComma(d2, f), f);
    }
  }

  lemma UnlinkOk(toks: seq<Token>, i: nat)
    requires i < |toks| && AllOk(toks)
    ensures AllOk(Unlink(toks, i).toks)
  {
    var d := DropSpaceBefore(toks, i);
    if i > 0 && toks[i - 1].kind == Space {
      OkWithout(toks, i - 1);
    }
    var u := Unspaced(toks, i);
    if d.at < |d.toks| - 1 && d.toks[d.at + 1].kind == Space {
      OkWithout(d.toks, d.at + 1);
    }
    if u.merged {
      OkToSpace(u.toks, u.at);
    } else {
      OkWithout(u.toks, u.at);
    }
  }

  lemma {:induction false} RemoveStatusesOk(toks: seq<Token>, i: nat)
    requires AllOk(toks)
    ensures AllOk(RemoveStatuses(toks, i))
    decreases |toks| - i
  {
    if i < |toks| {
      if toks[i].part.None? {
        RemoveStatusesOk(toks, i + 1);
      } else {
        var u := Unlink(toks, i);
        UnlinkOk(toks, i);
        UnlinkProgress(toks, i);
        RemoveStatusesOk(u.toks, if u.merged then u.at + 1 else u.at);
      }
    }
  }

  lemma MoveStatusOk(d: Draft, flags: bv32)
    requires d.Valid() && AllOk(d.toks)
    ensures AllOk(MoveStatus(d, flags))
  {
    var saved := d.toks[d.status];
    var rest := Unlink(d.toks, d.status).toks;
    UnlinkOk(d.toks, d.status);
    assert AllOk([saved, SPACE_TOKEN]) && AllOk([saved]) && AllOk([SPACE_TOKEN, saved]);
    OkConcat([saved, SPACE_TOKEN], rest);
    OkConcat([saved], rest);
    OkConcat(rest, [SPACE_TOKEN, saved]);
    OkConcat(rest, [saved]);
  }

  /** Whatever the flags, Join writes out tokens that stay one word each
      when the Name's tokens and parts do. */
  lemma JoinTokensOk(n: Name, flags: bv32)
    requires n.Valid() && AllOk(n.tokens)
    ensures SolidWords(JoinTokens(n, flags))
  {
    if n.statusPos != -1 {
      var f := Effective(flags);
      EditedOk(n, flags);
      var d := Edited(n, flags);
      RemoveStatusesOk(d.toks, 0);
      MoveStatusOk(d, f);
      AllOkSolid(RemoveStatuses(d.toks, 0));
      AllOkSolid(MoveStatus(d, f));
      AllOkSolid(d.toks);
    } else {
      AllOkSolid(n.tokens);
    }
  }

  /** The tokens of a constructed Name stay one word each when the forms of
      the locale's parts do: the tokenizer never puts a blank in a word. */
  lemma NameOfOk(s: string, l: Locale)
    requires OneWordForms(l)
    ensures AllOk(NameOf(s, l).tokens)
  {
    var ts0 := Tokenize(UpToNul(s));
    TokenizeSpec(UpToNul(s));
    var ts := NameOf(s, l).tokens;
    forall i | 0 <= i < |ts|
      ensures TokenOk(ts[i])
    {
      var t := ts0[i];
      assert ts[i] == Mark(t, l);
      assert t.IsValid() && OfClass(t) && t.part.None?;
      if t.kind != Space {
        forall j | 0 <= j < |t.text|
          ensures !IsBlank(t.text[j])
        {
          assert ClassOf(t.text[j]) == t.kind;
        }
      }
      if ts[i].part.Some? {
        assert LowerString(t.text) in l.statusPartByAny;
      }
    }
  }

  /** NORMALIZE_WHITESPACE on a Name built in a locale whose forms are one
      word each: no blank at either end of the output and single spaces
      between its words, whatever the other flags. */
  lemma NameSpacing(s: string, l: Locale, flags: bv32)
    requires OneWordForms(l) && flags & NORMALIZE_WHITESPACE != 0
    ensures NameOf(s, l).Valid() && SingleSpaced(JoinSpec(NameOf(s, l), flags))
  {
    NameOfValid(s, l);
    NameOfOk(s, l);
    JoinTokensOk(NameOf(s, l), flags);
    NormalizedSpacing(JoinTokens(NameOf(s, l), flags));
  }
}
