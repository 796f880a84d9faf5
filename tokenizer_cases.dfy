/** The name-formatting cases of tests/tokenizer_test.cc, stated for the
    ru_RU locale: the tokens and status each input gets, and what Join
    gives under the flags the test uses. */
module TokenizerCases {
  import opened Wrappers
  import opened Unicode
  import opened Locale
  import opened RuLocale
  import opened Names

  /** The part of "улица"/"ул" and of "шоссе"/"ш" in ru_RU. */
  const ULITSA: StatusPart := StatusPart(1, "улица", "улица", "ул.", 0)
  const SHOSSE: StatusPart := StatusPart(5, "шоссе", "шоссе", "ш.", 0)

  /** What a locale answers for the lower-cased token texts of the cases. */
  ghost predicate RuLike(l: Locale) {
    FindStatus(l, "улица") == Some(ULITSA) && FindStatus(l, "ул") == Some(ULITSA) &&
    FindStatus(l, "шоссе") == Some(SHOSSE) &&
    FindStatus(l, "зелёная") == None && FindStatus(l, ",") == None && FindStatus(l, ".") == None &&
    FindStatus(l, " ") == None && FindStatus(l, "  ") == None && FindStatus(l, "\t") == None &&
    FindStatus(l, "ленина") == None && FindStatus(l, "1-я") == None && FindStatus(l, "доватора") == None &&
    FindStatus(l, "широкое") == None && FindStatus(l, "штуковина") == None
  }

  lemma ShosseEntry()
    ensures "шоссе" in ENTRIES[4].variants && MakePart(5, RowOf(ENTRIES[4])) == SHOSSE
  {
    var e := ENTRIES[4];
    assert e == Entry("шоссе", None, Some("ш."), ["шоссе", "ш"], 0);
    assert e.variants[0] == "шоссе";
    var d := RowOf(e);
    assert d.full == Some("шоссе") && d.canonical == None && d.abbrev == Some("ш.") && d.flags == 0;
  }

  /** No entry of ru_RU lists the other token texts of the cases. */
  lemma OtherWordsA()
    ensures DeclaringRow("зелёная") == -1 && DeclaringRow(",") == -1 && DeclaringRow(".") == -1
  {
  }

  lemma OtherWordsB()
    ensures DeclaringRow(" ") == -1 && DeclaringRow("  ") == -1 && DeclaringRow("\t") == -1
  {
  }

  lemma OtherWordsC()
    ensures DeclaringRow("ленина") == -1 && DeclaringRow("1-я") == -1 && DeclaringRow("доватора") == -1
  {
  }

  lemma OtherWordsD()
    ensures DeclaringRow("широкое") == -1 && DeclaringRow("штуковина") == -1
  {
  }

  /** ru_RU is such a locale. */
  lemma RuIsRuLike(l: Locale)
    requires RuLocaleOf("ru_RU") == Success(l)
    ensures RuLike(l)
  {
    StreetEntry();
    FindsEntry(0, "улица", ULITSA);
    FindsEntry(0, "ул", ULITSA);
    ShosseEntry();
    FindsEntry(4, "шоссе", SHOSSE);
    OtherWordsA();
    OtherWordsB();
    OtherWordsC();
    OtherWordsD();
    NotAStatus("зелёная");
    NotAStatus(",");
    NotAStatus(".");
    NotAStatus(" ");
    NotAStatus("  ");
    NotAStatus("\t");
    NotAStatus("ленина");
    NotAStatus("1-я");
    NotAStatus("доватора");
    NotAStatus("широкое");
    NotAStatus("штуковина");
  }

  /** Any text in ru_RU, with NORMALIZE_WHITESPACE among the flags: Join
      writes its words with single spaces between them and no blank at
      either end. */
  lemma RuNormalizedSpacing(s: string, flags: bv32)
    requires flags & NORMALIZE_WHITESPACE != 0
    ensures RuLocaleOf("ru_RU").Success? && NameOf(s, RuLocaleOf("ru_RU").value).Valid()
    ensures SingleSpaced(JoinSpec(NameOf(s, RuLocaleOf("ru_RU").value), flags))
  {
    RuOneWordForms();
    NameSpacing(s, RuLocaleOf("ru_RU").value, flags);
  }

  /** WellSplit checked token by token from index i on, in a form that
      unfolds on a literal sequence. */
  predicate ClassRun(s: string, k: TokenType, i: nat)
    decreases |s| - i
  {
    i >= |s| || (ClassOf(s[i]) == k && ClassRun(s, k, i + 1))
  }

  predicate Alternates(ts: seq<Token>, i: nat)
    decreases |ts| - i
  {
    i >= |ts| ||
    (ts[i].IsValid() && ts[i].part.None? && ClassRun(ts[i].text, ts[i].kind, 0) &&
     (i + 1 < |ts| ==> ts[i + 1].kind != ts[i].kind) && Alternates(ts, i + 1))
  }

  lemma {:induction false} ClassRunOfClass(s: string, k: TokenType, i: nat)
    requires ClassRun(s, k, i)
    ensures forall j :: i <= j < |s| ==> ClassOf(s[j]) == k
    decreases |s| - i
  {
    if i < |s| {
      ClassRunOfClass(s, k, i + 1);
    }
  }

  lemma {:induction false} AlternatesFrom(ts: seq<Token>, i: nat)
    requires Alternates(ts, i)
    ensures forall j :: i <= j < |ts| ==> ts[j].IsValid() && ts[j].part.None? && OfClass(ts[j])
    ensures forall j :: i < j < |ts| ==> ts[j - 1].kind != ts[j].kind
    decreases |ts| - i
  {
    if i < |ts| {
      AlternatesFrom(ts, i + 1);
      ClassRunOfClass(ts[i].text, ts[i].kind, 0);
    }
  }

  /** A blank at the end is trimmed. */
  lemma TrimOne(s: string, c: char)
    requires IsBlank(c)
    ensures TrimBlanks(s + [c]) == TrimBlanks(s)
  {
    assert (s + [c])[..|s|] == s;
  }

  /** A text that does not end in a blank is left as it is. */
  lemma TrimNone(s: string)
    requires |s| > 0 && !IsBlank(s[|s| - 1])
    ensures TrimBlanks(s) == s
  {
  }

  /** A text without NUL is read whole. */
  lemma NoNul(s: string)
    requires forall j :: 0 <= j < |s| ==> s[j] != '\0'
    ensures UpToNul(s) == s
  {
  }

  /** No NUL from index i on, checked one character at a time. */
  predicate NulFreeFrom(s: string, i: nat)
    decreases |s| - i
  {
    i >= |s| || (s[i] != '\0' && NulFreeFrom(s, i + 1))
  }

  lemma {:induction false} NulFreeAll(s: string, i: nat)
    requires NulFreeFrom(s, i)
    ensures forall j :: i <= j < |s| ==> s[j] != '\0'
    decreases |s| - i
  {
    if i < |s| {
      NulFreeAll(s, i + 1);
    }
  }

  /** Join() of a text read whole gives it back. */
  lemma WholeText(s: string, l: Locale)
    requires UpToNul(s) == s
    ensures NameOf(s, l).Valid() && JoinSpec(NameOf(s, l), 0) == s
  {
    JoinRoundTrip(s, l);
  }

  /** The name a text gets, from its tokens, their marking and the choice. */
  lemma NameFrom(s: string, l: Locale, ts0: seq<Token>, ts: seq<Token>, k: int)
    requires Tokenize(UpToNul(s)) == ts0 && Marked(ts0, l) == ts && Best(ts).pos == k
    ensures NameOf(s, l) == Name(ts, k)
  {
  }

  /** JoinTokens of a name with a status, from its edited draft and its
      effective flags. */
  lemma JoinTokensOf(n: Name, flags: bv32, d: Draft, f: bv32)
    requires n.Valid() && n.statusPos != -1 && Edited(n, flags) == d && Effective(flags) == f
    ensures JoinTokens(n, flags) ==
      if f & REMOVE_ALL_STATUSES != 0 then RemoveStatuses(d.toks, 0)
      else if (d.status != 0 && f & STATUS_TO_LEFT != 0) || (d.status != |d.toks| - 1 && f & STATUS_TO_RIGHT != 0) then MoveStatus(d, f)
      else d.toks
  {
  }

  /** Unspaced from its two stages: the space before erased, then the
      space after. */
  lemma UnspacedSteps(toks: seq<Token>, i: nat, t1: seq<Token>, j: nat, before: bool, t2: seq<Token>, after: bool)
    requires i < |toks| && DropSpaceBefore(toks, i) == Unlinked(t1, j, before)
    requires after == (j < |t1| - 1 && t1[j + 1].kind == Space)
    requires if after then Without(t1, j + 1) == t2 else t2 == t1
    ensures Unspaced(toks, i) == Unlinked(t2, j, before && after)
  {
  }

  /** The first token with a part, when no later part has a lower priority,
      is the one chosen. */
  lemma BestFirst(ts: seq<Token>, k: nat)
    requires k < |ts| && ts[k].part.Some?
    requires forall j :: 0 <= j < k ==> ts[j].part.None?
    requires forall j :: k < j < |ts| && ts[j].part.Some? ==> ts[k].part.value.priority <= ts[j].part.value.priority
    ensures Best(ts).pos == k
  {
    BestSpec(ts);
  }


  lemma SplitIn0()
    ensures WellSplit([Token(Alpha, "Зелёная", None), Token(Punct, ",", None), Token(Alpha, "улица", None)])
  {
    assert ClassRun("улица", Alpha, 4);
    assert ClassRun("улица", Alpha, 3);
    assert ClassRun("улица", Alpha, 2);
    assert ClassRun("улица", Alpha, 1);
    assert ClassRun("улица", Alpha, 0);
    assert Alternates([Token(Alpha, "Зелёная", None), Token(Punct, ",", None), Token(Alpha, "улица", None)], 2);
    assert ClassRun(",", Punct, 0);
    assert Alternates([Token(Alpha, "Зелёная", None), Token(Punct, ",", None), Token(Alpha, "улица", None)], 1);
    assert ClassRun("Зелёная", Alpha, 6);
    assert ClassRun("Зелёная", Alpha, 5);
    assert ClassRun("Зелёная", Alpha, 4);
    assert ClassRun("Зелёная", Alpha, 3);
    assert ClassRun("Зелёная", Alpha, 2);
    assert ClassRun("Зелёная", Alpha, 1);
    assert ClassRun("Зелёная", Alpha, 0);
    assert Alternates([Token(Alpha, "Зелёная", None), Token(Punct, ",", None), Token(Alpha, "улица", None)], 0);
    AlternatesFrom([Token(Alpha, "Зелёная", None), Token(Punct, ",", None), Token(Alpha, "улица", None)], 0);
  }

  lemma TextsIn0Of2()
    ensures Texts([Token(Alpha, "улица", None)]) == "улица"
  {
    assert Texts([Token(Alpha, "улица", None)]) == "улица";
  }

  lemma TextsIn0Of1()
    ensures Texts([Token(Punct, ",", None), Token(Alpha, "улица", None)]) == "," + "улица"
  {
    TextsIn0Of2();
    assert [Token(Punct, ",", None), Token(Alpha, "улица", None)][1..] == [Token(Alpha, "улица", None)];
  }

  lemma TextsIn0Of0()
    ensures Texts([Token(Alpha, "Зелёная", None), Token(Punct, ",", None), Token(Alpha, "улица", None)]) == "Зелёная" + "," + "улица"
  {
    TextsIn0Of1();
    assert [Token(Alpha, "Зелёная", None), Token(Punct, ",", None), Token(Alpha, "улица", None)][1..] == [Token(Punct, ",", None), Token(Alpha, "улица", None)];
  }

  lemma TextsIn0()
    ensures Texts([Token(Alpha, "Зелёная", None), Token(Punct, ",", None), Token(Alpha, "улица", None)]) == "Зелёная,улица"
  {
    TextsIn0Of0();
    assert "Зелёная" + "," == "Зелёная,";
    assert "Зелёная," + "улица" == "Зелёная,улица";
  }

  /** The tokens of "Зелёная,улица". */
  lemma TokensIn0()
    ensures Tokenize(UpToNul("Зелёная,улица")) == [Token(Alpha, "Зелёная", None), Token(Punct, ",", None), Token(Alpha, "улица", None)]
  {
    NoNul("Зелёная,улица");
    SplitIn0();
    TextsIn0();
    TokenizeUnique([Token(Alpha, "Зелёная", None), Token(Punct, ",", None), Token(Alpha, "улица", None)], "Зелёная,улица");
  }

  lemma MarkedIn0(l: Locale)
    requires FindStatus(l, "зелёная") == None && FindStatus(l, ",") == None && FindStatus(l, "улица") == Some(ULITSA)
    ensures Marked([Token(Alpha, "Зелёная", None), Token(Punct, ",", None), Token(Alpha, "улица", None)], l) == [Token(Alpha, "Зелёная", None), Token(Punct, ",", None), Token(Alpha, "улица", Some(ULITSA))]
    ensures Best([Token(Alpha, "Зелёная", None), Token(Punct, ",", None), Token(Alpha, "улица", Some(ULITSA))]).pos == 2
  {
    assert LowerString("Зелёная") == "зелёная" && LowerString(",") == "," && LowerString("улица") == "улица";
    BestFirst([Token(Alpha, "Зелёная", None), Token(Punct, ",", None), Token(Alpha, "улица", Some(ULITSA))], 2);
  }

  /** The Name of "Зелёная,улица": its tokens, the parts found, the status chosen. */
  lemma NameIn0(l: Locale)
    requires FindStatus(l, "зелёная") == None && FindStatus(l, ",") == None && FindStatus(l, "улица") == Some(ULITSA)
    ensures NameOf("Зелёная,улица", l) == Name([Token(Alpha, "Зелёная", None), Token(Punct, ",", None), Token(Alpha, "улица", Some(ULITSA))], 2)
  {
    TokensIn0();
    MarkedIn0(l);
    NameFrom("Зелёная,улица", l, [Token(Alpha, "Зелёная", None), Token(Punct, ",", None), Token(Alpha, "улица", None)], [Token(Alpha, "Зелёная", None), Token(Punct, ",", None), Token(Alpha, "улица", Some(ULITSA))], 2);
  }

  lemma SplitIn1()
    ensures WellSplit([Token(Alpha, "Зелёная", None), Token(Punct, ",", None), Token(Space, " ", None), Token(Alpha, "улица", None)])
  {
    assert ClassRun("улица", Alpha, 4);
    assert ClassRun("улица", Alpha, 3);
    assert ClassRun("улица", Alpha, 2);
    assert ClassRun("улица", Alpha, 1);
    assert ClassRun("улица", Alpha, 0);
    assert Alternates([Token(Alpha, "Зелёная", None), Token(Punct, ",", None), Token(Space, " ", None), Token(Alpha, "улица", None)], 3);
    assert ClassRun(" ", Space, 0);
    assert Alternates([Token(Alpha, "Зелёная", None), Token(Punct, ",", None), Token(Space, " ", None), Token(Alpha, "улица", None)], 2);
    assert ClassRun(",", Punct, 0);
    assert Alternates([Token(Alpha, "Зелёная", None), Token(Punct, ",", None), Token(Space, " ", None), Token(Alpha, "улица", None)], 1);
    assert ClassRun("Зелёная", Alpha, 6);
    assert ClassRun("Зелёная", Alpha, 5);
    assert ClassRun("Зелёная", Alpha, 4);
    assert ClassRun("Зелёная", Alpha, 3);
    assert ClassRun("Зелёная", Alpha, 2);
    assert ClassRun("Зелёная", Alpha, 1);
    assert ClassRun("Зелёная", Alpha, 0);
    assert Alternates([Token(Alpha, "Зелёная", None), Token(Punct, ",", None), Token(Space, " ", None), Token(Alpha, "улица", None)], 0);
    AlternatesFrom([Token(Alpha, "Зелёная", None), Token(Punct, ",", None), Token(Space, " ", None), Token(Alpha, "улица", None)], 0);
  }

  lemma TextsIn1Of2()
    ensures Texts([Token(Space, " ", None), Token(Alpha, "улица", None)]) == " " + "улица"
  {
    TextsIn0Of2();
    assert [Token(Space, " ", None), Token(Alpha, "улица", None)][1..] == [Token(Alpha, "улица", None)];
  }

  lemma TextsIn1Of1()
    ensures Texts([Token(Punct, ",", None), Token(Space, " ", None), Token(Alpha, "улица", None)]) == "," + " " + "улица"
  {
    TextsIn1Of2();
    assert [Token(Punct, ",", None), Token(Space, " ", None), Token(Alpha, "улица", None)][1..] == [Token(Space, " ", None), Token(Alpha, "улица", None)];
  }

  lemma TextsIn1Of0()
    ensures Texts([Token(Alpha, "Зелёная", None), Token(Punct, ",", None), Token(Space, " ", None), Token(Alpha, "улица", None)]) == "Зелёная" + "," + " " + "улица"
  {
    TextsIn1Of1();
    assert [Token(Alpha, "Зелёная", None), Token(Punct, ",", None), Token(Space, " ", None), Token(Alpha, "улица", None)][1..] == [Token(Punct, ",", None), Token(Space, " ", None), Token(Alpha, "улица", None)];
  }

  lemma TextsIn1()
    ensures Texts([Token(Alpha, "Зелёная", None), Token(Punct, ",", None), Token(Space, " ", None), Token(Alpha, "улица", None)]) == "Зелёная, улица"
  {
    TextsIn1Of0();
    assert "Зелёная" + "," == "Зелёная,";
    assert "Зелёная," + " " == "Зелёная, ";
    assert "Зелёная, " + "улица" == "Зелёная, улица";
  }

  /** The tokens of "Зелёная, улица". */
  lemma TokensIn1()
    ensures Tokenize(UpToNul("Зелёная, улица")) == [Token(Alpha, "Зелёная", None), Token(Punct, ",", None), Token(Space, " ", None), Token(Alpha, "улица", None)]
  {
    NoNul("Зелёная, улица");
    SplitIn1();
    TextsIn1();
    TokenizeUnique([Token(Alpha, "Зелёная", None), Token(Punct, ",", None), Token(Space, " ", None), Token(Alpha, "улица", None)], "Зелёная, улица");
  }

  lemma MarkedIn1(l: Locale)
    requires FindStatus(l, "зелёная") == None && FindStatus(l, ",") == None && FindStatus(l, " ") == None && FindStatus(l, "улица") == Some(ULITSA)
    ensures Marked([Token(Alpha, "Зелёная", None), Token(Punct, ",", None), Token(Space, " ", None), Token(Alpha, "улица", None)], l) == [Token(Alpha, "Зелёная", None), Token(Punct, ",", None), Token(Space, " ", None), Token(Alpha, "улица", Some(ULITSA))]
    ensures Best([Token(Alpha, "Зелёная", None), Token(Punct, ",", None), Token(Space, " ", None), Token(Alpha, "улица", Some(ULITSA))]).pos == 3
  {
    assert LowerString("Зелёная") == "зелёная" && LowerString(",") == "," && LowerString(" ") == " " && LowerString("улица") == "улица";
    BestFirst([Token(Alpha, "Зелёная", None), Token(Punct, ",", None), Token(Space, " ", None), Token(Alpha, "улица", Some(ULITSA))], 3);
  }

  /** The Name of "Зелёная, улица": its tokens, the parts found, the status chosen. */
  lemma NameIn1(l: Locale)
    requires FindStatus(l, "зелёная") == None && FindStatus(l, ",") == None && FindStatus(l, " ") == None && FindStatus(l, "улица") == Some(ULITSA)
    ensures NameOf("Зелёная, улица", l) == Name([Token(Alpha, "Зелёная", None), Token(Punct, ",", None), Token(Space, " ", None), Token(Alpha, "улица", Some(ULITSA))], 3)
  {
    TokensIn1();
    MarkedIn1(l);
    NameFrom("Зелёная, улица", l, [Token(Alpha, "Зелёная", None), Token(Punct, ",", None), Token(Space, " ", None), Token(Alpha, "улица", None)], [Token(Alpha, "Зелёная", None), Token(Punct, ",", None), Token(Space, " ", None), Token(Alpha, "улица", Some(ULITSA))], 3);
  }

  lemma SplitIn2()
    ensures WellSplit([Token(Alpha, "Зелёная", None), Token(Space, "  ", None), Token(Punct, ",", None), Token(Alpha, "улица", None)])
  {
    assert ClassRun("улица", Alpha, 4);
    assert ClassRun("улица", Alpha, 3);
    assert ClassRun("улица", Alpha, 2);
    assert ClassRun("улица", Alpha, 1);
    assert ClassRun("улица", Alpha, 0);
    assert Alternates([Token(Alpha, "Зелёная", None), Token(Space, "  ", None), Token(Punct, ",", None), Token(Alpha, "улица", None)], 3);
    assert ClassRun(",", Punct, 0);
    assert Alternates([Token(Alpha, "Зелёная", None), Token(Space, "  ", None), Token(Punct, ",", None), Token(Alpha, "улица", None)], 2);
    assert ClassRun("  ", Space, 1);
    assert ClassRun("  ", Space, 0);
    assert Alternates([Token(Alpha, "Зелёная", None), Token(Space, "  ", None), Token(Punct, ",", None), Token(Alpha, "улица", None)], 1);
    assert ClassRun("Зелёная", Alpha, 6);
    assert ClassRun("Зелёная", Alpha, 5);
    assert ClassRun("Зелёная", Alpha, 4);
    assert ClassRun("Зелёная", Alpha, 3);
    assert ClassRun("Зелёная", Alpha, 2);
    assert ClassRun("Зелёная", Alpha, 1);
    assert ClassRun("Зелёная", Alpha, 0);
    assert Alternates([Token(Alpha, "Зелёная", None), Token(Space, "  ", None), Token(Punct, ",", None), Token(Alpha, "улица", None)], 0);
    AlternatesFrom([Token(Alpha, "Зелёная", None), Token(Space, "  ", None), Token(Punct, ",", None), Token(Alpha, "улица", None)], 0);
  }

  lemma TextsIn2Of1()
    ensures Texts([Token(Space, "  ", None), Token(Punct, ",", None), Token(Alpha, "улица", None)]) == "  " + "," + "улица"
  {
    TextsIn0Of1();
    assert [Token(Space, "  ", None), Token(Punct, ",", None), Token(Alpha, "улица", None)][1..] == [Token(Punct, ",", None), Token(Alpha, "улица", None)];
  }

  lemma TextsIn2Of0()
    ensures Texts([Token(Alpha, "Зелёная", None), Token(Space, "  ", None), Token(Punct, ",", None), Token(Alpha, "улица", None)]) == "Зелёная" + "  " + "," + "улица"
  {
    TextsIn2Of1();
    assert [Token(Alpha, "Зелёная", None), Token(Space, "  ", None), Token(Punct, ",", None), Token(Alpha, "улица", None)][1..] == [Token(Space, "  ", None), Token(Punct, ",", None), Token(Alpha, "улица", None)];
  }

  lemma TextsIn2()
    ensures Texts([Token(Alpha, "Зелёная", None), Token(Space, "  ", None), Token(Punct, ",", None), Token(Alpha, "улица", None)]) == "Зелёная  ,улица"
  {
    TextsIn2Of0();
    assert "Зелёная" + "  " == "Зелёная  ";
    assert "Зелёная  " + "," == "Зелёная  ,";
    assert "Зелёная  ," + "улица" == "Зелёная  ,улица";
  }

  /** The tokens of "Зелёная  ,улица". */
  lemma TokensIn2()
    ensures Tokenize(UpToNul("Зелёная  ,улица")) == [Token(Alpha, "Зелёная", None), Token(Space, "  ", None), Token(Punct, ",", None), Token(Alpha, "улица", None)]
  {
    NoNul("Зелёная  ,улица");
    SplitIn2();
    TextsIn2();
    TokenizeUnique([Token(Alpha, "Зелёная", None), Token(Space, "  ", None), Token(Punct, ",", None), Token(Alpha, "улица", None)], "Зелёная  ,улица");
  }

  lemma MarkedIn2(l: Locale)
    requires FindStatus(l, "зелёная") == None && FindStatus(l, "  ") == None && FindStatus(l, ",") == None && FindStatus(l, "улица") == Some(ULITSA)
    ensures Marked([Token(Alpha, "Зелёная", None), Token(Space, "  ", None), Token(Punct, ",", None), Token(Alpha, "улица", None)], l) == [Token(Alpha, "Зелёная", None), Token(Space, "  ", None), Token(Punct, ",", None), Token(Alpha, "улица", Some(ULITSA))]
    ensures Best([Token(Alpha, "Зелёная", None), Token(Space, "  ", None), Token(Punct, ",", None), Token(Alpha, "улица", Some(ULITSA))]).pos == 3
  {
    assert LowerString("Зелёная") == "зелёная" && LowerString("  ") == "  " && LowerString(",") == "," && LowerString("улица") == "улица";
    BestFirst([Token(Alpha, "Зелёная", None), Token(Space, "  ", None), Token(Punct, ",", None), Token(Alpha, "улица", Some(ULITSA))], 3);
  }

  /** The Name of "Зелёная  ,улица": its tokens, the parts found, the status chosen. */
  lemma NameIn2(l: Locale)
    requires FindStatus(l, "зелёная") == None && FindStatus(l, "  ") == None && FindStatus(l, ",") == None && FindStatus(l, "улица") == Some(ULITSA)
    ensures NameOf("Зелёная  ,улица", l) == Name([Token(Alpha, "Зелёная", None), Token(Space, "  ", None), Token(Punct, ",", None), Token(Alpha, "улица", Some(ULITSA))], 3)
  {
    TokensIn2();
    MarkedIn2(l);
    NameFrom("Зелёная  ,улица", l, [Token(Alpha, "Зелёная", None), Token(Space, "  ", None), Token(Punct, ",", None), Token(Alpha, "улица", None)], [Token(Alpha, "Зелёная", None), Token(Space, "  ", None), Token(Punct, ",", None), Token(Alpha, "улица", Some(ULITSA))], 3);
  }

  lemma SplitIn3()
    ensures WellSplit([Token(Alpha, "ул", None), Token(Punct, ".", None), Token(Space, " ", None), Token(Alpha, "Ленина", None)])
  {
    assert ClassRun("Ленина", Alpha, 5);
    assert ClassRun("Ленина", Alpha, 4);
    assert ClassRun("Ленина", Alpha, 3);
    assert ClassRun("Ленина", Alpha, 2);
    assert ClassRun("Ленина", Alpha, 1);
    assert ClassRun("Ленина", Alpha, 0);
    assert Alternates([Token(Alpha, "ул", None), Token(Punct, ".", None), Token(Space, " ", None), Token(Alpha, "Ленина", None)], 3);
    assert ClassRun(" ", Space, 0);
    assert Alternates([Token(Alpha, "ул", None), Token(Punct, ".", None), Token(Space, " ", None), Token(Alpha, "Ленина", None)], 2);
    assert ClassRun(".", Punct, 0);
    assert Alternates([Token(Alpha, "ул", None), Token(Punct, ".", None), Token(Space, " ", None), Token(Alpha, "Ленина", None)], 1);
    assert ClassRun("ул", Alpha, 1);
    assert ClassRun("ул", Alpha, 0);
    assert Alternates([Token(Alpha, "ул", None), Token(Punct, ".", None), Token(Space, " ", None), Token(Alpha, "Ленина", None)], 0);
    AlternatesFrom([Token(Alpha, "ул", None), Token(Punct, ".", None), Token(Space, " ", None), Token(Alpha, "Ленина", None)], 0);
  }

  lemma TextsIn3Of3()
    ensures Texts([Token(Alpha, "Ленина", None)]) == "Ленина"
  {
    assert Texts([Token(Alpha, "Ленина", None)]) == "Ленина";
  }

  lemma TextsIn3Of2()
    ensures Texts([Token(Space, " ", None), Token(Alpha, "Ленина", None)]) == " " + "Ленина"
  {
    TextsIn3Of3();
    assert [Token(Space, " ", None), Token(Alpha, "Ленина", None)][1..] == [Token(Alpha, "Ленина", None)];
  }

  lemma TextsIn3Of1()
    ensures Texts([Token(Punct, ".", None), Token(Space, " ", None), Token(Alpha, "Ленина", None)]) == "." + " " + "Ленина"
  {
    TextsIn3Of2();
    assert [Token(Punct, ".", None), Token(Space, " ", None), Token(Alpha, "Ленина", None)][1..] == [Token(Space, " ", None), Token(Alpha, "Ленина", None)];
  }

  lemma TextsIn3Of0()
    ensures Texts([Token(Alpha, "ул", None), Token(Punct, ".", None), Token(Space, " ", None), Token(Alpha, "Ленина", None)]) == "ул" + "." + " " + "Ленина"
  {
    TextsIn3Of1();
    assert [Token(Alpha, "ул", None), Token(Punct, ".", None), Token(Space, " ", None), Token(Alpha, "Ленина", None)][1..] == [Token(Punct, ".", None), Token(Space, " ", None), Token(Alpha, "Ленина", None)];
  }

  lemma TextsIn3()
    ensures Texts([Token(Alpha, "ул", None), Token(Punct, ".", None), Token(Space, " ", None), Token(Alpha, "Ленина", None)]) == "ул. Ленина"
  {
    TextsIn3Of0();
    assert "ул" + "." == "ул.";
    assert "ул." + " " == "ул. ";
    assert "ул. " + "Ленина" == "ул. Ленина";
  }

  /** The tokens of "ул. Ленина". */
  lemma TokensIn3()
    ensures Tokenize(UpToNul("ул. Ленина")) == [Token(Alpha, "ул", None), Token(Punct, ".", None), Token(Space, " ", None), Token(Alpha, "Ленина", None)]
  {
    NoNul("ул. Ленина");
    SplitIn3();
    TextsIn3();
    TokenizeUnique([Token(Alpha, "ул", None), Token(Punct, ".", None), Token(Space, " ", None), Token(Alpha, "Ленина", None)], "ул. Ленина");
  }

  lemma MarkedIn3(l: Locale)
    requires FindStatus(l, "ул") == Some(ULITSA) && FindStatus(l, ".") == None && FindStatus(l, " ") == None && FindStatus(l, "ленина") == None
    ensures Marked([Token(Alpha, "ул", None), Token(Punct, ".", None), Token(Space, " ", None), Token(Alpha, "Ленина", None)], l) == [Token(Alpha, "ул", Some(ULITSA)), Token(Punct, ".", None), Token(Space, " ", None), Token(Alpha, "Ленина", None)]
    ensures Best([Token(Alpha, "ул", Some(ULITSA)), Token(Punct, ".", None), Token(Space, " ", None), Token(Alpha, "Ленина", None)]).pos == 0
  {
    assert LowerString("ул") == "ул" && LowerString(".") == "." && LowerString(" ") == " " && LowerString("Ленина") == "ленина";
    BestFirst([Token(Alpha, "ул", Some(ULITSA)), Token(Punct, ".", None), Token(Space, " ", None), Token(Alpha, "Ленина", None)], 0);
  }

  /** The Name of "ул. Ленина": its tokens, the parts found, the status chosen. */
  lemma NameIn3(l: Locale)
    requires FindStatus(l, "ул") == Some(ULITSA) && FindStatus(l, ".") == None && FindStatus(l, " ") == None && FindStatus(l, "ленина") == None
    ensures NameOf("ул. Ленина", l) == Name([Token(Alpha, "ул", Some(ULITSA)), Token(Punct, ".", None), Token(Space, " ", None), Token(Alpha, "Ленина", None)], 0)
  {
    TokensIn3();
    MarkedIn3(l);
    NameFrom("ул. Ленина", l, [Token(Alpha, "ул", None), Token(Punct, ".", None), Token(Space, " ", None), Token(Alpha, "Ленина", None)], [Token(Alpha, "ул", Some(ULITSA)), Token(Punct, ".", None), Token(Space, " ", None), Token(Alpha, "Ленина", None)], 0);
  }

  lemma SplitIn4()
    ensures WellSplit([Token(Alpha, "ул", None), Token(Punct, ".", None), Token(Alpha, "Ленина", None)])
  {
    assert ClassRun("Ленина", Alpha, 5);
    assert ClassRun("Ленина", Alpha, 4);
    assert ClassRun("Ленина", Alpha, 3);
    assert ClassRun("Ленина", Alpha, 2);
    assert ClassRun("Ленина", Alpha, 1);
    assert ClassRun("Ленина", Alpha, 0);
    assert Alternates([Token(Alpha, "ул", None), Token(Punct, ".", None), Token(Alpha, "Ленина", None)], 2);
    assert ClassRun(".", Punct, 0);
    assert Alternates([Token(Alpha, "ул", None), Token(Punct, ".", None), Token(Alpha, "Ленина", None)], 1);
    assert ClassRun("ул", Alpha, 1);
    assert ClassRun("ул", Alpha, 0);
    assert Alternates([Token(Alpha, "ул", None), Token(Punct, ".", None), Token(Alpha, "Ленина", None)], 0);
    AlternatesFrom([Token(Alpha, "ул", None), Token(Punct, ".", None), Token(Alpha, "Ленина", None)], 0);
  }

  lemma TextsIn4Of1()
    ensures Texts([Token(Punct, ".", None), Token(Alpha, "Ленина", None)]) == "." + "Ленина"
  {
    TextsIn3Of3();
    assert [Token(Punct, ".", None), Token(Alpha, "Ленина", None)][1..] == [Token(Alpha, "Ленина", None)];
  }

  lemma TextsIn4Of0()
    ensures Texts([Token(Alpha, "ул", None), Token(Punct, ".", None), Token(Alpha, "Ленина", None)]) == "ул" + "." + "Ленина"
  {
    TextsIn4Of1();
    assert [Token(Alpha, "ул", None), Token(Punct, ".", None), Token(Alpha, "Ленина", None)][1..] == [Token(Punct, ".", None), Token(Alpha, "Ленина", None)];
  }

  lemma TextsIn4()
    ensures Texts([Token(Alpha, "ул", None), Token(Punct, ".", None), Token(Alpha, "Ленина", None)]) == "ул.Ленина"
  {
    TextsIn4Of0();
    assert "ул" + "." == "ул.";
    assert "ул." + "Ленина" == "ул.Ленина";
  }

  /** The tokens of "ул.Ленина". */
  lemma TokensIn4()
    ensures Tokenize(UpToNul("ул.Ленина")) == [Token(Alpha, "ул", None), Token(Punct, ".", None), Token(Alpha, "Ленина", None)]
  {
    NoNul("ул.Ленина");
    SplitIn4();
    TextsIn4();
    TokenizeUnique([Token(Alpha, "ул", None), Token(Punct, ".", None), Token(Alpha, "Ленина", None)], "ул.Ленина");
  }

  lemma MarkedIn4(l: Locale)
    requires FindStatus(l, "ул") == Some(ULITSA) && FindStatus(l, ".") == None && FindStatus(l, "ленина") == None
    ensures Marked([Token(Alpha, "ул", None), Token(Punct, ".", None), Token(Alpha, "Ленина", None)], l) == [Token(Alpha, "ул", Some(ULITSA)), Token(Punct, ".", None), Token(Alpha, "Ленина", None)]
    ensures Best([Token(Alpha, "ул", Some(ULITSA)), Token(Punct, ".", None), Token(Alpha, "Ленина", None)]).pos == 0
  {
    assert LowerString("ул") == "ул" && LowerString(".") == "." && LowerString("Ленина") == "ленина";
    BestFirst([Token(Alpha, "ул", Some(ULITSA)), Token(Punct, ".", None), Token(Alpha, "Ленина", None)], 0);
  }

  /** The Name of "ул.Ленина": its tokens, the parts found, the status chosen. */
  lemma NameIn4(l: Locale)
    requires FindStatus(l, "ул") == Some(ULITSA) && FindStatus(l, ".") == None && FindStatus(l, "ленина") == None
    ensures NameOf("ул.Ленина", l) == Name([Token(Alpha, "ул", Some(ULITSA)), Token(Punct, ".", None), Token(Alpha, "Ленина", None)], 0)
  {
    TokensIn4();
    MarkedIn4(l);
    NameFrom("ул.Ленина", l, [Token(Alpha, "ул", None), Token(Punct, ".", None), Token(Alpha, "Ленина", None)], [Token(Alpha, "ул", Some(ULITSA)), Token(Punct, ".", None), Token(Alpha, "Ленина", None)], 0);
  }

  lemma SplitIn5()
    ensures WellSplit([Token(Alpha, "Зелёная", None), Token(Space, " ", None), Token(Alpha, "ул", None), Token(Punct, ".", None)])
  {
    assert ClassRun(".", Punct, 0);
    assert Alternates([Token(Alpha, "Зелёная", None), Token(Space, " ", None), Token(Alpha, "ул", None), Token(Punct, ".", None)], 3);
    assert ClassRun("ул", Alpha, 1);
    assert ClassRun("ул", Alpha, 0);
    assert Alternates([Token(Alpha, "Зелёная", None), Token(Space, " ", None), Token(Alpha, "ул", None), Token(Punct, ".", None)], 2);
    assert ClassRun(" ", Space, 0);
    assert Alternates([Token(Alpha, "Зелёная", None), Token(Space, " ", None), Token(Alpha, "ул", None), Token(Punct, ".", None)], 1);
    assert ClassRun("Зелёная", Alpha, 6);
    assert ClassRun("Зелёная", Alpha, 5);
    assert ClassRun("Зелёная", Alpha, 4);
    assert ClassRun("Зелёная", Alpha, 3);
    assert ClassRun("Зелёная", Alpha, 2);
    assert ClassRun("Зелёная", Alpha, 1);
    assert ClassRun("Зелёная", Alpha, 0);
    assert Alternates([Token(Alpha, "Зелёная", None), Token(Space, " ", None), Token(Alpha, "ул", None), Token(Punct, ".", None)], 0);
    AlternatesFrom([Token(Alpha, "Зелёная", None), Token(Space, " ", None), Token(Alpha, "ул", None), Token(Punct, ".", None)], 0);
  }

  lemma TextsIn5Of3()
    ensures Texts([Token(Punct, ".", None)]) == "."
  {
    assert Texts([Token(Punct, ".", None)]) == ".";
  }

  lemma TextsIn5Of2()
    ensures Texts([Token(Alpha, "ул", None), Token(Punct, ".", None)]) == "ул" + "."
  {
    TextsIn5Of3();
    assert [Token(Alpha, "ул", None), Token(Punct, ".", None)][1..] == [Token(Punct, ".", None)];
  }

  lemma TextsIn5Of1()
    ensures Texts([Token(Space, " ", None), Token(Alpha, "ул", None), Token(Punct, ".", None)]) == " " + "ул" + "."
  {
    TextsIn5Of2();
    assert [Token(Space, " ", None), Token(Alpha, "ул", None), Token(Punct, ".", None)][1..] == [Token(Alpha, "ул", None), Token(Punct, ".", None)];
  }

  lemma TextsIn5Of0()
    ensures Texts([Token(Alpha, "Зелёная", None), Token(Space, " ", None), Token(Alpha, "ул", None), Token(Punct, ".", None)]) == "Зелёная" + " " + "ул" + "."
  {
    TextsIn5Of1();
    assert [Token(Alpha, "Зелёная", None), Token(Space, " ", None), Token(Alpha, "ул", None), Token(Punct, ".", None)][1..] == [Token(Space, " ", None), Token(Alpha, "ул", None), Token(Punct, ".", None)];
  }

  lemma TextsIn5()
    ensures Texts([Token(Alpha, "Зелёная", None), Token(Space, " ", None), Token(Alpha, "ул", None), Token(Punct, ".", None)]) == "Зелёная ул."
  {
    TextsIn5Of0();
    assert "Зелёная" + " " == "Зелёная ";
    assert "Зелёная " + "ул" == "Зелёная ул";
    assert "Зелёная ул" + "." == "Зелёная ул.";
  }

  /** The tokens of "Зелёная ул.". */
  lemma TokensIn5()
    ensures Tokenize(UpToNul("Зелёная ул.")) == [Token(Alpha, "Зелёная", None), Token(Space, " ", None), Token(Alpha, "ул", None), Token(Punct, ".", None)]
  {
    NoNul("Зелёная ул.");
    SplitIn5();
    TextsIn5();
    TokenizeUnique([Token(Alpha, "Зелёная", None), Token(Space, " ", None), Token(Alpha, "ул", None), Token(Punct, ".", None)], "Зелёная ул.");
  }

  lemma MarkedIn5(l: Locale)
    requires FindStatus(l, "зелёная") == None && FindStatus(l, " ") == None && FindStatus(l, "ул") == Some(ULITSA) && FindStatus(l, ".") == None
    ensures Marked([Token(Alpha, "Зелёная", None), Token(Space, " ", None), Token(Alpha, "ул", None), Token(Punct, ".", None)], l) == [Token(Alpha, "Зелёная", None), Token(Space, " ", None), Token(Alpha, "ул", Some(ULITSA)), Token(Punct, ".", None)]
    ensures Best([Token(Alpha, "Зелёная", None), Token(Space, " ", None), Token(Alpha, "ул", Some(ULITSA)), Token(Punct, ".", None)]).pos == 2
  {
    assert LowerString("Зелёная") == "зелёная" && LowerString(" ") == " " && LowerString("ул") == "ул" && LowerString(".") == ".";
    BestFirst([Token(Alpha, "Зелёная", None), Token(Space, " ", None), Token(Alpha, "ул", Some(ULITSA)), Token(Punct, ".", None)], 2);
  }

  /** The Name of "Зелёная ул.": its tokens, the parts found, the status chosen. */
  lemma NameIn5(l: Locale)
    requires FindStatus(l, "зелёная") == None && FindStatus(l, " ") == None && FindStatus(l, "ул") == Some(ULITSA) && FindStatus(l, ".") == None
    ensures NameOf("Зелёная ул.", l) == Name([Token(Alpha, "Зелёная", None), Token(Space, " ", None), Token(Alpha, "ул", Some(ULITSA)), Token(Punct, ".", None)], 2)
  {
    TokensIn5();
    MarkedIn5(l);
    NameFrom("Зелёная ул.", l, [Token(Alpha, "Зелёная", None), Token(Space, " ", None), Token(Alpha, "ул", None), Token(Punct, ".", None)], [Token(Alpha, "Зелёная", None), Token(Space, " ", None), Token(Alpha, "ул", Some(ULITSA)), Token(Punct, ".", None)], 2);
  }

  lemma SplitIn6()
    ensures WellSplit([Token(Alpha, "улица", None), Token(Space, " ", None), Token(Alpha, "Ленина", None)])
  {
    assert ClassRun("Ленина", Alpha, 5);
    assert ClassRun("Ленина", Alpha, 4);
    assert ClassRun("Ленина", Alpha, 3);
    assert ClassRun("Ленина", Alpha, 2);
    assert ClassRun("Ленина", Alpha, 1);
    assert ClassRun("Ленина", Alpha, 0);
    assert Alternates([Token(Alpha, "улица", None), Token(Space, " ", None), Token(Alpha, "Ленина", None)], 2);
    assert ClassRun(" ", Space, 0);
    assert Alternates([Token(Alpha, "улица", None), Token(Space, " ", None), Token(Alpha, "Ленина", None)], 1);
    assert ClassRun("улица", Alpha, 4);
    assert ClassRun("улица", Alpha, 3);
    assert ClassRun("улица", Alpha, 2);
    assert ClassRun("улица", Alpha, 1);
    assert ClassRun("улица", Alpha, 0);
    assert Alternates([Token(Alpha, "улица", None), Token(Space, " ", None), Token(Alpha, "Ленина", None)], 0);
    AlternatesFrom([Token(Alpha, "улица", None), Token(Space, " ", None), Token(Alpha, "Ленина", None)], 0);
  }

  lemma TextsIn6Of0()
    ensures Texts([Token(Alpha, "улица", None), Token(Space, " ", None), Token(Alpha, "Ленина", None)]) == "улица" + " " + "Ленина"
  {
    TextsIn3Of2();
    assert [Token(Alpha, "улица", None), Token(Space, " ", None), Token(Alpha, "Ленина", None)][1..] == [Token(Space, " ", None), Token(Alpha, "Ленина", None)];
  }

  lemma TextsIn6()
    ensures Texts([Token(Alpha, "улица", None), Token(Space, " ", None), Token(Alpha, "Ленина", None)]) == "улица Ленина"
  {
    TextsIn6Of0();
    assert "улица" + " " == "улица ";
    assert "улица " + "Ленина" == "улица Ленина";
  }

  /** The tokens of "улица Ленина". */
  lemma TokensIn6()
    ensures Tokenize(UpToNul("улица Ленина")) == [Token(Alpha, "улица", None), Token(Space, " ", None), Token(Alpha, "Ленина", None)]
  {
    NoNul("улица Ленина");
    SplitIn6();
    TextsIn6();
    TokenizeUnique([Token(Alpha, "улица", None), Token(Space, " ", None), Token(Alpha, "Ленина", None)], "улица Ленина");
  }

  lemma MarkedIn6(l: Locale)
    requires FindStatus(l, "улица") == Some(ULITSA) && FindStatus(l, " ") == None && FindStatus(l, "ленина") == None
    ensures Marked([Token(Alpha, "улица", None), Token(Space, " ", None), Token(Alpha, "Ленина", None)], l) == [Token(Alpha, "улица", Some(ULITSA)), Token(Space, " ", None), Token(Alpha, "Ленина", None)]
    ensures Best([Token(Alpha, "улица", Some(ULITSA)), Token(Space, " ", None), Token(Alpha, "Ленина", None)]).pos == 0
  {
    assert LowerString("улица") == "улица" && LowerString(" ") == " " && LowerString("Ленина") == "ленина";
    BestFirst([Token(Alpha, "улица", Some(ULITSA)), Token(Space, " ", None), Token(Alpha, "Ленина", None)], 0);
  }

  /** The Name of "улица Ленина": its tokens, the parts found, the status chosen. */
  lemma NameIn6(l: Locale)
    requires FindStatus(l, "улица") == Some(ULITSA) && FindStatus(l, " ") == None && FindStatus(l, "ленина") == None
    ensures NameOf("улица Ленина", l) == Name([Token(Alpha, "улица", Some(ULITSA)), Token(Space, " ", None), Token(Alpha, "Ленина", None)], 0)
  {
    TokensIn6();
    MarkedIn6(l);
    NameFrom("улица Ленина", l, [Token(Alpha, "улица", None), Token(Space, " ", None), Token(Alpha, "Ленина", None)], [Token(Alpha, "улица", Some(ULITSA)), Token(Space, " ", None), Token(Alpha, "Ленина", None)], 0);
  }

  lemma SplitIn7()
    ensures WellSplit([Token(Alpha, "1-я", None), Token(Space, " ", None), Token(Alpha, "улица", None), Token(Space, " ", None), Token(Alpha, "Доватора", None)])
  {
    assert ClassRun("Доватора", Alpha, 7);
    assert ClassRun("Доватора", Alpha, 6);
    assert ClassRun("Доватора", Alpha, 5);
    assert ClassRun("Доватора", Alpha, 4);
    assert ClassRun("Доватора", Alpha, 3);
    assert ClassRun("Доватора", Alpha, 2);
    assert ClassRun("Доватора", Alpha, 1);
    assert ClassRun("Доватора", Alpha, 0);
    assert Alternates([Token(Alpha, "1-я", None), Token(Space, " ", None), Token(Alpha, "улица", None), Token(Space, " ", None), Token(Alpha, "Доватора", None)], 4);
    assert ClassRun(" ", Space, 0);
    assert Alternates([Token(Alpha, "1-я", None), Token(Space, " ", None), Token(Alpha, "улица", None), Token(Space, " ", None), Token(Alpha, "Доватора", None)], 3);
    assert ClassRun("улица", Alpha, 4);
    assert ClassRun("улица", Alpha, 3);
    assert ClassRun("улица", Alpha, 2);
    assert ClassRun("улица", Alpha, 1);
    assert ClassRun("улица", Alpha, 0);
    assert Alternates([Token(Alpha, "1-я", None), Token(Space, " ", None), Token(Alpha, "улица", None), Token(Space, " ", None), Token(Alpha, "Доватора", None)], 2);
    assert ClassRun(" ", Space, 0);
    assert Alternates([Token(Alpha, "1-я", None), Token(Space, " ", None), Token(Alpha, "улица", None), Token(Space, " ", None), Token(Alpha, "Доватора", None)], 1);
    assert ClassRun("1-я", Alpha, 2);
    assert ClassRun("1-я", Alpha, 1);
    assert ClassRun("1-я", Alpha, 0);
    assert Alternates([Token(Alpha, "1-я", None), Token(Space, " ", None), Token(Alpha, "улица", None), Token(Space, " ", None), Token(Alpha, "Доватора", None)], 0);
    AlternatesFrom([Token(Alpha, "1-я", None), Token(Space, " ", None), Token(Alpha, "улица", None), Token(Space, " ", None), Token(Alpha, "Доватора", None)], 0);
  }

  lemma TextsIn7Of4()
    ensures Texts([Token(Alpha, "Доватора", None)]) == "Доватора"
  {
    assert Texts([Token(Alpha, "Доватора", None)]) == "Доватора";
  }

  lemma TextsIn7Of3()
    ensures Texts([Token(Space, " ", None), Token(Alpha, "Доватора", None)]) == " " + "Доватора"
  {
    TextsIn7Of4();
    assert [Token(Space, " ", None), Token(Alpha, "Доватора", None)][1..] == [Token(Alpha, "Доватора", None)];
  }

  lemma TextsIn7Of2()
    ensures Texts([Token(Alpha, "улица", None), Token(Space, " ", None), Token(Alpha, "Доватора", None)]) == "улица" + " " + "Доватора"
  {
    TextsIn7Of3();
    assert [Token(Alpha, "улица", None), Token(Space, " ", None), Token(Alpha, "Доватора", None)][1..] == [Token(Space, " ", None), Token(Alpha, "Доватора", None)];
  }

  lemma TextsIn7Of1()
    ensures Texts([Token(Space, " ", None), Token(Alpha, "улица", None), Token(Space, " ", None), Token(Alpha, "Доватора", None)]) == " " + "улица" + " " + "Доватора"
  {
    TextsIn7Of2();
    assert [Token(Space, " ", None), Token(Alpha, "улица", None), Token(Space, " ", None), Token(Alpha, "Доватора", None)][1..] == [Token(Alpha, "улица", None), Token(Space, " ", None), Token(Alpha, "Доватора", None)];
  }

  lemma TextsIn7Of0()
    ensures Texts([Token(Alpha, "1-я", None), Token(Space, " ", None), Token(Alpha, "улица", None), Token(Space, " ", None), Token(Alpha, "Доватора", None)]) == "1-я" + " " + "улица" + " " + "Доватора"
  {
    TextsIn7Of1();
    assert [Token(Alpha, "1-я", None), Token(Space, " ", None), Token(Alpha, "улица", None), Token(Space, " ", None), Token(Alpha, "Доватора", None)][1..] == [Token(Space, " ", None), Token(Alpha, "улица", None), Token(Space, " ", None), Token(Alpha, "Доватора", None)];
  }

  lemma TextsIn7()
    ensures Texts([Token(Alpha, "1-я", None), Token(Space, " ", None), Token(Alpha, "улица", None), Token(Space, " ", None), Token(Alpha, "Доватора", None)]) == "1-я улица Доватора"
  {
    TextsIn7Of0();
    assert "1-я" + " " == "1-я ";
    assert "1-я " + "улица" == "1-я улица";
    assert "1-я улица" + " " == "1-я улица ";
    assert "1-я улица " + "Доватора" == "1-я улица Доватора";
  }

  /** The tokens of "1-я улица Доватора". */
  lemma TokensIn7()
    ensures Tokenize(UpToNul("1-я улица Доватора")) == [Token(Alpha, "1-я", None), Token(Space, " ", None), Token(Alpha, "улица", None), Token(Space, " ", None), Token(Alpha, "Доватора", None)]
  {
    NoNul("1-я улица Доватора");
    SplitIn7();
    TextsIn7();
    TokenizeUnique([Token(Alpha, "1-я", None), Token(Space, " ", None), Token(Alpha, "улица", None), Token(Space, " ", None), Token(Alpha, "Доватора", None)], "1-я улица Доватора");
  }

  lemma MarkedIn7(l: Locale)
    requires FindStatus(l, "1-я") == None && FindStatus(l, " ") == None && FindStatus(l, "улица") == Some(ULITSA) && FindStatus(l, "доватора") == None
    ensures Marked([Token(Alpha, "1-я", None), Token(Space, " ", None), Token(Alpha, "улица", None), Token(Space, " ", None), Token(Alpha, "Доватора", None)], l) == [Token(Alpha, "1-я", None), Token(Space, " ", None), Token(Alpha, "улица", Some(ULITSA)), Token(Space, " ", None), Token(Alpha, "Доватора", None)]
    ensures Best([Token(Alpha, "1-я", None), Token(Space, " ", None), Token(Alpha, "улица", Some(ULITSA)), Token(Space, " ", None), Token(Alpha, "Доватора", None)]).pos == 2
  {
    assert LowerString("1-я") == "1-я" && LowerString(" ") == " " && LowerString("улица") == "улица" && LowerString("Доватора") == "доватора";
    BestFirst([Token(Alpha, "1-я", None), Token(Space, " ", None), Token(Alpha, "улица", Some(ULITSA)), Token(Space, " ", None), Token(Alpha, "Доватора", None)], 2);
  }

  /** The Name of "1-я улица Доватора": its tokens, the parts found, the status chosen. */
  lemma NameIn7(l: Locale)
    requires FindStatus(l, "1-я") == None && FindStatus(l, " ") == None && FindStatus(l, "улица") == Some(ULITSA) && FindStatus(l, "доватора") == None
    ensures NameOf("1-я улица Доватора", l) == Name([Token(Alpha, "1-я", None), Token(Space, " ", None), Token(Alpha, "улица", Some(ULITSA)), Token(Space, " ", None), Token(Alpha, "Доватора", None)], 2)
  {
    TokensIn7();
    MarkedIn7(l);
    NameFrom("1-я улица Доватора", l, [Token(Alpha, "1-я", None), Token(Space, " ", None), Token(Alpha, "улица", None), Token(Space, " ", None), Token(Alpha, "Доватора", None)], [Token(Alpha, "1-я", None), Token(Space, " ", None), Token(Alpha, "улица", Some(ULITSA)), Token(Space, " ", None), Token(Alpha, "Доватора", None)], 2);
  }

  lemma SplitIn8()
    ensures WellSplit([Token(Alpha, "улица", None)])
  {
    assert ClassRun("улица", Alpha, 4);
    assert ClassRun("улица", Alpha, 3);
    assert ClassRun("улица", Alpha, 2);
    assert ClassRun("улица", Alpha, 1);
    assert ClassRun("улица", Alpha, 0);
    assert Alternates([Token(Alpha, "улица", None)], 0);
    AlternatesFrom([Token(Alpha, "улица", None)], 0);
  }

  /** The tokens of "улица". */
  lemma TokensIn8()
    ensures Tokenize(UpToNul("улица")) == [Token(Alpha, "улица", None)]
  {
    NoNul("улица");
    SplitIn8();
    TextsIn0Of2();
    TokenizeUnique([Token(Alpha, "улица", None)], "улица");
  }

  lemma MarkedIn8(l: Locale)
    requires FindStatus(l, "улица") == Some(ULITSA)
    ensures Marked([Token(Alpha, "улица", None)], l) == [Token(Alpha, "улица", Some(ULITSA))]
    ensures Best([Token(Alpha, "улица", Some(ULITSA))]).pos == 0
  {
    assert LowerString("улица") == "улица";
    BestFirst([Token(Alpha, "улица", Some(ULITSA))], 0);
  }

  /** The Name of "улица": its tokens, the parts found, the status chosen. */
  lemma NameIn8(l: Locale)
    requires FindStatus(l, "улица") == Some(ULITSA)
    ensures NameOf("улица", l) == Name([Token(Alpha, "улица", Some(ULITSA))], 0)
  {
    TokensIn8();
    MarkedIn8(l);
    NameFrom("улица", l, [Token(Alpha, "улица", None)], [Token(Alpha, "улица", Some(ULITSA))], 0);
  }

  lemma SplitIn9()
    ensures WellSplit([Token(Alpha, "улица", None), Token(Space, " ", None), Token(Alpha, "Широкое", None), Token(Space, " ", None), Token(Alpha, "Шоссе", None)])
  {
    assert ClassRun("Шоссе", Alpha, 4);
    assert ClassRun("Шоссе", Alpha, 3);
    assert ClassRun("Шоссе", Alpha, 2);
    assert ClassRun("Шоссе", Alpha, 1);
    assert ClassRun("Шоссе", Alpha, 0);
    assert Alternates([Token(Alpha, "улица", None), Token(Space, " ", None), Token(Alpha, "Широкое", None), Token(Space, " ", None), Token(Alpha, "Шоссе", None)], 4);
    assert ClassRun(" ", Space, 0);
    assert Alternates([Token(Alpha, "улица", None), Token(Space, " ", None), Token(Alpha, "Широкое", None), Token(Space, " ", None), Token(Alpha, "Шоссе", None)], 3);
    assert ClassRun("Широкое", Alpha, 6);
    assert ClassRun("Широкое", Alpha, 5);
    assert ClassRun("Широкое", Alpha, 4);
    assert ClassRun("Широкое", Alpha, 3);
    assert ClassRun("Широкое", Alpha, 2);
    assert ClassRun("Широкое", Alpha, 1);
    assert ClassRun("Широкое", Alpha, 0);
    assert Alternates([Token(Alpha, "улица", None), Token(Space, " ", None), Token(Alpha, "Широкое", None), Token(Space, " ", None), Token(Alpha, "Шоссе", None)], 2);
    assert ClassRun(" ", Space, 0);
    assert Alternates([Token(Alpha, "улица", None), Token(Space, " ", None), Token(Alpha, "Широкое", None), Token(Space, " ", None), Token(Alpha, "Шоссе", None)], 1);
    assert ClassRun("улица", Alpha, 4);
    assert ClassRun("улица", Alpha, 3);
    assert ClassRun("улица", Alpha, 2);
    assert ClassRun("улица", Alpha, 1);
    assert ClassRun("улица", Alpha, 0);
    assert Alternates([Token(Alpha, "улица", None), Token(Space, " ", None), Token(Alpha, "Широкое", None), Token(Space, " ", None), Token(Alpha, "Шоссе", None)], 0);
    AlternatesFrom([Token(Alpha, "улица", None), Token(Space, " ", None), Token(Alpha, "Широкое", None), Token(Space, " ", None), Token(Alpha, "Шоссе", None)], 0);
  }

  lemma TextsIn9Of4()
    ensures Texts([Token(Alpha, "Шоссе", None)]) == "Шоссе"
  {
    assert Texts([Token(Alpha, "Шоссе", None)]) == "Шоссе";
  }

  lemma TextsIn9Of3()
    ensures Texts([Token(Space, " ", None), Token(Alpha, "Шоссе", None)]) == " " + "Шоссе"
  {
    TextsIn9Of4();
    assert [Token(Space, " ", None), Token(Alpha, "Шоссе", None)][1..] == [Token(Alpha, "Шоссе", None)];
  }

  lemma TextsIn9Of2()
    ensures Texts([Token(Alpha, "Широкое", None), Token(Space, " ", None), Token(Alpha, "Шоссе", None)]) == "Широкое" + " " + "Шоссе"
  {
    TextsIn9Of3();
    assert [Token(Alpha, "Широкое", None), Token(Space, " ", None), Token(Alpha, "Шоссе", None)][1..] == [Token(Space, " ", None), Token(Alpha, "Шоссе", None)];
  }

  lemma TextsIn9Of1()
    ensures Texts([Token(Space, " ", None), Token(Alpha, "Широкое", None), Token(Space, " ", None), Token(Alpha, "Шоссе", None)]) == " " + "Широкое" + " " + "Шоссе"
  {
    TextsIn9Of2();
    assert [Token(Space, " ", None), Token(Alpha, "Широкое", None), Token(Space, " ", None), Token(Alpha, "Шоссе", None)][1..] == [Token(Alpha, "Широкое", None), Token(Space, " ", None), Token(Alpha, "Шоссе", None)];
  }

  lemma TextsIn9Of0()
    ensures Texts([Token(Alpha, "улица", None), Token(Space, " ", None), Token(Alpha, "Широкое", None), Token(Space, " ", None), Token(Alpha, "Шоссе", None)]) == "улица" + " " + "Широкое" + " " + "Шоссе"
  {
    TextsIn9Of1();
    assert [Token(Alpha, "улица", None), Token(Space, " ", None), Token(Alpha, "Широкое", None), Token(Space, " ", None), Token(Alpha, "Шоссе", None)][1..] == [Token(Space, " ", None), Token(Alpha, "Широкое", None), Token(Space, " ", None), Token(Alpha, "Шоссе", None)];
  }

  lemma TextsIn9()
    ensures Texts([Token(Alpha, "улица", None), Token(Space, " ", None), Token(Alpha, "Широкое", None), Token(Space, " ", None), Token(Alpha, "Шоссе", None)]) == "улица Широкое Шоссе"
  {
    TextsIn9Of0();
    assert "улица" + " " == "улица ";
    assert "улица " + "Широкое" == "улица Широкое";
    assert "улица Широкое" + " " == "улица Широкое ";
    assert "улица Широкое " + "Шоссе" == "улица Широкое Шоссе";
  }

  /** The tokens of "улица Широкое Шоссе". */
  lemma TokensIn9()
    ensures Tokenize(UpToNul("улица Широкое Шоссе")) == [Token(Alpha, "улица", None), Token(Space, " ", None), Token(Alpha, "Широкое", None), Token(Space, " ", None), Token(Alpha, "Шоссе", None)]
  {
    NoNul("улица Широкое Шоссе");
    SplitIn9();
    TextsIn9();
    TokenizeUnique([Token(Alpha, "улица", None), Token(Space, " ", None), Token(Alpha, "Широкое", None), Token(Space, " ", None), Token(Alpha, "Шоссе", None)], "улица Широкое Шоссе");
  }

  lemma MarkedIn9(l: Locale)
    requires FindStatus(l, "улица") == Some(ULITSA) && FindStatus(l, " ") == None && FindStatus(l, "широкое") == None && FindStatus(l, "шоссе") == Some(SHOSSE)
    ensures Marked([Token(Alpha, "улица", None), Token(Space, " ", None), Token(Alpha, "Широкое", None), Token(Space, " ", None), Token(Alpha, "Шоссе", None)], l) == [Token(Alpha, "улица", Some(ULITSA)), Token(Space, " ", None), Token(Alpha, "Широкое", None), Token(Space, " ", None), Token(Alpha, "Шоссе", Some(SHOSSE))]
    ensures Best([Token(Alpha, "улица", Some(ULITSA)), Token(Space, " ", None), Token(Alpha, "Широкое", None), Token(Space, " ", None), Token(Alpha, "Шоссе", Some(SHOSSE))]).pos == 0
  {
    assert LowerString("улица") == "улица" && LowerString(" ") == " " && LowerString("Широкое") == "широкое" && LowerString("Шоссе") == "шоссе";
    BestFirst([Token(Alpha, "улица", Some(ULITSA)), Token(Space, " ", None), Token(Alpha, "Широкое", None), Token(Space, " ", None), Token(Alpha, "Шоссе", Some(SHOSSE))], 0);
  }

  /** The Name of "улица Широкое Шоссе": its tokens, the parts found, the status chosen. */
  lemma NameIn9(l: Locale)
    requires FindStatus(l, "улица") == Some(ULITSA) && FindStatus(l, " ") == None && FindStatus(l, "широкое") == None && FindStatus(l, "шоссе") == Some(SHOSSE)
    ensures NameOf("улица Широкое Шоссе", l) == Name([Token(Alpha, "улица", Some(ULITSA)), Token(Space, " ", None), Token(Alpha, "Широкое", None), Token(Space, " ", None), Token(Alpha, "Шоссе", Some(SHOSSE))], 0)
  {
    TokensIn9();
    MarkedIn9(l);
    NameFrom("улица Широкое Шоссе", l, [Token(Alpha, "улица", None), Token(Space, " ", None), Token(Alpha, "Широкое", None), Token(Space, " ", None), Token(Alpha, "Шоссе", None)], [Token(Alpha, "улица", Some(ULITSA)), Token(Space, " ", None), Token(Alpha, "Широкое", None), Token(Space, " ", None), Token(Alpha, "Шоссе", Some(SHOSSE))], 0);
  }

  lemma SplitIn10()
    ensures WellSplit([Token(Space, "  ", None), Token(Alpha, "улица", None), Token(Space, "\t", None), Token(Alpha, "улица", None), Token(Space, " ", None), Token(Alpha, "улица", None)])
  {
    assert ClassRun("улица", Alpha, 4);
    assert ClassRun("улица", Alpha, 3);
    assert ClassRun("улица", Alpha, 2);
    assert ClassRun("улица", Alpha, 1);
    assert ClassRun("улица", Alpha, 0);
    assert Alternates([Token(Space, "  ", None), Token(Alpha, "улица", None), Token(Space, "\t", None), Token(Alpha, "улица", None), Token(Space, " ", None), Token(Alpha, "улица", None)], 5);
    assert ClassRun(" ", Space, 0);
    assert Alternates([Token(Space, "  ", None), Token(Alpha, "улица", None), Token(Space, "\t", None), Token(Alpha, "улица", None), Token(Space, " ", None), Token(Alpha, "улица", None)], 4);
    assert ClassRun("улица", Alpha, 4);
    assert ClassRun("улица", Alpha, 3);
    assert ClassRun("улица", Alpha, 2);
    assert ClassRun("улица", Alpha, 1);
    assert ClassRun("улица", Alpha, 0);
    assert Alternates([Token(Space, "  ", None), Token(Alpha, "улица", None), Token(Space, "\t", None), Token(Alpha, "улица", None), Token(Space, " ", None), Token(Alpha, "улица", None)], 3);
    assert ClassRun("\t", Space, 0);
    assert Alternates([Token(Space, "  ", None), Token(Alpha, "улица", None), Token(Space, "\t", None), Token(Alpha, "улица", None), Token(Space, " ", None), Token(Alpha, "улица", None)], 2);
    assert ClassRun("улица", Alpha, 4);
    assert ClassRun("улица", Alpha, 3);
    assert ClassRun("улица", Alpha, 2);
    assert ClassRun("улица", Alpha, 1);
    assert ClassRun("улица", Alpha, 0);
    assert Alternates([Token(Space, "  ", None), Token(Alpha, "улица", None), Token(Space, "\t", None), Token(Alpha, "улица", None), Token(Space, " ", None), Token(Alpha, "улица", None)], 1);
    assert ClassRun("  ", Space, 1);
    assert ClassRun("  ", Space, 0);
    assert Alternates([Token(Space, "  ", None), Token(Alpha, "улица", None), Token(Space, "\t", None), Token(Alpha, "улица", None), Token(Space, " ", None), Token(Alpha, "улица", None)], 0);
    AlternatesFrom([Token(Space, "  ", None), Token(Alpha, "улица", None), Token(Space, "\t", None), Token(Alpha, "улица", None), Token(Space, " ", None), Token(Alpha, "улица", None)], 0);
  }

  lemma TextsIn10Of3()
    ensures Texts([Token(Alpha, "улица", None), Token(Space, " ", None), Token(Alpha, "улица", None)]) == "улица" + " " + "улица"
  {
    TextsIn1Of2();
    assert [Token(Alpha, "улица", None), Token(Space, " ", None), Token(Alpha, "улица", None)][1..] == [Token(Space, " ", None), Token(Alpha, "улица", None)];
  }

  lemma TextsIn10Of2()
    ensures Texts([Token(Space, "\t", None), Token(Alpha, "улица", None), Token(Space, " ", None), Token(Alpha, "улица", None)]) == "\t" + "улица" + " " + "улица"
  {
    TextsIn10Of3();
    assert [Token(Space, "\t", None), Token(Alpha, "улица", None), Token(Space, " ", None), Token(Alpha, "улица", None)][1..] == [Token(Alpha, "улица", None), Token(Space, " ", None), Token(Alpha, "улица", None)];
  }

  lemma TextsIn10Of1()
    ensures Texts([Token(Alpha, "улица", None), Token(Space, "\t", None), Token(Alpha, "улица", None), Token(Space, " ", None), Token(Alpha, "улица", None)]) == "улица" + "\t" + "улица" + " " + "улица"
  {
    TextsIn10Of2();
    assert [Token(Alpha, "улица", None), Token(Space, "\t", None), Token(Alpha, "улица", None), Token(Space, " ", None), Token(Alpha, "улица", None)][1..] == [Token(Space, "\t", None), Token(Alpha, "улица", None), Token(Space, " ", None), Token(Alpha, "улица", None)];
  }

  lemma TextsIn10Of0()
    ensures Texts([Token(Space, "  ", None), Token(Alpha, "улица", None), Token(Space, "\t", None), Token(Alpha, "улица", None), Token(Space, " ", None), Token(Alpha, "улица", None)]) == "  " + "улица" + "\t" + "улица" + " " + "улица"
  {
    TextsIn10Of1();
    assert [Token(Space, "  ", None), Token(Alpha, "улица", None), Token(Space, "\t", None), Token(Alpha, "улица", None), Token(Space, " ", None), Token(Alpha, "улица", None)][1..] == [Token(Alpha, "улица", None), Token(Space, "\t", None), Token(Alpha, "улица", None), Token(Space, " ", None), Token(Alpha, "улица", None)];
  }

  lemma TextsIn10()
    ensures Texts([Token(Space, "  ", None), Token(Alpha, "улица", None), Token(Space, "\t", None), Token(Alpha, "улица", None), Token(Space, " ", None), Token(Alpha, "улица", None)]) == "  улица\tулица улица"
  {
    TextsIn10Of0();
    assert "  " + "улица" == "  улица";
    assert "  улица" + "\t" == "  улица\t";
    assert "  улица\t" + "улица" == "  улица\tулица";
    assert "  улица\tулица" + " " == "  улица\tулица ";
    assert "  улица\tулица " + "улица" == "  улица\tулица улица";
  }

  /** The tokens of "  улица\tулица улица". */
  lemma TokensIn10()
    ensures Tokenize(UpToNul("  улица\tулица улица")) == [Token(Space, "  ", None), Token(Alpha, "улица", None), Token(Space, "\t", None), Token(Alpha, "улица", None), Token(Space, " ", None), Token(Alpha, "улица", None)]
  {
    NoNul("  улица\tулица улица");
    SplitIn10();
    TextsIn10();
    TokenizeUnique([Token(Space, "  ", None), Token(Alpha, "улица", None), Token(Space, "\t", None), Token(Alpha, "улица", None), Token(Space, " ", None), Token(Alpha, "улица", None)], "  улица\tулица улица");
  }

  lemma MarkedIn10(l: Locale)
    requires FindStatus(l, "  ") == None && FindStatus(l, "улица") == Some(ULITSA) && FindStatus(l, "\t") == None && FindStatus(l, " ") == None
    ensures Marked([Token(Space, "  ", None), Token(Alpha, "улица", None), Token(Space, "\t", None), Token(Alpha, "улица", None), Token(Space, " ", None), Token(Alpha, "улица", None)], l) == [Token(Space, "  ", None), Token(Alpha, "улица", Some(ULITSA)), Token(Space, "\t", None), Token(Alpha, "улица", Some(ULITSA)), Token(Space, " ", None), Token(Alpha, "улица", Some(ULITSA))]
    ensures Best([Token(Space, "  ", None), Token(Alpha, "улица", Some(ULITSA)), Token(Space, "\t", None), Token(Alpha, "улица", Some(ULITSA)), Token(Space, " ", None), Token(Alpha, "улица", Some(ULITSA))]).pos == 1
  {
    assert LowerString("  ") == "  " && LowerString("улица") == "улица" && LowerString("\t") == "\t" && LowerString(" ") == " ";
    BestFirst([Token(Space, "  ", None), Token(Alpha, "улица", Some(ULITSA)), Token(Space, "\t", None), Token(Alpha, "улица", Some(ULITSA)), Token(Space, " ", None), Token(Alpha, "улица", Some(ULITSA))], 1);
  }

  /** The Name of "  улица\tулица улица": its tokens, the parts found, the status chosen. */
  lemma NameIn10(l: Locale)
    requires FindStatus(l, "  ") == None && FindStatus(l, "улица") == Some(ULITSA) && FindStatus(l, "\t") == None && FindStatus(l, " ") == None
    ensures NameOf("  улица\tулица улица", l) == Name([Token(Space, "  ", None), Token(Alpha, "улица", Some(ULITSA)), Token(Space, "\t", None), Token(Alpha, "улица", Some(ULITSA)), Token(Space, " ", None), Token(Alpha, "улица", Some(ULITSA))], 1)
  {
    TokensIn10();
    MarkedIn10(l);
    NameFrom("  улица\tулица улица", l, [Token(Space, "  ", None), Token(Alpha, "улица", None), Token(Space, "\t", None), Token(Alpha, "улица", None), Token(Space, " ", None), Token(Alpha, "улица", None)], [Token(Space, "  ", None), Token(Alpha, "улица", Some(ULITSA)), Token(Space, "\t", None), Token(Alpha, "улица", Some(ULITSA)), Token(Space, " ", None), Token(Alpha, "улица", Some(ULITSA))], 1);
  }

  lemma SplitIn11()
    ensures WellSplit([Token(Alpha, "Зелёная", None), Token(Punct, ",", None), Token(Space, "  ", None), Token(Alpha, "ул", None), Token(Punct, ".", None)])
  {
    assert ClassRun(".", Punct, 0);
    assert Alternates([Token(Alpha, "Зелёная", None), Token(Punct, ",", None), Token(Space, "  ", None), Token(Alpha, "ул", None), Token(Punct, ".", None)], 4);
    assert ClassRun("ул", Alpha, 1);
    assert ClassRun("ул", Alpha, 0);
    assert Alternates([Token(Alpha, "Зелёная", None), Token(Punct, ",", None), Token(Space, "  ", None), Token(Alpha, "ул", None), Token(Punct, ".", None)], 3);
    assert ClassRun("  ", Space, 1);
    assert ClassRun("  ", Space, 0);
    assert Alternates([Token(Alpha, "Зелёная", None), Token(Punct, ",", None), Token(Space, "  ", None), Token(Alpha, "ул", None), Token(Punct, ".", None)], 2);
    assert ClassRun(",", Punct, 0);
    assert Alternates([Token(Alpha, "Зелёная", None), Token(Punct, ",", None), Token(Space, "  ", None), Token(Alpha, "ул", None), Token(Punct, ".", None)], 1);
    assert ClassRun("Зелёная", Alpha, 6);
    assert ClassRun("Зелёная", Alpha, 5);
    assert ClassRun("Зелёная", Alpha, 4);
    assert ClassRun("Зелёная", Alpha, 3);
    assert ClassRun("Зелёная", Alpha, 2);
    assert ClassRun("Зелёная", Alpha, 1);
    assert ClassRun("Зелёная", Alpha, 0);
    assert Alternates([Token(Alpha, "Зелёная", None), Token(Punct, ",", None), Token(Space, "  ", None), Token(Alpha, "ул", None), Token(Punct, ".", None)], 0);
    AlternatesFrom([Token(Alpha, "Зелёная", None), Token(Punct, ",", None), Token(Space, "  ", None), Token(Alpha, "ул", None), Token(Punct, ".", None)], 0);
  }

  lemma TextsIn11Of2()
    ensures Texts([Token(Space, "  ", None), Token(Alpha, "ул", None), Token(Punct, ".", None)]) == "  " + "ул" + "."
  {
    TextsIn5Of2();
    assert [Token(Space, "  ", None), Token(Alpha, "ул", None), Token(Punct, ".", None)][1..] == [Token(Alpha, "ул", None), Token(Punct, ".", None)];
  }

  lemma TextsIn11Of1()
    ensures Texts([Token(Punct, ",", None), Token(Space, "  ", None), Token(Alpha, "ул", None), Token(Punct, ".", None)]) == "," + "  " + "ул" + "."
  {
    TextsIn11Of2();
    assert [Token(Punct, ",", None), Token(Space, "  ", None), Token(Alpha, "ул", None), Token(Punct, ".", None)][1..] == [Token(Space, "  ", None), Token(Alpha, "ул", None), Token(Punct, ".", None)];
  }

  lemma TextsIn11Of0()
    ensures Texts([Token(Alpha, "Зелёная", None), Token(Punct, ",", None), Token(Space, "  ", None), Token(Alpha, "ул", None), Token(Punct, ".", None)]) == "Зелёная" + "," + "  " + "ул" + "."
  {
    TextsIn11Of1();
    assert [Token(Alpha, "Зелёная", None), Token(Punct, ",", None), Token(Space, "  ", None), Token(Alpha, "ул", None), Token(Punct, ".", None)][1..] == [Token(Punct, ",", None), Token(Space, "  ", None), Token(Alpha, "ул", None), Token(Punct, ".", None)];
  }

  lemma TextsIn11()
    ensures Texts([Token(Alpha, "Зелёная", None), Token(Punct, ",", None), Token(Space, "  ", None), Token(Alpha, "ул", None), Token(Punct, ".", None)]) == "Зелёная,  ул."
  {
    TextsIn11Of0();
    assert "Зелёная" + "," == "Зелёная,";
    assert "Зелёная," + "  " == "Зелёная,  ";
    assert "Зелёная,  " + "ул" == "Зелёная,  ул";
    assert "Зелёная,  ул" + "." == "Зелёная,  ул.";
  }

  /** The tokens of "Зелёная,  ул.". */
  lemma TokensIn11()
    ensures Tokenize(UpToNul("Зелёная,  ул.")) == [Token(Alpha, "Зелёная", None), Token(Punct, ",", None), Token(Space, "  ", None), Token(Alpha, "ул", None), Token(Punct, ".", None)]
  {
    NoNul("Зелёная,  ул.");
    SplitIn11();
    TextsIn11();
    TokenizeUnique([Token(Alpha, "Зелёная", None), Token(Punct, ",", None), Token(Space, "  ", None), Token(Alpha, "ул", None), Token(Punct, ".", None)], "Зелёная,  ул.");
  }

  lemma MarkedIn11(l: Locale)
    requires FindStatus(l, "зелёная") == None && FindStatus(l, ",") == None && FindStatus(l, "  ") == None && FindStatus(l, "ул") == Some(ULITSA) && FindStatus(l, ".") == None
    ensures Marked([Token(Alpha, "Зелёная", None), Token(Punct, ",", None), Token(Space, "  ", None), Token(Alpha, "ул", None), Token(Punct, ".", None)], l) == [Token(Alpha, "Зелёная", None), Token(Punct, ",", None), Token(Space, "  ", None), Token(Alpha, "ул", Some(ULITSA)), Token(Punct, ".", None)]
    ensures Best([Token(Alpha, "Зелёная", None), Token(Punct, ",", None), Token(Space, "  ", None), Token(Alpha, "ул", Some(ULITSA)), Token(Punct, ".", None)]).pos == 3
  {
    assert LowerString("Зелёная") == "зелёная" && LowerString(",") == "," && LowerString("  ") == "  " && LowerString("ул") == "ул" && LowerString(".") == ".";
    BestFirst([Token(Alpha, "Зелёная", None), Token(Punct, ",", None), Token(Space, "  ", None), Token(Alpha, "ул", Some(ULITSA)), Token(Punct, ".", None)], 3);
  }

  /** The Name of "Зелёная,  ул.": its tokens, the parts found, the status chosen. */
  lemma NameIn11(l: Locale)
    requires FindStatus(l, "зелёная") == None && FindStatus(l, ",") == None && FindStatus(l, "  ") == None && FindStatus(l, "ул") == Some(ULITSA) && FindStatus(l, ".") == None
    ensures NameOf("Зелёная,  ул.", l) == Name([Token(Alpha, "Зелёная", None), Token(Punct, ",", None), Token(Space, "  ", None), Token(Alpha, "ул", Some(ULITSA)), Token(Punct, ".", None)], 3)
  {
    TokensIn11();
    MarkedIn11(l);
    NameFrom("Зелёная,  ул.", l, [Token(Alpha, "Зелёная", None), Token(Punct, ",", None), Token(Space, "  ", None), Token(Alpha, "ул", None), Token(Punct, ".", None)], [Token(Alpha, "Зелёная", None), Token(Punct, ",", None), Token(Space, "  ", None), Token(Alpha, "ул", Some(ULITSA)), Token(Punct, ".", None)], 3);
  }

  lemma SplitIn12()
    ensures WellSplit([Token(Alpha, "Зелёная", None), Token(Space, " ", None), Token(Alpha, "Штуковина", None)])
  {
    assert ClassRun("Штуковина", Alpha, 8);
    assert ClassRun("Штуковина", Alpha, 7);
    assert ClassRun("Штуковина", Alpha, 6);
    assert ClassRun("Штуковина", Alpha, 5);
    assert ClassRun("Штуковина", Alpha, 4);
    assert ClassRun("Штуковина", Alpha, 3);
    assert ClassRun("Штуковина", Alpha, 2);
    assert ClassRun("Штуковина", Alpha, 1);
    assert ClassRun("Штуковина", Alpha, 0);
    assert Alternates([Token(Alpha, "Зелёная", None), Token(Space, " ", None), Token(Alpha, "Штуковина", None)], 2);
    assert ClassRun(" ", Space, 0);
    assert Alternates([Token(Alpha, "Зелёная", None), Token(Space, " ", None), Token(Alpha, "Штуковина", None)], 1);
    assert ClassRun("Зелёная", Alpha, 6);
    assert ClassRun("Зелёная", Alpha, 5);
    assert ClassRun("Зелёная", Alpha, 4);
    assert ClassRun("Зелёная", Alpha, 3);
    assert ClassRun("Зелёная", Alpha, 2);
    assert ClassRun("Зелёная", Alpha, 1);
    assert ClassRun("Зелёная", Alpha, 0);
    assert Alternates([Token(Alpha, "Зелёная", None), Token(Space, " ", None), Token(Alpha, "Штуковина", None)], 0);
    AlternatesFrom([Token(Alpha, "Зелёная", None), Token(Space, " ", None), Token(Alpha, "Штуковина", None)], 0);
  }

  lemma TextsIn12Of2()
    ensures Texts([Token(Alpha, "Штуковина", None)]) == "Штуковина"
  {
    assert Texts([Token(Alpha, "Штуковина", None)]) == "Штуковина";
  }

  lemma TextsIn12Of1()
    ensures Texts([Token(Space, " ", None), Token(Alpha, "Штуковина", None)]) == " " + "Штуковина"
  {
    TextsIn12Of2();
    assert [Token(Space, " ", None), Token(Alpha, "Штуковина", None)][1..] == [Token(Alpha, "Штуковина", None)];
  }

  lemma TextsIn12Of0()
    ensures Texts([Token(Alpha, "Зелёная", None), Token(Space, " ", None), Token(Alpha, "Штуковина", None)]) == "Зелёная" + " " + "Штуковина"
  {
    TextsIn12Of1();
    assert [Token(Alpha, "Зелёная", None), Token(Space, " ", None), Token(Alpha, "Штуковина", None)][1..] == [Token(Space, " ", None), Token(Alpha, "Штуковина", None)];
  }

  lemma TextsIn12()
    ensures Texts([Token(Alpha, "Зелёная", None), Token(Space, " ", None), Token(Alpha, "Штуковина", None)]) == "Зелёная Штуковина"
  {
    TextsIn12Of0();
    assert "Зелёная" + " " == "Зелёная ";
    assert "Зелёная " + "Штуковина" == "Зелёная Штуковина";
  }

  /** The tokens of "Зелёная Штуковина". */
  lemma TokensIn12()
    ensures Tokenize(UpToNul("Зелёная Штуковина")) == [Token(Alpha, "Зелёная", None), Token(Space, " ", None), Token(Alpha, "Штуковина", None)]
  {
    NoNul("Зелёная Штуковина");
    SplitIn12();
    TextsIn12();
    TokenizeUnique([Token(Alpha, "Зелёная", None), Token(Space, " ", None), Token(Alpha, "Штуковина", None)], "Зелёная Штуковина");
  }

  lemma MarkedIn12(l: Locale)
    requires FindStatus(l, "зелёная") == None && FindStatus(l, " ") == None && FindStatus(l, "штуковина") == None
    ensures Marked([Token(Alpha, "Зелёная", None), Token(Space, " ", None), Token(Alpha, "Штуковина", None)], l) == [Token(Alpha, "Зелёная", None), Token(Space, " ", None), Token(Alpha, "Штуковина", None)]
    ensures Best([Token(Alpha, "Зелёная", None), Token(Space, " ", None), Token(Alpha, "Штуковина", None)]).pos == -1
  {
    assert LowerString("Зелёная") == "зелёная" && LowerString(" ") == " " && LowerString("Штуковина") == "штуковина";
    BestSpec([Token(Alpha, "Зелёная", None), Token(Space, " ", None), Token(Alpha, "Штуковина", None)]);
  }

  /** The Name of "Зелёная Штуковина": its tokens, the parts found, the status chosen. */
  lemma NameIn12(l: Locale)
    requires FindStatus(l, "зелёная") == None && FindStatus(l, " ") == None && FindStatus(l, "штуковина") == None
    ensures NameOf("Зелёная Штуковина", l) == Name([Token(Alpha, "Зелёная", None), Token(Space, " ", None), Token(Alpha, "Штуковина", None)], -1)
  {
    TokensIn12();
    MarkedIn12(l);
    NameFrom("Зелёная Штуковина", l, [Token(Alpha, "Зелёная", None), Token(Space, " ", None), Token(Alpha, "Штуковина", None)], [Token(Alpha, "Зелёная", None), Token(Space, " ", None), Token(Alpha, "Штуковина", None)], -1);
  }

  lemma SplitIn13()
    ensures WellSplit([Token(Alpha, "Зелёная", None), Token(Space, "  ", None), Token(Alpha, "Штуковина", None)])
  {
    assert ClassRun("Штуковина", Alpha, 8);
    assert ClassRun("Штуковина", Alpha, 7);
    assert ClassRun("Штуковина", Alpha, 6);
    assert ClassRun("Штуковина", Alpha, 5);
    assert ClassRun("Штуковина", Alpha, 4);
    assert ClassRun("Штуковина", Alpha, 3);
    assert ClassRun("Штуковина", Alpha, 2);
    assert ClassRun("Штуковина", Alpha, 1);
    assert ClassRun("Штуковина", Alpha, 0);
    assert Alternates([Token(Alpha, "Зелёная", None), Token(Space, "  ", None), Token(Alpha, "Штуковина", None)], 2);
    assert ClassRun("  ", Space, 1);
    assert ClassRun("  ", Space, 0);
    assert Alternates([Token(Alpha, "Зелёная", None), Token(Space, "  ", None), Token(Alpha, "Штуковина", None)], 1);
    assert ClassRun("Зелёная", Alpha, 6);
    assert ClassRun("Зелёная", Alpha, 5);
    assert ClassRun("Зелёная", Alpha, 4);
    assert ClassRun("Зелёная", Alpha, 3);
    assert ClassRun("Зелёная", Alpha, 2);
    assert ClassRun("Зелёная", Alpha, 1);
    assert ClassRun("Зелёная", Alpha, 0);
    assert Alternates([Token(Alpha, "Зелёная", None), Token(Space, "  ", None), Token(Alpha, "Штуковина", None)], 0);
    AlternatesFrom([Token(Alpha, "Зелёная", None), Token(Space, "  ", None), Token(Alpha, "Штуковина", None)], 0);
  }

  lemma TextsIn13Of1()
    ensures Texts([Token(Space, "  ", None), Token(Alpha, "Штуковина", None)]) == "  " + "Штуковина"
  {
    TextsIn12Of2();
    assert [Token(Space, "  ", None), Token(Alpha, "Штуковина", None)][1..] == [Token(Alpha, "Штуковина", None)];
  }

  lemma TextsIn13Of0()
    ensures Texts([Token(Alpha, "Зелёная", None), Token(Space, "  ", None), Token(Alpha, "Штуковина", None)]) == "Зелёная" + "  " + "Штуковина"
  {
    TextsIn13Of1();
    assert [Token(Alpha, "Зелёная", None), Token(Space, "  ", None), Token(Alpha, "Штуковина", None)][1..] == [Token(Space, "  ", None), Token(Alpha, "Штуковина", None)];
  }

  lemma TextsIn13()
    ensures Texts([Token(Alpha, "Зелёная", None), Token(Space, "  ", None), Token(Alpha, "Штуковина", None)]) == "Зелёная  Штуковина"
  {
    TextsIn13Of0();
    assert "Зелёная" + "  " == "Зелёная  ";
    assert "Зелёная  " + "Штуковина" == "Зелёная  Штуковина";
  }

  /** The tokens of "Зелёная  Штуковина". */
  lemma TokensIn13()
    ensures Tokenize(UpToNul("Зелёная  Штуковина")) == [Token(Alpha, "Зелёная", None), Token(Space, "  ", None), Token(Alpha, "Штуковина", None)]
  {
    NoNul("Зелёная  Штуковина");
    SplitIn13();
    TextsIn13();
    TokenizeUnique([Token(Alpha, "Зелёная", None), Token(Space, "  ", None), Token(Alpha, "Штуковина", None)], "Зелёная  Штуковина");
  }

  lemma MarkedIn13(l: Locale)
    requires FindStatus(l, "зелёная") == None && FindStatus(l, "  ") == None && FindStatus(l, "штуковина") == None
    ensures Marked([Token(Alpha, "Зелёная", None), Token(Space, "  ", None), Token(Alpha, "Штуковина", None)], l) == [Token(Alpha, "Зелёная", None), Token(Space, "  ", None), Token(Alpha, "Штуковина", None)]
    ensures Best([Token(Alpha, "Зелёная", None), Token(Space, "  ", None), Token(Alpha, "Штуковина", None)]).pos == -1
  {
    assert LowerString("Зелёная") == "зелёная" && LowerString("  ") == "  " && LowerString("Штуковина") == "штуковина";
    BestSpec([Token(Alpha, "Зелёная", None), Token(Space, "  ", None), Token(Alpha, "Штуковина", None)]);
  }

  /** The Name of "Зелёная  Штуковина": its tokens, the parts found, the status chosen. */
  lemma NameIn13(l: Locale)
    requires FindStatus(l, "зелёная") == None && FindStatus(l, "  ") == None && FindStatus(l, "штуковина") == None
    ensures NameOf("Зелёная  Штуковина", l) == Name([Token(Alpha, "Зелёная", None), Token(Space, "  ", None), Token(Alpha, "Штуковина", None)], -1)
  {
    TokensIn13();
    MarkedIn13(l);
    NameFrom("Зелёная  Штуковина", l, [Token(Alpha, "Зелёная", None), Token(Space, "  ", None), Token(Alpha, "Штуковина", None)], [Token(Alpha, "Зелёная", None), Token(Space, "  ", None), Token(Alpha, "Штуковина", None)], -1);
  }

  lemma SplitIn14()
    ensures WellSplit([Token(Space, " ", None), Token(Alpha, "ул", None), Token(Punct, ".", None), Token(Space, "  ", None), Token(Alpha, "Ленина", None), Token(Space, " ", None)])
  {
    assert ClassRun(" ", Space, 0);
    assert Alternates([Token(Space, " ", None), Token(Alpha, "ул", None), Token(Punct, ".", None), Token(Space, "  ", None), Token(Alpha, "Ленина", None), Token(Space, " ", None)], 5);
    assert ClassRun("Ленина", Alpha, 5);
    assert ClassRun("Ленина", Alpha, 4);
    assert ClassRun("Ленина", Alpha, 3);
    assert ClassRun("Ленина", Alpha, 2);
    assert ClassRun("Ленина", Alpha, 1);
    assert ClassRun("Ленина", Alpha, 0);
    assert Alternates([Token(Space, " ", None), Token(Alpha, "ул", None), Token(Punct, ".", None), Token(Space, "  ", None), Token(Alpha, "Ленина", None), Token(Space, " ", None)], 4);
    assert ClassRun("  ", Space, 1);
    assert ClassRun("  ", Space, 0);
    assert Alternates([Token(Space, " ", None), Token(Alpha, "ул", None), Token(Punct, ".", None), Token(Space, "  ", None), Token(Alpha, "Ленина", None), Token(Space, " ", None)], 3);
    assert ClassRun(".", Punct, 0);
    assert Alternates([Token(Space, " ", None), Token(Alpha, "ул", None), Token(Punct, ".", None), Token(Space, "  ", None), Token(Alpha, "Ленина", None), Token(Space, " ", None)], 2);
    assert ClassRun("ул", Alpha, 1);
    assert ClassRun("ул", Alpha, 0);
    assert Alternates([Token(Space, " ", None), Token(Alpha, "ул", None), Token(Punct, ".", None), Token(Space, "  ", None), Token(Alpha, "Ленина", None), Token(Space, " ", None)], 1);
    assert ClassRun(" ", Space, 0);
    assert Alternates([Token(Space, " ", None), Token(Alpha, "ул", None), Token(Punct, ".", None), Token(Space, "  ", None), Token(Alpha, "Ленина", None), Token(Space, " ", None)], 0);
    AlternatesFrom([Token(Space, " ", None), Token(Alpha, "ул", None), Token(Punct, ".", None), Token(Space, "  ", None), Token(Alpha, "Ленина", None), Token(Space, " ", None)], 0);
  }

  lemma TextsIn14Of5()
    ensures Texts([Token(Space, " ", None)]) == " "
  {
    assert Texts([Token(Space, " ", None)]) == " ";
  }

  lemma TextsIn14Of4()
    ensures Texts([Token(Alpha, "Ленина", None), Token(Space, " ", None)]) == "Ленина" + " "
  {
    TextsIn14Of5();
    assert [Token(Alpha, "Ленина", None), Token(Space, " ", None)][1..] == [Token(Space, " ", None)];
  }

  lemma TextsIn14Of3()
    ensures Texts([Token(Space, "  ", None), Token(Alpha, "Ленина", None), Token(Space, " ", None)]) == "  " + "Ленина" + " "
  {
    TextsIn14Of4();
    assert [Token(Space, "  ", None), Token(Alpha, "Ленина", None), Token(Space, " ", None)][1..] == [Token(Alpha, "Ленина", None), Token(Space, " ", None)];
  }

  lemma TextsIn14Of2()
    ensures Texts([Token(Punct, ".", None), Token(Space, "  ", None), Token(Alpha, "Ленина", None), Token(Space, " ", None)]) == "." + "  " + "Ленина" + " "
  {
    TextsIn14Of3();
    assert [Token(Punct, ".", None), Token(Space, "  ", None), Token(Alpha, "Ленина", None), Token(Space, " ", None)][1..] == [Token(Space, "  ", None), Token(Alpha, "Ленина", None), Token(Space, " ", None)];
  }

  lemma TextsIn14Of1()
    ensures Texts([Token(Alpha, "ул", None), Token(Punct, ".", None), Token(Space, "  ", None), Token(Alpha, "Ленина", None), Token(Space, " ", None)]) == "ул" + "." + "  " + "Ленина" + " "
  {
    TextsIn14Of2();
    assert [Token(Alpha, "ул", None), Token(Punct, ".", None), Token(Space, "  ", None), Token(Alpha, "Ленина", None), Token(Space, " ", None)][1..] == [Token(Punct, ".", None), Token(Space, "  ", None), Token(Alpha, "Ленина", None), Token(Space, " ", None)];
  }

  lemma TextsIn14Of0()
    ensures Texts([Token(Space, " ", None), Token(Alpha, "ул", None), Token(Punct, ".", None), Token(Space, "  ", None), Token(Alpha, "Ленина", None), Token(Space, " ", None)]) == " " + "ул" + "." + "  " + "Ленина" + " "
  {
    TextsIn14Of1();
    assert [Token(Space, " ", None), Token(Alpha, "ул", None), Token(Punct, ".", None), Token(Space, "  ", None), Token(Alpha, "Ленина", None), Token(Space, " ", None)][1..] == [Token(Alpha, "ул", None), Token(Punct, ".", None), Token(Space, "  ", None), Token(Alpha, "Ленина", None), Token(Space, " ", None)];
  }

  lemma TextsIn14()
    ensures Texts([Token(Space, " ", None), Token(Alpha, "ул", None), Token(Punct, ".", None), Token(Space, "  ", None), Token(Alpha, "Ленина", None), Token(Space, " ", None)]) == " ул.  Ленина "
  {
    TextsIn14Of0();
    assert " " + "ул" == " ул";
    assert " ул" + "." == " ул.";
    assert " ул." + "  " == " ул.  ";
    assert " ул.  " + "Ленина" == " ул.  Ленина";
    assert " ул.  Ленина" + " " == " ул.  Ленина ";
  }

  /** The tokens of " ул.  Ленина ". */
  lemma TokensIn14()
    ensures Tokenize(UpToNul(" ул.  Ленина ")) == [Token(Space, " ", None), Token(Alpha, "ул", None), Token(Punct, ".", None), Token(Space, "  ", None), Token(Alpha, "Ленина", None), Token(Space, " ", None)]
  {
    NoNul(" ул.  Ленина ");
    SplitIn14();
    TextsIn14();
    TokenizeUnique([Token(Space, " ", None), Token(Alpha, "ул", None), Token(Punct, ".", None), Token(Space, "  ", None), Token(Alpha, "Ленина", None), Token(Space, " ", None)], " ул.  Ленина ");
  }

  lemma MarkedIn14(l: Locale)
    requires FindStatus(l, " ") == None && FindStatus(l, "ул") == Some(ULITSA) && FindStatus(l, ".") == None && FindStatus(l, "  ") == None && FindStatus(l, "ленина") == None
    ensures Marked([Token(Space, " ", None), Token(Alpha, "ул", None), Token(Punct, ".", None), Token(Space, "  ", None), Token(Alpha, "Ленина", None), Token(Space, " ", None)], l) == [Token(Space, " ", None), Token(Alpha, "ул", Some(ULITSA)), Token(Punct, ".", None), Token(Space, "  ", None), Token(Alpha, "Ленина", None), Token(Space, " ", None)]
    ensures Best([Token(Space, " ", None), Token(Alpha, "ул", Some(ULITSA)), Token(Punct, ".", None), Token(Space, "  ", None), Token(Alpha, "Ленина", None), Token(Space, " ", None)]).pos == 1
  {
    assert LowerString(" ") == " " && LowerString("ул") == "ул" && LowerString(".") == "." && LowerString("  ") == "  " && LowerString("Ленина") == "ленина";
    BestFirst([Token(Space, " ", None), Token(Alpha, "ул", Some(ULITSA)), Token(Punct, ".", None), Token(Space, "  ", None), Token(Alpha, "Ленина", None), Token(Space, " ", None)], 1);
  }

  /** The Name of " ул.  Ленина ": its tokens, the parts found, the status chosen. */
  lemma NameIn14(l: Locale)
    requires FindStatus(l, " ") == None && FindStatus(l, "ул") == Some(ULITSA) && FindStatus(l, ".") == None && FindStatus(l, "  ") == None && FindStatus(l, "ленина") == None
    ensures NameOf(" ул.  Ленина ", l) == Name([Token(Space, " ", None), Token(Alpha, "ул", Some(ULITSA)), Token(Punct, ".", None), Token(Space, "  ", None), Token(Alpha, "Ленина", None), Token(Space, " ", None)], 1)
  {
    TokensIn14();
    MarkedIn14(l);
    NameFrom(" ул.  Ленина ", l, [Token(Space, " ", None), Token(Alpha, "ул", None), Token(Punct, ".", None), Token(Space, "  ", None), Token(Alpha, "Ленина", None), Token(Space, " ", None)], [Token(Space, " ", None), Token(Alpha, "ул", Some(ULITSA)), Token(Punct, ".", None), Token(Space, "  ", None), Token(Alpha, "Ленина", None), Token(Space, " ", None)], 1);
  }

  lemma SplitIn15()
    ensures WellSplit([Token(Alpha, "Ленина", None), Token(Punct, ",", None), Token(Space, " ", None), Token(Alpha, "УЛИЦА", None)])
  {
    assert ClassRun("УЛИЦА", Alpha, 4);
    assert ClassRun("УЛИЦА", Alpha, 3);
    assert ClassRun("УЛИЦА", Alpha, 2);
    assert ClassRun("УЛИЦА", Alpha, 1);
    assert ClassRun("УЛИЦА", Alpha, 0);
    assert Alternates([Token(Alpha, "Ленина", None), Token(Punct, ",", None), Token(Space, " ", None), Token(Alpha, "УЛИЦА", None)], 3);
    assert ClassRun(" ", Space, 0);
    assert Alternates([Token(Alpha, "Ленина", None), Token(Punct, ",", None), Token(Space, " ", None), Token(Alpha, "УЛИЦА", None)], 2);
    assert ClassRun(",", Punct, 0);
    assert Alternates([Token(Alpha, "Ленина", None), Token(Punct, ",", None), Token(Space, " ", None), Token(Alpha, "УЛИЦА", None)], 1);
    assert ClassRun("Ленина", Alpha, 5);
    assert ClassRun("Ленина", Alpha, 4);
    assert ClassRun("Ленина", Alpha, 3);
    assert ClassRun("Ленина", Alpha, 2);
    assert ClassRun("Ленина", Alpha, 1);
    assert ClassRun("Ленина", Alpha, 0);
    assert Alternates([Token(Alpha, "Ленина", None), Token(Punct, ",", None), Token(Space, " ", None), Token(Alpha, "УЛИЦА", None)], 0);
    AlternatesFrom([Token(Alpha, "Ленина", None), Token(Punct, ",", None), Token(Space, " ", None), Token(Alpha, "УЛИЦА", None)], 0);
  }

  lemma TextsIn15Of3()
    ensures Texts([Token(Alpha, "УЛИЦА", None)]) == "УЛИЦА"
  {
    assert Texts([Token(Alpha, "УЛИЦА", None)]) == "УЛИЦА";
  }

  lemma TextsIn15Of2()
    ensures Texts([Token(Space, " ", None), Token(Alpha, "УЛИЦА", None)]) == " " + "УЛИЦА"
  {
    TextsIn15Of3();
    assert [Token(Space, " ", None), Token(Alpha, "УЛИЦА", None)][1..] == [Token(Alpha, "УЛИЦА", None)];
  }

  lemma TextsIn15Of1()
    ensures Texts([Token(Punct, ",", None), Token(Space, " ", None), Token(Alpha, "УЛИЦА", None)]) == "," + " " + "УЛИЦА"
  {
    TextsIn15Of2();
    assert [Token(Punct, ",", None), Token(Space, " ", None), Token(Alpha, "УЛИЦА", None)][1..] == [Token(Space, " ", None), Token(Alpha, "УЛИЦА", None)];
  }

  lemma TextsIn15Of0()
    ensures Texts([Token(Alpha, "Ленина", None), Token(Punct, ",", None), Token(Space, " ", None), Token(Alpha, "УЛИЦА", None)]) == "Ленина" + "," + " " + "УЛИЦА"
  {
    TextsIn15Of1();
    assert [Token(Alpha, "Ленина", None), Token(Punct, ",", None), Token(Space, " ", None), Token(Alpha, "УЛИЦА", None)][1..] == [Token(Punct, ",", None), Token(Space, " ", None), Token(Alpha, "УЛИЦА", None)];
  }

  lemma TextsIn15()
    ensures Texts([Token(Alpha, "Ленина", None), Token(Punct, ",", None), Token(Space, " ", None), Token(Alpha, "УЛИЦА", None)]) == "Ленина, УЛИЦА"
  {
    TextsIn15Of0();
    assert "Ленина" + "," == "Ленина,";
    assert "Ленина," + " " == "Ленина, ";
    assert "Ленина, " + "УЛИЦА" == "Ленина, УЛИЦА";
  }

  /** The tokens of "Ленина, УЛИЦА". */
  lemma TokensIn15()
    ensures Tokenize(UpToNul("Ленина, УЛИЦА")) == [Token(Alpha, "Ленина", None), Token(Punct, ",", None), Token(Space, " ", None), Token(Alpha, "УЛИЦА", None)]
  {
    NoNul("Ленина, УЛИЦА");
    SplitIn15();
    TextsIn15();
    TokenizeUnique([Token(Alpha, "Ленина", None), Token(Punct, ",", None), Token(Space, " ", None), Token(Alpha, "УЛИЦА", None)], "Ленина, УЛИЦА");
  }

  lemma MarkedIn15(l: Locale)
    requires FindStatus(l, "ленина") == None && FindStatus(l, ",") == None && FindStatus(l, " ") == None && FindStatus(l, "улица") == Some(ULITSA)
    ensures Marked([Token(Alpha, "Ленина", None), Token(Punct, ",", None), Token(Space, " ", None), Token(Alpha, "УЛИЦА", None)], l) == [Token(Alpha, "Ленина", None), Token(Punct, ",", None), Token(Space, " ", None), Token(Alpha, "УЛИЦА", Some(ULITSA))]
    ensures Best([Token(Alpha, "Ленина", None), Token(Punct, ",", None), Token(Space, " ", None), Token(Alpha, "УЛИЦА", Some(ULITSA))]).pos == 3
  {
    assert LowerString("Ленина") == "ленина" && LowerString(",") == "," && LowerString(" ") == " " && LowerString("УЛИЦА") == "улица";
    BestFirst([Token(Alpha, "Ленина", None), Token(Punct, ",", None), Token(Space, " ", None), Token(Alpha, "УЛИЦА", Some(ULITSA))], 3);
  }

  /** The Name of "Ленина, УЛИЦА": its tokens, the parts found, the status chosen. */
  lemma NameIn15(l: Locale)
    requires FindStatus(l, "ленина") == None && FindStatus(l, ",") == None && FindStatus(l, " ") == None && FindStatus(l, "улица") == Some(ULITSA)
    ensures NameOf("Ленина, УЛИЦА", l) == Name([Token(Alpha, "Ленина", None), Token(Punct, ",", None), Token(Space, " ", None), Token(Alpha, "УЛИЦА", Some(ULITSA))], 3)
  {
    TokensIn15();
    MarkedIn15(l);
    NameFrom("Ленина, УЛИЦА", l, [Token(Alpha, "Ленина", None), Token(Punct, ",", None), Token(Space, " ", None), Token(Alpha, "УЛИЦА", None)], [Token(Alpha, "Ленина", None), Token(Punct, ",", None), Token(Space, " ", None), Token(Alpha, "УЛИЦА", Some(ULITSA))], 3);
  }

  lemma EditedPunct1()
    ensures Edited(Name([Token(Alpha, "Зелёная", None), Token(Punct, ",", None), Token(Alpha, "улица", Some(ULITSA))], 2), NORMALIZE_PUNCT) == Draft([Token(Alpha, "Зелёная", None), Token(Space, " ", None), Token(Alpha, "улица", Some(ULITSA))], 2)
  {
    assert MergeDot(Draft([Token(Alpha, "Зелёная", None), Token(Punct, ",", None), Token(Alpha, "улица", Some(ULITSA))], 2), NORMALIZE_PUNCT) == Draft([Token(Alpha, "Зелёная", None), Token(Punct, ",", None), Token(Alpha, "улица", Some(ULITSA))], 2);
    assert SpaceAfterComma(Draft([Token(Alpha, "Зелёная", None), Token(Punct, ",", None), Token(Alpha, "улица", Some(ULITSA))], 2), NORMALIZE_PUNCT) == Draft([Token(Alpha, "Зелёная", None), Token(Punct, ",", None), Token(Alpha, "улица", Some(ULITSA))], 2);
    assert CommaToSpace(Draft([Token(Alpha, "Зелёная", None), Token(Punct, ",", None), Token(Alpha, "улица", Some(ULITSA))], 2), NORMALIZE_PUNCT) == Draft([Token(Alpha, "Зелёная", None), Token(Space, " ", None), Token(Alpha, "улица", Some(ULITSA))], 2);
  }

  lemma ListPunct1()
    ensures JoinTokens(Name([Token(Alpha, "Зелёная", None), Token(Punct, ",", None), Token(Alpha, "улица", Some(ULITSA))], 2), NORMALIZE_PUNCT) == [Token(Alpha, "Зелёная", None), Token(Space, " ", None), Token(Alpha, "улица", Some(ULITSA))]
  {
    EditedPunct1();
    assert Effective(NORMALIZE_PUNCT) == NORMALIZE_PUNCT;
    JoinTokensOf(Name([Token(Alpha, "Зелёная", None), Token(Punct, ",", None), Token(Alpha, "улица", Some(ULITSA))], 2), NORMALIZE_PUNCT, Draft([Token(Alpha, "Зелёная", None), Token(Space, " ", None), Token(Alpha, "улица", Some(ULITSA))], 2), NORMALIZE_PUNCT);
  }

  lemma WritePunct1Of()
    ensures Texts([Token(Alpha, "Зелёная", None), Token(Space, " ", None), Token(Alpha, "улица", Some(ULITSA))]) == "Зелёная" + " " + "улица"
  {
    assert Texts([Token(Alpha, "улица", Some(ULITSA))]) == "улица";
    assert [Token(Space, " ", None), Token(Alpha, "улица", Some(ULITSA))][1..] == [Token(Alpha, "улица", Some(ULITSA))];
    assert Texts([Token(Space, " ", None), Token(Alpha, "улица", Some(ULITSA))]) == " " + "улица";
    assert [Token(Alpha, "Зелёная", None), Token(Space, " ", None), Token(Alpha, "улица", Some(ULITSA))][1..] == [Token(Space, " ", None), Token(Alpha, "улица", Some(ULITSA))];
  }

  lemma WritePunct1()
    ensures Serialize([Token(Alpha, "Зелёная", None), Token(Space, " ", None), Token(Alpha, "улица", Some(ULITSA))], false) == "Зелёная улица"
  {
    WritePunct1Of();
    assert "Зелёная" + " " + "улица" == "Зелёная улица";
  }

  lemma JoinPunct1()
    ensures JoinSpec(Name([Token(Alpha, "Зелёная", None), Token(Punct, ",", None), Token(Alpha, "улица", Some(ULITSA))], 2), NORMALIZE_PUNCT) == "Зелёная улица"
  {
    ListPunct1();
    WritePunct1();
  }

  /** Joining "Зелёная,улица" with NORMALIZE_PUNCT gives "Зелёная улица" (tests/tokenizer_test.cc:39). */
  lemma Punct1(l: Locale)
    requires RuLocaleOf("ru_RU") == Success(l)
    ensures NameOf("Зелёная,улица", l).Valid() && JoinSpec(NameOf("Зелёная,улица", l), NORMALIZE_PUNCT) == "Зелёная улица"
  {
    RuIsRuLike(l);
    NameIn0(l);
    JoinPunct1();
  }

  lemma EditedPunct2()
    ensures Edited(Name([Token(Alpha, "Зелёная", None), Token(Punct, ",", None), Token(Space, " ", None), Token(Alpha, "улица", Some(ULITSA))], 3), NORMALIZE_PUNCT) == Draft([Token(Alpha, "Зелёная", None), Token(Space, " ", None), Token(Alpha, "улица", Some(ULITSA))], 2)
  {
    assert MergeDot(Draft([Token(Alpha, "Зелёная", None), Token(Punct, ",", None), Token(Space, " ", None), Token(Alpha, "улица", Some(ULITSA))], 3), NORMALIZE_PUNCT) == Draft([Token(Alpha, "Зелёная", None), Token(Punct, ",", None), Token(Space, " ", None), Token(Alpha, "улица", Some(ULITSA))], 3);
    assert SpaceAfterComma(Draft([Token(Alpha, "Зелёная", None), Token(Punct, ",", None), Token(Space, " ", None), Token(Alpha, "улица", Some(ULITSA))], 3), NORMALIZE_PUNCT) == Draft([Token(Alpha, "Зелёная", None), Token(Punct, ",", None), Token(Space, " ", None), Token(Alpha, "улица", Some(ULITSA))], 3);
    assert CommaToSpace(Draft([Token(Alpha, "Зелёная", None), Token(Punct, ",", None), Token(Space, " ", None), Token(Alpha, "улица", Some(ULITSA))], 3), NORMALIZE_PUNCT) == Draft([Token(Alpha, "Зелёная", None), Token(Space, " ", None), Token(Alpha, "улица", Some(ULITSA))], 2);
  }

  lemma ListPunct2()
    ensures JoinTokens(Name([Token(Alpha, "Зелёная", None), Token(Punct, ",", None), Token(Space, " ", None), Token(Alpha, "улица", Some(ULITSA))], 3), NORMALIZE_PUNCT) == [Token(Alpha, "Зелёная", None), Token(Space, " ", None), Token(Alpha, "улица", Some(ULITSA))]
  {
    EditedPunct2();
    assert Effective(NORMALIZE_PUNCT) == NORMALIZE_PUNCT;
    JoinTokensOf(Name([Token(Alpha, "Зелёная", None), Token(Punct, ",", None), Token(Space, " ", None), Token(Alpha, "улица", Some(ULITSA))], 3), NORMALIZE_PUNCT, Draft([Token(Alpha, "Зелёная", None), Token(Space, " ", None), Token(Alpha, "улица", Some(ULITSA))], 2), NORMALIZE_PUNCT);
  }

  lemma JoinPunct2()
    ensures JoinSpec(Name([Token(Alpha, "Зелёная", None), Token(Punct, ",", None), Token(Space, " ", None), Token(Alpha, "улица", Some(ULITSA))], 3), NORMALIZE_PUNCT) == "Зелёная улица"
  {
    ListPunct2();
    WritePunct1();
  }

  /** Joining "Зелёная, улица" with NORMALIZE_PUNCT gives "Зелёная улица" (tests/tokenizer_test.cc:40). */
  lemma Punct2(l: Locale)
    requires RuLocaleOf("ru_RU") == Success(l)
    ensures NameOf("Зелёная, улица", l).Valid() && JoinSpec(NameOf("Зелёная, улица", l), NORMALIZE_PUNCT) == "Зелёная улица"
  {
    RuIsRuLike(l);
    NameIn1(l);
    JoinPunct2();
  }

  lemma EditedPunctSpace()
    ensures Edited(Name([Token(Alpha, "Зелёная", None), Token(Space, "  ", None), Token(Punct, ",", None), Token(Alpha, "улица", Some(ULITSA))], 3), NORMALIZE_PUNCT | NORMALIZE_WHITESPACE) == Draft([Token(Alpha, "Зелёная", None), Token(Space, "  ", None), Token(Space, " ", None), Token(Alpha, "улица", Some(ULITSA))], 3)
  {
    assert MergeDot(Draft([Token(Alpha, "Зелёная", None), Token(Space, "  ", None), Token(Punct, ",", None), Token(Alpha, "улица", Some(ULITSA))], 3), NORMALIZE_PUNCT | NORMALIZE_WHITESPACE) == Draft([Token(Alpha, "Зелёная", None), Token(Space, "  ", None), Token(Punct, ",", None), Token(Alpha, "улица", Some(ULITSA))], 3);
    assert SpaceAfterComma(Draft([Token(Alpha, "Зелёная", None), Token(Space, "  ", None), Token(Punct, ",", None), Token(Alpha, "улица", Some(ULITSA))], 3), NORMALIZE_PUNCT | NORMALIZE_WHITESPACE) == Draft([Token(Alpha, "Зелёная", None), Token(Space, "  ", None), Token(Punct, ",", None), Token(Space, " ", None), Token(Alpha, "улица", Some(ULITSA))], 4);
    assert CommaToSpace(Draft([Token(Alpha, "Зелёная", None), Token(Space, "  ", None), Token(Punct, ",", None), Token(Space, " ", None), Token(Alpha, "улица", Some(ULITSA))], 4), NORMALIZE_PUNCT | NORMALIZE_WHITESPACE) == Draft([Token(Alpha, "Зелёная", None), Token(Space, "  ", None), Token(Space, " ", None), Token(Alpha, "улица", Some(ULITSA))], 3);
  }

  lemma ListPunctSpace()
    ensures JoinTokens(Name([Token(Alpha, "Зелёная", None), Token(Space, "  ", None), Token(Punct, ",", None), Token(Alpha, "улица", Some(ULITSA))], 3), NORMALIZE_PUNCT | NORMALIZE_WHITESPACE) == [Token(Alpha, "Зелёная", None), Token(Space, "  ", None), Token(Space, " ", None), Token(Alpha, "улица", Some(ULITSA))]
  {
    EditedPunctSpace();
    assert Effective(NORMALIZE_PUNCT | NORMALIZE_WHITESPACE) == NORMALIZE_PUNCT | NORMALIZE_WHITESPACE;
    JoinTokensOf(Name([Token(Alpha, "Зелёная", None), Token(Space, "  ", None), Token(Punct, ",", None), Token(Alpha, "улица", Some(ULITSA))], 3), NORMALIZE_PUNCT | NORMALIZE_WHITESPACE, Draft([Token(Alpha, "Зелёная", None), Token(Space, "  ", None), Token(Space, " ", None), Token(Alpha, "улица", Some(ULITSA))], 3), NORMALIZE_PUNCT | NORMALIZE_WHITESPACE);
  }

  lemma SqueezePunctSpace()
    ensures Squeeze([Token(Alpha, "Зелёная", None), Token(Space, "  ", None), Token(Space, " ", None), Token(Alpha, "улица", Some(ULITSA))], false) == "Зелёная" + " " + "улица"
  {
    assert Squeeze([Token(Alpha, "улица", Some(ULITSA))], true) == "улица";
    assert [Token(Space, " ", None), Token(Alpha, "улица", Some(ULITSA))][1..] == [Token(Alpha, "улица", Some(ULITSA))];
    assert Squeeze([Token(Space, " ", None), Token(Alpha, "улица", Some(ULITSA))], true) == "улица";
    assert [Token(Space, "  ", None), Token(Space, " ", None), Token(Alpha, "улица", Some(ULITSA))][1..] == [Token(Space, " ", None), Token(Alpha, "улица", Some(ULITSA))];
    assert Squeeze([Token(Space, "  ", None), Token(Space, " ", None), Token(Alpha, "улица", Some(ULITSA))], false) == " " + "улица";
    assert [Token(Alpha, "Зелёная", None), Token(Space, "  ", None), Token(Space, " ", None), Token(Alpha, "улица", Some(ULITSA))][1..] == [Token(Space, "  ", None), Token(Space, " ", None), Token(Alpha, "улица", Some(ULITSA))];
  }

  lemma WritePunctSpace()
    ensures Serialize([Token(Alpha, "Зелёная", None), Token(Space, "  ", None), Token(Space, " ", None), Token(Alpha, "улица", Some(ULITSA))], true) == "Зелёная улица"
  {
    SqueezePunctSpace();
    TrimNone("Зелёная" + " " + "улица");
    assert "Зелёная" + " " + "улица" == "Зелёная улица";
  }

  lemma JoinPunctSpace()
    ensures JoinSpec(Name([Token(Alpha, "Зелёная", None), Token(Space, "  ", None), Token(Punct, ",", None), Token(Alpha, "улица", Some(ULITSA))], 3), NORMALIZE_PUNCT | NORMALIZE_WHITESPACE) == "Зелёная улица"
  {
    ListPunctSpace();
    WritePunctSpace();
  }

  /** Joining "Зелёная  ,улица" with NORMALIZE_PUNCT | NORMALIZE_WHITESPACE gives "Зелёная улица" (tests/tokenizer_test.cc:46). */
  lemma PunctSpace(l: Locale)
    requires RuLocaleOf("ru_RU") == Success(l)
    ensures NameOf("Зелёная  ,улица", l).Valid() && JoinSpec(NameOf("Зелёная  ,улица", l), NORMALIZE_PUNCT | NORMALIZE_WHITESPACE) == "Зелёная улица"
  {
    RuIsRuLike(l);
    NameIn2(l);
    JoinPunctSpace();
  }

  lemma EditedExpandDot()
    ensures Edited(Name([Token(Alpha, "ул", Some(ULITSA)), Token(Punct, ".", None), Token(Space, " ", None), Token(Alpha, "Ленина", None)], 0), EXPAND_STATUS) == Draft([Token(Alpha, "улица", Some(ULITSA)), Token(Space, " ", None), Token(Alpha, "Ленина", None)], 0)
  {
    assert MergeDot(Draft([Token(Alpha, "улица", Some(ULITSA)), Token(Punct, ".", None), Token(Space, " ", None), Token(Alpha, "Ленина", None)], 0), EXPAND_STATUS) == Draft([Token(Alpha, "улица", Some(ULITSA)), Token(Space, " ", None), Token(Alpha, "Ленина", None)], 0);
    assert SpaceAfterComma(Draft([Token(Alpha, "улица", Some(ULITSA)), Token(Space, " ", None), Token(Alpha, "Ленина", None)], 0), EXPAND_STATUS) == Draft([Token(Alpha, "улица", Some(ULITSA)), Token(Space, " ", None), Token(Alpha, "Ленина", None)], 0);
    assert CommaToSpace(Draft([Token(Alpha, "улица", Some(ULITSA)), Token(Space, " ", None), Token(Alpha, "Ленина", None)], 0), EXPAND_STATUS) == Draft([Token(Alpha, "улица", Some(ULITSA)), Token(Space, " ", None), Token(Alpha, "Ленина", None)], 0);
  }

  lemma ListExpandDot()
    ensures JoinTokens(Name([Token(Alpha, "ул", Some(ULITSA)), Token(Punct, ".", None), Token(Space, " ", None), Token(Alpha, "Ленина", None)], 0), EXPAND_STATUS) == [Token(Alpha, "улица", Some(ULITSA)), Token(Space, " ", None), Token(Alpha, "Ленина", None)]
  {
    EditedExpandDot();
    assert Effective(EXPAND_STATUS) == EXPAND_STATUS;
    JoinTokensOf(Name([Token(Alpha, "ул", Some(ULITSA)), Token(Punct, ".", None), Token(Space, " ", None), Token(Alpha, "Ленина", None)], 0), EXPAND_STATUS, Draft([Token(Alpha, "улица", Some(ULITSA)), Token(Space, " ", None), Token(Alpha, "Ленина", None)], 0), EXPAND_STATUS);
  }

  lemma WriteExpandDotOf()
    ensures Texts([Token(Alpha, "улица", Some(ULITSA)), Token(Space, " ", None), Token(Alpha, "Ленина", None)]) == "улица" + " " + "Ленина"
  {
    assert Texts([Token(Alpha, "Ленина", None)]) == "Ленина";
    assert [Token(Space, " ", None), Token(Alpha, "Ленина", None)][1..] == [Token(Alpha, "Ленина", None)];
    assert Texts([Token(Space, " ", None), Token(Alpha, "Ленина", None)]) == " " + "Ленина";
    assert [Token(Alpha, "улица", Some(ULITSA)), Token(Space, " ", None), Token(Alpha, "Ленина", None)][1..] == [Token(Space, " ", None), Token(Alpha, "Ленина", None)];
  }

  lemma WriteExpandDot()
    ensures Serialize([Token(Alpha, "улица", Some(ULITSA)), Token(Space, " ", None), Token(Alpha, "Ленина", None)], false) == "улица Ленина"
  {
    WriteExpandDotOf();
    assert "улица" + " " + "Ленина" == "улица Ленина";
  }

  lemma JoinExpandDot()
    ensures JoinSpec(Name([Token(Alpha, "ул", Some(ULITSA)), Token(Punct, ".", None), Token(Space, " ", None), Token(Alpha, "Ленина", None)], 0), EXPAND_STATUS) == "улица Ленина"
  {
    ListExpandDot();
    WriteExpandDot();
  }

  /** Joining "ул. Ленина" with EXPAND_STATUS gives "улица Ленина" (tests/tokenizer_test.cc:50). */
  lemma ExpandDot(l: Locale)
    requires RuLocaleOf("ru_RU") == Success(l)
    ensures NameOf("ул. Ленина", l).Valid() && JoinSpec(NameOf("ул. Ленина", l), EXPAND_STATUS) == "улица Ленина"
  {
    RuIsRuLike(l);
    NameIn3(l);
    JoinExpandDot();
  }

  lemma EditedExpandDotWord()
    ensures Edited(Name([Token(Alpha, "ул", Some(ULITSA)), Token(Punct, ".", None), Token(Alpha, "Ленина", None)], 0), EXPAND_STATUS) == Draft([Token(Alpha, "улица", Some(ULITSA)), Token(Space, " ", None), Token(Alpha, "Ленина", None)], 0)
  {
    assert MergeDot(Draft([Token(Alpha, "улица", Some(ULITSA)), Token(Punct, ".", None), Token(Alpha, "Ленина", None)], 0), EXPAND_STATUS) == Draft([Token(Alpha, "улица", Some(ULITSA)), Token(Space, " ", None), Token(Alpha, "Ленина", None)], 0);
    assert SpaceAfterComma(Draft([Token(Alpha, "улица", Some(ULITSA)), Token(Space, " ", None), Token(Alpha, "Ленина", None)], 0), EXPAND_STATUS) == Draft([Token(Alpha, "улица", Some(ULITSA)), Token(Space, " ", None), Token(Alpha, "Ленина", None)], 0);
    assert CommaToSpace(Draft([Token(Alpha, "улица", Some(ULITSA)), Token(Space, " ", None), Token(Alpha, "Ленина", None)], 0), EXPAND_STATUS) == Draft([Token(Alpha, "улица", Some(ULITSA)), Token(Space, " ", None), Token(Alpha, "Ленина", None)], 0);
  }

  lemma ListExpandDotWord()
    ensures JoinTokens(Name([Token(Alpha, "ул", Some(ULITSA)), Token(Punct, ".", None), Token(Alpha, "Ленина", None)], 0), EXPAND_STATUS) == [Token(Alpha, "улица", Some(ULITSA)), Token(Space, " ", None), Token(Alpha, "Ленина", None)]
  {
    EditedExpandDotWord();
    assert Effective(EXPAND_STATUS) == EXPAND_STATUS;
    JoinTokensOf(Name([Token(Alpha, "ул", Some(ULITSA)), Token(Punct, ".", None), Token(Alpha, "Ленина", None)], 0), EXPAND_STATUS, Draft([Token(Alpha, "улица", Some(ULITSA)), Token(Space, " ", None), Token(Alpha, "Ленина", None)], 0), EXPAND_STATUS);
  }

  lemma JoinExpandDotWord()
    ensures JoinSpec(Name([Token(Alpha, "ул", Some(ULITSA)), Token(Punct, ".", None), Token(Alpha, "Ленина", None)], 0), EXPAND_STATUS) == "улица Ленина"
  {
    ListExpandDotWord();
    WriteExpandDot();
  }

  /** Joining "ул.Ленина" with EXPAND_STATUS gives "улица Ленина" (tests/tokenizer_test.cc:51). */
  lemma ExpandDotWord(l: Locale)
    requires RuLocaleOf("ru_RU") == Success(l)
    ensures NameOf("ул.Ленина", l).Valid() && JoinSpec(NameOf("ул.Ленина", l), EXPAND_STATUS) == "улица Ленина"
  {
    RuIsRuLike(l);
    NameIn4(l);
    JoinExpandDotWord();
  }

  lemma EditedExpandEnd()
    ensures Edited(Name([Token(Alpha, "Зелёная", None), Token(Space, " ", None), Token(Alpha, "ул", Some(ULITSA)), Token(Punct, ".", None)], 2), EXPAND_STATUS) == Draft([Token(Alpha, "Зелёная", None), Token(Space, " ", None), Token(Alpha, "улица", Some(ULITSA))], 2)
  {
    assert MergeDot(Draft([Token(Alpha, "Зелёная", None), Token(Space, " ", None), Token(Alpha, "улица", Some(ULITSA)), Token(Punct, ".", None)], 2), EXPAND_STATUS) == Draft([Token(Alpha, "Зелёная", None), Token(Space, " ", None), Token(Alpha, "улица", Some(ULITSA))], 2);
    assert SpaceAfterComma(Draft([Token(Alpha, "Зелёная", None), Token(Space, " ", None), Token(Alpha, "улица", Some(ULITSA))], 2), EXPAND_STATUS) == Draft([Token(Alpha, "Зелёная", None), Token(Space, " ", None), Token(Alpha, "улица", Some(ULITSA))], 2);
    assert CommaToSpace(Draft([Token(Alpha, "Зелёная", None), Token(Space, " ", None), Token(Alpha, "улица", Some(ULITSA))], 2), EXPAND_STATUS) == Draft([Token(Alpha, "Зелёная", None), Token(Space, " ", None), Token(Alpha, "улица", Some(ULITSA))], 2);
  }

  lemma ListExpandEnd()
    ensures JoinTokens(Name([Token(Alpha, "Зелёная", None), Token(Space, " ", None), Token(Alpha, "ул", Some(ULITSA)), Token(Punct, ".", None)], 2), EXPAND_STATUS) == [Token(Alpha, "Зелёная", None), Token(Space, " ", None), Token(Alpha, "улица", Some(ULITSA))]
  {
    EditedExpandEnd();
    assert Effective(EXPAND_STATUS) == EXPAND_STATUS;
    JoinTokensOf(Name([Token(Alpha, "Зелёная", None), Token(Space, " ", None), Token(Alpha, "ул", Some(ULITSA)), Token(Punct, ".", None)], 2), EXPAND_STATUS, Draft([Token(Alpha, "Зелёная", None), Token(Space, " ", None), Token(Alpha, "улица", Some(ULITSA))], 2), EXPAND_STATUS);
  }

  lemma JoinExpandEnd()
    ensures JoinSpec(Name([Token(Alpha, "Зелёная", None), Token(Space, " ", None), Token(Alpha, "ул", Some(ULITSA)), Token(Punct, ".", None)], 2), EXPAND_STATUS) == "Зелёная улица"
  {
    ListExpandEnd();
    WritePunct1();
  }

  /** Joining "Зелёная ул." with EXPAND_STATUS gives "Зелёная улица" (tests/tokenizer_test.cc:54). */
  lemma ExpandEnd(l: Locale)
    requires RuLocaleOf("ru_RU") == Success(l)
    ensures NameOf("Зелёная ул.", l).Valid() && JoinSpec(NameOf("Зелёная ул.", l), EXPAND_STATUS) == "Зелёная улица"
  {
    RuIsRuLike(l);
    NameIn5(l);
    JoinExpandEnd();
  }

  lemma EditedShrink()
    ensures Edited(Name([Token(Alpha, "улица", Some(ULITSA)), Token(Space, " ", None), Token(Alpha, "Ленина", None)], 0), SHRINK_STATUS) == Draft([Token(Alpha, "ул.", Some(ULITSA)), Token(Space, " ", None), Token(Alpha, "Ленина", None)], 0)
  {
    assert MergeDot(Draft([Token(Alpha, "ул.", Some(ULITSA)), Token(Space, " ", None), Token(Alpha, "Ленина", None)], 0), SHRINK_STATUS) == Draft([Token(Alpha, "ул.", Some(ULITSA)), Token(Space, " ", None), Token(Alpha, "Ленина", None)], 0);
    assert SpaceAfterComma(Draft([Token(Alpha, "ул.", Some(ULITSA)), Token(Space, " ", None), Token(Alpha, "Ленина", None)], 0), SHRINK_STATUS) == Draft([Token(Alpha, "ул.", Some(ULITSA)), Token(Space, " ", None), Token(Alpha, "Ленина", None)], 0);
    assert CommaToSpace(Draft([Token(Alpha, "ул.", Some(ULITSA)), Token(Space, " ", None), Token(Alpha, "Ленина", None)], 0), SHRINK_STATUS) == Draft([Token(Alpha, "ул.", Some(ULITSA)), Token(Space, " ", None), Token(Alpha, "Ленина", None)], 0);
  }

  lemma ListShrink()
    ensures JoinTokens(Name([Token(Alpha, "улица", Some(ULITSA)), Token(Space, " ", None), Token(Alpha, "Ленина", None)], 0), SHRINK_STATUS) == [Token(Alpha, "ул.", Some(ULITSA)), Token(Space, " ", None), Token(Alpha, "Ленина", None)]
  {
    EditedShrink();
    assert Effective(SHRINK_STATUS) == SHRINK_STATUS;
    JoinTokensOf(Name([Token(Alpha, "улица", Some(ULITSA)), Token(Space, " ", None), Token(Alpha, "Ленина", None)], 0), SHRINK_STATUS, Draft([Token(Alpha, "ул.", Some(ULITSA)), Token(Space, " ", None), Token(Alpha, "Ленина", None)], 0), SHRINK_STATUS);
  }

  lemma WriteShrinkOf()
    ensures Texts([Token(Alpha, "ул.", Some(ULITSA)), Token(Space, " ", None), Token(Alpha, "Ленина", None)]) == "ул." + " " + "Ленина"
  {
    assert Texts([Token(Alpha, "Ленина", None)]) == "Ленина";
    assert [Token(Space, " ", None), Token(Alpha, "Ленина", None)][1..] == [Token(Alpha, "Ленина", None)];
    assert Texts([Token(Space, " ", None), Token(Alpha, "Ленина", None)]) == " " + "Ленина";
    assert [Token(Alpha, "ул.", Some(ULITSA)), Token(Space, " ", None), Token(Alpha, "Ленина", None)][1..] == [Token(Space, " ", None), Token(Alpha, "Ленина", None)];
  }

  lemma WriteShrink()
    ensures Serialize([Token(Alpha, "ул.", Some(ULITSA)), Token(Space, " ", None), Token(Alpha, "Ленина", None)], false) == "ул. Ленина"
  {
    WriteShrinkOf();
    assert "ул." + " " + "Ленина" == "ул. Ленина";
  }

  lemma JoinShrink()
    ensures JoinSpec(Name([Token(Alpha, "улица", Some(ULITSA)), Token(Space, " ", None), Token(Alpha, "Ленина", None)], 0), SHRINK_STATUS) == "ул. Ленина"
  {
    ListShrink();
    WriteShrink();
  }

  /** Joining "улица Ленина" with SHRINK_STATUS gives "ул. Ленина" (tests/tokenizer_test.cc:63). */
  lemma Shrink(l: Locale)
    requires RuLocaleOf("ru_RU") == Success(l)
    ensures NameOf("улица Ленина", l).Valid() && JoinSpec(NameOf("улица Ленина", l), SHRINK_STATUS) == "ул. Ленина"
  {
    RuIsRuLike(l);
    NameIn6(l);
    JoinShrink();
  }

  lemma EditedShrinkDotWord()
    ensures Edited(Name([Token(Alpha, "ул", Some(ULITSA)), Token(Punct, ".", None), Token(Alpha, "Ленина", None)], 0), SHRINK_STATUS) == Draft([Token(Alpha, "ул.", Some(ULITSA)), Token(Space, " ", None), Token(Alpha, "Ленина", None)], 0)
  {
    assert MergeDot(Draft([Token(Alpha, "ул.", Some(ULITSA)), Token(Punct, ".", None), Token(Alpha, "Ленина", None)], 0), SHRINK_STATUS) == Draft([Token(Alpha, "ул.", Some(ULITSA)), Token(Space, " ", None), Token(Alpha, "Ленина", None)], 0);
    assert SpaceAfterComma(Draft([Token(Alpha, "ул.", Some(ULITSA)), Token(Space, " ", None), Token(Alpha, "Ленина", None)], 0), SHRINK_STATUS) == Draft([Token(Alpha, "ул.", Some(ULITSA)), Token(Space, " ", None), Token(Alpha, "Ленина", None)], 0);
    assert CommaToSpace(Draft([Token(Alpha, "ул.", Some(ULITSA)), Token(Space, " ", None), Token(Alpha, "Ленина", None)], 0), SHRINK_STATUS) == Draft([Token(Alpha, "ул.", Some(ULITSA)), Token(Space, " ", None), Token(Alpha, "Ленина", None)], 0);
  }

  lemma ListShrinkDotWord()
    ensures JoinTokens(Name([Token(Alpha, "ул", Some(ULITSA)), Token(Punct, ".", None), Token(Alpha, "Ленина", None)], 0), SHRINK_STATUS) == [Token(Alpha, "ул.", Some(ULITSA)), Token(Space, " ", None), Token(Alpha, "Ленина", None)]
  {
    EditedShrinkDotWord();
    assert Effective(SHRINK_STATUS) == SHRINK_STATUS;
    JoinTokensOf(Name([Token(Alpha, "ул", Some(ULITSA)), Token(Punct, ".", None), Token(Alpha, "Ленина", None)], 0), SHRINK_STATUS, Draft([Token(Alpha, "ул.", Some(ULITSA)), Token(Space, " ", None), Token(Alpha, "Ленина", None)], 0), SHRINK_STATUS);
  }

  lemma JoinShrinkDotWord()
    ensures JoinSpec(Name([Token(Alpha, "ул", Some(ULITSA)), Token(Punct, ".", None), Token(Alpha, "Ленина", None)], 0), SHRINK_STATUS) == "ул. Ленина"
  {
    ListShrinkDotWord();
    WriteShrink();
  }

  /** Joining "ул.Ленина" with SHRINK_STATUS gives "ул. Ленина" (tests/tokenizer_test.cc:65). */
  lemma ShrinkDotWord(l: Locale)
    requires RuLocaleOf("ru_RU") == Success(l)
    ensures NameOf("ул.Ленина", l).Valid() && JoinSpec(NameOf("ул.Ленина", l), SHRINK_STATUS) == "ул. Ленина"
  {
    RuIsRuLike(l);
    NameIn4(l);
    JoinShrinkDotWord();
  }

  lemma EditedLeftComma()
    ensures Edited(Name([Token(Alpha, "Зелёная", None), Token(Punct, ",", None), Token(Space, " ", None), Token(Alpha, "улица", Some(ULITSA))], 3), STATUS_TO_LEFT) == Draft([Token(Alpha, "Зелёная", None), Token(Space, " ", None), Token(Alpha, "улица", Some(ULITSA))], 2)
  {
    assert MergeDot(Draft([Token(Alpha, "Зелёная", None), Token(Punct, ",", None), Token(Space, " ", None), Token(Alpha, "улица", Some(ULITSA))], 3), STATUS_TO_LEFT | NORMALIZE_PUNCT) == Draft([Token(Alpha, "Зелёная", None), Token(Punct, ",", None), Token(Space, " ", None), Token(Alpha, "улица", Some(ULITSA))], 3);
    assert SpaceAfterComma(Draft([Token(Alpha, "Зелёная", None), Token(Punct, ",", None), Token(Space, " ", None), Token(Alpha, "улица", Some(ULITSA))], 3), STATUS_TO_LEFT | NORMALIZE_PUNCT) == Draft([Token(Alpha, "Зелёная", None), Token(Punct, ",", None), Token(Space, " ", None), Token(Alpha, "улица", Some(ULITSA))], 3);
    assert CommaToSpace(Draft([Token(Alpha, "Зелёная", None), Token(Punct, ",", None), Token(Space, " ", None), Token(Alpha, "улица", Some(ULITSA))], 3), STATUS_TO_LEFT | NORMALIZE_PUNCT) == Draft([Token(Alpha, "Зелёная", None), Token(Space, " ", None), Token(Alpha, "улица", Some(ULITSA))], 2);
  }

  lemma Without0()
    ensures Without([Token(Alpha, "Зелёная", None), Token(Space, " ", None), Token(Alpha, "улица", Some(ULITSA))], 1) == [Token(Alpha, "Зелёная", None), Token(Alpha, "улица", Some(ULITSA))]
  {
    assert [Token(Alpha, "Зелёная", None), Token(Space, " ", None), Token(Alpha, "улица", Some(ULITSA))][..1] == [Token(Alpha, "Зелёная", None)];
    assert [Token(Alpha, "Зелёная", None), Token(Space, " ", None), Token(Alpha, "улица", Some(ULITSA))][2..] == [Token(Alpha, "улица", Some(ULITSA))];
  }

  lemma Unlink0Before()
    ensures DropSpaceBefore([Token(Alpha, "Зелёная", None), Token(Space, " ", None), Token(Alpha, "улица", Some(ULITSA))], 2) == Unlinked([Token(Alpha, "Зелёная", None), Token(Alpha, "улица", Some(ULITSA))], 1, true)
  {
    Without0();
  }

  lemma Unlink0Spaces()
    ensures Unspaced([Token(Alpha, "Зелёная", None), Token(Space, " ", None), Token(Alpha, "улица", Some(ULITSA))], 2) == Unlinked([Token(Alpha, "Зелёная", None), Token(Alpha, "улица", Some(ULITSA))], 1, false)
  {
    Unlink0Before();
    UnspacedSteps([Token(Alpha, "Зелёная", None), Token(Space, " ", None), Token(Alpha, "улица", Some(ULITSA))], 2, [Token(Alpha, "Зелёная", None), Token(Alpha, "улица", Some(ULITSA))], 1, true, [Token(Alpha, "Зелёная", None), Token(Alpha, "улица", Some(ULITSA))], false);
  }

  lemma Without1()
    ensures Without([Token(Alpha, "Зелёная", None), Token(Alpha, "улица", Some(ULITSA))], 1) == [Token(Alpha, "Зелёная", None)]
  {
    assert [Token(Alpha, "Зелёная", None), Token(Alpha, "улица", Some(ULITSA))][..1] == [Token(Alpha, "Зелёная", None)];
    assert [Token(Alpha, "Зелёная", None), Token(Alpha, "улица", Some(ULITSA))][2..] == [];
  }

  lemma Unlink0()
    ensures Unlink([Token(Alpha, "Зелёная", None), Token(Space, " ", None), Token(Alpha, "улица", Some(ULITSA))], 2) == Unlinked([Token(Alpha, "Зелёная", None)], 1, false)
  {
    Unlink0Spaces();
    Without1();
  }

  lemma MoveLeftComma()
    ensures MoveStatus(Draft([Token(Alpha, "Зелёная", None), Token(Space, " ", None), Token(Alpha, "улица", Some(ULITSA))], 2), STATUS_TO_LEFT | NORMALIZE_PUNCT) == [Token(Alpha, "улица", Some(ULITSA)), Token(Space, " ", None), Token(Alpha, "Зелёная", None)]
  {
    Unlink0();
  }

  lemma ListLeftComma()
    ensures JoinTokens(Name([Token(Alpha, "Зелёная", None), Token(Punct, ",", None), Token(Space, " ", None), Token(Alpha, "улица", Some(ULITSA))], 3), STATUS_TO_LEFT) == [Token(Alpha, "улица", Some(ULITSA)), Token(Space, " ", None), Token(Alpha, "Зелёная", None)]
  {
    EditedLeftComma();
    assert Effective(STATUS_TO_LEFT) == STATUS_TO_LEFT | NORMALIZE_PUNCT;
    JoinTokensOf(Name([Token(Alpha, "Зелёная", None), Token(Punct, ",", None), Token(Space, " ", None), Token(Alpha, "улица", Some(ULITSA))], 3), STATUS_TO_LEFT, Draft([Token(Alpha, "Зелёная", None), Token(Space, " ", None), Token(Alpha, "улица", Some(ULITSA))], 2), STATUS_TO_LEFT | NORMALIZE_PUNCT);
    MoveLeftComma();
  }

  lemma WriteLeftCommaOf()
    ensures Texts([Token(Alpha, "улица", Some(ULITSA)), Token(Space, " ", None), Token(Alpha, "Зелёная", None)]) == "улица" + " " + "Зелёная"
  {
    assert Texts([Token(Alpha, "Зелёная", None)]) == "Зелёная";
    assert [Token(Space, " ", None), Token(Alpha, "Зелёная", None)][1..] == [Token(Alpha, "Зелёная", None)];
    assert Texts([Token(Space, " ", None), Token(Alpha, "Зелёная", None)]) == " " + "Зелёная";
    assert [Token(Alpha, "улица", Some(ULITSA)), Token(Space, " ", None), Token(Alpha, "Зелёная", None)][1..] == [Token(Space, " ", None), Token(Alpha, "Зелёная", None)];
  }

  lemma WriteLeftComma()
    ensures Serialize([Token(Alpha, "улица", Some(ULITSA)), Token(Space, " ", None), Token(Alpha, "Зелёная", None)], false) == "улица Зелёная"
  {
    WriteLeftCommaOf();
    assert "улица" + " " + "Зелёная" == "улица Зелёная";
  }

  lemma JoinLeftComma()
    ensures JoinSpec(Name([Token(Alpha, "Зелёная", None), Token(Punct, ",", None), Token(Space, " ", None), Token(Alpha, "улица", Some(ULITSA))], 3), STATUS_TO_LEFT) == "улица Зелёная"
  {
    ListLeftComma();
    WriteLeftComma();
  }

  /** Joining "Зелёная, улица" with STATUS_TO_LEFT gives "улица Зелёная" (tests/tokenizer_test.cc:79). */
  lemma LeftComma(l: Locale)
    requires RuLocaleOf("ru_RU") == Success(l)
    ensures NameOf("Зелёная, улица", l).Valid() && JoinSpec(NameOf("Зелёная, улица", l), STATUS_TO_LEFT) == "улица Зелёная"
  {
    RuIsRuLike(l);
    NameIn1(l);
    JoinLeftComma();
  }

  lemma EditedLeftMiddle()
    ensures Edited(Name([Token(Alpha, "1-я", None), Token(Space, " ", None), Token(Alpha, "улица", Some(ULITSA)), Token(Space, " ", None), Token(Alpha, "Доватора", None)], 2), STATUS_TO_LEFT) == Draft([Token(Alpha, "1-я", None), Token(Space, " ", None), Token(Alpha, "улица", Some(ULITSA)), Token(Space, " ", None), Token(Alpha, "Доватора", None)], 2)
  {
    assert MergeDot(Draft([Token(Alpha, "1-я", None), Token(Space, " ", None), Token(Alpha, "улица", Some(ULITSA)), Token(Space, " ", None), Token(Alpha, "Доватора", None)], 2), STATUS_TO_LEFT | NORMALIZE_PUNCT) == Draft([Token(Alpha, "1-я", None), Token(Space, " ", None), Token(Alpha, "улица", Some(ULITSA)), Token(Space, " ", None), Token(Alpha, "Доватора", None)], 2);
    assert SpaceAfterComma(Draft([Token(Alpha, "1-я", None), Token(Space, " ", None), Token(Alpha, "улица", Some(ULITSA)), Token(Space, " ", None), Token(Alpha, "Доватора", None)], 2), STATUS_TO_LEFT | NORMALIZE_PUNCT) == Draft([Token(Alpha, "1-я", None), Token(Space, " ", None), Token(Alpha, "улица", Some(ULITSA)), Token(Space, " ", None), Token(Alpha, "Доватора", None)], 2);
    assert CommaToSpace(Draft([Token(Alpha, "1-я", None), Token(Space, " ", None), Token(Alpha, "улица", Some(ULITSA)), Token(Space, " ", None), Token(Alpha, "Доватора", None)], 2), STATUS_TO_LEFT | NORMALIZE_PUNCT) == Draft([Token(Alpha, "1-я", None), Token(Space, " ", None), Token(Alpha, "улица", Some(ULITSA)), Token(Space, " ", None), Token(Alpha, "Доватора", None)], 2);
  }

  lemma Without2()
    ensures Without([Token(Alpha, "1-я", None), Token(Space, " ", None), Token(Alpha, "улица", Some(ULITSA)), Token(Space, " ", None), Token(Alpha, "Доватора", None)], 1) == [Token(Alpha, "1-я", None), Token(Alpha, "улица", Some(ULITSA)), Token(Space, " ", None), Token(Alpha, "Доватора", None)]
  {
    assert [Token(Alpha, "1-я", None), Token(Space, " ", None), Token(Alpha, "улица", Some(ULITSA)), Token(Space, " ", None), Token(Alpha, "Доватора", None)][..1] == [Token(Alpha, "1-я", None)];
    assert [Token(Alpha, "1-я", None), Token(Space, " ", None), Token(Alpha, "улица", Some(ULITSA)), Token(Space, " ", None), Token(Alpha, "Доватора", None)][2..] == [Token(Alpha, "улица", Some(ULITSA)), Token(Space, " ", None), Token(Alpha, "Доватора", None)];
  }

  lemma Unlink1Before()
    ensures DropSpaceBefore([Token(Alpha, "1-я", None), Token(Space, " ", None), Token(Alpha, "улица", Some(ULITSA)), Token(Space, " ", None), Token(Alpha, "Доватора", None)], 2) == Unlinked([Token(Alpha, "1-я", None), Token(Alpha, "улица", Some(ULITSA)), Token(Space, " ", None), Token(Alpha, "Доватора", None)], 1, true)
  {
    Without2();
  }

  lemma Without3()
    ensures Without([Token(Alpha, "1-я", None), Token(Alpha, "улица", Some(ULITSA)), Token(Space, " ", None), Token(Alpha, "Доватора", None)], 2) == [Token(Alpha, "1-я", None), Token(Alpha, "улица", Some(ULITSA)), Token(Alpha, "Доватора", None)]
  {
    assert [Token(Alpha, "1-я", None), Token(Alpha, "улица", Some(ULITSA)), Token(Space, " ", None), Token(Alpha, "Доватора", None)][..2] == [Token(Alpha, "1-я", None), Token(Alpha, "улица", Some(ULITSA))];
    assert [Token(Alpha, "1-я", None), Token(Alpha, "улица", Some(ULITSA)), Token(Space, " ", None), Token(Alpha, "Доватора", None)][3..] == [Token(Alpha, "Доватора", None)];
  }

  lemma Unlink1Spaces()
    ensures Unspaced([Token(Alpha, "1-я", None), Token(Space, " ", None), Token(Alpha, "улица", Some(ULITSA)), Token(Space, " ", None), Token(Alpha, "Доватора", None)], 2) == Unlinked([Token(Alpha, "1-я", None), Token(Alpha, "улица", Some(ULITSA)), Token(Alpha, "Доватора", None)], 1, true)
  {
    Unlink1Before();
    Without3();
    UnspacedSteps([Token(Alpha, "1-я", None), Token(Space, " ", None), Token(Alpha, "улица", Some(ULITSA)), Token(Space, " ", None), Token(Alpha, "Доватора", None)], 2, [Token(Alpha, "1-я", None), Token(Alpha, "улица", Some(ULITSA)), Token(Space, " ", None), Token(Alpha, "Доватора", None)], 1, true, [Token(Alpha, "1-я", None), Token(Alpha, "улица", Some(ULITSA)), Token(Alpha, "Доватора", None)], true);
  }

  lemma Unlink1Merge()
    ensures [Token(Alpha, "1-я", None), Token(Alpha, "улица", Some(ULITSA)), Token(Alpha, "Доватора", None)][1 := [Token(Alpha, "1-я", None), Token(Alpha, "улица", Some(ULITSA)), Token(Alpha, "Доватора", None)][1].(kind := Space, text := " ")] == [Token(Alpha, "1-я", None), Token(Space, " ", Some(ULITSA)), Token(Alpha, "Доватора", None)]
  {
    var t2 := [Token(Alpha, "1-я", None), Token(Alpha, "улица", Some(ULITSA)), Token(Alpha, "Доватора", None)];
    var u := t2[1 := t2[1].(kind := Space, text := " ")];
    assert u[0] == t2[0] && u[1] == Token(Space, " ", Some(ULITSA)) && u[2] == t2[2];
  }

  lemma Unlink1()
    ensures Unlink([Token(Alpha, "1-я", None), Token(Space, " ", None), Token(Alpha, "улица", Some(ULITSA)), Token(Space, " ", None), Token(Alpha, "Доватора", None)], 2) == Unlinked([Token(Alpha, "1-я", None), Token(Space, " ", Some(ULITSA)), Token(Alpha, "Доватора", None)], 1, true)
  {
    Unlink1Spaces();
    Unlink1Merge();
  }

  lemma MoveLeftMiddle()
    ensures MoveStatus(Draft([Token(Alpha, "1-я", None), Token(Space, " ", None), Token(Alpha, "улица", Some(ULITSA)), Token(Space, " ", None), Token(Alpha, "Доватора", None)], 2), STATUS_TO_LEFT | NORMALIZE_PUNCT) == [Token(Alpha, "улица", Some(ULITSA)), Token(Space, " ", None), Token(Alpha, "1-я", None), Token(Space, " ", Some(ULITSA)), Token(Alpha, "Доватора", None)]
  {
    Unlink1();
  }

  lemma ListLeftMiddle()
    ensures JoinTokens(Name([Token(Alpha, "1-я", None), Token(Space, " ", None), Token(Alpha, "улица", Some(ULITSA)), Token(Space, " ", None), Token(Alpha, "Доватора", None)], 2), STATUS_TO_LEFT) == [Token(Alpha, "улица", Some(ULITSA)), Token(Space, " ", None), Token(Alpha, "1-я", None), Token(Space, " ", Some(ULITSA)), Token(Alpha, "Доватора", None)]
  {
    EditedLeftMiddle();
    assert Effective(STATUS_TO_LEFT) == STATUS_TO_LEFT | NORMALIZE_PUNCT;
    JoinTokensOf(Name([Token(Alpha, "1-я", None), Token(Space, " ", None), Token(Alpha, "улица", Some(ULITSA)), Token(Space, " ", None), Token(Alpha, "Доватора", None)], 2), STATUS_TO_LEFT, Draft([Token(Alpha, "1-я", None), Token(Space, " ", None), Token(Alpha, "улица", Some(ULITSA)), Token(Space, " ", None), Token(Alpha, "Доватора", None)], 2), STATUS_TO_LEFT | NORMALIZE_PUNCT);
    MoveLeftMiddle();
  }

  lemma WriteLeftMiddleOf1()
    ensures Texts([Token(Space, " ", None), Token(Alpha, "1-я", None), Token(Space, " ", Some(ULITSA)), Token(Alpha, "Доватора", None)]) == " " + "1-я" + " " + "Доватора"
  {
    assert Texts([Token(Alpha, "Доватора", None)]) == "Доватора";
    assert [Token(Space, " ", Some(ULITSA)), Token(Alpha, "Доватора", None)][1..] == [Token(Alpha, "Доватора", None)];
    assert Texts([Token(Space, " ", Some(ULITSA)), Token(Alpha, "Доватора", None)]) == " " + "Доватора";
    assert [Token(Alpha, "1-я", None), Token(Space, " ", Some(ULITSA)), Token(Alpha, "Доватора", None)][1..] == [Token(Space, " ", Some(ULITSA)), Token(Alpha, "Доватора", None)];
    assert Texts([Token(Alpha, "1-я", None), Token(Space, " ", Some(ULITSA)), Token(Alpha, "Доватора", None)]) == "1-я" + " " + "Доватора";
    assert [Token(Space, " ", None), Token(Alpha, "1-я", None), Token(Space, " ", Some(ULITSA)), Token(Alpha, "Доватора", None)][1..] == [Token(Alpha, "1-я", None), Token(Space, " ", Some(ULITSA)), Token(Alpha, "Доватора", None)];
  }

  lemma WriteLeftMiddleOf0()
    ensures Texts([Token(Alpha, "улица", Some(ULITSA)), Token(Space, " ", None), Token(Alpha, "1-я", None), Token(Space, " ", Some(ULITSA)), Token(Alpha, "Доватора", None)]) == "улица" + " " + "1-я" + " " + "Доватора"
  {
    WriteLeftMiddleOf1();
    assert [Token(Alpha, "улица", Some(ULITSA)), Token(Space, " ", None), Token(Alpha, "1-я", None), Token(Space, " ", Some(ULITSA)), Token(Alpha, "Доватора", None)][1..] == [Token(Space, " ", None), Token(Alpha, "1-я", None), Token(Space, " ", Some(ULITSA)), Token(Alpha, "Доватора", None)];
  }

  lemma WriteLeftMiddle()
    ensures Serialize([Token(Alpha, "улица", Some(ULITSA)), Token(Space, " ", None), Token(Alpha, "1-я", None), Token(Space, " ", Some(ULITSA)), Token(Alpha, "Доватора", None)], false) == "улица 1-я Доватора"
  {
    WriteLeftMiddleOf0();
    assert "улица" + " " + "1-я" + " " + "Доватора" == "улица 1-я Доватора";
  }

  lemma JoinLeftMiddle()
    ensures JoinSpec(Name([Token(Alpha, "1-я", None), Token(Space, " ", None), Token(Alpha, "улица", Some(ULITSA)), Token(Space, " ", None), Token(Alpha, "Доватора", None)], 2), STATUS_TO_LEFT) == "улица 1-я Доватора"
  {
    ListLeftMiddle();
    WriteLeftMiddle();
  }

  /** Joining "1-я улица Доватора" with STATUS_TO_LEFT gives "улица 1-я Доватора" (tests/tokenizer_test.cc:81). */
  lemma LeftMiddle(l: Locale)
    requires RuLocaleOf("ru_RU") == Success(l)
    ensures NameOf("1-я улица Доватора", l).Valid() && JoinSpec(NameOf("1-я улица Доватора", l), STATUS_TO_LEFT) == "улица 1-я Доватора"
  {
    RuIsRuLike(l);
    NameIn7(l);
    JoinLeftMiddle();
  }

  lemma EditedRight()
    ensures Edited(Name([Token(Alpha, "улица", Some(ULITSA)), Token(Space, " ", None), Token(Alpha, "Ленина", None)], 0), STATUS_TO_RIGHT) == Draft([Token(Alpha, "улица", Some(ULITSA)), Token(Space, " ", None), Token(Alpha, "Ленина", None)], 0)
  {
    assert MergeDot(Draft([Token(Alpha, "улица", Some(ULITSA)), Token(Space, " ", None), Token(Alpha, "Ленина", None)], 0), STATUS_TO_RIGHT | NORMALIZE_PUNCT) == Draft([Token(Alpha, "улица", Some(ULITSA)), Token(Space, " ", None), Token(Alpha, "Ленина", None)], 0);
    assert SpaceAfterComma(Draft([Token(Alpha, "улица", Some(ULITSA)), Token(Space, " ", None), Token(Alpha, "Ленина", None)], 0), STATUS_TO_RIGHT | NORMALIZE_PUNCT) == Draft([Token(Alpha, "улица", Some(ULITSA)), Token(Space, " ", None), Token(Alpha, "Ленина", None)], 0);
    assert CommaToSpace(Draft([Token(Alpha, "улица", Some(ULITSA)), Token(Space, " ", None), Token(Alpha, "Ленина", None)], 0), STATUS_TO_RIGHT | NORMALIZE_PUNCT) == Draft([Token(Alpha, "улица", Some(ULITSA)), Token(Space, " ", None), Token(Alpha, "Ленина", None)], 0);
  }

  lemma Unlink2Before()
    ensures DropSpaceBefore([Token(Alpha, "улица", Some(ULITSA)), Token(Space, " ", None), Token(Alpha, "Ленина", None)], 0) == Unlinked([Token(Alpha, "улица", Some(ULITSA)), Token(Space, " ", None), Token(Alpha, "Ленина", None)], 0, false)
  {
  }

  lemma Without4()
    ensures Without([Token(Alpha, "улица", Some(ULITSA)), Token(Space, " ", None), Token(Alpha, "Ленина", None)], 1) == [Token(Alpha, "улица", Some(ULITSA)), Token(Alpha, "Ленина", None)]
  {
    assert [Token(Alpha, "улица", Some(ULITSA)), Token(Space, " ", None), Token(Alpha, "Ленина", None)][..1] == [Token(Alpha, "улица", Some(ULITSA))];
    assert [Token(Alpha, "улица", Some(ULITSA)), Token(Space, " ", None), Token(Alpha, "Ленина", None)][2..] == [Token(Alpha, "Ленина", None)];
  }

  lemma Unlink2Spaces()
    ensures Unspaced([Token(Alpha, "улица", Some(ULITSA)), Token(Space, " ", None), Token(Alpha, "Ленина", None)], 0) == Unlinked([Token(Alpha, "улица", Some(ULITSA)), Token(Alpha, "Ленина", None)], 0, false)
  {
    Unlink2Before();
    Without4();
    UnspacedSteps([Token(Alpha, "улица", Some(ULITSA)), Token(Space, " ", None), Token(Alpha, "Ленина", None)], 0, [Token(Alpha, "улица", Some(ULITSA)), Token(Space, " ", None), Token(Alpha, "Ленина", None)], 0, false, [Token(Alpha, "улица", Some(ULITSA)), Token(Alpha, "Ленина", None)], true);
  }

  lemma Without5()
    ensures Without([Token(Alpha, "улица", Some(ULITSA)), Token(Alpha, "Ленина", None)], 0) == [Token(Alpha, "Ленина", None)]
  {
    assert [Token(Alpha, "улица", Some(ULITSA)), Token(Alpha, "Ленина", None)][..0] == [];
    assert [Token(Alpha, "улица", Some(ULITSA)), Token(Alpha, "Ленина", None)][1..] == [Token(Alpha, "Ленина", None)];
  }

  lemma Unlink2()
    ensures Unlink([Token(Alpha, "улица", Some(ULITSA)), Token(Space, " ", None), Token(Alpha, "Ленина", None)], 0) == Unlinked([Token(Alpha, "Ленина", None)], 0, false)
  {
    Unlink2Spaces();
    Without5();
  }

  lemma MoveRight()
    ensures MoveStatus(Draft([Token(Alpha, "улица", Some(ULITSA)), Token(Space, " ", None), Token(Alpha, "Ленина", None)], 0), STATUS_TO_RIGHT | NORMALIZE_PUNCT) == [Token(Alpha, "Ленина", None), Token(Space, " ", None), Token(Alpha, "улица", Some(ULITSA))]
  {
    Unlink2();
  }

  lemma ListRight()
    ensures JoinTokens(Name([Token(Alpha, "улица", Some(ULITSA)), Token(Space, " ", None), Token(Alpha, "Ленина", None)], 0), STATUS_TO_RIGHT) == [Token(Alpha, "Ленина", None), Token(Space, " ", None), Token(Alpha, "улица", Some(ULITSA))]
  {
    EditedRight();
    assert Effective(STATUS_TO_RIGHT) == STATUS_TO_RIGHT | NORMALIZE_PUNCT;
    JoinTokensOf(Name([Token(Alpha, "улица", Some(ULITSA)), Token(Space, " ", None), Token(Alpha, "Ленина", None)], 0), STATUS_TO_RIGHT, Draft([Token(Alpha, "улица", Some(ULITSA)), Token(Space, " ", None), Token(Alpha, "Ленина", None)], 0), STATUS_TO_RIGHT | NORMALIZE_PUNCT);
    MoveRight();
  }

  lemma WriteRightOf()
    ensures Texts([Token(Alpha, "Ленина", None), Token(Space, " ", None), Token(Alpha, "улица", Some(ULITSA))]) == "Ленина" + " " + "улица"
  {
    assert Texts([Token(Alpha, "улица", Some(ULITSA))]) == "улица";
    assert [Token(Space, " ", None), Token(Alpha, "улица", Some(ULITSA))][1..] == [Token(Alpha, "улица", Some(ULITSA))];
    assert Texts([Token(Space, " ", None), Token(Alpha, "улица", Some(ULITSA))]) == " " + "улица";
    assert [Token(Alpha, "Ленина", None), Token(Space, " ", None), Token(Alpha, "улица", Some(ULITSA))][1..] == [Token(Space, " ", None), Token(Alpha, "улица", Some(ULITSA))];
  }

  lemma WriteRight()
    ensures Serialize([Token(Alpha, "Ленина", None), Token(Space, " ", None), Token(Alpha, "улица", Some(ULITSA))], false) == "Ленина улица"
  {
    WriteRightOf();
    assert "Ленина" + " " + "улица" == "Ленина улица";
  }

  lemma JoinRight()
    ensures JoinSpec(Name([Token(Alpha, "улица", Some(ULITSA)), Token(Space, " ", None), Token(Alpha, "Ленина", None)], 0), STATUS_TO_RIGHT) == "Ленина улица"
  {
    ListRight();
    WriteRight();
  }

  /** Joining "улица Ленина" with STATUS_TO_RIGHT gives "Ленина улица" (tests/tokenizer_test.cc:85). */
  lemma Right(l: Locale)
    requires RuLocaleOf("ru_RU") == Success(l)
    ensures NameOf("улица Ленина", l).Valid() && JoinSpec(NameOf("улица Ленина", l), STATUS_TO_RIGHT) == "Ленина улица"
  {
    RuIsRuLike(l);
    NameIn6(l);
    JoinRight();
  }

  lemma EditedLeftAlone()
    ensures Edited(Name([Token(Alpha, "улица", Some(ULITSA))], 0), STATUS_TO_LEFT) == Draft([Token(Alpha, "улица", Some(ULITSA))], 0)
  {
    assert MergeDot(Draft([Token(Alpha, "улица", Some(ULITSA))], 0), STATUS_TO_LEFT | NORMALIZE_PUNCT) == Draft([Token(Alpha, "улица", Some(ULITSA))], 0);
    assert SpaceAfterComma(Draft([Token(Alpha, "улица", Some(ULITSA))], 0), STATUS_TO_LEFT | NORMALIZE_PUNCT) == Draft([Token(Alpha, "улица", Some(ULITSA))], 0);
    assert CommaToSpace(Draft([Token(Alpha, "улица", Some(ULITSA))], 0), STATUS_TO_LEFT | NORMALIZE_PUNCT) == Draft([Token(Alpha, "улица", Some(ULITSA))], 0);
  }

  lemma ListLeftAlone()
    ensures JoinTokens(Name([Token(Alpha, "улица", Some(ULITSA))], 0), STATUS_TO_LEFT) == [Token(Alpha, "улица", Some(ULITSA))]
  {
    EditedLeftAlone();
    assert Effective(STATUS_TO_LEFT) == STATUS_TO_LEFT | NORMALIZE_PUNCT;
    JoinTokensOf(Name([Token(Alpha, "улица", Some(ULITSA))], 0), STATUS_TO_LEFT, Draft([Token(Alpha, "улица", Some(ULITSA))], 0), STATUS_TO_LEFT | NORMALIZE_PUNCT);
  }

  lemma WriteLeftAloneOf()
    ensures Texts([Token(Alpha, "улица", Some(ULITSA))]) == "улица"
  {
    assert Texts([Token(Alpha, "улица", Some(ULITSA))]) == "улица";
  }

  lemma WriteLeftAlone()
    ensures Serialize([Token(Alpha, "улица", Some(ULITSA))], false) == "улица"
  {
    WriteLeftAloneOf();
  }

  lemma JoinLeftAlone()
    ensures JoinSpec(Name([Token(Alpha, "улица", Some(ULITSA))], 0), STATUS_TO_LEFT) == "улица"
  {
    ListLeftAlone();
    WriteLeftAlone();
  }

  /** Joining "улица" with STATUS_TO_LEFT gives "улица" (tests/tokenizer_test.cc:88). */
  lemma LeftAlone(l: Locale)
    requires RuLocaleOf("ru_RU") == Success(l)
    ensures NameOf("улица", l).Valid() && JoinSpec(NameOf("улица", l), STATUS_TO_LEFT) == "улица"
  {
    RuIsRuLike(l);
    NameIn8(l);
    JoinLeftAlone();
  }

  lemma EditedRemoveTwo()
    ensures Edited(Name([Token(Alpha, "улица", Some(ULITSA)), Token(Space, " ", None), Token(Alpha, "Широкое", None), Token(Space, " ", None), Token(Alpha, "Шоссе", Some(SHOSSE))], 0), REMOVE_ALL_STATUSES) == Draft([Token(Alpha, "улица", Some(ULITSA)), Token(Space, " ", None), Token(Alpha, "Широкое", None), Token(Space, " ", None), Token(Alpha, "Шоссе", Some(SHOSSE))], 0)
  {
    assert MergeDot(Draft([Token(Alpha, "улица", Some(ULITSA)), Token(Space, " ", None), Token(Alpha, "Широкое", None), Token(Space, " ", None), Token(Alpha, "Шоссе", Some(SHOSSE))], 0), REMOVE_ALL_STATUSES | NORMALIZE_PUNCT) == Draft([Token(Alpha, "улица", Some(ULITSA)), Token(Space, " ", None), Token(Alpha, "Широкое", None), Token(Space, " ", None), Token(Alpha, "Шоссе", Some(SHOSSE))], 0);
    assert SpaceAfterComma(Draft([Token(Alpha, "улица", Some(ULITSA)), Token(Space, " ", None), Token(Alpha, "Широкое", None), Token(Space, " ", None), Token(Alpha, "Шоссе", Some(SHOSSE))], 0), REMOVE_ALL_STATUSES | NORMALIZE_PUNCT) == Draft([Token(Alpha, "улица", Some(ULITSA)), Token(Space, " ", None), Token(Alpha, "Широкое", None), Token(Space, " ", None), Token(Alpha, "Шоссе", Some(SHOSSE))], 0);
    assert CommaToSpace(Draft([Token(Alpha, "улица", Some(ULITSA)), Token(Space, " ", None), Token(Alpha, "Широкое", None), Token(Space, " ", None), Token(Alpha, "Шоссе", Some(SHOSSE))], 0), REMOVE_ALL_STATUSES | NORMALIZE_PUNCT) == Draft([Token(Alpha, "улица", Some(ULITSA)), Token(Space, " ", None), Token(Alpha, "Широкое", None), Token(Space, " ", None), Token(Alpha, "Шоссе", Some(SHOSSE))], 0);
  }

  lemma Unlink3Before()
    ensures DropSpaceBefore([Token(Alpha, "улица", Some(ULITSA)), Token(Space, " ", None), Token(Alpha, "Широкое", None), Token(Space, " ", None), Token(Alpha, "Шоссе", Some(SHOSSE))], 0) == Unlinked([Token(Alpha, "улица", Some(ULITSA)), Token(Space, " ", None), Token(Alpha, "Широкое", None), Token(Space, " ", None), Token(Alpha, "Шоссе", Some(SHOSSE))], 0, false)
  {
  }

  lemma Without6()
    ensures Without([Token(Alpha, "улица", Some(ULITSA)), Token(Space, " ", None), Token(Alpha, "Широкое", None), Token(Space, " ", None), Token(Alpha, "Шоссе", Some(SHOSSE))], 1) == [Token(Alpha, "улица", Some(ULITSA)), Token(Alpha, "Широкое", None), Token(Space, " ", None), Token(Alpha, "Шоссе", Some(SHOSSE))]
  {
    assert [Token(Alpha, "улица", Some(ULITSA)), Token(Space, " ", None), Token(Alpha, "Широкое", None), Token(Space, " ", None), Token(Alpha, "Шоссе", Some(SHOSSE))][..1] == [Token(Alpha, "улица", Some(ULITSA))];
    assert [Token(Alpha, "улица", Some(ULITSA)), Token(Space, " ", None), Token(Alpha, "Широкое", None), Token(Space, " ", None), Token(Alpha, "Шоссе", Some(SHOSSE))][2..] == [Token(Alpha, "Широкое", None), Token(Space, " ", None), Token(Alpha, "Шоссе", Some(SHOSSE))];
  }

  lemma Unlink3Spaces()
    ensures Unspaced([Token(Alpha, "улица", Some(ULITSA)), Token(Space, " ", None), Token(Alpha, "Широкое", None), Token(Space, " ", None), Token(Alpha, "Шоссе", Some(SHOSSE))], 0) == Unlinked([Token(Alpha, "улица", Some(ULITSA)), Token(Alpha, "Широкое", None), Token(Space, " ", None), Token(Alpha, "Шоссе", Some(SHOSSE))], 0, false)
  {
    Unlink3Before();
    Without6();
    UnspacedSteps([Token(Alpha, "улица", Some(ULITSA)), Token(Space, " ", None), Token(Alpha, "Широкое", None), Token(Space, " ", None), Token(Alpha, "Шоссе", Some(SHOSSE))], 0, [Token(Alpha, "улица", Some(ULITSA)), Token(Space, " ", None), Token(Alpha, "Широкое", None), Token(Space, " ", None), Token(Alpha, "Шоссе", Some(SHOSSE))], 0, false, [Token(Alpha, "улица", Some(ULITSA)), Token(Alpha, "Широкое", None), Token(Space, " ", None), Token(Alpha, "Шоссе", Some(SHOSSE))], true);
  }

  lemma Without7()
    ensures Without([Token(Alpha, "улица", Some(ULITSA)), Token(Alpha, "Широкое", None), Token(Space, " ", None), Token(Alpha, "Шоссе", Some(SHOSSE))], 0) == [Token(Alpha, "Широкое", None), Token(Space, " ", None), Token(Alpha, "Шоссе", Some(SHOSSE))]
  {
    assert [Token(Alpha, "улица", Some(ULITSA)), Token(Alpha, "Широкое", None), Token(Space, " ", None), Token(Alpha, "Шоссе", Some(SHOSSE))][..0] == [];
    assert [Token(Alpha, "улица", Some(ULITSA)), Token(Alpha, "Широкое", None), Token(Space, " ", None), Token(Alpha, "Шоссе", Some(SHOSSE))][1..] == [Token(Alpha, "Широкое", None), Token(Space, " ", None), Token(Alpha, "Шоссе", Some(SHOSSE))];
  }

  lemma Unlink3()
    ensures Unlink([Token(Alpha, "улица", Some(ULITSA)), Token(Space, " ", None), Token(Alpha, "Широкое", None), Token(Space, " ", None), Token(Alpha, "Шоссе", Some(SHOSSE))], 0) == Unlinked([Token(Alpha, "Широкое", None), Token(Space, " ", None), Token(Alpha, "Шоссе", Some(SHOSSE))], 0, false)
  {
    Unlink3Spaces();
    Without7();
  }

  lemma RemoveRemoveTwo0()
    ensures RemoveStatuses([Token(Alpha, "улица", Some(ULITSA)), Token(Space, " ", None), Token(Alpha, "Широкое", None), Token(Space, " ", None), Token(Alpha, "Шоссе", Some(SHOSSE))], 0) == RemoveStatuses([Token(Alpha, "Широкое", None), Token(Space, " ", None), Token(Alpha, "Шоссе", Some(SHOSSE))], 0)
  {
    Unlink3();
  }

  lemma RemoveRemoveTwo1()
    ensures RemoveStatuses([Token(Alpha, "Широкое", None), Token(Space, " ", None), Token(Alpha, "Шоссе", Some(SHOSSE))], 0) == RemoveStatuses([Token(Alpha, "Широкое", None), Token(Space, " ", None), Token(Alpha, "Шоссе", Some(SHOSSE))], 1)
  {
  }

  lemma RemoveRemoveTwo2()
    ensures RemoveStatuses([Token(Alpha, "Широкое", None), Token(Space, " ", None), Token(Alpha, "Шоссе", Some(SHOSSE))], 1) == RemoveStatuses([Token(Alpha, "Широкое", None), Token(Space, " ", None), Token(Alpha, "Шоссе", Some(SHOSSE))], 2)
  {
  }

  lemma Without8()
    ensures Without([Token(Alpha, "Широкое", None), Token(Space, " ", None), Token(Alpha, "Шоссе", Some(SHOSSE))], 1) == [Token(Alpha, "Широкое", None), Token(Alpha, "Шоссе", Some(SHOSSE))]
  {
    assert [Token(Alpha, "Широкое", None), Token(Space, " ", None), Token(Alpha, "Шоссе", Some(SHOSSE))][..1] == [Token(Alpha, "Широкое", None)];
    assert [Token(Alpha, "Широкое", None), Token(Space, " ", None), Token(Alpha, "Шоссе", Some(SHOSSE))][2..] == [Token(Alpha, "Шоссе", Some(SHOSSE))];
  }

  lemma Unlink4Before()
    ensures DropSpaceBefore([Token(Alpha, "Широкое", None), Token(Space, " ", None), Token(Alpha, "Шоссе", Some(SHOSSE))], 2) == Unlinked([Token(Alpha, "Широкое", None), Token(Alpha, "Шоссе", Some(SHOSSE))], 1, true)
  {
    Without8();
  }

  lemma Unlink4Spaces()
    ensures Unspaced([Token(Alpha, "Широкое", None), Token(Space, " ", None), Token(Alpha, "Шоссе", Some(SHOSSE))], 2) == Unlinked([Token(Alpha, "Широкое", None), Token(Alpha, "Шоссе", Some(SHOSSE))], 1, false)
  {
    Unlink4Before();
    UnspacedSteps([Token(Alpha, "Широкое", None), Token(Space, " ", None), Token(Alpha, "Шоссе", Some(SHOSSE))], 2, [Token(Alpha, "Широкое", None), Token(Alpha, "Шоссе", Some(SHOSSE))], 1, true, [Token(Alpha, "Широкое", None), Token(Alpha, "Шоссе", Some(SHOSSE))], false);
  }

  lemma Without9()
    ensures Without([Token(Alpha, "Широкое", None), Token(Alpha, "Шоссе", Some(SHOSSE))], 1) == [Token(Alpha, "Широкое", None)]
  {
    assert [Token(Alpha, "Широкое", None), Token(Alpha, "Шоссе", Some(SHOSSE))][..1] == [Token(Alpha, "Широкое", None)];
    assert [Token(Alpha, "Широкое", None), Token(Alpha, "Шоссе", Some(SHOSSE))][2..] == [];
  }

  lemma Unlink4()
    ensures Unlink([Token(Alpha, "Широкое", None), Token(Space, " ", None), Token(Alpha, "Шоссе", Some(SHOSSE))], 2) == Unlinked([Token(Alpha, "Широкое", None)], 1, false)
  {
    Unlink4Spaces();
    Without9();
  }

  lemma RemoveRemoveTwo3()
    ensures RemoveStatuses([Token(Alpha, "Широкое", None), Token(Space, " ", None), Token(Alpha, "Шоссе", Some(SHOSSE))], 2) == RemoveStatuses([Token(Alpha, "Широкое", None)], 1)
  {
    Unlink4();
  }

  lemma ListRemoveTwo()
    ensures JoinTokens(Name([Token(Alpha, "улица", Some(ULITSA)), Token(Space, " ", None), Token(Alpha, "Широкое", None), Token(Space, " ", None), Token(Alpha, "Шоссе", Some(SHOSSE))], 0), REMOVE_ALL_STATUSES) == [Token(Alpha, "Широкое", None)]
  {
    EditedRemoveTwo();
    assert Effective(REMOVE_ALL_STATUSES) == REMOVE_ALL_STATUSES | NORMALIZE_PUNCT;
    JoinTokensOf(Name([Token(Alpha, "улица", Some(ULITSA)), Token(Space, " ", None), Token(Alpha, "Широкое", None), Token(Space, " ", None), Token(Alpha, "Шоссе", Some(SHOSSE))], 0), REMOVE_ALL_STATUSES, Draft([Token(Alpha, "улица", Some(ULITSA)), Token(Space, " ", None), Token(Alpha, "Широкое", None), Token(Space, " ", None), Token(Alpha, "Шоссе", Some(SHOSSE))], 0), REMOVE_ALL_STATUSES | NORMALIZE_PUNCT);
    RemoveRemoveTwo0();
    RemoveRemoveTwo1();
    RemoveRemoveTwo2();
    RemoveRemoveTwo3();
  }

  lemma WriteRemoveTwoOf()
    ensures Texts([Token(Alpha, "Широкое", None)]) == "Широкое"
  {
    assert Texts([Token(Alpha, "Широкое", None)]) == "Широкое";
  }

  lemma WriteRemoveTwo()
    ensures Serialize([Token(Alpha, "Широкое", None)], false) == "Широкое"
  {
    WriteRemoveTwoOf();
  }

  lemma JoinRemoveTwo()
    ensures JoinSpec(Name([Token(Alpha, "улица", Some(ULITSA)), Token(Space, " ", None), Token(Alpha, "Широкое", None), Token(Space, " ", None), Token(Alpha, "Шоссе", Some(SHOSSE))], 0), REMOVE_ALL_STATUSES) == "Широкое"
  {
    ListRemoveTwo();
    WriteRemoveTwo();
  }

  /** Joining "улица Широкое Шоссе" with REMOVE_ALL_STATUSES gives "Широкое" (tests/tokenizer_test.cc:92). */
  lemma RemoveTwo(l: Locale)
    requires RuLocaleOf("ru_RU") == Success(l)
    ensures NameOf("улица Широкое Шоссе", l).Valid() && JoinSpec(NameOf("улица Широкое Шоссе", l), REMOVE_ALL_STATUSES) == "Широкое"
  {
    RuIsRuLike(l);
    NameIn9(l);
    JoinRemoveTwo();
  }

  lemma EditedRemoveAll()
    ensures Edited(Name([Token(Space, "  ", None), Token(Alpha, "улица", Some(ULITSA)), Token(Space, "\t", None), Token(Alpha, "улица", Some(ULITSA)), Token(Space, " ", None), Token(Alpha, "улица", Some(ULITSA))], 1), REMOVE_ALL_STATUSES) == Draft([Token(Space, "  ", None), Token(Alpha, "улица", Some(ULITSA)), Token(Space, "\t", None), Token(Alpha, "улица", Some(ULITSA)), Token(Space, " ", None), Token(Alpha, "улица", Some(ULITSA))], 1)
  {
    assert MergeDot(Draft([Token(Space, "  ", None), Token(Alpha, "улица", Some(ULITSA)), Token(Space, "\t", None), Token(Alpha, "улица", Some(ULITSA)), Token(Space, " ", None), Token(Alpha, "улица", Some(ULITSA))], 1), REMOVE_ALL_STATUSES | NORMALIZE_PUNCT) == Draft([Token(Space, "  ", None), Token(Alpha, "улица", Some(ULITSA)), Token(Space, "\t", None), Token(Alpha, "улица", Some(ULITSA)), Token(Space, " ", None), Token(Alpha, "улица", Some(ULITSA))], 1);
    assert SpaceAfterComma(Draft([Token(Space, "  ", None), Token(Alpha, "улица", Some(ULITSA)), Token(Space, "\t", None), Token(Alpha, "улица", Some(ULITSA)), Token(Space, " ", None), Token(Alpha, "улица", Some(ULITSA))], 1), REMOVE_ALL_STATUSES | NORMALIZE_PUNCT) == Draft([Token(Space, "  ", None), Token(Alpha, "улица", Some(ULITSA)), Token(Space, "\t", None), Token(Alpha, "улица", Some(ULITSA)), Token(Space, " ", None), Token(Alpha, "улица", Some(ULITSA))], 1);
    assert CommaToSpace(Draft([Token(Space, "  ", None), Token(Alpha, "улица", Some(ULITSA)), Token(Space, "\t", None), Token(Alpha, "улица", Some(ULITSA)), Token(Space, " ", None), Token(Alpha, "улица", Some(ULITSA))], 1), REMOVE_ALL_STATUSES | NORMALIZE_PUNCT) == Draft([Token(Space, "  ", None), Token(Alpha, "улица", Some(ULITSA)), Token(Space, "\t", None), Token(Alpha, "улица", Some(ULITSA)), Token(Space, " ", None), Token(Alpha, "улица", Some(ULITSA))], 1);
  }

  lemma RemoveRemoveAll0()
    ensures RemoveStatuses([Token(Space, "  ", None), Token(Alpha, "улица", Some(ULITSA)), Token(Space, "\t", None), Token(Alpha, "улица", Some(ULITSA)), Token(Space, " ", None), Token(Alpha, "улица", Some(ULITSA))], 0) == RemoveStatuses([Token(Space, "  ", None), Token(Alpha, "улица", Some(ULITSA)), Token(Space, "\t", None), Token(Alpha, "улица", Some(ULITSA)), Token(Space, " ", None), Token(Alpha, "улица", Some(ULITSA))], 1)
  {
  }

  lemma Without10()
    ensures Without([Token(Space, "  ", None), Token(Alpha, "улица", Some(ULITSA)), Token(Space, "\t", None), Token(Alpha, "улица", Some(ULITSA)), Token(Space, " ", None), Token(Alpha, "улица", Some(ULITSA))], 0) == [Token(Alpha, "улица", Some(ULITSA)), Token(Space, "\t", None), Token(Alpha, "улица", Some(ULITSA)), Token(Space, " ", None), Token(Alpha, "улица", Some(ULITSA))]
  {
    assert [Token(Space, "  ", None), Token(Alpha, "улица", Some(ULITSA)), Token(Space, "\t", None), Token(Alpha, "улица", Some(ULITSA)), Token(Space, " ", None), Token(Alpha, "улица", Some(ULITSA))][..0] == [];
    assert [Token(Space, "  ", None), Token(Alpha, "улица", Some(ULITSA)), Token(Space, "\t", None), Token(Alpha, "улица", Some(ULITSA)), Token(Space, " ", None), Token(Alpha, "улица", Some(ULITSA))][1..] == [Token(Alpha, "улица", Some(ULITSA)), Token(Space, "\t", None), Token(Alpha, "улица", Some(ULITSA)), Token(Space, " ", None), Token(Alpha, "улица", Some(ULITSA))];
  }

  lemma Unlink5Before()
    ensures DropSpaceBefore([Token(Space, "  ", None), Token(Alpha, "улица", Some(ULITSA)), Token(Space, "\t", None), Token(Alpha, "улица", Some(ULITSA)), Token(Space, " ", None), Token(Alpha, "улица", Some(ULITSA))], 1) == Unlinked([Token(Alpha, "улица", Some(ULITSA)), Token(Space, "\t", None), Token(Alpha, "улица", Some(ULITSA)), Token(Space, " ", None), Token(Alpha, "улица", Some(ULITSA))], 0, true)
  {
    Without10();
  }

  lemma Without11()
    ensures Without([Token(Alpha, "улица", Some(ULITSA)), Token(Space, "\t", None), Token(Alpha, "улица", Some(ULITSA)), Token(Space, " ", None), Token(Alpha, "улица", Some(ULITSA))], 1) == [Token(Alpha, "улица", Some(ULITSA)), Token(Alpha, "улица", Some(ULITSA)), Token(Space, " ", None), Token(Alpha, "улица", Some(ULITSA))]
  {
    assert [Token(Alpha, "улица", Some(ULITSA)), Token(Space, "\t", None), Token(Alpha, "улица", Some(ULITSA)), Token(Space, " ", None), Token(Alpha, "улица", Some(ULITSA))][..1] == [Token(Alpha, "улица", Some(ULITSA))];
    assert [Token(Alpha, "улица", Some(ULITSA)), Token(Space, "\t", None), Token(Alpha, "улица", Some(ULITSA)), Token(Space, " ", None), Token(Alpha, "улица", Some(ULITSA))][2..] == [Token(Alpha, "улица", Some(ULITSA)), Token(Space, " ", None), Token(Alpha, "улица", Some(ULITSA))];
  }

  lemma Unlink5Spaces()
    ensures Unspaced([Token(Space, "  ", None), Token(Alpha, "улица", Some(ULITSA)), Token(Space, "\t", None), Token(Alpha, "улица", Some(ULITSA)), Token(Space, " ", None), Token(Alpha, "улица", Some(ULITSA))], 1) == Unlinked([Token(Alpha, "улица", Some(ULITSA)), Token(Alpha, "улица", Some(ULITSA)), Token(Space, " ", None), Token(Alpha, "улица", Some(ULITSA))], 0, true)
  {
    Unlink5Before();
    Without11();
    UnspacedSteps([Token(Space, "  ", None), Token(Alpha, "улица", Some(ULITSA)), Token(Space, "\t", None), Token(Alpha, "улица", Some(ULITSA)), Token(Space, " ", None), Token(Alpha, "улица", Some(ULITSA))], 1, [Token(Alpha, "улица", Some(ULITSA)), Token(Space, "\t", None), Token(Alpha, "улица", Some(ULITSA)), Token(Space, " ", None), Token(Alpha, "улица", Some(ULITSA))], 0, true, [Token(Alpha, "улица", Some(ULITSA)), Token(Alpha, "улица", Some(ULITSA)), Token(Space, " ", None), Token(Alpha, "улица", Some(ULITSA))], true);
  }

  lemma Unlink5Merge()
    ensures [Token(Alpha, "улица", Some(ULITSA)), Token(Alpha, "улица", Some(ULITSA)), Token(Space, " ", None), Token(Alpha, "улица", Some(ULITSA))][0 := [Token(Alpha, "улица", Some(ULITSA)), Token(Alpha, "улица", Some(ULITSA)), Token(Space, " ", None), Token(Alpha, "улица", Some(ULITSA))][0].(kind := Space, text := " ")] == [Token(Space, " ", Some(ULITSA)), Token(Alpha, "улица", Some(ULITSA)), Token(Space, " ", None), Token(Alpha, "улица", Some(ULITSA))]
  {
    var t2 := [Token(Alpha, "улица", Some(ULITSA)), Token(Alpha, "улица", Some(ULITSA)), Token(Space, " ", None), Token(Alpha, "улица", Some(ULITSA))];
    var u := t2[0 := t2[0].(kind := Space, text := " ")];
    assert u[0] == Token(Space, " ", Some(ULITSA)) && u[1] == t2[1] && u[2] == t2[2] && u[3] == t2[3];
  }

  lemma Unlink5()
    ensures Unlink([Token(Space, "  ", None), Token(Alpha, "улица", Some(ULITSA)), Token(Space, "\t", None), Token(Alpha, "улица", Some(ULITSA)), Token(Space, " ", None), Token(Alpha, "улица", Some(ULITSA))], 1) == Unlinked([Token(Space, " ", Some(ULITSA)), Token(Alpha, "улица", Some(ULITSA)), Token(Space, " ", None), Token(Alpha, "улица", Some(ULITSA))], 0, true)
  {
    Unlink5Spaces();
    Unlink5Merge();
  }

  lemma RemoveRemoveAll1()
    ensures RemoveStatuses([Token(Space, "  ", None), Token(Alpha, "улица", Some(ULITSA)), Token(Space, "\t", None), Token(Alpha, "улица", Some(ULITSA)), Token(Space, " ", None), Token(Alpha, "улица", Some(ULITSA))], 1) == RemoveStatuses([Token(Space, " ", Some(ULITSA)), Token(Alpha, "улица", Some(ULITSA)), Token(Space, " ", None), Token(Alpha, "улица", Some(ULITSA))], 1)
  {
    Unlink5();
  }

  lemma Without12()
    ensures Without([Token(Space, " ", Some(ULITSA)), Token(Alpha, "улица", Some(ULITSA)), Token(Space, " ", None), Token(Alpha, "улица", Some(ULITSA))], 0) == [Token(Alpha, "улица", Some(ULITSA)), Token(Space, " ", None), Token(Alpha, "улица", Some(ULITSA))]
  {
    assert [Token(Space, " ", Some(ULITSA)), Token(Alpha, "улица", Some(ULITSA)), Token(Space, " ", None), Token(Alpha, "улица", Some(ULITSA))][..0] == [];
    assert [Token(Space, " ", Some(ULITSA)), Token(Alpha, "улица", Some(ULITSA)), Token(Space, " ", None), Token(Alpha, "улица", Some(ULITSA))][1..] == [Token(Alpha, "улица", Some(ULITSA)), Token(Space, " ", None), Token(Alpha, "улица", Some(ULITSA))];
  }

  lemma Unlink6Before()
    ensures DropSpaceBefore([Token(Space, " ", Some(ULITSA)), Token(Alpha, "улица", Some(ULITSA)), Token(Space, " ", None), Token(Alpha, "улица", Some(ULITSA))], 1) == Unlinked([Token(Alpha, "улица", Some(ULITSA)), Token(Space, " ", None), Token(Alpha, "улица", Some(ULITSA))], 0, true)
  {
    Without12();
  }

  lemma Without13()
    ensures Without([Token(Alpha, "улица", Some(ULITSA)), Token(Space, " ", None), Token(Alpha, "улица", Some(ULITSA))], 1) == [Token(Alpha, "улица", Some(ULITSA)), Token(Alpha, "улица", Some(ULITSA))]
  {
    assert [Token(Alpha, "улица", Some(ULITSA)), Token(Space, " ", None), Token(Alpha, "улица", Some(ULITSA))][..1] == [Token(Alpha, "улица", Some(ULITSA))];
    assert [Token(Alpha, "улица", Some(ULITSA)), Token(Space, " ", None), Token(Alpha, "улица", Some(ULITSA))][2..] == [Token(Alpha, "улица", Some(ULITSA))];
  }

  lemma Unlink6Spaces()
    ensures Unspaced([Token(Space, " ", Some(ULITSA)), Token(Alpha, "улица", Some(ULITSA)), Token(Space, " ", None), Token(Alpha, "улица", Some(ULITSA))], 1) == Unlinked([Token(Alpha, "улица", Some(ULITSA)), Token(Alpha, "улица", Some(ULITSA))], 0, true)
  {
    Unlink6Before();
    Without13();
    UnspacedSteps([Token(Space, " ", Some(ULITSA)), Token(Alpha, "улица", Some(ULITSA)), Token(Space, " ", None), Token(Alpha, "улица", Some(ULITSA))], 1, [Token(Alpha, "улица", Some(ULITSA)), Token(Space, " ", None), Token(Alpha, "улица", Some(ULITSA))], 0, true, [Token(Alpha, "улица", Some(ULITSA)), Token(Alpha, "улица", Some(ULITSA))], true);
  }

  lemma Unlink6Merge()
    ensures [Token(Alpha, "улица", Some(ULITSA)), Token(Alpha, "улица", Some(ULITSA))][0 := [Token(Alpha, "улица", Some(ULITSA)), Token(Alpha, "улица", Some(ULITSA))][0].(kind := Space, text := " ")] == [Token(Space, " ", Some(ULITSA)), Token(Alpha, "улица", Some(ULITSA))]
  {
    var t2 := [Token(Alpha, "улица", Some(ULITSA)), Token(Alpha, "улица", Some(ULITSA))];
    var u := t2[0 := t2[0].(kind := Space, text := " ")];
    assert u[0] == Token(Space, " ", Some(ULITSA)) && u[1] == t2[1];
  }

  lemma Unlink6()
    ensures Unlink([Token(Space, " ", Some(ULITSA)), Token(Alpha, "улица", Some(ULITSA)), Token(Space, " ", None), Token(Alpha, "улица", Some(ULITSA))], 1) == Unlinked([Token(Space, " ", Some(ULITSA)), Token(Alpha, "улица", Some(ULITSA))], 0, true)
  {
    Unlink6Spaces();
    Unlink6Merge();
  }

  lemma RemoveRemoveAll2()
    ensures RemoveStatuses([Token(Space, " ", Some(ULITSA)), Token(Alpha, "улица", Some(ULITSA)), Token(Space, " ", None), Token(Alpha, "улица", Some(ULITSA))], 1) == RemoveStatuses([Token(Space, " ", Some(ULITSA)), Token(Alpha, "улица", Some(ULITSA))], 1)
  {
    Unlink6();
  }

  lemma Without14()
    ensures Without([Token(Space, " ", Some(ULITSA)), Token(Alpha, "улица", Some(ULITSA))], 0) == [Token(Alpha, "улица", Some(ULITSA))]
  {
    assert [Token(Space, " ", Some(ULITSA)), Token(Alpha, "улица", Some(ULITSA))][..0] == [];
    assert [Token(Space, " ", Some(ULITSA)), Token(Alpha, "улица", Some(ULITSA))][1..] == [Token(Alpha, "улица", Some(ULITSA))];
  }

  lemma Unlink7Before()
    ensures DropSpaceBefore([Token(Space, " ", Some(ULITSA)), Token(Alpha, "улица", Some(ULITSA))], 1) == Unlinked([Token(Alpha, "улица", Some(ULITSA))], 0, true)
  {
    Without14();
  }

  lemma Unlink7Spaces()
    ensures Unspaced([Token(Space, " ", Some(ULITSA)), Token(Alpha, "улица", Some(ULITSA))], 1) == Unlinked([Token(Alpha, "улица", Some(ULITSA))], 0, false)
  {
    Unlink7Before();
    UnspacedSteps([Token(Space, " ", Some(ULITSA)), Token(Alpha, "улица", Some(ULITSA))], 1, [Token(Alpha, "улица", Some(ULITSA))], 0, true, [Token(Alpha, "улица", Some(ULITSA))], false);
  }

  lemma Without15()
    ensures Without([Token(Alpha, "улица", Some(ULITSA))], 0) == []
  {
    assert [Token(Alpha, "улица", Some(ULITSA))][..0] == [];
    assert [Token(Alpha, "улица", Some(ULITSA))][1..] == [];
  }

  lemma Unlink7()
    ensures Unlink([Token(Space, " ", Some(ULITSA)), Token(Alpha, "улица", Some(ULITSA))], 1) == Unlinked([], 0, false)
  {
    Unlink7Spaces();
    Without15();
  }

  lemma RemoveRemoveAll3()
    ensures RemoveStatuses([Token(Space, " ", Some(ULITSA)), Token(Alpha, "улица", Some(ULITSA))], 1) == RemoveStatuses([], 0)
  {
    Unlink7();
  }

  lemma ListRemoveAll()
    ensures JoinTokens(Name([Token(Space, "  ", None), Token(Alpha, "улица", Some(ULITSA)), Token(Space, "\t", None), Token(Alpha, "улица", Some(ULITSA)), Token(Space, " ", None), Token(Alpha, "улица", Some(ULITSA))], 1), REMOVE_ALL_STATUSES) == []
  {
    EditedRemoveAll();
    assert Effective(REMOVE_ALL_STATUSES) == REMOVE_ALL_STATUSES | NORMALIZE_PUNCT;
    JoinTokensOf(Name([Token(Space, "  ", None), Token(Alpha, "улица", Some(ULITSA)), Token(Space, "\t", None), Token(Alpha, "улица", Some(ULITSA)), Token(Space, " ", None), Token(Alpha, "улица", Some(ULITSA))], 1), REMOVE_ALL_STATUSES, Draft([Token(Space, "  ", None), Token(Alpha, "улица", Some(ULITSA)), Token(Space, "\t", None), Token(Alpha, "улица", Some(ULITSA)), Token(Space, " ", None), Token(Alpha, "улица", Some(ULITSA))], 1), REMOVE_ALL_STATUSES | NORMALIZE_PUNCT);
    RemoveRemoveAll0();
    RemoveRemoveAll1();
    RemoveRemoveAll2();
    RemoveRemoveAll3();
  }

  lemma WriteRemoveAllOf()
    ensures Texts([]) == ""
  {
    assert Texts([]) == "";
  }

  lemma WriteRemoveAll()
    ensures Serialize([], false) == ""
  {
    WriteRemoveAllOf();
  }

  lemma JoinRemoveAll()
    ensures JoinSpec(Name([Token(Space, "  ", None), Token(Alpha, "улица", Some(ULITSA)), Token(Space, "\t", None), Token(Alpha, "улица", Some(ULITSA)), Token(Space, " ", None), Token(Alpha, "улица", Some(ULITSA))], 1), REMOVE_ALL_STATUSES) == ""
  {
    ListRemoveAll();
    WriteRemoveAll();
  }

  /** Joining "  улица\tулица улица" with REMOVE_ALL_STATUSES gives "" (tests/tokenizer_test.cc:93). */
  lemma RemoveAll(l: Locale)
    requires RuLocaleOf("ru_RU") == Success(l)
    ensures NameOf("  улица\tулица улица", l).Valid() && JoinSpec(NameOf("  улица\tулица улица", l), REMOVE_ALL_STATUSES) == ""
  {
    RuIsRuLike(l);
    NameIn10(l);
    JoinRemoveAll();
  }

  lemma EditedRemoveComma()
    ensures Edited(Name([Token(Alpha, "Зелёная", None), Token(Punct, ",", None), Token(Space, "  ", None), Token(Alpha, "ул", Some(ULITSA)), Token(Punct, ".", None)], 3), REMOVE_ALL_STATUSES) == Draft([Token(Alpha, "Зелёная", None), Token(Space, "  ", None), Token(Alpha, "ул.", Some(ULITSA))], 2)
  {
    assert "ул" + "." == "ул.";
    assert MergeDot(Draft([Token(Alpha, "Зелёная", None), Token(Punct, ",", None), Token(Space, "  ", None), Token(Alpha, "ул", Some(ULITSA)), Token(Punct, ".", None)], 3), REMOVE_ALL_STATUSES | NORMALIZE_PUNCT) == Draft([Token(Alpha, "Зелёная", None), Token(Punct, ",", None), Token(Space, "  ", None), Token(Alpha, "ул.", Some(ULITSA))], 3);
    assert SpaceAfterComma(Draft([Token(Alpha, "Зелёная", None), Token(Punct, ",", None), Token(Space, "  ", None), Token(Alpha, "ул.", Some(ULITSA))], 3), REMOVE_ALL_STATUSES | NORMALIZE_PUNCT) == Draft([Token(Alpha, "Зелёная", None), Token(Punct, ",", None), Token(Space, "  ", None), Token(Alpha, "ул.", Some(ULITSA))], 3);
    assert CommaToSpace(Draft([Token(Alpha, "Зелёная", None), Token(Punct, ",", None), Token(Space, "  ", None), Token(Alpha, "ул.", Some(ULITSA))], 3), REMOVE_ALL_STATUSES | NORMALIZE_PUNCT) == Draft([Token(Alpha, "Зелёная", None), Token(Space, "  ", None), Token(Alpha, "ул.", Some(ULITSA))], 2);
  }

  lemma RemoveRemoveComma0()
    ensures RemoveStatuses([Token(Alpha, "Зелёная", None), Token(Space, "  ", None), Token(Alpha, "ул.", Some(ULITSA))], 0) == RemoveStatuses([Token(Alpha, "Зелёная", None), Token(Space, "  ", None), Token(Alpha, "ул.", Some(ULITSA))], 1)
  {
  }

  lemma RemoveRemoveComma1()
    ensures RemoveStatuses([Token(Alpha, "Зелёная", None), Token(Space, "  ", None), Token(Alpha, "ул.", Some(ULITSA))], 1) == RemoveStatuses([Token(Alpha, "Зелёная", None), Token(Space, "  ", None), Token(Alpha, "ул.", Some(ULITSA))], 2)
  {
  }

  lemma Without16()
    ensures Without([Token(Alpha, "Зелёная", None), Token(Space, "  ", None), Token(Alpha, "ул.", Some(ULITSA))], 1) == [Token(Alpha, "Зелёная", None), Token(Alpha, "ул.", Some(ULITSA))]
  {
    assert [Token(Alpha, "Зелёная", None), Token(Space, "  ", None), Token(Alpha, "ул.", Some(ULITSA))][..1] == [Token(Alpha, "Зелёная", None)];
    assert [Token(Alpha, "Зелёная", None), Token(Space, "  ", None), Token(Alpha, "ул.", Some(ULITSA))][2..] == [Token(Alpha, "ул.", Some(ULITSA))];
  }

  lemma Unlink8Before()
    ensures DropSpaceBefore([Token(Alpha, "Зелёная", None), Token(Space, "  ", None), Token(Alpha, "ул.", Some(ULITSA))], 2) == Unlinked([Token(Alpha, "Зелёная", None), Token(Alpha, "ул.", Some(ULITSA))], 1, true)
  {
    Without16();
  }

  lemma Unlink8Spaces()
    ensures Unspaced([Token(Alpha, "Зелёная", None), Token(Space, "  ", None), Token(Alpha, "ул.", Some(ULITSA))], 2) == Unlinked([Token(Alpha, "Зелёная", None), Token(Alpha, "ул.", Some(ULITSA))], 1, false)
  {
    Unlink8Before();
    UnspacedSteps([Token(Alpha, "Зелёная", None), Token(Space, "  ", None), Token(Alpha, "ул.", Some(ULITSA))], 2, [Token(Alpha, "Зелёная", None), Token(Alpha, "ул.", Some(ULITSA))], 1, true, [Token(Alpha, "Зелёная", None), Token(Alpha, "ул.", Some(ULITSA))], false);
  }

  lemma Without17()
    ensures Without([Token(Alpha, "Зелёная", None), Token(Alpha, "ул.", Some(ULITSA))], 1) == [Token(Alpha, "Зелёная", None)]
  {
    assert [Token(Alpha, "Зелёная", None), Token(Alpha, "ул.", Some(ULITSA))][..1] == [Token(Alpha, "Зелёная", None)];
    assert [Token(Alpha, "Зелёная", None), Token(Alpha, "ул.", Some(ULITSA))][2..] == [];
  }

  lemma Unlink8()
    ensures Unlink([Token(Alpha, "Зелёная", None), Token(Space, "  ", None), Token(Alpha, "ул.", Some(ULITSA))], 2) == Unlinked([Token(Alpha, "Зелёная", None)], 1, false)
  {
    Unlink8Spaces();
    Without17();
  }

  lemma RemoveRemoveComma2()
    ensures RemoveStatuses([Token(Alpha, "Зелёная", None), Token(Space, "  ", None), Token(Alpha, "ул.", Some(ULITSA))], 2) == RemoveStatuses([Token(Alpha, "Зелёная", None)], 1)
  {
    Unlink8();
  }

  lemma ListRemoveComma()
    ensures JoinTokens(Name([Token(Alpha, "Зелёная", None), Token(Punct, ",", None), Token(Space, "  ", None), Token(Alpha, "ул", Some(ULITSA)), Token(Punct, ".", None)], 3), REMOVE_ALL_STATUSES) == [Token(Alpha, "Зелёная", None)]
  {
    EditedRemoveComma();
    assert Effective(REMOVE_ALL_STATUSES) == REMOVE_ALL_STATUSES | NORMALIZE_PUNCT;
    JoinTokensOf(Name([Token(Alpha, "Зелёная", None), Token(Punct, ",", None), Token(Space, "  ", None), Token(Alpha, "ул", Some(ULITSA)), Token(Punct, ".", None)], 3), REMOVE_ALL_STATUSES, Draft([Token(Alpha, "Зелёная", None), Token(Space, "  ", None), Token(Alpha, "ул.", Some(ULITSA))], 2), REMOVE_ALL_STATUSES | NORMALIZE_PUNCT);
    RemoveRemoveComma0();
    RemoveRemoveComma1();
    RemoveRemoveComma2();
  }

  lemma WriteRemoveCommaOf()
    ensures Texts([Token(Alpha, "Зелёная", None)]) == "Зелёная"
  {
    assert Texts([Token(Alpha, "Зелёная", None)]) == "Зелёная";
  }

  lemma WriteRemoveComma()
    ensures Serialize([Token(Alpha, "Зелёная", None)], false) == "Зелёная"
  {
    WriteRemoveCommaOf();
  }

  lemma JoinRemoveComma()
    ensures JoinSpec(Name([Token(Alpha, "Зелёная", None), Token(Punct, ",", None), Token(Space, "  ", None), Token(Alpha, "ул", Some(ULITSA)), Token(Punct, ".", None)], 3), REMOVE_ALL_STATUSES) == "Зелёная"
  {
    ListRemoveComma();
    WriteRemoveComma();
  }

  /** Joining "Зелёная,  ул." with REMOVE_ALL_STATUSES gives "Зелёная" (tests/tokenizer_test.cc:94). */
  lemma RemoveComma(l: Locale)
    requires RuLocaleOf("ru_RU") == Success(l)
    ensures NameOf("Зелёная,  ул.", l).Valid() && JoinSpec(NameOf("Зелёная,  ул.", l), REMOVE_ALL_STATUSES) == "Зелёная"
  {
    RuIsRuLike(l);
    NameIn11(l);
    JoinRemoveComma();
  }

  lemma EditedPunctKeepsSpaces()
    ensures Edited(Name([Token(Alpha, "Зелёная", None), Token(Punct, ",", None), Token(Space, "  ", None), Token(Alpha, "ул", Some(ULITSA)), Token(Punct, ".", None)], 3), NORMALIZE_PUNCT) == Draft([Token(Alpha, "Зелёная", None), Token(Space, "  ", None), Token(Alpha, "ул.", Some(ULITSA))], 2)
  {
    assert "ул" + "." == "ул.";
    assert MergeDot(Draft([Token(Alpha, "Зелёная", None), Token(Punct, ",", None), Token(Space, "  ", None), Token(Alpha, "ул", Some(ULITSA)), Token(Punct, ".", None)], 3), NORMALIZE_PUNCT) == Draft([Token(Alpha, "Зелёная", None), Token(Punct, ",", None), Token(Space, "  ", None), Token(Alpha, "ул.", Some(ULITSA))], 3);
    assert SpaceAfterComma(Draft([Token(Alpha, "Зелёная", None), Token(Punct, ",", None), Token(Space, "  ", None), Token(Alpha, "ул.", Some(ULITSA))], 3), NORMALIZE_PUNCT) == Draft([Token(Alpha, "Зелёная", None), Token(Punct, ",", None), Token(Space, "  ", None), Token(Alpha, "ул.", Some(ULITSA))], 3);
    assert CommaToSpace(Draft([Token(Alpha, "Зелёная", None), Token(Punct, ",", None), Token(Space, "  ", None), Token(Alpha, "ул.", Some(ULITSA))], 3), NORMALIZE_PUNCT) == Draft([Token(Alpha, "Зелёная", None), Token(Space, "  ", None), Token(Alpha, "ул.", Some(ULITSA))], 2);
  }

  lemma ListPunctKeepsSpaces()
    ensures JoinTokens(Name([Token(Alpha, "Зелёная", None), Token(Punct, ",", None), Token(Space, "  ", None), Token(Alpha, "ул", Some(ULITSA)), Token(Punct, ".", None)], 3), NORMALIZE_PUNCT) == [Token(Alpha, "Зелёная", None), Token(Space, "  ", None), Token(Alpha, "ул.", Some(ULITSA))]
  {
    EditedPunctKeepsSpaces();
    assert Effective(NORMALIZE_PUNCT) == NORMALIZE_PUNCT;
    JoinTokensOf(Name([Token(Alpha, "Зелёная", None), Token(Punct, ",", None), Token(Space, "  ", None), Token(Alpha, "ул", Some(ULITSA)), Token(Punct, ".", None)], 3), NORMALIZE_PUNCT, Draft([Token(Alpha, "Зелёная", None), Token(Space, "  ", None), Token(Alpha, "ул.", Some(ULITSA))], 2), NORMALIZE_PUNCT);
  }

  lemma WritePunctKeepsSpacesOf()
    ensures Texts([Token(Alpha, "Зелёная", None), Token(Space, "  ", None), Token(Alpha, "ул.", Some(ULITSA))]) == "Зелёная" + "  " + "ул."
  {
    assert Texts([Token(Alpha, "ул.", Some(ULITSA))]) == "ул.";
    assert [Token(Space, "  ", None), Token(Alpha, "ул.", Some(ULITSA))][1..] == [Token(Alpha, "ул.", Some(ULITSA))];
    assert Texts([Token(Space, "  ", None), Token(Alpha, "ул.", Some(ULITSA))]) == "  " + "ул.";
    assert [Token(Alpha, "Зелёная", None), Token(Space, "  ", None), Token(Alpha, "ул.", Some(ULITSA))][1..] == [Token(Space, "  ", None), Token(Alpha, "ул.", Some(ULITSA))];
  }

  lemma WritePunctKeepsSpaces()
    ensures Serialize([Token(Alpha, "Зелёная", None), Token(Space, "  ", None), Token(Alpha, "ул.", Some(ULITSA))], false) == "Зелёная  ул."
  {
    WritePunctKeepsSpacesOf();
    assert "Зелёная" + "  " + "ул." == "Зелёная  ул.";
  }

  lemma JoinPunctKeepsSpaces()
    ensures JoinSpec(Name([Token(Alpha, "Зелёная", None), Token(Punct, ",", None), Token(Space, "  ", None), Token(Alpha, "ул", Some(ULITSA)), Token(Punct, ".", None)], 3), NORMALIZE_PUNCT) == "Зелёная  ул."
  {
    ListPunctKeepsSpaces();
    WritePunctKeepsSpaces();
  }

  /** Joining "Зелёная,  ул." with NORMALIZE_PUNCT gives "Зелёная  ул." (tests/tokenizer_test.cc:97). */
  lemma PunctKeepsSpaces(l: Locale)
    requires RuLocaleOf("ru_RU") == Success(l)
    ensures NameOf("Зелёная,  ул.", l).Valid() && JoinSpec(NameOf("Зелёная,  ул.", l), NORMALIZE_PUNCT) == "Зелёная  ул."
  {
    RuIsRuLike(l);
    NameIn11(l);
    JoinPunctKeepsSpaces();
  }

  lemma EditedWhitespace()
    ensures Edited(Name([Token(Alpha, "Зелёная", None), Token(Punct, ",", None), Token(Space, "  ", None), Token(Alpha, "ул", Some(ULITSA)), Token(Punct, ".", None)], 3), NORMALIZE_WHITESPACE) == Draft([Token(Alpha, "Зелёная", None), Token(Punct, ",", None), Token(Space, "  ", None), Token(Alpha, "ул", Some(ULITSA)), Token(Punct, ".", None)], 3)
  {
  }

  lemma ListWhitespace()
    ensures JoinTokens(Name([Token(Alpha, "Зелёная", None), Token(Punct, ",", None), Token(Space, "  ", None), Token(Alpha, "ул", Some(ULITSA)), Token(Punct, ".", None)], 3), NORMALIZE_WHITESPACE) == [Token(Alpha, "Зелёная", None), Token(Punct, ",", None), Token(Space, "  ", None), Token(Alpha, "ул", Some(ULITSA)), Token(Punct, ".", None)]
  {
    EditedWhitespace();
    assert Effective(NORMALIZE_WHITESPACE) == NORMALIZE_WHITESPACE;
    JoinTokensOf(Name([Token(Alpha, "Зелёная", None), Token(Punct, ",", None), Token(Space, "  ", None), Token(Alpha, "ул", Some(ULITSA)), Token(Punct, ".", None)], 3), NORMALIZE_WHITESPACE, Draft([Token(Alpha, "Зелёная", None), Token(Punct, ",", None), Token(Space, "  ", None), Token(Alpha, "ул", Some(ULITSA)), Token(Punct, ".", None)], 3), NORMALIZE_WHITESPACE);
  }

  lemma SqueezeWhitespace1()
    ensures Squeeze([Token(Punct, ",", None), Token(Space, "  ", None), Token(Alpha, "ул", Some(ULITSA)), Token(Punct, ".", None)], false) == "," + " " + "ул" + "."
  {
    assert Squeeze([Token(Punct, ".", None)], false) == ".";
    assert [Token(Alpha, "ул", Some(ULITSA)), Token(Punct, ".", None)][1..] == [Token(Punct, ".", None)];
    assert Squeeze([Token(Alpha, "ул", Some(ULITSA)), Token(Punct, ".", None)], true) == "ул" + ".";
    assert [Token(Space, "  ", None), Token(Alpha, "ул", Some(ULITSA)), Token(Punct, ".", None)][1..] == [Token(Alpha, "ул", Some(ULITSA)), Token(Punct, ".", None)];
    assert Squeeze([Token(Space, "  ", None), Token(Alpha, "ул", Some(ULITSA)), Token(Punct, ".", None)], false) == " " + "ул" + ".";
    assert [Token(Punct, ",", None), Token(Space, "  ", None), Token(Alpha, "ул", Some(ULITSA)), Token(Punct, ".", None)][1..] == [Token(Space, "  ", None), Token(Alpha, "ул", Some(ULITSA)), Token(Punct, ".", None)];
  }

  lemma SqueezeWhitespace0()
    ensures Squeeze([Token(Alpha, "Зелёная", None), Token(Punct, ",", None), Token(Space, "  ", None), Token(Alpha, "ул", Some(ULITSA)), Token(Punct, ".", None)], false) == "Зелёная" + "," + " " + "ул" + "."
  {
    SqueezeWhitespace1();
    assert [Token(Alpha, "Зелёная", None), Token(Punct, ",", None), Token(Space, "  ", None), Token(Alpha, "ул", Some(ULITSA)), Token(Punct, ".", None)][1..] == [Token(Punct, ",", None), Token(Space, "  ", None), Token(Alpha, "ул", Some(ULITSA)), Token(Punct, ".", None)];
  }

  lemma WriteWhitespace()
    ensures Serialize([Token(Alpha, "Зелёная", None), Token(Punct, ",", None), Token(Space, "  ", None), Token(Alpha, "ул", Some(ULITSA)), Token(Punct, ".", None)], true) == "Зелёная, ул."
  {
    SqueezeWhitespace0();
    TrimNone("Зелёная" + "," + " " + "ул" + ".");
    assert "Зелёная" + "," + " " + "ул" + "." == "Зелёная, ул.";
  }

  lemma JoinWhitespace()
    ensures JoinSpec(Name([Token(Alpha, "Зелёная", None), Token(Punct, ",", None), Token(Space, "  ", None), Token(Alpha, "ул", Some(ULITSA)), Token(Punct, ".", None)], 3), NORMALIZE_WHITESPACE) == "Зелёная, ул."
  {
    ListWhitespace();
    WriteWhitespace();
  }

  /** Joining "Зелёная,  ул." with NORMALIZE_WHITESPACE gives "Зелёная, ул." (tests/tokenizer_test.cc:98). */
  lemma Whitespace(l: Locale)
    requires RuLocaleOf("ru_RU") == Success(l)
    ensures NameOf("Зелёная,  ул.", l).Valid() && JoinSpec(NameOf("Зелёная,  ул.", l), NORMALIZE_WHITESPACE) == "Зелёная, ул."
  {
    RuIsRuLike(l);
    NameIn11(l);
    JoinWhitespace();
  }

  lemma ListNoStatus()
    ensures JoinTokens(Name([Token(Alpha, "Зелёная", None), Token(Space, " ", None), Token(Alpha, "Штуковина", None)], -1), EXPAND_STATUS) == [Token(Alpha, "Зелёная", None), Token(Space, " ", None), Token(Alpha, "Штуковина", None)]
  {
  }

  lemma WriteNoStatus()
    ensures Serialize([Token(Alpha, "Зелёная", None), Token(Space, " ", None), Token(Alpha, "Штуковина", None)], false) == "Зелёная Штуковина"
  {
    TextsIn12Of0();
    assert "Зелёная" + " " + "Штуковина" == "Зелёная Штуковина";
  }

  lemma JoinNoStatus()
    ensures JoinSpec(Name([Token(Alpha, "Зелёная", None), Token(Space, " ", None), Token(Alpha, "Штуковина", None)], -1), EXPAND_STATUS) == "Зелёная Штуковина"
  {
    ListNoStatus();
    WriteNoStatus();
  }

  /** Joining "Зелёная Штуковина" with EXPAND_STATUS gives "Зелёная Штуковина" (tests/tokenizer_test.cc:102). */
  lemma NoStatus(l: Locale)
    requires RuLocaleOf("ru_RU") == Success(l)
    ensures NameOf("Зелёная Штуковина", l).Valid() && JoinSpec(NameOf("Зелёная Штуковина", l), EXPAND_STATUS) == "Зелёная Штуковина"
  {
    RuIsRuLike(l);
    NameIn12(l);
    JoinNoStatus();
  }

  lemma ListNoStatusWhitespace()
    ensures JoinTokens(Name([Token(Alpha, "Зелёная", None), Token(Space, "  ", None), Token(Alpha, "Штуковина", None)], -1), NORMALIZE_WHITESPACE) == [Token(Alpha, "Зелёная", None), Token(Space, "  ", None), Token(Alpha, "Штуковина", None)]
  {
  }

  lemma SqueezeNoStatusWhitespace()
    ensures Squeeze([Token(Alpha, "Зелёная", None), Token(Space, "  ", None), Token(Alpha, "Штуковина", None)], false) == "Зелёная" + " " + "Штуковина"
  {
    assert Squeeze([Token(Alpha, "Штуковина", None)], true) == "Штуковина";
    assert [Token(Space, "  ", None), Token(Alpha, "Штуковина", None)][1..] == [Token(Alpha, "Штуковина", None)];
    assert Squeeze([Token(Space, "  ", None), Token(Alpha, "Штуковина", None)], false) == " " + "Штуковина";
    assert [Token(Alpha, "Зелёная", None), Token(Space, "  ", None), Token(Alpha, "Штуковина", None)][1..] == [Token(Space, "  ", None), Token(Alpha, "Штуковина", None)];
  }

  lemma WriteNoStatusWhitespace()
    ensures Serialize([Token(Alpha, "Зелёная", None), Token(Space, "  ", None), Token(Alpha, "Штуковина", None)], true) == "Зелёная Штуковина"
  {
    SqueezeNoStatusWhitespace();
    TrimNone("Зелёная" + " " + "Штуковина");
    assert "Зелёная" + " " + "Штуковина" == "Зелёная Штуковина";
  }

  lemma JoinNoStatusWhitespace()
    ensures JoinSpec(Name([Token(Alpha, "Зелёная", None), Token(Space, "  ", None), Token(Alpha, "Штуковина", None)], -1), NORMALIZE_WHITESPACE) == "Зелёная Штуковина"
  {
    ListNoStatusWhitespace();
    WriteNoStatusWhitespace();
  }

  /** Joining "Зелёная  Штуковина" with NORMALIZE_WHITESPACE gives "Зелёная Штуковина" (tests/tokenizer_test.cc:108). */
  lemma NoStatusWhitespace(l: Locale)
    requires RuLocaleOf("ru_RU") == Success(l)
    ensures NameOf("Зелёная  Штуковина", l).Valid() && JoinSpec(NameOf("Зелёная  Штуковина", l), NORMALIZE_WHITESPACE) == "Зелёная Штуковина"
  {
    RuIsRuLike(l);
    NameIn13(l);
    JoinNoStatusWhitespace();
  }

  lemma EditedMatrixA1()
    ensures Edited(Name([Token(Space, " ", None), Token(Alpha, "ул", Some(ULITSA)), Token(Punct, ".", None), Token(Space, "  ", None), Token(Alpha, "Ленина", None), Token(Space, " ", None)], 1), EXPAND_STATUS | STATUS_TO_LEFT | NORMALIZE_WHITESPACE) == Draft([Token(Space, " ", None), Token(Alpha, "улица", Some(ULITSA)), Token(Space, "  ", None), Token(Alpha, "Ленина", None), Token(Space, " ", None)], 1)
  {
    assert MergeDot(Draft([Token(Space, " ", None), Token(Alpha, "улица", Some(ULITSA)), Token(Punct, ".", None), Token(Space, "  ", None), Token(Alpha, "Ленина", None), Token(Space, " ", None)], 1), EXPAND_STATUS | STATUS_TO_LEFT | NORMALIZE_PUNCT | NORMALIZE_WHITESPACE) == Draft([Token(Space, " ", None), Token(Alpha, "улица", Some(ULITSA)), Token(Space, "  ", None), Token(Alpha, "Ленина", None), Token(Space, " ", None)], 1);
    assert SpaceAfterComma(Draft([Token(Space, " ", None), Token(Alpha, "улица", Some(ULITSA)), Token(Space, "  ", None), Token(Alpha, "Ленина", None), Token(Space, " ", None)], 1), EXPAND_STATUS | STATUS_TO_LEFT | NORMALIZE_PUNCT | NORMALIZE_WHITESPACE) == Draft([Token(Space, " ", None), Token(Alpha, "улица", Some(ULITSA)), Token(Space, "  ", None), Token(Alpha, "Ленина", None), Token(Space, " ", None)], 1);
    assert CommaToSpace(Draft([Token(Space, " ", None), Token(Alpha, "улица", Some(ULITSA)), Token(Space, "  ", None), Token(Alpha, "Ленина", None), Token(Space, " ", None)], 1), EXPAND_STATUS | STATUS_TO_LEFT | NORMALIZE_PUNCT | NORMALIZE_WHITESPACE) == Draft([Token(Space, " ", None), Token(Alpha, "улица", Some(ULITSA)), Token(Space, "  ", None), Token(Alpha, "Ленина", None), Token(Space, " ", None)], 1);
  }

  lemma Without18()
    ensures Without([Token(Space, " ", None), Token(Alpha, "улица", Some(ULITSA)), Token(Space, "  ", None), Token(Alpha, "Ленина", None), Token(Space, " ", None)], 0) == [Token(Alpha, "улица", Some(ULITSA)), Token(Space, "  ", None), Token(Alpha, "Ленина", None), Token(Space, " ", None)]
  {
    assert [Token(Space, " ", None), Token(Alpha, "улица", Some(ULITSA)), Token(Space, "  ", None), Token(Alpha, "Ленина", None), Token(Space, " ", None)][..0] == [];
    assert [Token(Space, " ", None), Token(Alpha, "улица", Some(ULITSA)), Token(Space, "  ", None), Token(Alpha, "Ленина", None), Token(Space, " ", None)][1..] == [Token(Alpha, "улица", Some(ULITSA)), Token(Space, "  ", None), Token(Alpha, "Ленина", None), Token(Space, " ", None)];
  }

  lemma Unlink9Before()
    ensures DropSpaceBefore([Token(Space, " ", None), Token(Alpha, "улица", Some(ULITSA)), Token(Space, "  ", None), Token(Alpha, "Ленина", None), Token(Space, " ", None)], 1) == Unlinked([Token(Alpha, "улица", Some(ULITSA)), Token(Space, "  ", None), Token(Alpha, "Ленина", None), Token(Space, " ", None)], 0, true)
  {
    Without18();
  }

  lemma Without19()
    ensures Without([Token(Alpha, "улица", Some(ULITSA)), Token(Space, "  ", None), Token(Alpha, "Ленина", None), Token(Space, " ", None)], 1) == [Token(Alpha, "улица", Some(ULITSA)), Token(Alpha, "Ленина", None), Token(Space, " ", None)]
  {
    assert [Token(Alpha, "улица", Some(ULITSA)), Token(Space, "  ", None), Token(Alpha, "Ленина", None), Token(Space, " ", None)][..1] == [Token(Alpha, "улица", Some(ULITSA))];
    assert [Token(Alpha, "улица", Some(ULITSA)), Token(Space, "  ", None), Token(Alpha, "Ленина", None), Token(Space, " ", None)][2..] == [Token(Alpha, "Ленина", None), Token(Space, " ", None)];
  }

  lemma Unlink9Spaces()
    ensures Unspaced([Token(Space, " ", None), Token(Alpha, "улица", Some(ULITSA)), Token(Space, "  ", None), Token(Alpha, "Ленина", None), Token(Space, " ", None)], 1) == Unlinked([Token(Alpha, "улица", Some(ULITSA)), Token(Alpha, "Ленина", None), Token(Space, " ", None)], 0, true)
  {
    Unlink9Before();
    Without19();
    UnspacedSteps([Token(Space, " ", None), Token(Alpha, "улица", Some(ULITSA)), Token(Space, "  ", None), Token(Alpha, "Ленина", None), Token(Space, " ", None)], 1, [Token(Alpha, "улица", Some(ULITSA)), Token(Space, "  ", None), Token(Alpha, "Ленина", None), Token(Space, " ", None)], 0, true, [Token(Alpha, "улица", Some(ULITSA)), Token(Alpha, "Ленина", None), Token(Space, " ", None)], true);
  }

  lemma Unlink9Merge()
    ensures [Token(Alpha, "улица", Some(ULITSA)), Token(Alpha, "Ленина", None), Token(Space, " ", None)][0 := [Token(Alpha, "улица", Some(ULITSA)), Token(Alpha, "Ленина", None), Token(Space, " ", None)][0].(kind := Space, text := " ")] == [Token(Space, " ", Some(ULITSA)), Token(Alpha, "Ленина", None), Token(Space, " ", None)]
  {
    var t2 := [Token(Alpha, "улица", Some(ULITSA)), Token(Alpha, "Ленина", None), Token(Space, " ", None)];
    var u := t2[0 := t2[0].(kind := Space, text := " ")];
    assert u[0] == Token(Space, " ", Some(ULITSA)) && u[1] == t2[1] && u[2] == t2[2];
  }

  lemma Unlink9()
    ensures Unlink([Token(Space, " ", None), Token(Alpha, "улица", Some(ULITSA)), Token(Space, "  ", None), Token(Alpha, "Ленина", None), Token(Space, " ", None)], 1) == Unlinked([Token(Space, " ", Some(ULITSA)), Token(Alpha, "Ленина", None), Token(Space, " ", None)], 0, true)
  {
    Unlink9Spaces();
    Unlink9Merge();
  }

  lemma MoveMatrixA1()
    ensures MoveStatus(Draft([Token(Space, " ", None), Token(Alpha, "улица", Some(ULITSA)), Token(Space, "  ", None), Token(Alpha, "Ленина", None), Token(Space, " ", None)], 1), EXPAND_STATUS | STATUS_TO_LEFT | NORMALIZE_PUNCT | NORMALIZE_WHITESPACE) == [Token(Alpha, "улица", Some(ULITSA)), Token(Space, " ", None), Token(Space, " ", Some(ULITSA)), Token(Alpha, "Ленина", None), Token(Space, " ", None)]
  {
    Unlink9();
  }

  lemma ListMatrixA1()
    ensures JoinTokens(Name([Token(Space, " ", None), Token(Alpha, "ул", Some(ULITSA)), Token(Punct, ".", None), Token(Space, "  ", None), Token(Alpha, "Ленина", None), Token(Space, " ", None)], 1), EXPAND_STATUS | STATUS_TO_LEFT | NORMALIZE_WHITESPACE) == [Token(Alpha, "улица", Some(ULITSA)), Token(Space, " ", None), Token(Space, " ", Some(ULITSA)), Token(Alpha, "Ленина", None), Token(Space, " ", None)]
  {
    EditedMatrixA1();
    assert Effective(EXPAND_STATUS | STATUS_TO_LEFT | NORMALIZE_WHITESPACE) == EXPAND_STATUS | STATUS_TO_LEFT | NORMALIZE_PUNCT | NORMALIZE_WHITESPACE;
    JoinTokensOf(Name([Token(Space, " ", None), Token(Alpha, "ул", Some(ULITSA)), Token(Punct, ".", None), Token(Space, "  ", None), Token(Alpha, "Ленина", None), Token(Space, " ", None)], 1), EXPAND_STATUS | STATUS_TO_LEFT | NORMALIZE_WHITESPACE, Draft([Token(Space, " ", None), Token(Alpha, "улица", Some(ULITSA)), Token(Space, "  ", None), Token(Alpha, "Ленина", None), Token(Space, " ", None)], 1), EXPAND_STATUS | STATUS_TO_LEFT | NORMALIZE_PUNCT | NORMALIZE_WHITESPACE);
    MoveMatrixA1();
  }

  lemma SqueezeMatrixA11()
    ensures Squeeze([Token(Space, " ", None), Token(Space, " ", Some(ULITSA)), Token(Alpha, "Ленина", None), Token(Space, " ", None)], false) == " " + "Ленина" + " "
  {
    assert Squeeze([Token(Space, " ", None)], false) == " ";
    assert [Token(Alpha, "Ленина", None), Token(Space, " ", None)][1..] == [Token(Space, " ", None)];
    assert Squeeze([Token(Alpha, "Ленина", None), Token(Space, " ", None)], true) == "Ленина" + " ";
    assert [Token(Space, " ", Some(ULITSA)), Token(Alpha, "Ленина", None), Token(Space, " ", None)][1..] == [Token(Alpha, "Ленина", None), Token(Space, " ", None)];
    assert Squeeze([Token(Space, " ", Some(ULITSA)), Token(Alpha, "Ленина", None), Token(Space, " ", None)], true) == "Ленина" + " ";
    assert [Token(Space, " ", None), Token(Space, " ", Some(ULITSA)), Token(Alpha, "Ленина", None), Token(Space, " ", None)][1..] == [Token(Space, " ", Some(ULITSA)), Token(Alpha, "Ленина", None), Token(Space, " ", None)];
  }

  lemma SqueezeMatrixA10()
    ensures Squeeze([Token(Alpha, "улица", Some(ULITSA)), Token(Space, " ", None), Token(Space, " ", Some(ULITSA)), Token(Alpha, "Ленина", None), Token(Space, " ", None)], false) == "улица" + " " + "Ленина" + " "
  {
    SqueezeMatrixA11();
    assert [Token(Alpha, "улица", Some(ULITSA)), Token(Space, " ", None), Token(Space, " ", Some(ULITSA)), Token(Alpha, "Ленина", None), Token(Space, " ", None)][1..] == [Token(Space, " ", None), Token(Space, " ", Some(ULITSA)), Token(Alpha, "Ленина", None), Token(Space, " ", None)];
  }

  lemma WriteMatrixA1()
    ensures Serialize([Token(Alpha, "улица", Some(ULITSA)), Token(Space, " ", None), Token(Space, " ", Some(ULITSA)), Token(Alpha, "Ленина", None), Token(Space, " ", None)], true) == "улица Ленина"
  {
    SqueezeMatrixA10();
    TrimOne("улица" + " " + "Ленина", ' ');
    TrimNone("улица" + " " + "Ленина");
    assert "улица" + " " + "Ленина" == "улица Ленина";
  }

  lemma JoinMatrixA1()
    ensures JoinSpec(Name([Token(Space, " ", None), Token(Alpha, "ул", Some(ULITSA)), Token(Punct, ".", None), Token(Space, "  ", None), Token(Alpha, "Ленина", None), Token(Space, " ", None)], 1), EXPAND_STATUS | STATUS_TO_LEFT | NORMALIZE_WHITESPACE) == "улица Ленина"
  {
    ListMatrixA1();
    WriteMatrixA1();
  }

  /** The matrix of tests/tokenizer_test.cc: input line 117, flags and result of line 142. */
  lemma MatrixA1(l: Locale)
    requires RuLocaleOf("ru_RU") == Success(l)
    ensures NameOf(" ул.  Ленина ", l).Valid() && JoinSpec(NameOf(" ул.  Ленина ", l), EXPAND_STATUS | STATUS_TO_LEFT | NORMALIZE_WHITESPACE) == "улица Ленина"
  {
    RuIsRuLike(l);
    NameIn14(l);
    JoinMatrixA1();
  }

  lemma EditedMatrixA2()
    ensures Edited(Name([Token(Space, " ", None), Token(Alpha, "ул", Some(ULITSA)), Token(Punct, ".", None), Token(Space, "  ", None), Token(Alpha, "Ленина", None), Token(Space, " ", None)], 1), EXPAND_STATUS | STATUS_TO_RIGHT | NORMALIZE_WHITESPACE) == Draft([Token(Space, " ", None), Token(Alpha, "улица", Some(ULITSA)), Token(Space, "  ", None), Token(Alpha, "Ленина", None), Token(Space, " ", None)], 1)
  {
    assert MergeDot(Draft([Token(Space, " ", None), Token(Alpha, "улица", Some(ULITSA)), Token(Punct, ".", None), Token(Space, "  ", None), Token(Alpha, "Ленина", None), Token(Space, " ", None)], 1), EXPAND_STATUS | STATUS_TO_RIGHT | NORMALIZE_PUNCT | NORMALIZE_WHITESPACE) == Draft([Token(Space, " ", None), Token(Alpha, "улица", Some(ULITSA)), Token(Space, "  ", None), Token(Alpha, "Ленина", None), Token(Space, " ", None)], 1);
    assert SpaceAfterComma(Draft([Token(Space, " ", None), Token(Alpha, "улица", Some(ULITSA)), Token(Space, "  ", None), Token(Alpha, "Ленина", None), Token(Space, " ", None)], 1), EXPAND_STATUS | STATUS_TO_RIGHT | NORMALIZE_PUNCT | NORMALIZE_WHITESPACE) == Draft([Token(Space, " ", None), Token(Alpha, "улица", Some(ULITSA)), Token(Space, "  ", None), Token(Alpha, "Ленина", None), Token(Space, " ", None)], 1);
    assert CommaToSpace(Draft([Token(Space, " ", None), Token(Alpha, "улица", Some(ULITSA)), Token(Space, "  ", None), Token(Alpha, "Ленина", None), Token(Space, " ", None)], 1), EXPAND_STATUS | STATUS_TO_RIGHT | NORMALIZE_PUNCT | NORMALIZE_WHITESPACE) == Draft([Token(Space, " ", None), Token(Alpha, "улица", Some(ULITSA)), Token(Space, "  ", None), Token(Alpha, "Ленина", None), Token(Space, " ", None)], 1);
  }

  lemma MoveMatrixA2()
    ensures MoveStatus(Draft([Token(Space, " ", None), Token(Alpha, "улица", Some(ULITSA)), Token(Space, "  ", None), Token(Alpha, "Ленина", None), Token(Space, " ", None)], 1), EXPAND_STATUS | STATUS_TO_RIGHT | NORMALIZE_PUNCT | NORMALIZE_WHITESPACE) == [Token(Space, " ", Some(ULITSA)), Token(Alpha, "Ленина", None), Token(Space, " ", None), Token(Space, " ", None), Token(Alpha, "улица", Some(ULITSA))]
  {
    Unlink9();
  }

  lemma ListMatrixA2()
    ensures JoinTokens(Name([Token(Space, " ", None), Token(Alpha, "ул", Some(ULITSA)), Token(Punct, ".", None), Token(Space, "  ", None), Token(Alpha, "Ленина", None), Token(Space, " ", None)], 1), EXPAND_STATUS | STATUS_TO_RIGHT | NORMALIZE_WHITESPACE) == [Token(Space, " ", Some(ULITSA)), Token(Alpha, "Ленина", None), Token(Space, " ", None), Token(Space, " ", None), Token(Alpha, "улица", Some(ULITSA))]
  {
    EditedMatrixA2();
    assert Effective(EXPAND_STATUS | STATUS_TO_RIGHT | NORMALIZE_WHITESPACE) == EXPAND_STATUS | STATUS_TO_RIGHT | NORMALIZE_PUNCT | NORMALIZE_WHITESPACE;
    JoinTokensOf(Name([Token(Space, " ", None), Token(Alpha, "ул", Some(ULITSA)), Token(Punct, ".", None), Token(Space, "  ", None), Token(Alpha, "Ленина", None), Token(Space, " ", None)], 1), EXPAND_STATUS | STATUS_TO_RIGHT | NORMALIZE_WHITESPACE, Draft([Token(Space, " ", None), Token(Alpha, "улица", Some(ULITSA)), Token(Space, "  ", None), Token(Alpha, "Ленина", None), Token(Space, " ", None)], 1), EXPAND_STATUS | STATUS_TO_RIGHT | NORMALIZE_PUNCT | NORMALIZE_WHITESPACE);
    MoveMatrixA2();
  }

  lemma SqueezeMatrixA2()
    ensures Squeeze([Token(Alpha, "Ленина", None), Token(Space, " ", None), Token(Space, " ", None), Token(Alpha, "улица", Some(ULITSA))], false) == "Ленина" + " " + "улица"
  {
    assert Squeeze([Token(Alpha, "улица", Some(ULITSA))], true) == "улица";
    assert [Token(Space, " ", None), Token(Alpha, "улица", Some(ULITSA))][1..] == [Token(Alpha, "улица", Some(ULITSA))];
    assert Squeeze([Token(Space, " ", None), Token(Alpha, "улица", Some(ULITSA))], true) == "улица";
    assert [Token(Space, " ", None), Token(Space, " ", None), Token(Alpha, "улица", Some(ULITSA))][1..] == [Token(Space, " ", None), Token(Alpha, "улица", Some(ULITSA))];
    assert Squeeze([Token(Space, " ", None), Token(Space, " ", None), Token(Alpha, "улица", Some(ULITSA))], false) == " " + "улица";
    assert [Token(Alpha, "Ленина", None), Token(Space, " ", None), Token(Space, " ", None), Token(Alpha, "улица", Some(ULITSA))][1..] == [Token(Space, " ", None), Token(Space, " ", None), Token(Alpha, "улица", Some(ULITSA))];
  }

  lemma SkipMatrixA2()
    ensures SkipSpaces([Token(Space, " ", Some(ULITSA)), Token(Alpha, "Ленина", None), Token(Space, " ", None), Token(Space, " ", None), Token(Alpha, "улица", Some(ULITSA))]) == [Token(Alpha, "Ленина", None), Token(Space, " ", None), Token(Space, " ", None), Token(Alpha, "улица", Some(ULITSA))]
  {
    assert [Token(Space, " ", Some(ULITSA)), Token(Alpha, "Ленина", None), Token(Space, " ", None), Token(Space, " ", None), Token(Alpha, "улица", Some(ULITSA))][1..] == [Token(Alpha, "Ленина", None), Token(Space, " ", None), Token(Space, " ", None), Token(Alpha, "улица", Some(ULITSA))];
  }

  lemma WriteMatrixA2()
    ensures Serialize([Token(Space, " ", Some(ULITSA)), Token(Alpha, "Ленина", None), Token(Space, " ", None), Token(Space, " ", None), Token(Alpha, "улица", Some(ULITSA))], true) == "Ленина улица"
  {
    SkipMatrixA2();
    SqueezeMatrixA2();
    TrimNone("Ленина" + " " + "улица");
    assert "Ленина" + " " + "улица" == "Ленина улица";
  }

  lemma JoinMatrixA2()
    ensures JoinSpec(Name([Token(Space, " ", None), Token(Alpha, "ул", Some(ULITSA)), Token(Punct, ".", None), Token(Space, "  ", None), Token(Alpha, "Ленина", None), Token(Space, " ", None)], 1), EXPAND_STATUS | STATUS_TO_RIGHT | NORMALIZE_WHITESPACE) == "Ленина улица"
  {
    ListMatrixA2();
    WriteMatrixA2();
  }

  /** The matrix of tests/tokenizer_test.cc: input line 117, flags and result of line 143. */
  lemma MatrixA2(l: Locale)
    requires RuLocaleOf("ru_RU") == Success(l)
    ensures NameOf(" ул.  Ленина ", l).Valid() && JoinSpec(NameOf(" ул.  Ленина ", l), EXPAND_STATUS | STATUS_TO_RIGHT | NORMALIZE_WHITESPACE) == "Ленина улица"
  {
    RuIsRuLike(l);
    NameIn14(l);
    JoinMatrixA2();
  }

  lemma EditedMatrixA3()
    ensures Edited(Name([Token(Space, " ", None), Token(Alpha, "ул", Some(ULITSA)), Token(Punct, ".", None), Token(Space, "  ", None), Token(Alpha, "Ленина", None), Token(Space, " ", None)], 1), SHRINK_STATUS | STATUS_TO_LEFT | NORMALIZE_WHITESPACE) == Draft([Token(Space, " ", None), Token(Alpha, "ул.", Some(ULITSA)), Token(Space, "  ", None), Token(Alpha, "Ленина", None), Token(Space, " ", None)], 1)
  {
    assert MergeDot(Draft([Token(Space, " ", None), Token(Alpha, "ул.", Some(ULITSA)), Token(Punct, ".", None), Token(Space, "  ", None), Token(Alpha, "Ленина", None), Token(Space, " ", None)], 1), SHRINK_STATUS | STATUS_TO_LEFT | NORMALIZE_PUNCT | NORMALIZE_WHITESPACE) == Draft([Token(Space, " ", None), Token(Alpha, "ул.", Some(ULITSA)), Token(Space, "  ", None), Token(Alpha, "Ленина", None), Token(Space, " ", None)], 1);
    assert SpaceAfterComma(Draft([Token(Space, " ", None), Token(Alpha, "ул.", Some(ULITSA)), Token(Space, "  ", None), Token(Alpha, "Ленина", None), Token(Space, " ", None)], 1), SHRINK_STATUS | STATUS_TO_LEFT | NORMALIZE_PUNCT | NORMALIZE_WHITESPACE) == Draft([Token(Space, " ", None), Token(Alpha, "ул.", Some(ULITSA)), Token(Space, "  ", None), Token(Alpha, "Ленина", None), Token(Space, " ", None)], 1);
    assert CommaToSpace(Draft([Token(Space, " ", None), Token(Alpha, "ул.", Some(ULITSA)), Token(Space, "  ", None), Token(Alpha, "Ленина", None), Token(Space, " ", None)], 1), SHRINK_STATUS | STATUS_TO_LEFT | NORMALIZE_PUNCT | NORMALIZE_WHITESPACE) == Draft([Token(Space, " ", None), Token(Alpha, "ул.", Some(ULITSA)), Token(Space, "  ", None), Token(Alpha, "Ленина", None), Token(Space, " ", None)], 1);
  }

  lemma Without20()
    ensures Without([Token(Space, " ", None), Token(Alpha, "ул.", Some(ULITSA)), Token(Space, "  ", None), Token(Alpha, "Ленина", None), Token(Space, " ", None)], 0) == [Token(Alpha, "ул.", Some(ULITSA)), Token(Space, "  ", None), Token(Alpha, "Ленина", None), Token(Space, " ", None)]
  {
    assert [Token(Space, " ", None), Token(Alpha, "ул.", Some(ULITSA)), Token(Space, "  ", None), Token(Alpha, "Ленина", None), Token(Space, " ", None)][..0] == [];
    assert [Token(Space, " ", None), Token(Alpha, "ул.", Some(ULITSA)), Token(Space, "  ", None), Token(Alpha, "Ленина", None), Token(Space, " ", None)][1..] == [Token(Alpha, "ул.", Some(ULITSA)), Token(Space, "  ", None), Token(Alpha, "Ленина", None), Token(Space, " ", None)];
  }

  lemma Unlink10Before()
    ensures DropSpaceBefore([Token(Space, " ", None), Token(Alpha, "ул.", Some(ULITSA)), Token(Space, "  ", None), Token(Alpha, "Ленина", None), Token(Space, " ", None)], 1) == Unlinked([Token(Alpha, "ул.", Some(ULITSA)), Token(Space, "  ", None), Token(Alpha, "Ленина", None), Token(Space, " ", None)], 0, true)
  {
    Without20();
  }

  lemma Without21()
    ensures Without([Token(Alpha, "ул.", Some(ULITSA)), Token(Space, "  ", None), Token(Alpha, "Ленина", None), Token(Space, " ", None)], 1) == [Token(Alpha, "ул.", Some(ULITSA)), Token(Alpha, "Ленина", None), Token(Space, " ", None)]
  {
    assert [Token(Alpha, "ул.", Some(ULITSA)), Token(Space, "  ", None), Token(Alpha, "Ленина", None), Token(Space, " ", None)][..1] == [Token(Alpha, "ул.", Some(ULITSA))];
    assert [Token(Alpha, "ул.", Some(ULITSA)), Token(Space, "  ", None), Token(Alpha, "Ленина", None), Token(Space, " ", None)][2..] == [Token(Alpha, "Ленина", None), Token(Space, " ", None)];
  }

  lemma Unlink10Spaces()
    ensures Unspaced([Token(Space, " ", None), Token(Alpha, "ул.", Some(ULITSA)), Token(Space, "  ", None), Token(Alpha, "Ленина", None), Token(Space, " ", None)], 1) == Unlinked([Token(Alpha, "ул.", Some(ULITSA)), Token(Alpha, "Ленина", None), Token(Space, " ", None)], 0, true)
  {
    Unlink10Before();
    Without21();
    UnspacedSteps([Token(Space, " ", None), Token(Alpha, "ул.", Some(ULITSA)), Token(Space, "  ", None), Token(Alpha, "Ленина", None), Token(Space, " ", None)], 1, [Token(Alpha, "ул.", Some(ULITSA)), Token(Space, "  ", None), Token(Alpha, "Ленина", None), Token(Space, " ", None)], 0, true, [Token(Alpha, "ул.", Some(ULITSA)), Token(Alpha, "Ленина", None), Token(Space, " ", None)], true);
  }

  lemma Unlink10Merge()
    ensures [Token(Alpha, "ул.", Some(ULITSA)), Token(Alpha, "Ленина", None), Token(Space, " ", None)][0 := [Token(Alpha, "ул.", Some(ULITSA)), Token(Alpha, "Ленина", None), Token(Space, " ", None)][0].(kind := Space, text := " ")] == [Token(Space, " ", Some(ULITSA)), Token(Alpha, "Ленина", None), Token(Space, " ", None)]
  {
    var t2 := [Token(Alpha, "ул.", Some(ULITSA)), Token(Alpha, "Ленина", None), Token(Space, " ", None)];
    var u := t2[0 := t2[0].(kind := Space, text := " ")];
    assert u[0] == Token(Space, " ", Some(ULITSA)) && u[1] == t2[1] && u[2] == t2[2];
  }

  lemma Unlink10()
    ensures Unlink([Token(Space, " ", None), Token(Alpha, "ул.", Some(ULITSA)), Token(Space, "  ", None), Token(Alpha, "Ленина", None), Token(Space, " ", None)], 1) == Unlinked([Token(Space, " ", Some(ULITSA)), Token(Alpha, "Ленина", None), Token(Space, " ", None)], 0, true)
  {
    Unlink10Spaces();
    Unlink10Merge();
  }

  lemma MoveMatrixA3()
    ensures MoveStatus(Draft([Token(Space, " ", None), Token(Alpha, "ул.", Some(ULITSA)), Token(Space, "  ", None), Token(Alpha, "Ленина", None), Token(Space, " ", None)], 1), SHRINK_STATUS | STATUS_TO_LEFT | NORMALIZE_PUNCT | NORMALIZE_WHITESPACE) == [Token(Alpha, "ул.", Some(ULITSA)), Token(Space, " ", None), Token(Space, " ", Some(ULITSA)), Token(Alpha, "Ленина", None), Token(Space, " ", None)]
  {
    Unlink10();
  }

  lemma ListMatrixA3()
    ensures JoinTokens(Name([Token(Space, " ", None), Token(Alpha, "ул", Some(ULITSA)), Token(Punct, ".", None), Token(Space, "  ", None), Token(Alpha, "Ленина", None), Token(Space, " ", None)], 1), SHRINK_STATUS | STATUS_TO_LEFT | NORMALIZE_WHITESPACE) == [Token(Alpha, "ул.", Some(ULITSA)), Token(Space, " ", None), Token(Space, " ", Some(ULITSA)), Token(Alpha, "Ленина", None), Token(Space, " ", None)]
  {
    EditedMatrixA3();
    assert Effective(SHRINK_STATUS | STATUS_TO_LEFT | NORMALIZE_WHITESPACE) == SHRINK_STATUS | STATUS_TO_LEFT | NORMALIZE_PUNCT | NORMALIZE_WHITESPACE;
    JoinTokensOf(Name([Token(Space, " ", None), Token(Alpha, "ул", Some(ULITSA)), Token(Punct, ".", None), Token(Space, "  ", None), Token(Alpha, "Ленина", None), Token(Space, " ", None)], 1), SHRINK_STATUS | STATUS_TO_LEFT | NORMALIZE_WHITESPACE, Draft([Token(Space, " ", None), Token(Alpha, "ул.", Some(ULITSA)), Token(Space, "  ", None), Token(Alpha, "Ленина", None), Token(Space, " ", None)], 1), SHRINK_STATUS | STATUS_TO_LEFT | NORMALIZE_PUNCT | NORMALIZE_WHITESPACE);
    MoveMatrixA3();
  }

  lemma SqueezeMatrixA30()
    ensures Squeeze([Token(Alpha, "ул.", Some(ULITSA)), Token(Space, " ", None), Token(Space, " ", Some(ULITSA)), Token(Alpha, "Ленина", None), Token(Space, " ", None)], false) == "ул." + " " + "Ленина" + " "
  {
    SqueezeMatrixA11();
    assert [Token(Alpha, "ул.", Some(ULITSA)), Token(Space, " ", None), Token(Space, " ", Some(ULITSA)), Token(Alpha, "Ленина", None), Token(Space, " ", None)][1..] == [Token(Space, " ", None), Token(Space, " ", Some(ULITSA)), Token(Alpha, "Ленина", None), Token(Space, " ", None)];
  }

  lemma WriteMatrixA3()
    ensures Serialize([Token(Alpha, "ул.", Some(ULITSA)), Token(Space, " ", None), Token(Space, " ", Some(ULITSA)), Token(Alpha, "Ленина", None), Token(Space, " ", None)], true) == "ул. Ленина"
  {
    SqueezeMatrixA30();
    TrimOne("ул." + " " + "Ленина", ' ');
    TrimNone("ул." + " " + "Ленина");
    assert "ул." + " " + "Ленина" == "ул. Ленина";
  }

  lemma JoinMatrixA3()
    ensures JoinSpec(Name([Token(Space, " ", None), Token(Alpha, "ул", Some(ULITSA)), Token(Punct, ".", None), Token(Space, "  ", None), Token(Alpha, "Ленина", None), Token(Space, " ", None)], 1), SHRINK_STATUS | STATUS_TO_LEFT | NORMALIZE_WHITESPACE) == "ул. Ленина"
  {
    ListMatrixA3();
    WriteMatrixA3();
  }

  /** The matrix of tests/tokenizer_test.cc: input line 117, flags and result of line 144. */
  lemma MatrixA3(l: Locale)
    requires RuLocaleOf("ru_RU") == Success(l)
    ensures NameOf(" ул.  Ленина ", l).Valid() && JoinSpec(NameOf(" ул.  Ленина ", l), SHRINK_STATUS | STATUS_TO_LEFT | NORMALIZE_WHITESPACE) == "ул. Ленина"
  {
    RuIsRuLike(l);
    NameIn14(l);
    JoinMatrixA3();
  }

  lemma EditedMatrixA4()
    ensures Edited(Name([Token(Space, " ", None), Token(Alpha, "ул", Some(ULITSA)), Token(Punct, ".", None), Token(Space, "  ", None), Token(Alpha, "Ленина", None), Token(Space, " ", None)], 1), SHRINK_STATUS | STATUS_TO_RIGHT | NORMALIZE_WHITESPACE) == Draft([Token(Space, " ", None), Token(Alpha, "ул.", Some(ULITSA)), Token(Space, "  ", None), Token(Alpha, "Ленина", None), Token(Space, " ", None)], 1)
  {
    assert MergeDot(Draft([Token(Space, " ", None), Token(Alpha, "ул.", Some(ULITSA)), Token(Punct, ".", None), Token(Space, "  ", None), Token(Alpha, "Ленина", None), Token(Space, " ", None)], 1), SHRINK_STATUS | STATUS_TO_RIGHT | NORMALIZE_PUNCT | NORMALIZE_WHITESPACE) == Draft([Token(Space, " ", None), Token(Alpha, "ул.", Some(ULITSA)), Token(Space, "  ", None), Token(Alpha, "Ленина", None), Token(Space, " ", None)], 1);
    assert SpaceAfterComma(Draft([Token(Space, " ", None), Token(Alpha, "ул.", Some(ULITSA)), Token(Space, "  ", None), Token(Alpha, "Ленина", None), Token(Space, " ", None)], 1), SHRINK_STATUS | STATUS_TO_RIGHT | NORMALIZE_PUNCT | NORMALIZE_WHITESPACE) == Draft([Token(Space, " ", None), Token(Alpha, "ул.", Some(ULITSA)), Token(Space, "  ", None), Token(Alpha, "Ленина", None), Token(Space, " ", None)], 1);
    assert CommaToSpace(Draft([Token(Space, " ", None), Token(Alpha, "ул.", Some(ULITSA)), Token(Space, "  ", None), Token(Alpha, "Ленина", None), Token(Space, " ", None)], 1), SHRINK_STATUS | STATUS_TO_RIGHT | NORMALIZE_PUNCT | NORMALIZE_WHITESPACE) == Draft([Token(Space, " ", None), Token(Alpha, "ул.", Some(ULITSA)), Token(Space, "  ", None), Token(Alpha, "Ленина", None), Token(Space, " ", None)], 1);
  }

  lemma MoveMatrixA4()
    ensures MoveStatus(Draft([Token(Space, " ", None), Token(Alpha, "ул.", Some(ULITSA)), Token(Space, "  ", None), Token(Alpha, "Ленина", None), Token(Space, " ", None)], 1), SHRINK_STATUS | STATUS_TO_RIGHT | NORMALIZE_PUNCT | NORMALIZE_WHITESPACE) == [Token(Space, " ", Some(ULITSA)), Token(Alpha, "Ленина", None), Token(Space, " ", None), Token(Space, " ", None), Token(Alpha, "ул.", Some(ULITSA))]
  {
    Unlink10();
  }

  lemma ListMatrixA4()
    ensures JoinTokens(Name([Token(Space, " ", None), Token(Alpha, "ул", Some(ULITSA)), Token(Punct, ".", None), Token(Space, "  ", None), Token(Alpha, "Ленина", None), Token(Space, " ", None)], 1), SHRINK_STATUS | STATUS_TO_RIGHT | NORMALIZE_WHITESPACE) == [Token(Space, " ", Some(ULITSA)), Token(Alpha, "Ленина", None), Token(Space, " ", None), Token(Space, " ", None), Token(Alpha, "ул.", Some(ULITSA))]
  {
    EditedMatrixA4();
    assert Effective(SHRINK_STATUS | STATUS_TO_RIGHT | NORMALIZE_WHITESPACE) == SHRINK_STATUS | STATUS_TO_RIGHT | NORMALIZE_PUNCT | NORMALIZE_WHITESPACE;
    JoinTokensOf(Name([Token(Space, " ", None), Token(Alpha, "ул", Some(ULITSA)), Token(Punct, ".", None), Token(Space, "  ", None), Token(Alpha, "Ленина", None), Token(Space, " ", None)], 1), SHRINK_STATUS | STATUS_TO_RIGHT | NORMALIZE_WHITESPACE, Draft([Token(Space, " ", None), Token(Alpha, "ул.", Some(ULITSA)), Token(Space, "  ", None), Token(Alpha, "Ленина", None), Token(Space, " ", None)], 1), SHRINK_STATUS | STATUS_TO_RIGHT | NORMALIZE_PUNCT | NORMALIZE_WHITESPACE);
    MoveMatrixA4();
  }

  lemma SqueezeMatrixA4()
    ensures Squeeze([Token(Alpha, "Ленина", None), Token(Space, " ", None), Token(Space, " ", None), Token(Alpha, "ул.", Some(ULITSA))], false) == "Ленина" + " " + "ул."
  {
    assert Squeeze([Token(Alpha, "ул.", Some(ULITSA))], true) == "ул.";
    assert [Token(Space, " ", None), Token(Alpha, "ул.", Some(ULITSA))][1..] == [Token(Alpha, "ул.", Some(ULITSA))];
    assert Squeeze([Token(Space, " ", None), Token(Alpha, "ул.", Some(ULITSA))], true) == "ул.";
    assert [Token(Space, " ", None), Token(Space, " ", None), Token(Alpha, "ул.", Some(ULITSA))][1..] == [Token(Space, " ", None), Token(Alpha, "ул.", Some(ULITSA))];
    assert Squeeze([Token(Space, " ", None), Token(Space, " ", None), Token(Alpha, "ул.", Some(ULITSA))], false) == " " + "ул.";
    assert [Token(Alpha, "Ленина", None), Token(Space, " ", None), Token(Space, " ", None), Token(Alpha, "ул.", Some(ULITSA))][1..] == [Token(Space, " ", None), Token(Space, " ", None), Token(Alpha, "ул.", Some(ULITSA))];
  }

  lemma SkipMatrixA4()
    ensures SkipSpaces([Token(Space, " ", Some(ULITSA)), Token(Alpha, "Ленина", None), Token(Space, " ", None), Token(Space, " ", None), Token(Alpha, "ул.", Some(ULITSA))]) == [Token(Alpha, "Ленина", None), Token(Space, " ", None), Token(Space, " ", None), Token(Alpha, "ул.", Some(ULITSA))]
  {
    assert [Token(Space, " ", Some(ULITSA)), Token(Alpha, "Ленина", None), Token(Space, " ", None), Token(Space, " ", None), Token(Alpha, "ул.", Some(ULITSA))][1..] == [Token(Alpha, "Ленина", None), Token(Space, " ", None), Token(Space, " ", None), Token(Alpha, "ул.", Some(ULITSA))];
  }

  lemma WriteMatrixA4()
    ensures Serialize([Token(Space, " ", Some(ULITSA)), Token(Alpha, "Ленина", None), Token(Space, " ", None), Token(Space, " ", None), Token(Alpha, "ул.", Some(ULITSA))], true) == "Ленина ул."
  {
    SkipMatrixA4();
    SqueezeMatrixA4();
    TrimNone("Ленина" + " " + "ул.");
    assert "Ленина" + " " + "ул." == "Ленина ул.";
  }

  lemma JoinMatrixA4()
    ensures JoinSpec(Name([Token(Space, " ", None), Token(Alpha, "ул", Some(ULITSA)), Token(Punct, ".", None), Token(Space, "  ", None), Token(Alpha, "Ленина", None), Token(Space, " ", None)], 1), SHRINK_STATUS | STATUS_TO_RIGHT | NORMALIZE_WHITESPACE) == "Ленина ул."
  {
    ListMatrixA4();
    WriteMatrixA4();
  }

  /** The matrix of tests/tokenizer_test.cc: input line 117, flags and result of line 145. */
  lemma MatrixA4(l: Locale)
    requires RuLocaleOf("ru_RU") == Success(l)
    ensures NameOf(" ул.  Ленина ", l).Valid() && JoinSpec(NameOf(" ул.  Ленина ", l), SHRINK_STATUS | STATUS_TO_RIGHT | NORMALIZE_WHITESPACE) == "Ленина ул."
  {
    RuIsRuLike(l);
    NameIn14(l);
    JoinMatrixA4();
  }

  lemma EditedMatrixB1()
    ensures Edited(Name([Token(Alpha, "Ленина", None), Token(Punct, ",", None), Token(Space, " ", None), Token(Alpha, "УЛИЦА", Some(ULITSA))], 3), EXPAND_STATUS | STATUS_TO_LEFT | NORMALIZE_WHITESPACE) == Draft([Token(Alpha, "Ленина", None), Token(Space, " ", None), Token(Alpha, "улица", Some(ULITSA))], 2)
  {
    assert MergeDot(Draft([Token(Alpha, "Ленина", None), Token(Punct, ",", None), Token(Space, " ", None), Token(Alpha, "улица", Some(ULITSA))], 3), EXPAND_STATUS | STATUS_TO_LEFT | NORMALIZE_PUNCT | NORMALIZE_WHITESPACE) == Draft([Token(Alpha, "Ленина", None), Token(Punct, ",", None), Token(Space, " ", None), Token(Alpha, "улица", Some(ULITSA))], 3);
    assert SpaceAfterComma(Draft([Token(Alpha, "Ленина", None), Token(Punct, ",", None), Token(Space, " ", None), Token(Alpha, "улица", Some(ULITSA))], 3), EXPAND_STATUS | STATUS_TO_LEFT | NORMALIZE_PUNCT | NORMALIZE_WHITESPACE) == Draft([Token(Alpha, "Ленина", None), Token(Punct, ",", None), Token(Space, " ", None), Token(Alpha, "улица", Some(ULITSA))], 3);
    assert CommaToSpace(Draft([Token(Alpha, "Ленина", None), Token(Punct, ",", None), Token(Space, " ", None), Token(Alpha, "улица", Some(ULITSA))], 3), EXPAND_STATUS | STATUS_TO_LEFT | NORMALIZE_PUNCT | NORMALIZE_WHITESPACE) == Draft([Token(Alpha, "Ленина", None), Token(Space, " ", None), Token(Alpha, "улица", Some(ULITSA))], 2);
  }

  lemma Without22()
    ensures Without([Token(Alpha, "Ленина", None), Token(Space, " ", None), Token(Alpha, "улица", Some(ULITSA))], 1) == [Token(Alpha, "Ленина", None), Token(Alpha, "улица", Some(ULITSA))]
  {
    assert [Token(Alpha, "Ленина", None), Token(Space, " ", None), Token(Alpha, "улица", Some(ULITSA))][..1] == [Token(Alpha, "Ленина", None)];
    assert [Token(Alpha, "Ленина", None), Token(Space, " ", None), Token(Alpha, "улица", Some(ULITSA))][2..] == [Token(Alpha, "улица", Some(ULITSA))];
  }

  lemma Unlink11Before()
    ensures DropSpaceBefore([Token(Alpha, "Ленина", None), Token(Space, " ", None), Token(Alpha, "улица", Some(ULITSA))], 2) == Unlinked([Token(Alpha, "Ленина", None), Token(Alpha, "улица", Some(ULITSA))], 1, true)
  {
    Without22();
  }

  lemma Unlink11Spaces()
    ensures Unspaced([Token(Alpha, "Ленина", None), Token(Space, " ", None), Token(Alpha, "улица", Some(ULITSA))], 2) == Unlinked([Token(Alpha, "Ленина", None), Token(Alpha, "улица", Some(ULITSA))], 1, false)
  {
    Unlink11Before();
    UnspacedSteps([Token(Alpha, "Ленина", None), Token(Space, " ", None), Token(Alpha, "улица", Some(ULITSA))], 2, [Token(Alpha, "Ленина", None), Token(Alpha, "улица", Some(ULITSA))], 1, true, [Token(Alpha, "Ленина", None), Token(Alpha, "улица", Some(ULITSA))], false);
  }

  lemma Without23()
    ensures Without([Token(Alpha, "Ленина", None), Token(Alpha, "улица", Some(ULITSA))], 1) == [Token(Alpha, "Ленина", None)]
  {
    assert [Token(Alpha, "Ленина", None), Token(Alpha, "улица", Some(ULITSA))][..1] == [Token(Alpha, "Ленина", None)];
    assert [Token(Alpha, "Ленина", None), Token(Alpha, "улица", Some(ULITSA))][2..] == [];
  }

  lemma Unlink11()
    ensures Unlink([Token(Alpha, "Ленина", None), Token(Space, " ", None), Token(Alpha, "улица", Some(ULITSA))], 2) == Unlinked([Token(Alpha, "Ленина", None)], 1, false)
  {
    Unlink11Spaces();
    Without23();
  }

  lemma MoveMatrixB1()
    ensures MoveStatus(Draft([Token(Alpha, "Ленина", None), Token(Space, " ", None), Token(Alpha, "улица", Some(ULITSA))], 2), EXPAND_STATUS | STATUS_TO_LEFT | NORMALIZE_PUNCT | NORMALIZE_WHITESPACE) == [Token(Alpha, "улица", Some(ULITSA)), Token(Space, " ", None), Token(Alpha, "Ленина", None)]
  {
    Unlink11();
  }

  lemma ListMatrixB1()
    ensures JoinTokens(Name([Token(Alpha, "Ленина", None), Token(Punct, ",", None), Token(Space, " ", None), Token(Alpha, "УЛИЦА", Some(ULITSA))], 3), EXPAND_STATUS | STATUS_TO_LEFT | NORMALIZE_WHITESPACE) == [Token(Alpha, "улица", Some(ULITSA)), Token(Space, " ", None), Token(Alpha, "Ленина", None)]
  {
    EditedMatrixB1();
    assert Effective(EXPAND_STATUS | STATUS_TO_LEFT | NORMALIZE_WHITESPACE) == EXPAND_STATUS | STATUS_TO_LEFT | NORMALIZE_PUNCT | NORMALIZE_WHITESPACE;
    JoinTokensOf(Name([Token(Alpha, "Ленина", None), Token(Punct, ",", None), Token(Space, " ", None), Token(Alpha, "УЛИЦА", Some(ULITSA))], 3), EXPAND_STATUS | STATUS_TO_LEFT | NORMALIZE_WHITESPACE, Draft([Token(Alpha, "Ленина", None), Token(Space, " ", None), Token(Alpha, "улица", Some(ULITSA))], 2), EXPAND_STATUS | STATUS_TO_LEFT | NORMALIZE_PUNCT | NORMALIZE_WHITESPACE);
    MoveMatrixB1();
  }

  lemma SqueezeMatrixB1()
    ensures Squeeze([Token(Alpha, "улица", Some(ULITSA)), Token(Space, " ", None), Token(Alpha, "Ленина", None)], false) == "улица" + " " + "Ленина"
  {
    assert Squeeze([Token(Alpha, "Ленина", None)], true) == "Ленина";
    assert [Token(Space, " ", None), Token(Alpha, "Ленина", None)][1..] == [Token(Alpha, "Ленина", None)];
    assert Squeeze([Token(Space, " ", None), Token(Alpha, "Ленина", None)], false) == " " + "Ленина";
    assert [Token(Alpha, "улица", Some(ULITSA)), Token(Space, " ", None), Token(Alpha, "Ленина", None)][1..] == [Token(Space, " ", None), Token(Alpha, "Ленина", None)];
  }

  lemma WriteMatrixB1()
    ensures Serialize([Token(Alpha, "улица", Some(ULITSA)), Token(Space, " ", None), Token(Alpha, "Ленина", None)], true) == "улица Ленина"
  {
    SqueezeMatrixB1();
    TrimNone("улица" + " " + "Ленина");
    assert "улица" + " " + "Ленина" == "улица Ленина";
  }

  lemma JoinMatrixB1()
    ensures JoinSpec(Name([Token(Alpha, "Ленина", None), Token(Punct, ",", None), Token(Space, " ", None), Token(Alpha, "УЛИЦА", Some(ULITSA))], 3), EXPAND_STATUS | STATUS_TO_LEFT | NORMALIZE_WHITESPACE) == "улица Ленина"
  {
    ListMatrixB1();
    WriteMatrixB1();
  }

  /** The matrix of tests/tokenizer_test.cc: input line 129, flags and result of line 142. */
  lemma MatrixB1(l: Locale)
    requires RuLocaleOf("ru_RU") == Success(l)
    ensures NameOf("Ленина, УЛИЦА", l).Valid() && JoinSpec(NameOf("Ленина, УЛИЦА", l), EXPAND_STATUS | STATUS_TO_LEFT | NORMALIZE_WHITESPACE) == "улица Ленина"
  {
    RuIsRuLike(l);
    NameIn15(l);
    JoinMatrixB1();
  }

  lemma EditedMatrixB2()
    ensures Edited(Name([Token(Alpha, "Ленина", None), Token(Punct, ",", None), Token(Space, " ", None), Token(Alpha, "УЛИЦА", Some(ULITSA))], 3), EXPAND_STATUS | STATUS_TO_RIGHT | NORMALIZE_WHITESPACE) == Draft([Token(Alpha, "Ленина", None), Token(Space, " ", None), Token(Alpha, "улица", Some(ULITSA))], 2)
  {
    assert MergeDot(Draft([Token(Alpha, "Ленина", None), Token(Punct, ",", None), Token(Space, " ", None), Token(Alpha, "улица", Some(ULITSA))], 3), EXPAND_STATUS | STATUS_TO_RIGHT | NORMALIZE_PUNCT | NORMALIZE_WHITESPACE) == Draft([Token(Alpha, "Ленина", None), Token(Punct, ",", None), Token(Space, " ", None), Token(Alpha, "улица", Some(ULITSA))], 3);
    assert SpaceAfterComma(Draft([Token(Alpha, "Ленина", None), Token(Punct, ",", None), Token(Space, " ", None), Token(Alpha, "улица", Some(ULITSA))], 3), EXPAND_STATUS | STATUS_TO_RIGHT | NORMALIZE_PUNCT | NORMALIZE_WHITESPACE) == Draft([Token(Alpha, "Ленина", None), Token(Punct, ",", None), Token(Space, " ", None), Token(Alpha, "улица", Some(ULITSA))], 3);
    assert CommaToSpace(Draft([Token(Alpha, "Ленина", None), Token(Punct, ",", None), Token(Space, " ", None), Token(Alpha, "улица", Some(ULITSA))], 3), EXPAND_STATUS | STATUS_TO_RIGHT | NORMALIZE_PUNCT | NORMALIZE_WHITESPACE) == Draft([Token(Alpha, "Ленина", None), Token(Space, " ", None), Token(Alpha, "улица", Some(ULITSA))], 2);
  }

  lemma ListMatrixB2()
    ensures JoinTokens(Name([Token(Alpha, "Ленина", None), Token(Punct, ",", None), Token(Space, " ", None), Token(Alpha, "УЛИЦА", Some(ULITSA))], 3), EXPAND_STATUS | STATUS_TO_RIGHT | NORMALIZE_WHITESPACE) == [Token(Alpha, "Ленина", None), Token(Space, " ", None), Token(Alpha, "улица", Some(ULITSA))]
  {
    EditedMatrixB2();
    assert Effective(EXPAND_STATUS | STATUS_TO_RIGHT | NORMALIZE_WHITESPACE) == EXPAND_STATUS | STATUS_TO_RIGHT | NORMALIZE_PUNCT | NORMALIZE_WHITESPACE;
    JoinTokensOf(Name([Token(Alpha, "Ленина", None), Token(Punct, ",", None), Token(Space, " ", None), Token(Alpha, "УЛИЦА", Some(ULITSA))], 3), EXPAND_STATUS | STATUS_TO_RIGHT | NORMALIZE_WHITESPACE, Draft([Token(Alpha, "Ленина", None), Token(Space, " ", None), Token(Alpha, "улица", Some(ULITSA))], 2), EXPAND_STATUS | STATUS_TO_RIGHT | NORMALIZE_PUNCT | NORMALIZE_WHITESPACE);
  }

  lemma SqueezeMatrixB2()
    ensures Squeeze([Token(Alpha, "Ленина", None), Token(Space, " ", None), Token(Alpha, "улица", Some(ULITSA))], false) == "Ленина" + " " + "улица"
  {
    assert Squeeze([Token(Alpha, "улица", Some(ULITSA))], true) == "улица";
    assert [Token(Space, " ", None), Token(Alpha, "улица", Some(ULITSA))][1..] == [Token(Alpha, "улица", Some(ULITSA))];
    assert Squeeze([Token(Space, " ", None), Token(Alpha, "улица", Some(ULITSA))], false) == " " + "улица";
    assert [Token(Alpha, "Ленина", None), Token(Space, " ", None), Token(Alpha, "улица", Some(ULITSA))][1..] == [Token(Space, " ", None), Token(Alpha, "улица", Some(ULITSA))];
  }

  lemma WriteMatrixB2()
    ensures Serialize([Token(Alpha, "Ленина", None), Token(Space, " ", None), Token(Alpha, "улица", Some(ULITSA))], true) == "Ленина улица"
  {
    SqueezeMatrixB2();
    TrimNone("Ленина" + " " + "улица");
    assert "Ленина" + " " + "улица" == "Ленина улица";
  }

  lemma JoinMatrixB2()
    ensures JoinSpec(Name([Token(Alpha, "Ленина", None), Token(Punct, ",", None), Token(Space, " ", None), Token(Alpha, "УЛИЦА", Some(ULITSA))], 3), EXPAND_STATUS | STATUS_TO_RIGHT | NORMALIZE_WHITESPACE) == "Ленина улица"
  {
    ListMatrixB2();
    WriteMatrixB2();
  }

  /** The matrix of tests/tokenizer_test.cc: input line 129, flags and result of line 143. */
  lemma MatrixB2(l: Locale)
    requires RuLocaleOf("ru_RU") == Success(l)
    ensures NameOf("Ленина, УЛИЦА", l).Valid() && JoinSpec(NameOf("Ленина, УЛИЦА", l), EXPAND_STATUS | STATUS_TO_RIGHT | NORMALIZE_WHITESPACE) == "Ленина улица"
  {
    RuIsRuLike(l);
    NameIn15(l);
    JoinMatrixB2();
  }

  lemma EditedMatrixB3()
    ensures Edited(Name([Token(Alpha, "Ленина", None), Token(Punct, ",", None), Token(Space, " ", None), Token(Alpha, "УЛИЦА", Some(ULITSA))], 3), SHRINK_STATUS | STATUS_TO_LEFT | NORMALIZE_WHITESPACE) == Draft([Token(Alpha, "Ленина", None), Token(Space, " ", None), Token(Alpha, "ул.", Some(ULITSA))], 2)
  {
    assert MergeDot(Draft([Token(Alpha, "Ленина", None), Token(Punct, ",", None), Token(Space, " ", None), Token(Alpha, "ул.", Some(ULITSA))], 3), SHRINK_STATUS | STATUS_TO_LEFT | NORMALIZE_PUNCT | NORMALIZE_WHITESPACE) == Draft([Token(Alpha, "Ленина", None), Token(Punct, ",", None), Token(Space, " ", None), Token(Alpha, "ул.", Some(ULITSA))], 3);
    assert SpaceAfterComma(Draft([Token(Alpha, "Ленина", None), Token(Punct, ",", None), Token(Space, " ", None), Token(Alpha, "ул.", Some(ULITSA))], 3), SHRINK_STATUS | STATUS_TO_LEFT | NORMALIZE_PUNCT | NORMALIZE_WHITESPACE) == Draft([Token(Alpha, "Ленина", None), Token(Punct, ",", None), Token(Space, " ", None), Token(Alpha, "ул.", Some(ULITSA))], 3);
    assert CommaToSpace(Draft([Token(Alpha, "Ленина", None), Token(Punct, ",", None), Token(Space, " ", None), Token(Alpha, "ул.", Some(ULITSA))], 3), SHRINK_STATUS | STATUS_TO_LEFT | NORMALIZE_PUNCT | NORMALIZE_WHITESPACE) == Draft([Token(Alpha, "Ленина", None), Token(Space, " ", None), Token(Alpha, "ул.", Some(ULITSA))], 2);
  }

  lemma Without24()
    ensures Without([Token(Alpha, "Ленина", None), Token(Space, " ", None), Token(Alpha, "ул.", Some(ULITSA))], 1) == [Token(Alpha, "Ленина", None), Token(Alpha, "ул.", Some(ULITSA))]
  {
    assert [Token(Alpha, "Ленина", None), Token(Space, " ", None), Token(Alpha, "ул.", Some(ULITSA))][..1] == [Token(Alpha, "Ленина", None)];
    assert [Token(Alpha, "Ленина", None), Token(Space, " ", None), Token(Alpha, "ул.", Some(ULITSA))][2..] == [Token(Alpha, "ул.", Some(ULITSA))];
  }

  lemma Unlink12Before()
    ensures DropSpaceBefore([Token(Alpha, "Ленина", None), Token(Space, " ", None), Token(Alpha, "ул.", Some(ULITSA))], 2) == Unlinked([Token(Alpha, "Ленина", None), Token(Alpha, "ул.", Some(ULITSA))], 1, true)
  {
    Without24();
  }

  lemma Unlink12Spaces()
    ensures Unspaced([Token(Alpha, "Ленина", None), Token(Space, " ", None), Token(Alpha, "ул.", Some(ULITSA))], 2) == Unlinked([Token(Alpha, "Ленина", None), Token(Alpha, "ул.", Some(ULITSA))], 1, false)
  {
    Unlink12Before();
    UnspacedSteps([Token(Alpha, "Ленина", None), Token(Space, " ", None), Token(Alpha, "ул.", Some(ULITSA))], 2, [Token(Alpha, "Ленина", None), Token(Alpha, "ул.", Some(ULITSA))], 1, true, [Token(Alpha, "Ленина", None), Token(Alpha, "ул.", Some(ULITSA))], false);
  }

  lemma Without25()
    ensures Without([Token(Alpha, "Ленина", None), Token(Alpha, "ул.", Some(ULITSA))], 1) == [Token(Alpha, "Ленина", None)]
  {
    assert [Token(Alpha, "Ленина", None), Token(Alpha, "ул.", Some(ULITSA))][..1] == [Token(Alpha, "Ленина", None)];
    assert [Token(Alpha, "Ленина", None), Token(Alpha, "ул.", Some(ULITSA))][2..] == [];
  }

  lemma Unlink12()
    ensures Unlink([Token(Alpha, "Ленина", None), Token(Space, " ", None), Token(Alpha, "ул.", Some(ULITSA))], 2) == Unlinked([Token(Alpha, "Ленина", None)], 1, false)
  {
    Unlink12Spaces();
    Without25();
  }

  lemma MoveMatrixB3()
    ensures MoveStatus(Draft([Token(Alpha, "Ленина", None), Token(Space, " ", None), Token(Alpha, "ул.", Some(ULITSA))], 2), SHRINK_STATUS | STATUS_TO_LEFT | NORMALIZE_PUNCT | NORMALIZE_WHITESPACE) == [Token(Alpha, "ул.", Some(ULITSA)), Token(Space, " ", None), Token(Alpha, "Ленина", None)]
  {
    Unlink12();
  }

  lemma ListMatrixB3()
    ensures JoinTokens(Name([Token(Alpha, "Ленина", None), Token(Punct, ",", None), Token(Space, " ", None), Token(Alpha, "УЛИЦА", Some(ULITSA))], 3), SHRINK_STATUS | STATUS_TO_LEFT | NORMALIZE_WHITESPACE) == [Token(Alpha, "ул.", Some(ULITSA)), Token(Space, " ", None), Token(Alpha, "Ленина", None)]
  {
    EditedMatrixB3();
    assert Effective(SHRINK_STATUS | STATUS_TO_LEFT | NORMALIZE_WHITESPACE) == SHRINK_STATUS | STATUS_TO_LEFT | NORMALIZE_PUNCT | NORMALIZE_WHITESPACE;
    JoinTokensOf(Name([Token(Alpha, "Ленина", None), Token(Punct, ",", None), Token(Space, " ", None), Token(Alpha, "УЛИЦА", Some(ULITSA))], 3), SHRINK_STATUS | STATUS_TO_LEFT | NORMALIZE_WHITESPACE, Draft([Token(Alpha, "Ленина", None), Token(Space, " ", None), Token(Alpha, "ул.", Some(ULITSA))], 2), SHRINK_STATUS | STATUS_TO_LEFT | NORMALIZE_PUNCT | NORMALIZE_WHITESPACE);
    MoveMatrixB3();
  }

  lemma SqueezeMatrixB3()
    ensures Squeeze([Token(Alpha, "ул.", Some(ULITSA)), Token(Space, " ", None), Token(Alpha, "Ленина", None)], false) == "ул." + " " + "Ленина"
  {
    assert Squeeze([Token(Alpha, "Ленина", None)], true) == "Ленина";
    assert [Token(Space, " ", None), Token(Alpha, "Ленина", None)][1..] == [Token(Alpha, "Ленина", None)];
    assert Squeeze([Token(Space, " ", None), Token(Alpha, "Ленина", None)], false) == " " + "Ленина";
    assert [Token(Alpha, "ул.", Some(ULITSA)), Token(Space, " ", None), Token(Alpha, "Ленина", None)][1..] == [Token(Space, " ", None), Token(Alpha, "Ленина", None)];
  }

  lemma WriteMatrixB3()
    ensures Serialize([Token(Alpha, "ул.", Some(ULITSA)), Token(Space, " ", None), Token(Alpha, "Ленина", None)], true) == "ул. Ленина"
  {
    SqueezeMatrixB3();
    TrimNone("ул." + " " + "Ленина");
    assert "ул." + " " + "Ленина" == "ул. Ленина";
  }

  lemma JoinMatrixB3()
    ensures JoinSpec(Name([Token(Alpha, "Ленина", None), Token(Punct, ",", None), Token(Space, " ", None), Token(Alpha, "УЛИЦА", Some(ULITSA))], 3), SHRINK_STATUS | STATUS_TO_LEFT | NORMALIZE_WHITESPACE) == "ул. Ленина"
  {
    ListMatrixB3();
    WriteMatrixB3();
  }

  /** The matrix of tests/tokenizer_test.cc: input line 129, flags and result of line 144. */
  lemma MatrixB3(l: Locale)
    requires RuLocaleOf("ru_RU") == Success(l)
    ensures NameOf("Ленина, УЛИЦА", l).Valid() && JoinSpec(NameOf("Ленина, УЛИЦА", l), SHRINK_STATUS | STATUS_TO_LEFT | NORMALIZE_WHITESPACE) == "ул. Ленина"
  {
    RuIsRuLike(l);
    NameIn15(l);
    JoinMatrixB3();
  }

  lemma EditedMatrixB4()
    ensures Edited(Name([Token(Alpha, "Ленина", None), Token(Punct, ",", None), Token(Space, " ", None), Token(Alpha, "УЛИЦА", Some(ULITSA))], 3), SHRINK_STATUS | STATUS_TO_RIGHT | NORMALIZE_WHITESPACE) == Draft([Token(Alpha, "Ленина", None), Token(Space, " ", None), Token(Alpha, "ул.", Some(ULITSA))], 2)
  {
    assert MergeDot(Draft([Token(Alpha, "Ленина", None), Token(Punct, ",", None), Token(Space, " ", None), Token(Alpha, "ул.", Some(ULITSA))], 3), SHRINK_STATUS | STATUS_TO_RIGHT | NORMALIZE_PUNCT | NORMALIZE_WHITESPACE) == Draft([Token(Alpha, "Ленина", None), Token(Punct, ",", None), Token(Space, " ", None), Token(Alpha, "ул.", Some(ULITSA))], 3);
    assert SpaceAfterComma(Draft([Token(Alpha, "Ленина", None), Token(Punct, ",", None), Token(Space, " ", None), Token(Alpha, "ул.", Some(ULITSA))], 3), SHRINK_STATUS | STATUS_TO_RIGHT | NORMALIZE_PUNCT | NORMALIZE_WHITESPACE) == Draft([Token(Alpha, "Ленина", None), Token(Punct, ",", None), Token(Space, " ", None), Token(Alpha, "ул.", Some(ULITSA))], 3);
    assert CommaToSpace(Draft([Token(Alpha, "Ленина", None), Token(Punct, ",", None), Token(Space, " ", None), Token(Alpha, "ул.", Some(ULITSA))], 3), SHRINK_STATUS | STATUS_TO_RIGHT | NORMALIZE_PUNCT | NORMALIZE_WHITESPACE) == Draft([Token(Alpha, "Ленина", None), Token(Space, " ", None), Token(Alpha, "ул.", Some(ULITSA))], 2);
  }

  lemma ListMatrixB4()
    ensures JoinTokens(Name([Token(Alpha, "Ленина", None), Token(Punct, ",", None), Token(Space, " ", None), Token(Alpha, "УЛИЦА", Some(ULITSA))], 3), SHRINK_STATUS | STATUS_TO_RIGHT | NORMALIZE_WHITESPACE) == [Token(Alpha, "Ленина", None), Token(Space, " ", None), Token(Alpha, "ул.", Some(ULITSA))]
  {
    EditedMatrixB4();
    assert Effective(SHRINK_STATUS | STATUS_TO_RIGHT | NORMALIZE_WHITESPACE) == SHRINK_STATUS | STATUS_TO_RIGHT | NORMALIZE_PUNCT | NORMALIZE_WHITESPACE;
    JoinTokensOf(Name([Token(Alpha, "Ленина", None), Token(Punct, ",", None), Token(Space, " ", None), Token(Alpha, "УЛИЦА", Some(ULITSA))], 3), SHRINK_STATUS | STATUS_TO_RIGHT | NORMALIZE_WHITESPACE, Draft([Token(Alpha, "Ленина", None), Token(Space, " ", None), Token(Alpha, "ул.", Some(ULITSA))], 2), SHRINK_STATUS | STATUS_TO_RIGHT | NORMALIZE_PUNCT | NORMALIZE_WHITESPACE);
  }

  lemma SqueezeMatrixB4()
    ensures Squeeze([Token(Alpha, "Ленина", None), Token(Space, " ", None), Token(Alpha, "ул.", Some(ULITSA))], false) == "Ленина" + " " + "ул."
  {
    assert Squeeze([Token(Alpha, "ул.", Some(ULITSA))], true) == "ул.";
    assert [Token(Space, " ", None), Token(Alpha, "ул.", Some(ULITSA))][1..] == [Token(Alpha, "ул.", Some(ULITSA))];
    assert Squeeze([Token(Space, " ", None), Token(Alpha, "ул.", Some(ULITSA))], false) == " " + "ул.";
    assert [Token(Alpha, "Ленина", None), Token(Space, " ", None), Token(Alpha, "ул.", Some(ULITSA))][1..] == [Token(Space, " ", None), Token(Alpha, "ул.", Some(ULITSA))];
  }

  lemma WriteMatrixB4()
    ensures Serialize([Token(Alpha, "Ленина", None), Token(Space, " ", None), Token(Alpha, "ул.", Some(ULITSA))], true) == "Ленина ул."
  {
    SqueezeMatrixB4();
    TrimNone("Ленина" + " " + "ул.");
    assert "Ленина" + " " + "ул." == "Ленина ул.";
  }

  lemma JoinMatrixB4()
    ensures JoinSpec(Name([Token(Alpha, "Ленина", None), Token(Punct, ",", None), Token(Space, " ", None), Token(Alpha, "УЛИЦА", Some(ULITSA))], 3), SHRINK_STATUS | STATUS_TO_RIGHT | NORMALIZE_WHITESPACE) == "Ленина ул."
  {
    ListMatrixB4();
    WriteMatrixB4();
  }

  /** The matrix of tests/tokenizer_test.cc: input line 129, flags and result of line 145. */
  lemma MatrixB4(l: Locale)
    requires RuLocaleOf("ru_RU") == Success(l)
    ensures NameOf("Ленина, УЛИЦА", l).Valid() && JoinSpec(NameOf("Ленина, УЛИЦА", l), SHRINK_STATUS | STATUS_TO_RIGHT | NORMALIZE_WHITESPACE) == "Ленина ул."
  {
    RuIsRuLike(l);
    NameIn15(l);
    JoinMatrixB4();
  }

  /** With no status part the status flags change nothing (tests/tokenizer_test.cc:103-106). */
  lemma NoStatusFlags(l: Locale)
    requires RuLocaleOf("ru_RU") == Success(l)
    ensures NameOf("Зелёная Штуковина", l).Valid()
    ensures JoinSpec(NameOf("Зелёная Штуковина", l), SHRINK_STATUS) == "Зелёная Штуковина"
    ensures JoinSpec(NameOf("Зелёная Штуковина", l), REMOVE_ALL_STATUSES) == "Зелёная Штуковина"
    ensures JoinSpec(NameOf("Зелёная Штуковина", l), STATUS_TO_LEFT) == "Зелёная Штуковина"
    ensures JoinSpec(NameOf("Зелёная Штуковина", l), STATUS_TO_RIGHT) == "Зелёная Штуковина"
  {
    RuIsRuLike(l);
    NameIn12(l);
    TextsIn12();
    JoinWithoutStatus(Name([Token(Alpha, "Зелёная", None), Token(Space, " ", None), Token(Alpha, "Штуковина", None)], -1), SHRINK_STATUS);
    JoinWithoutStatus(Name([Token(Alpha, "Зелёная", None), Token(Space, " ", None), Token(Alpha, "Штуковина", None)], -1), REMOVE_ALL_STATUSES);
    JoinWithoutStatus(Name([Token(Alpha, "Зелёная", None), Token(Space, " ", None), Token(Alpha, "Штуковина", None)], -1), STATUS_TO_LEFT);
    JoinWithoutStatus(Name([Token(Alpha, "Зелёная", None), Token(Space, " ", None), Token(Alpha, "Штуковина", None)], -1), STATUS_TO_RIGHT);
  }

  lemma PassthroughText0()
    ensures UpToNul("улица Ленина") == "улица Ленина"
  {
    assert NulFreeFrom("улица Ленина", 11);
    assert NulFreeFrom("улица Ленина", 10);
    assert NulFreeFrom("улица Ленина", 9);
    assert NulFreeFrom("улица Ленина", 8);
    assert NulFreeFrom("улица Ленина", 7);
    assert NulFreeFrom("улица Ленина", 6);
    assert NulFreeFrom("улица Ленина", 5);
    assert NulFreeFrom("улица Ленина", 4);
    assert NulFreeFrom("улица Ленина", 3);
    assert NulFreeFrom("улица Ленина", 2);
    assert NulFreeFrom("улица Ленина", 1);
    assert NulFreeFrom("улица Ленина", 0);
    NulFreeAll("улица Ленина", 0);
    NoNul("улица Ленина");
  }

  /** Join() gives the text back (tests/tokenizer_test.cc:31), in any locale. */
  lemma Passthrough0(l: Locale)
    ensures NameOf("улица Ленина", l).Valid()
    ensures JoinSpec(NameOf("улица Ленина", l), 0) == "улица Ленина"
  {
    PassthroughText0();
    WholeText("улица Ленина", l);
  }

  lemma PassthroughText1()
    ensures UpToNul("    улица    Ленина   ") == "    улица    Ленина   "
  {
    assert NulFreeFrom("    улица    Ленина   ", 21);
    assert NulFreeFrom("    улица    Ленина   ", 20);
    assert NulFreeFrom("    улица    Ленина   ", 19);
    assert NulFreeFrom("    улица    Ленина   ", 18);
    assert NulFreeFrom("    улица    Ленина   ", 17);
    assert NulFreeFrom("    улица    Ленина   ", 16);
    assert NulFreeFrom("    улица    Ленина   ", 15);
    assert NulFreeFrom("    улица    Ленина   ", 14);
    assert NulFreeFrom("    улица    Ленина   ", 13);
    assert NulFreeFrom("    улица    Ленина   ", 12);
    assert NulFreeFrom("    улица    Ленина   ", 11);
    assert NulFreeFrom("    улица    Ленина   ", 10);
    assert NulFreeFrom("    улица    Ленина   ", 9);
    assert NulFreeFrom("    улица    Ленина   ", 8);
    assert NulFreeFrom("    улица    Ленина   ", 7);
    assert NulFreeFrom("    улица    Ленина   ", 6);
    assert NulFreeFrom("    улица    Ленина   ", 5);
    assert NulFreeFrom("    улица    Ленина   ", 4);
    assert NulFreeFrom("    улица    Ленина   ", 3);
    assert NulFreeFrom("    улица    Ленина   ", 2);
    assert NulFreeFrom("    улица    Ленина   ", 1);
    assert NulFreeFrom("    улица    Ленина   ", 0);
    NulFreeAll("    улица    Ленина   ", 0);
    NoNul("    улица    Ленина   ");
  }

  /** Join() gives the text back (tests/tokenizer_test.cc:32), in any locale. */
  lemma Passthrough1(l: Locale)
    ensures NameOf("    улица    Ленина   ", l).Valid()
    ensures JoinSpec(NameOf("    улица    Ленина   ", l), 0) == "    улица    Ленина   "
  {
    PassthroughText1();
    WholeText("    улица    Ленина   ", l);
  }

  lemma PassthroughText2()
    ensures UpToNul(" . , \t улица.,\t  .,\t Ленина .,\t  ") == " . , \t улица.,\t  .,\t Ленина .,\t  "
  {
    assert NulFreeFrom(" . , \t улица.,\t  .,\t Ленина .,\t  ", 32);
    assert NulFreeFrom(" . , \t улица.,\t  .,\t Ленина .,\t  ", 31);
    assert NulFreeFrom(" . , \t улица.,\t  .,\t Ленина .,\t  ", 30);
    assert NulFreeFrom(" . , \t улица.,\t  .,\t Ленина .,\t  ", 29);
    assert NulFreeFrom(" . , \t улица.,\t  .,\t Ленина .,\t  ", 28);
    assert NulFreeFrom(" . , \t улица.,\t  .,\t Ленина .,\t  ", 27);
    assert NulFreeFrom(" . , \t улица.,\t  .,\t Ленина .,\t  ", 26);
    assert NulFreeFrom(" . , \t улица.,\t  .,\t Ленина .,\t  ", 25);
    assert NulFreeFrom(" . , \t улица.,\t  .,\t Ленина .,\t  ", 24);
    assert NulFreeFrom(" . , \t улица.,\t  .,\t Ленина .,\t  ", 23);
    assert NulFreeFrom(" . , \t улица.,\t  .,\t Ленина .,\t  ", 22);
    assert NulFreeFrom(" . , \t улица.,\t  .,\t Ленина .,\t  ", 21);
    assert NulFreeFrom(" . , \t улица.,\t  .,\t Ленина .,\t  ", 20);
    assert NulFreeFrom(" . , \t улица.,\t  .,\t Ленина .,\t  ", 19);
    assert NulFreeFrom(" . , \t улица.,\t  .,\t Ленина .,\t  ", 18);
    assert NulFreeFrom(" . , \t улица.,\t  .,\t Ленина .,\t  ", 17);
    assert NulFreeFrom(" . , \t улица.,\t  .,\t Ленина .,\t  ", 16);
    assert NulFreeFrom(" . , \t улица.,\t  .,\t Ленина .,\t  ", 15);
    assert NulFreeFrom(" . , \t улица.,\t  .,\t Ленина .,\t  ", 14);
    assert NulFreeFrom(" . , \t улица.,\t  .,\t Ленина .,\t  ", 13);
    assert NulFreeFrom(" . , \t улица.,\t  .,\t Ленина .,\t  ", 12);
    assert NulFreeFrom(" . , \t улица.,\t  .,\t Ленина .,\t  ", 11);
    assert NulFreeFrom(" . , \t улица.,\t  .,\t Ленина .,\t  ", 10);
    assert NulFreeFrom(" . , \t улица.,\t  .,\t Ленина .,\t  ", 9);
    assert NulFreeFrom(" . , \t улица.,\t  .,\t Ленина .,\t  ", 8);
    assert NulFreeFrom(" . , \t улица.,\t  .,\t Ленина .,\t  ", 7);
    assert NulFreeFrom(" . , \t улица.,\t  .,\t Ленина .,\t  ", 6);
    assert NulFreeFrom(" . , \t улица.,\t  .,\t Ленина .,\t  ", 5);
    assert NulFreeFrom(" . , \t улица.,\t  .,\t Ленина .,\t  ", 4);
    assert NulFreeFrom(" . , \t улица.,\t  .,\t Ленина .,\t  ", 3);
    assert NulFreeFrom(" . , \t улица.,\t  .,\t Ленина .,\t  ", 2);
    assert NulFreeFrom(" . , \t улица.,\t  .,\t Ленина .,\t  ", 1);
    assert NulFreeFrom(" . , \t улица.,\t  .,\t Ленина .,\t  ", 0);
    NulFreeAll(" . , \t улица.,\t  .,\t Ленина .,\t  ", 0);
    NoNul(" . , \t улица.,\t  .,\t Ленина .,\t  ");
  }

  /** Join() gives the text back (tests/tokenizer_test.cc:33), in any locale. */
  lemma Passthrough2(l: Locale)
    ensures NameOf(" . , \t улица.,\t  .,\t Ленина .,\t  ", l).Valid()
    ensures JoinSpec(NameOf(" . , \t улица.,\t  .,\t Ленина .,\t  ", l), 0) == " . , \t улица.,\t  .,\t Ленина .,\t  "
  {
    PassthroughText2();
    WholeText(" . , \t улица.,\t  .,\t Ленина .,\t  ", l);
  }

}
