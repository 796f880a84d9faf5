/** NameAggregator (utils/name_aggregator.cc): sorts every street name it
    is fed into one of six categories by asking the database, in order,
    for an exact match, a canonical form, a spelling fix and a match with
    the status part stripped, and keeps counters, sets and suggestion
    maps per category. The database is an oracle here: the answers of its
    four checks for a name. */
module Aggregator {
  import Locale
  import Names
  import Database

  /** NameAggregator::Flags. */
  const PERSTREET_STATS: bv32 := 0x01
  const COUNT_NAMES: bv32 := 0x02

  /** What the aggregator asks the database about a name: CheckExactMatch,
      the suggestions of CheckCanonicalForm, CheckSpelling (at a depth) and
      CheckStrippedStatus, and whether the tokenized name has a status part. */
  datatype Oracle = Oracle(
    exact: string -> bool,
    canonical: string -> seq<string>,
    spelling: (string, int) -> seq<string>,
    stripped: string -> seq<string>,
    hasStatus: string -> bool)

  /** The oracle of a database whose index is `ix`, tokenizing in `l`: the
      answers of Database's string checks. */
  ghost function DatabaseOracle(ix: Database.Index, l: Locale.Locale): Oracle {
    Oracle(
      s => s in ix.names,
      s => CanonicalAnswer(ix, l, s),
      (s, d) => SpellingAnswer(ix, l, s, d),
      s => StrippedAnswer(ix, l, s),
      s => StatusAnswer(l, s))
  }

  function CanonicalAnswer(ix: Database.Index, l: Locale.Locale, s: string): seq<string> {
    Names.NameOfValid(s, l);
    Database.Entries(ix.canonical, Database.PlainHash(Names.NameOf(s, l), 0))
  }

  ghost function SpellingAnswer(ix: Database.Index, l: Locale.Locale, s: string, depth: int): seq<string> {
    Names.NameOfValid(s, l);
    var n := Names.NameOf(s, l);
    Database.Gather(ix.spelling, Database.Ascending(
      Database.FirstHits(ix.trie, Database.BaseHash(n, 0), Database.OrderedHash(n, 0), 0, depth)))
  }

  function StrippedAnswer(ix: Database.Index, l: Locale.Locale, s: string): seq<string> {
    Names.NameOfValid(s, l);
    Database.Entries(ix.stripped, Database.StrippedQuery(Names.NameOf(s, l)))
  }

  function StatusAnswer(l: Locale.Locale, s: string): bool {
    Names.NameOf(s, l).HasStatusPart()
  }

  /** The canonical form of a text a database was loaded with is an exact
      match for the aggregator. */
  lemma LoadedNameIsExact(ix: Database.Index, l: Locale.Locale, s: string, depth: int)
    ensures Classify(DatabaseOracle(Database.AddedText(ix, l, s), l), Database.CanonicalText(s, l), depth) == ExactMatch
  {
    Names.NameOfValid(s, l);
    Database.AddThenExact(ix, Names.NameOf(s, l));
  }

  /** The category a name falls into, with what ProcessName records for it. */
  datatype Verdict =
    | ExactMatch
    | CanonicalForm(first: string)
    | SpellingFixed(suggestions: seq<string>)
    | StrippedStatus
    | NoMatch
    | NonName

  /** The six categories numbered in the order the checks are made. */
  function Category(v: Verdict): (r: nat)
    ensures r < 6
  {
    match v
    case ExactMatch => 0
    case CanonicalForm(_) => 1
    case SpellingFixed(_) => 2
    case StrippedStatus => 3
    case NoMatch => 4
    case NonName => 5
  }

  /** The cascade of ProcessName: the first check that answers wins. */
  function Classify(o: Oracle, name: string, depth: int): Verdict {
    if o.exact(name) then ExactMatch
    else
      var canonical := o.canonical(name);
      if |canonical| > 0 then CanonicalForm(canonical[0])
      else
        var spelling := o.spelling(name, depth);
        if |spelling| > 0 then SpellingFixed(spelling)
        else if |o.stripped(name)| > 0 then StrippedStatus
        else if o.hasStatus(name) then NoMatch
        else NonName
  }

  /** The answers of the checks, in the order they are made. */
  function Answers(o: Oracle, name: string, depth: int): seq<bool> {
    [o.exact(name), |o.canonical(name)| > 0, |o.spelling(name, depth)| > 0, |o.stripped(name)| > 0, o.hasStatus(name)]
  }

  /** The position of the first true answer, or the length if none is. */
  function FirstTrue(bs: seq<bool>): (r: nat)
    ensures r <= |bs|
    ensures forall i :: 0 <= i < r ==> !bs[i]
    ensures r < |bs| ==> bs[r]
    decreases |bs|
  {
    if |bs| == 0 then 0 else if bs[0] then 0 else 1 + FirstTrue(bs[1..])
  }

  /** The category is the first check that answers, in the order exact
      match, canonical form, spelling, stripped status, status part; a name
      for which none answers is not a street name. */
  lemma ClassifyTakesFirstAnswer(o: Oracle, name: string, depth: int)
    ensures Category(Classify(o, name, depth)) == FirstTrue(Answers(o, name, depth))
  {
    var bs := Answers(o, name, depth);
    var k := FirstTrue(bs);
    if bs[0] {
      assert k == 0;
    } else if bs[1] {
      assert k == 1;
    } else if bs[2] {
      assert k == 2;
    } else if bs[3] {
      assert k == 3;
    } else if bs[4] {
      assert k == 4;
    } else {
      assert k == 5;
    }
  }

  /** `++m[k]` on a std::map<std::string, int>: a missing key counts from 0. */
  function Bump(m: map<string, int>, k: string): (r: map<string, int>)
    ensures k in r && r[k] == (if k in m then m[k] else 0) + 1
    ensures forall j :: j in m && j != k ==> j in r && r[j] == m[j]
    ensures r.Keys == m.Keys + {k}
  {
    m[k := (if k in m then m[k] else 0) + 1]
  }

  /** The fields of a NameAggregator. */
  datatype Stats = Stats(
    countAll: int,
    countExact: int,
    countCanonical: int,
    countSpelling: int,
    countStripped: int,
    countNoMatch: int,
    countNonName: int,
    all: set<string>,
    exactMatch: set<string>,
    canonicalForm: map<string, string>,
    spellingFixed: map<string, seq<string>>,
    strippedStatus: set<string>,
    noMatch: set<string>,
    nonName: set<string>,
    countsAll: map<string, int>,
    countsNoMatch: map<string, int>,
    countsSpelling: map<string, int>,
    countsStripped: map<string, int>,
    countsNonName: map<string, int>)

  const INITIAL: Stats := Stats(0, 0, 0, 0, 0, 0, 0, {}, {}, map[], map[], {}, {}, {}, map[], map[], map[], map[], map[])

  /** The six category counters. */
  function Counter(st: Stats, i: nat): int {
    if i == 0 then st.countExact
    else if i == 1 then st.countCanonical
    else if i == 2 then st.countSpelling
    else if i == 3 then st.countStripped
    else if i == 4 then st.countNoMatch
    else st.countNonName
  }

  function Sum(st: Stats): int {
    st.countExact + st.countCanonical + st.countSpelling + st.countStripped + st.countNoMatch + st.countNonName
  }

  /** The set of a category: for the canonical and spelling categories the
      names the suggestion map holds. */
  function Members(st: Stats, i: nat): set<string> {
    if i == 0 then st.exactMatch
    else if i == 1 then st.canonicalForm.Keys
    else if i == 2 then st.spellingFixed.Keys
    else if i == 3 then st.strippedStatus
    else if i == 4 then st.noMatch
    else st.nonName
  }

  /** Whether ProcessName returns right after counting: neither flag is set
      and the name was seen before. */
  predicate Skipped(st: Stats, flags: bv32, name: string) {
    flags & (PERSTREET_STATS | COUNT_NAMES) == 0 && name in st.all
  }

  /** The per-name counter, when COUNT_NAMES is set. */
  function CountIf(flags: bv32, m: map<string, int>, name: string): map<string, int> {
    if flags & COUNT_NAMES != 0 then Bump(m, name) else m
  }

  /** The record of a name in its category. */
  function Recorded(st: Stats, flags: bv32, name: string, v: Verdict): Stats {
    match v
    case ExactMatch =>
      st.(countExact := st.countExact + 1, exactMatch := st.exactMatch + {name})
    case CanonicalForm(first) =>
      st.(countCanonical := st.countCanonical + 1,
          canonicalForm := if name in st.canonicalForm then st.canonicalForm else st.canonicalForm[name := first])
    case SpellingFixed(suggestions) =>
      st.(countSpelling := st.countSpelling + 1,
          spellingFixed := if name in st.spellingFixed then st.spellingFixed else st.spellingFixed[name := suggestions],
          countsSpelling := CountIf(flags, st.countsSpelling, name))
    case StrippedStatus =>
      st.(countStripped := st.countStripped + 1, strippedStatus := st.strippedStatus + {name},
          countsStripped := CountIf(flags, st.countsStripped, name))
    case NoMatch =>
      st.(countNoMatch := st.countNoMatch + 1, noMatch := st.noMatch + {name},
          countsNoMatch := CountIf(flags, st.countsNoMatch, name))
    case NonName =>
      st.(countNonName := st.countNonName + 1, nonName := st.nonName + {name},
          countsNonName := CountIf(flags, st.countsNonName, name))
  }

  /** NameAggregator::ProcessName of a name whose verdict is `v`. */
  function Processed(st: Stats, flags: bv32, name: string, v: Verdict): Stats {
    var counted := st.(countAll := st.countAll + 1, countsAll := CountIf(flags, st.countsAll, name), all := st.all + {name});
    if Skipped(st, flags, name) then counted else Recorded(counted, flags, name, v)
  }

  /** Every call counts the name once in count_all_. */
  lemma CountsEveryCall(st: Stats, flags: bv32, name: string, v: Verdict)
    ensures Processed(st, flags, name, v).countAll == st.countAll + 1
    ensures name in Processed(st, flags, name, v).all
  {
    var counted := st.(countAll := st.countAll + 1, countsAll := CountIf(flags, st.countsAll, name), all := st.all + {name});
    if !Skipped(st, flags, name) {
      assert Processed(st, flags, name, v) == Recorded(counted, flags, name, v);
    }
  }

  /** Without PERSTREET_STATS or COUNT_NAMES, a name seen before changes
      count_all_ and nothing else. */
  lemma RepeatOnlyCounts(st: Stats, flags: bv32, name: string, v: Verdict)
    requires flags & (PERSTREET_STATS | COUNT_NAMES) == 0 && name in st.all
    ensures Processed(st, flags, name, v) == st.(countAll := st.countAll + 1)
  {
    assert flags & COUNT_NAMES == 0 by {
      assert flags & COUNT_NAMES == (flags & (PERSTREET_STATS | COUNT_NAMES)) & COUNT_NAMES;
    }
    assert st.all + {name} == st.all;
  }

  /** A call that is not skipped adds one to exactly one category counter,
      the one of the verdict, and files the name in that category. */
  lemma OneCategoryPerCall(st: Stats, flags: bv32, name: string, v: Verdict)
    requires !Skipped(st, flags, name)
    ensures var r := Processed(st, flags, name, v);
      (forall i :: 0 <= i < 6 ==> Counter(r, i) == Counter(st, i) + (if i == Category(v) then 1 else 0)) &&
      name in Members(r, Category(v)) &&
      (forall i :: 0 <= i < 6 && i != Category(v) ==> Members(r, i) == Members(st, i))
  {
    var counted := st.(countAll := st.countAll + 1, countsAll := CountIf(flags, st.countsAll, name), all := st.all + {name});
    assert Processed(st, flags, name, v) == Recorded(counted, flags, name, v);
    assert forall i :: 0 <= i < 6 ==> Counter(counted, i) == Counter(st, i) && Members(counted, i) == Members(st, i);
  }

  /** What the counters keep: with either flag set every call lands in one
      category, so count_all_ is their sum; without, every new name does and
      repeats are skipped, so the sum is the number of distinct names. */
  ghost predicate Balanced(st: Stats, flags: bv32) {
    if flags & (PERSTREET_STATS | COUNT_NAMES) != 0 then st.countAll == Sum(st) else Sum(st) == |st.all|
  }

  lemma InitialBalanced(flags: bv32)
    ensures Balanced(INITIAL, flags)
  {
  }

  /** One counter up by one and the others unchanged: the sum is up by one. */
  lemma SumStep(st: Stats, r: Stats, c: nat)
    requires c < 6
    requires forall i :: 0 <= i < 6 ==> Counter(r, i) == Counter(st, i) + (if i == c then 1 else 0)
    ensures Sum(r) == Sum(st) + 1
  {
    assert Counter(r, 0) == Counter(st, 0) + (if c == 0 then 1 else 0);
    assert Counter(r, 1) == Counter(st, 1) + (if c == 1 then 1 else 0);
    assert Counter(r, 2) == Counter(st, 2) + (if c == 2 then 1 else 0);
    assert Counter(r, 3) == Counter(st, 3) + (if c == 3 then 1 else 0);
    assert Counter(r, 4) == Counter(st, 4) + (if c == 4 then 1 else 0);
    assert Counter(r, 5) == Counter(st, 5) + (if c == 5 then 1 else 0);
  }

  lemma ProcessedBalanced(st: Stats, flags: bv32, name: string, v: Verdict)
    requires Balanced(st, flags)
    ensures Balanced(Processed(st, flags, name, v), flags)
  {
    var r := Processed(st, flags, name, v);
    if Skipped(st, flags, name) {
      RepeatOnlyCounts(st, flags, name, v);
    } else {
      OneCategoryPerCall(st, flags, name, v);
      SumStep(st, r, Category(v));
      CountsEveryCall(st, flags, name, v);
      if flags & (PERSTREET_STATS | COUNT_NAMES) == 0 {
        assert name !in st.all;
        assert r.all == st.all + {name};
      }
    }
  }

  /** A name's first canonical suggestion and its first spelling fixes are
      kept: a later call for the same name overwrites neither. */
  lemma SuggestionsKept(st: Stats, flags: bv32, name: string, v: Verdict)
    ensures var r := Processed(st, flags, name, v);
      (forall k :: k in st.canonicalForm ==> k in r.canonicalForm && r.canonicalForm[k] == st.canonicalForm[k]) &&
      (forall k :: k in st.spellingFixed ==> k in r.spellingFixed && r.spellingFixed[k] == st.spellingFixed[k])
  {
    var counted := st.(countAll := st.countAll + 1, countsAll := CountIf(flags, st.countsAll, name), all := st.all + {name});
    var r := Processed(st, flags, name, v);
    assert r == if Skipped(st, flags, name) then counted else Recorded(counted, flags, name, v);
    assert counted.canonicalForm == st.canonicalForm && counted.spellingFixed == st.spellingFixed;
  }

  /** The canonical record of a name is the first suggestion of the check
      that placed it there. */
  lemma CanonicalRecordsFirstSuggestion(st: Stats, flags: bv32, o: Oracle, name: string, depth: int)
    requires !Skipped(st, flags, name) && name !in st.canonicalForm
    requires !o.exact(name) && |o.canonical(name)| > 0
    ensures Processed(st, flags, name, Classify(o, name, depth)).canonicalForm == st.canonicalForm[name := o.canonical(name)[0]]
  {
  }

  /** NameAggregator. */
  class NameAggregator {
    const oracle: Oracle
    const flags: bv32
    const spellDistance: int

    var countAll: int
    var countExact: int
    var countCanonical: int
    var countSpelling: int
    var countStripped: int
    var countNoMatch: int
    var countNonName: int

    var all: set<string>
    var exactMatch: set<string>
    var canonicalForm: map<string, string>
    var spellingFixed: map<string, seq<string>>
    var strippedStatus: set<string>
    var noMatch: set<string>
    var nonName: set<string>

    var countsAll: map<string, int>
    var countsNoMatch: map<string, int>
    var countsSpelling: map<string, int>
    var countsStripped: map<string, int>
    var countsNonName: map<string, int>

    function State(): Stats
      reads this
    {
      Stats(countAll, countExact, countCanonical, countSpelling, countStripped, countNoMatch, countNonName,
        all, exactMatch, canonicalForm, spellingFixed, strippedStatus, noMatch, nonName,
        countsAll, countsNoMatch, countsSpelling, countsStripped, countsNonName)
    }

    constructor (db: Oracle, flags: bv32, spellDistance: int)
      ensures oracle == db && this.flags == flags && this.spellDistance == spellDistance
      ensures State() == INITIAL
    {
      oracle := db;
      this.flags := flags;
      this.spellDistance := spellDistance;
      countAll, countExact, countCanonical, countSpelling := 0, 0, 0, 0;
      countStripped, countNoMatch, countNonName := 0, 0, 0;
      all, exactMatch, canonicalForm, spellingFixed := {}, {}, map[], map[];
      strippedStatus, noMatch, nonName := {}, {}, {};
      countsAll, countsNoMatch, countsSpelling, countsStripped, countsNonName := map[], map[], map[], map[], map[];
    }

    /** NameAggregator::ProcessName. */
    method ProcessName(name: string)
      modifies this
      ensures State() == Processed(old(State()), flags, name, Classify(oracle, name, spellDistance))
    {
      ghost var before := State();
      var skip := Count(name);
      ghost var counted := State();
      assert Processed(before, flags, name, Classify(oracle, name, spellDistance)) ==
        if skip then counted else Recorded(counted, flags, name, Classify(oracle, name, spellDistance));
      if skip {
        return;
      }
      Categorize(name);
    }

    /** The counting at the head of ProcessName; `skip` says that the name
        was seen before and neither flag asks for it again. */
    method Count(name: string) returns (skip: bool)
      modifies this
      ensures skip == Skipped(old(State()), flags, name)
      ensures State() == old(State()).(countAll := old(State()).countAll + 1,
        countsAll := CountIf(flags, old(State()).countsAll, name), all := old(State()).all + {name})
    {
      countAll := countAll + 1;

      if flags & COUNT_NAMES != 0 {
        countsAll := Bump(countsAll, name);
      }

      skip := false;
      if flags & (PERSTREET_STATS | COUNT_NAMES) != 0 {
        all := all + {name};
      } else {
        skip := name in all;
        all := all + {name};
      }
    }

    /** The cascade of checks of ProcessName, for a name not skipped. */
    method Categorize(name: string)
      modifies this
      ensures State() == Recorded(old(State()), flags, name, Classify(oracle, name, spellDistance))
    {
      // exact match
      if oracle.exact(name) {
        RecordExact(name);
        return;
      }

      // the other kinds of mismatch, all into one suggestion list
      var suggestions: seq<string> := [];

      var found := oracle.canonical(name);
      suggestions := suggestions + found;
      if |found| > 0 {
        RecordCanonical(name, suggestions[0]);
        return;
      }

      found := oracle.spelling(name, spellDistance);
      suggestions := suggestions + found;
      assert suggestions == found;
      if |found| > 0 {
        RecordSpelling(name, suggestions);
        return;
      }

      found := oracle.stripped(name);
      suggestions := suggestions + found;
      if |found| > 0 {
        RecordStripped(name);
        return;
      }

      if oracle.hasStatus(name) {
        RecordNoMatch(name);
        return;
      }

      RecordNonName(name);
    }

    method RecordExact(name: string)
      modifies this
      ensures State() == Recorded(old(State()), flags, name, ExactMatch)
    {
      countExact := countExact + 1;
      exactMatch := exactMatch + {name};
    }

    /** canonical_form_.insert: a name already there keeps its first
        suggestion. */
    method RecordCanonical(name: string, first: string)
      modifies this
      ensures State() == Recorded(old(State()), flags, name, CanonicalForm(first))
    {
      countCanonical := countCanonical + 1;
      if name !in canonicalForm {
        canonicalForm := canonicalForm[name := first];
      }
    }

    /** spelling_fixed_.insert, and the suggestions swapped in only when the
        insert took place. */
    method RecordSpelling(name: string, suggestions: seq<string>)
      modifies this
      ensures State() == Recorded(old(State()), flags, name, SpellingFixed(suggestions))
    {
      countSpelling := countSpelling + 1;
      if name !in spellingFixed {
        spellingFixed := spellingFixed[name := suggestions];
      }
      if flags & COUNT_NAMES != 0 {
        countsSpelling := Bump(countsSpelling, name);
      }
    }

    method RecordStripped(name: string)
      modifies this
      ensures State() == Recorded(old(State()), flags, name, StrippedStatus)
    {
      countStripped := countStripped + 1;
      strippedStatus := strippedStatus + {name};
      if flags & COUNT_NAMES != 0 {
        countsStripped := Bump(countsStripped, name);
      }
    }

    method RecordNoMatch(name: string)
      modifies this
      ensures State() == Recorded(old(State()), flags, name, NoMatch)
    {
      countNoMatch := countNoMatch + 1;
      noMatch := noMatch + {name};
      if flags & COUNT_NAMES != 0 {
        countsNoMatch := Bump(countsNoMatch, name);
      }
    }

    method RecordNonName(name: string)
      modifies this
      ensures State() == Recorded(old(State()), flags, name, NonName)
    {
      countNonName := countNonName + 1;
      nonName := nonName + {name};
      if flags & COUNT_NAMES != 0 {
        countsNonName := Bump(countsNonName, name);
      }
    }
  }
}
