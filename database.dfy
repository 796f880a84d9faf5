/** StreetMangler::Database: the index of known street names and its four
    lookups (exact match, canonical form, spelling, stripped status part). */
module Database {
  import opened Wrappers
  import opened Unicode
  import opened Locale
  import opened Names
  import Trie
  import StringListParser

  // ---------------------------------------------------------------------
  // The hashes of a name (Database::Private::NameToHashes)

  /** The flags of the base hash: status part expanded and put at the left,
      punctuation and whitespace normalised. */
  const HASH_FLAGS: bv32 := STATUS_TO_LEFT | EXPAND_STATUS | NORMALIZE_WHITESPACE | NORMALIZE_PUNCT

  /** The base hash: the name joined under HASH_FLAGS and the extra flags,
      as a lower-cased UnicodeString. */
  function BaseHash(n: Name, extra: bv32): UString
    requires n.Valid()
  {
    LowerUnits(Utf16(JoinSpec(n, HASH_FLAGS | extra)))
  }

  /** The plain hash: the base hash converted back to UTF-8. */
  function PlainHash(n: Name, extra: bv32): string
    requires n.Valid()
  {
    DecodeUtf16(BaseHash(n, extra))
  }

  /** The round trip through UTF-16 loses nothing: the plain hash is the
      lower-cased joined name. */
  lemma PlainHashIsLowered(n: Name, extra: bv32)
    requires n.Valid()
    ensures PlainHash(n, extra) == LowerString(JoinSpec(n, HASH_FLAGS | extra))
  {
    var j := JoinSpec(n, HASH_FLAGS | extra);
    LowerCommutesWithUtf16(j);
    DecodeUtf16Inverse(LowerString(j));
  }

  /** UnicodeString::indexOf(u, start): the first position at or after
      `start` holding `u`, or -1. */
  function IndexOf(us: UString, u: Unit, start: nat): (r: int)
    requires start <= |us|
    decreases |us| - start
  {
    if start == |us| then -1
    else if us[start] == u then start
    else IndexOf(us, u, start + 1)
  }

  lemma {:induction false} IndexOfSpec(us: UString, u: Unit, start: nat)
    requires start <= |us|
    ensures var r := IndexOf(us, u, start);
      (r == -1 <==> u !in us[start..]) &&
      (r != -1 ==> start <= r < |us| && us[r] == u && u !in us[start..r])
    decreases |us| - start
  {
    if start < |us| && us[start] != u {
      IndexOfSpec(us, u, start + 1);
      var r := IndexOf(us, u, start + 1);
      assert us[start..] == [us[start]] + us[start + 1..];
      assert r != -1 ==> us[start..r] == [us[start]] + us[start + 1..r];
    }
  }

  /** The pieces of `us` between its spaces, empty pieces included. */
  function Pieces(us: UString): (r: seq<UString>)
    ensures |r| > 0
  {
    if |us| == 0 then [[]]
    else
      var rest := Pieces(us[1..]);
      if us[0] == SPACE then [[]] + rest else [[us[0]] + rest[0]] + rest[1..]
  }

  /** The non-empty members of `ps`, in order. */
  function Solid(ps: seq<UString>): (r: seq<UString>)
    ensures |r| <= |ps|
  {
    if |ps| == 0 then [] else (if ps[0] == [] then [] else [ps[0]]) + Solid(ps[1..])
  }

  /** The words of a hash: what the split loop of NameToHashes collects. */
  function HashWords(us: UString): seq<UString> {
    Solid(Pieces(us))
  }

  /** The words joined with one space between each two. */
  function JoinWords(ws: seq<UString>): UString
    decreases |ws|
  {
    if |ws| == 0 then []
    else if |ws| == 1 then ws[0]
    else JoinWords(ws[..|ws| - 1]) + [SPACE] + ws[|ws| - 1]
  }

  /** A space-free beginning is glued to the first piece of the rest. */
  lemma {:induction false} PiecesPrefix(a: UString, b: UString)
    requires SPACE !in a
    ensures Pieces(a + b) == [a + Pieces(b)[0]] + Pieces(b)[1..]
    decreases |a|
  {
    if |a| > 0 {
      assert SPACE !in a[1..] by { assert forall i :: 0 <= i < |a| - 1 ==> a[1..][i] == a[i + 1]; }
      PiecesPrefix(a[1..], b);
      PiecesPrefixStep(a, b);
    } else {
      var pb := Pieces(b);
      assert a + b == b;
      assert [] + pb[0] == pb[0];
      assert pb == [pb[0]] + pb[1..];
    }
  }

  lemma PiecesPrefixStep(a: UString, b: UString)
    requires SPACE !in a && |a| > 0
    requires Pieces(a[1..] + b) == [a[1..] + Pieces(b)[0]] + Pieces(b)[1..]
    ensures Pieces(a + b) == [a + Pieces(b)[0]] + Pieces(b)[1..]
  {
    var pb := Pieces(b);
    var x, t := a[0], a[1..];
    assert x != SPACE by { assert a[0] in a; }
    ConsAppend(a, b);
    PiecesCons(x, t + b);
    ConsParts(t + pb[0], pb[1..]);
    ConsAppend(a, pb[0]);
  }

  lemma ConsParts<T>(y: T, z: seq<T>)
    ensures ([y] + z)[0] == y && ([y] + z)[1..] == z
  {
  }

  lemma ConsAppend<T>(a: seq<T>, p: seq<T>)
    requires |a| > 0
    ensures [a[0]] + (a[1..] + p) == a + p
  {
    assert a == [a[0]] + a[1..];
  }

  lemma PiecesCons(x: Unit, r: UString)
    ensures Pieces([x] + r) == if x == SPACE then [[]] + Pieces(r) else [[x] + Pieces(r)[0]] + Pieces(r)[1..]
  {
    assert ([x] + r)[1..] == r;
  }

  /** A space ends the first piece. */
  lemma PiecesAtSpace(a: UString, c: UString)
    requires SPACE !in a
    ensures Pieces(a + [SPACE] + c) == [a] + Pieces(c)
  {
    PiecesPrefix(a, [SPACE] + c);
    PiecesCons(SPACE, c);
    assert a + [] == a;
    assert a + [SPACE] + c == a + ([SPACE] + c);
  }

  lemma {:induction false} SolidConcat(a: seq<UString>, b: seq<UString>)
    ensures Solid(a + b) == Solid(a) + Solid(b)
    decreases |a|
  {
    if |a| == 0 {
      assert a + b == b;
    } else {
      assert (a + b)[1..] == a[1..] + b;
      SolidConcat(a[1..], b);
    }
  }

  /** One turn of the split loop: the word up to the next space, if it is
      not empty, then the words after it. */
  lemma WordsAt(us: UString, start: nat, end: nat)
    requires start <= end < |us| && us[end] == SPACE && SPACE !in us[start..end]
    ensures HashWords(us[start..]) == (if start == end then [] else [us[start..end]]) + HashWords(us[end + 1..])
  {
    assert us[start..] == us[start..end] + [SPACE] + us[end + 1..];
    PiecesAtSpace(us[start..end], us[end + 1..]);
    SolidConcat([us[start..end]], Pieces(us[end + 1..]));
  }

  /** After the last space: the rest is one word, or nothing. */
  lemma WordsEnd(us: UString, start: nat)
    requires start <= |us| && SPACE !in us[start..]
    ensures HashWords(us[start..]) == if start == |us| then [] else [us[start..]]
  {
    PiecesPrefix(us[start..], []);
    assert us[start..] + [] == us[start..];
  }

  /** A word of a hash is not empty and holds no space. */
  predicate IsWord(w: UString) {
    |w| > 0 && SPACE !in w
  }

  lemma {:induction false} PiecesSpaceFree(us: UString)
    ensures forall i :: 0 <= i < |Pieces(us)| ==> SPACE !in Pieces(us)[i]
  {
    if |us| > 0 {
      PiecesSpaceFree(us[1..]);
    }
  }

  lemma {:induction false} SolidWords(ps: seq<UString>)
    requires forall i :: 0 <= i < |ps| ==> SPACE !in ps[i]
    ensures forall i :: 0 <= i < |Solid(ps)| ==> IsWord(Solid(ps)[i])
  {
    if |ps| > 0 {
      SolidWords(ps[1..]);
    }
  }

  /** Every word the split collects is non-empty and space-free. */
  lemma HashWordsAreWords(us: UString)
    ensures forall i :: 0 <= i < |HashWords(us)| ==> IsWord(HashWords(us)[i])
  {
    PiecesSpaceFree(us);
    SolidWords(Pieces(us));
  }

  lemma JoinWordsSnoc(ws: seq<UString>, w: UString)
    ensures JoinWords(ws + [w]) == if |ws| == 0 then w else JoinWords(ws) + [SPACE] + w
  {
    assert (ws + [w])[..|ws|] == ws;
  }

  /** Joining from the front: the first word, a space, the rest. */
  lemma {:induction false} JoinWordsCons(w: UString, ws: seq<UString>)
    requires |ws| > 0
    ensures JoinWords([w] + ws) == w + [SPACE] + JoinWords(ws)
    decreases |ws|
  {
    if |ws| == 1 {
      assert ([w] + ws)[..1] == [w];
    } else {
      var init, last := ws[..|ws| - 1], ws[|ws| - 1];
      ConsSnoc(w, ws);
      JoinWordsSnoc([w] + init, last);
      JoinWordsCons(w, init);
      JoinWordsSnoc(init, last);
      SpaceRegroup(w, [SPACE], JoinWords(init), last);
    }
  }

  lemma ConsSnoc<T>(w: T, ws: seq<T>)
    requires |ws| > 0
    ensures ws == ws[..|ws| - 1] + [ws[|ws| - 1]]
    ensures [w] + ws == ([w] + ws[..|ws| - 1]) + [ws[|ws| - 1]]
  {
  }

  lemma SpaceRegroup<T>(w: seq<T>, sp: seq<T>, j: seq<T>, last: seq<T>)
    ensures (w + sp + j) + sp + last == w + sp + (j + sp + last)
  {
  }

  /** Words joined by single spaces split back into the same words. */
  lemma {:induction false} SplitJoinedWords(ws: seq<UString>)
    requires forall i :: 0 <= i < |ws| ==> IsWord(ws[i])
    ensures HashWords(JoinWords(ws)) == ws
    decreases |ws|
  {
    if |ws| == 1 {
      WordsEnd(ws[0], 0);
      assert ws[0][0..] == ws[0];
    } else if |ws| > 1 {
      var w, rest := ws[0], ws[1..];
      assert ws == [w] + rest;
      JoinWordsCons(w, rest);
      SplitJoinedWords(rest);
      PiecesAtSpace(w, JoinWords(rest));
      SolidConcat([w], Pieces(JoinWords(rest)));
    }
  }

  // ---------------------------------------------------------------------
  // The order of UnicodeString and the sort of the words

  /** UnicodeString's order (`<` or equal): code unit by code unit, a
      proper prefix first. */
  predicate UnitsLe(a: UString, b: UString)
    decreases |a|
  {
    if |a| == 0 then true
    else if |b| == 0 then false
    else if a[0] != b[0] then a[0] < b[0]
    else UnitsLe(a[1..], b[1..])
  }

  lemma {:induction false} UnitsLeTotal(a: UString, b: UString)
    ensures UnitsLe(a, b) || UnitsLe(b, a)
    decreases |a|
  {
    if |a| > 0 && |b| > 0 && a[0] == b[0] {
      UnitsLeTotal(a[1..], b[1..]);
    }
  }

  lemma {:induction false} UnitsLeAntisymmetric(a: UString, b: UString)
    requires UnitsLe(a, b) && UnitsLe(b, a)
    ensures a == b
    decreases |a|
  {
    if |a| > 0 {
      UnitsLeAntisymmetric(a[1..], b[1..]);
      assert a == [a[0]] + a[1..] && b == [b[0]] + b[1..];
    }
  }

  lemma {:induction false} UnitsLeTransitive(a: UString, b: UString, c: UString)
    requires UnitsLe(a, b) && UnitsLe(b, c)
    ensures UnitsLe(a, c)
    decreases |a|
  {
    if |a| > 0 && a[0] == b[0] && b[0] == c[0] {
      UnitsLeTransitive(a[1..], b[1..], c[1..]);
    }
  }

  predicate Sorted(s: seq<UString>) {
    forall i, j :: 0 <= i < j < |s| ==> UnitsLe(s[i], s[j])
  }

  /** `x` put before the first member it does not follow. */
  function InsertSorted(x: UString, s: seq<UString>): (r: seq<UString>)
    ensures |r| == |s| + 1
    ensures multiset(r) == multiset(s) + multiset{x}
  {
    if |s| == 0 then [x]
    else if UnitsLe(x, s[0]) then [x] + s
    else
      assert s == [s[0]] + s[1..];
      [s[0]] + InsertSorted(x, s[1..])
  }

  /** std::sort on UnicodeString: the sorted arrangement of the words. */
  function Sort(ws: seq<UString>): (r: seq<UString>)
    ensures multiset(r) == multiset(ws)
  {
    if |ws| == 0 then []
    else
      assert ws == [ws[0]] + ws[1..];
      InsertSorted(ws[0], Sort(ws[1..]))
  }

  lemma {:induction false} InsertSortedSorted(x: UString, s: seq<UString>)
    requires Sorted(s)
    ensures Sorted(InsertSorted(x, s))
    decreases |s|
  {
    if |s| > 0 && !UnitsLe(x, s[0]) {
      InsertSortedSorted(x, s[1..]);
      InsertLater(x, s);
    } else if |s| > 0 {
      forall k | 0 <= k < |s|
        ensures UnitsLe(x, s[k])
      {
        if k > 0 {
          UnitsLeTransitive(x, s[0], s[k]);
        }
      }
      SortedCons(x, s);
    }
  }

  /** The step of InsertSortedSorted where `x` goes after the head. */
  lemma InsertLater(x: UString, s: seq<UString>)
    requires Sorted(s) && |s| > 0 && !UnitsLe(x, s[0]) && Sorted(InsertSorted(x, s[1..]))
    ensures Sorted(InsertSorted(x, s))
  {
    UnitsLeTotal(x, s[0]);
    var r := InsertSorted(x, s[1..]);
    forall k | 0 <= k < |r|
      ensures UnitsLe(s[0], r[k])
    {
      assert r[k] in multiset(r);
      if r[k] != x {
        assert r[k] in multiset(s[1..]);
        var j :| 0 <= j < |s[1..]| && s[1..][j] == r[k];
        assert s[1 + j] == r[k];
      }
    }
    SortedCons(s[0], r);
  }

  lemma SortedCons(y: UString, r: seq<UString>)
    requires Sorted(r) && forall k :: 0 <= k < |r| ==> UnitsLe(y, r[k])
    ensures Sorted([y] + r)
  {
    forall i, j | 0 <= i < j < |[y] + r|
      ensures UnitsLe(([y] + r)[i], ([y] + r)[j])
    {
      if i > 0 {
        assert ([y] + r)[i] == r[i - 1];
      }
    }
  }


  /** The sort puts the words in order. */
  lemma {:induction false} SortSorted(ws: seq<UString>)
    ensures Sorted(Sort(ws))
    decreases |ws|
  {
    if |ws| > 0 {
      SortSorted(ws[1..]);
      InsertSortedSorted(ws[0], Sort(ws[1..]));
    }
  }

  /** There is one sorted arrangement of a collection of words, so the
      result does not depend on how std::sort arranges equal words or on
      the order the words came in. */
  lemma {:induction false} SortedUnique(a: seq<UString>, b: seq<UString>)
    requires Sorted(a) && Sorted(b) && multiset(a) == multiset(b)
    ensures a == b
    decreases |a|
  {
    if |a| == 0 {
      assert |multiset(b)| == 0;
    } else {
      assert |b| == |multiset(b)| == |a|;
      SameLeast(a, b);
      SortedTail(a);
      SortedTail(b);
      SameRest(a, b);
      SortedUnique(a[1..], b[1..]);
      assert a == [a[0]] + a[1..] && b == [b[0]] + b[1..];
    }
  }

  /** Two sorted arrangements of the same words start with the same one. */
  lemma SameLeast(a: seq<UString>, b: seq<UString>)
    requires Sorted(a) && Sorted(b) && multiset(a) == multiset(b) && |a| > 0 && |b| > 0
    ensures a[0] == b[0]
  {
    assert a[0] in multiset(b) && b[0] in multiset(a);
    var i :| 0 <= i < |b| && b[i] == a[0];
    var j :| 0 <= j < |a| && a[j] == b[0];
    UnitsLeTotal(a[0], a[0]);
    assert UnitsLe(b[0], a[0]) by {
      if i > 0 {
        assert UnitsLe(b[0], b[i]);
      }
    }
    assert UnitsLe(a[0], b[0]) by {
      if j > 0 {
        assert UnitsLe(a[0], a[j]);
      }
    }
    UnitsLeAntisymmetric(a[0], b[0]);
  }

  lemma SortedTail(a: seq<UString>)
    requires Sorted(a) && |a| > 0
    ensures Sorted(a[1..])
  {
    forall i, j | 0 <= i < j < |a[1..]|
      ensures UnitsLe(a[1..][i], a[1..][j])
    {
      assert a[1..][i] == a[i + 1] && a[1..][j] == a[j + 1];
    }
  }

  lemma SameRest(a: seq<UString>, b: seq<UString>)
    requires multiset(a) == multiset(b) && |a| > 0 && |b| > 0 && a[0] == b[0]
    ensures multiset(a[1..]) == multiset(b[1..])
  {
    assert a == [a[0]] + a[1..] && b == [b[0]] + b[1..];
    assert multiset(a) == multiset{a[0]} + multiset(a[1..]);
    assert multiset(b) == multiset{b[0]} + multiset(b[1..]);
    forall x
      ensures multiset(a[1..])[x] == multiset(b[1..])[x]
    {
      assert multiset(a)[x] == multiset{a[0]}[x] + multiset(a[1..])[x];
      assert multiset(b)[x] == multiset{b[0]}[x] + multiset(b[1..])[x];
    }
  }

  /** The sort of NameToHashes: all words, or all but the first (the status
      part the base hash put at the left). */
  function SortWords(ws: seq<UString>, sortAll: bool): (r: seq<UString>)
    ensures multiset(r) == multiset(ws)
  {
    if sortAll || |ws| == 0 then Sort(ws)
    else
      assert ws == [ws[0]] + ws[1..];
      [ws[0]] + Sort(ws[1..])
  }

  /** Whether every word is sorted: when the status part is being removed or
      the name has none. */
  predicate SortAll(n: Name, extra: bv32) {
    extra & REMOVE_ALL_STATUSES != 0 || !n.HasStatusPart()
  }

  /** The ordered hash: the words of the base hash, sorted as above, joined
      with single spaces. */
  function OrderedHash(n: Name, extra: bv32): UString
    requires n.Valid()
  {
    JoinWords(SortWords(HashWords(BaseHash(n, extra)), SortAll(n, extra)))
  }

  /** The ordered hash has the words of the base hash, each as often; when
      only the status part is kept in place, it stays first and the rest are
      in order. */
  lemma OrderedHashWords(n: Name, extra: bv32)
    requires n.Valid()
    ensures var ws := HashWords(BaseHash(n, extra)); var os := HashWords(OrderedHash(n, extra));
      multiset(os) == multiset(ws) &&
      (SortAll(n, extra) ==> Sorted(os)) &&
      (!SortAll(n, extra) && |ws| > 0 ==> |os| > 0 && os[0] == ws[0] && Sorted(os[1..]))
  {
    var ws := HashWords(BaseHash(n, extra));
    var sorted := SortWords(ws, SortAll(n, extra));
    HashWordsAreWords(BaseHash(n, extra));
    forall i | 0 <= i < |sorted|
      ensures IsWord(sorted[i])
    {
      assert sorted[i] in multiset(ws);
    }
    SplitJoinedWords(sorted);
    if SortAll(n, extra) || |ws| == 0 {
      SortSorted(ws);
    } else {
      SortSorted(ws[1..]);
      assert sorted[1..] == Sort(ws[1..]);
    }
  }

  /** Two names whose base hashes have the same words, in whatever order,
      get the same ordered hash when all words are sorted. */
  lemma OrderedIgnoresWordOrder(n: Name, m: Name, extra: bv32)
    requires n.Valid() && m.Valid() && SortAll(n, extra) && SortAll(m, extra)
    requires multiset(HashWords(BaseHash(n, extra))) == multiset(HashWords(BaseHash(m, extra)))
    ensures OrderedHash(n, extra) == OrderedHash(m, extra)
  {
    var a, b := HashWords(BaseHash(n, extra)), HashWords(BaseHash(m, extra));
    SortSorted(a);
    SortSorted(b);
    SortedUnique(Sort(a), Sort(b));
  }

  /** NameToHashes: the plain hash, the base hash and the ordered hash. */
  method NameToHashes(n: Name, extra: bv32) returns (plain: string, uhash: UString, ordered: UString)
    requires n.Valid()
    ensures plain == PlainHash(n, extra) && uhash == BaseHash(n, extra) && ordered == OrderedHash(n, extra)
  {
    var joined := Join(n, HASH_FLAGS | extra);
    var base := LowerUnits(Utf16(joined));
    uhash := base;
    plain := DecodeUtf16(base);
    var words := SplitWords(base);
    var sortAll := extra & REMOVE_ALL_STATUSES != 0 || !n.HasStatusPart();
    words := SortWords(words, sortAll);
    ordered := JoinSpaced(words);
  }

  /** The split loop of NameToHashes. */
  method SplitWords(base: UString) returns (words: seq<UString>)
    ensures words == HashWords(base)
  {
    words := [];
    var start := 0;
    var end := IndexOf(base, SPACE, start);
    assert base[0..] == base;
    while end != -1
      invariant 0 <= start <= |base| && end == IndexOf(base, SPACE, start)
      invariant words + HashWords(base[start..]) == HashWords(base)
      decreases |base| - start
    {
      SplitStep(base, words, start, end);
      if start != end {
        words := words + [base[start..end]];
      }
      start := end + 1;
      end := IndexOf(base, SPACE, start);
    }
    SplitEnd(base, words, start);
    if start != |base| {
      words := words + [base[start..]];
    }
  }

  lemma SplitEnd(base: UString, words: seq<UString>, start: nat)
    requires start <= |base| && IndexOf(base, SPACE, start) == -1
    requires words + HashWords(base[start..]) == HashWords(base)
    ensures (if start != |base| then words + [base[start..]] else words) == HashWords(base)
  {
    IndexOfSpec(base, SPACE, start);
    WordsEnd(base, start);
  }

  lemma SplitStep(base: UString, words: seq<UString>, start: nat, end: int)
    requires start <= |base| && end == IndexOf(base, SPACE, start) && end != -1
    requires words + HashWords(base[start..]) == HashWords(base)
    ensures start <= end < |base|
    ensures (if start != end then words + [base[start..end]] else words) + HashWords(base[end + 1..]) == HashWords(base)
  {
    IndexOfSpec(base, SPACE, start);
    WordsAt(base, start, end);
    if start == end {
      Regroup(words, [], HashWords(base[start..]), HashWords(base[end + 1..]), HashWords(base));
      assert words + [] == words;
    } else {
      Regroup(words, [base[start..end]], HashWords(base[start..]), HashWords(base[end + 1..]), HashWords(base));
    }
  }

  /** The words found so far, the next word and the rest, regrouped. */
  lemma Regroup<T>(w: seq<T>, x: seq<T>, m: seq<T>, r: seq<T>, all: seq<T>)
    requires m == x + r && w + m == all
    ensures (w + x) + r == all
  {
  }

  /** The join loop of NameToHashes. */
  method JoinSpaced(words: seq<UString>) returns (out: UString)
    ensures out == JoinWords(words)
  {
    out := [];
    var i := 0;
    while i < |words|
      invariant 0 <= i <= |words| && out == JoinWords(words[..i])
    {
      if i != 0 {
        out := out + [SPACE];
      }
      out := out + words[i];
      JoinWordsSnoc(words[..i], words[i]);
      assert words[..i + 1] == words[..i] + [words[i]];
      i := i + 1;
    }
    assert words[..i] == words;
  }

  // ---------------------------------------------------------------------
  // The index

  /** A std::multimap from keys to names: each key's names in the order
      they were inserted, which is the order equal_range gives them. */
  type MultiMap<K(==)> = map<K, seq<string>>

  /** equal_range(k). */
  function Entries<K(==,!new)>(m: MultiMap<K>, k: K): seq<string> {
    if k in m then m[k] else []
  }

  /** multimap::insert(make_pair(k, v)): `v` goes after the names already
      under `k`. */
  function Inserted<K(==,!new)>(m: MultiMap<K>, k: K, v: string): MultiMap<K> {
    m[k := Entries(m, k) + [v]]
  }

  /** The insert adds `v` under `k` and touches no other key. */
  lemma InsertedSpec<K(!new)>(m: MultiMap<K>, k: K, v: string)
    ensures Entries(Inserted(m, k, v), k) == Entries(m, k) + [v]
    ensures forall j :: j != k ==> Entries(Inserted(m, k, v), j) == Entries(m, j)
    ensures Inserted(m, k, v).Keys == m.Keys + {k}
  {
  }

  /** What a database holds: the canonical names (`names_`), the three
      multimaps and the strings of the spelling trie. */
  datatype Index = Index(
    names: set<string>,
    canonical: MultiMap<string>,
    spelling: MultiMap<UString>,
    stripped: MultiMap<UString>,
    trie: set<UString>)

  const EMPTY: Index := Index({}, map[], map[], map[], {})

  /** A multimap whose every name is a known canonical name and whose every
      key has at least one name. */
  ghost predicate Holds<K(!new)>(m: MultiMap<K>, names: set<string>) {
    forall k :: k in m ==> |m[k]| > 0 && forall i :: 0 <= i < |m[k]| ==> m[k][i] in names
  }

  /** What Add maintains: the trie holds exactly the non-empty spelling keys
      (UnicodeTrie::Insert skips an empty one), and every suggestion any
      lookup can return is a canonical name of the database. */
  ghost predicate IndexInv(ix: Index) {
    (forall w :: w in ix.trie <==> w in ix.spelling && |w| > 0) &&
    Holds(ix.canonical, ix.names) && Holds(ix.spelling, ix.names) && Holds(ix.stripped, ix.names)
  }

  /** The key of the stripped map: the ordered hash of the name with every
      status part removed, with ё written as е. */
  function StrippedKey(n: Name): UString
    requires n.Valid()
  {
    ReplaceUnit(OrderedHash(n, REMOVE_ALL_STATUSES), YO, YE)
  }

  /** The key CheckStrippedStatus looks up: the ordered hash of the name as
      it is, with ё written as е. */
  function StrippedQuery(n: Name): UString
    requires n.Valid()
  {
    ReplaceUnit(OrderedHash(n, 0), YO, YE)
  }

  /** The strings UnicodeTrie::Insert(u) adds. */
  function Keyed(u: UString): set<UString> {
    if |u| > 0 then {u} else {}
  }

  /** The index after Database::Add of the Name `n`. */
  function AddedName(ix: Index, n: Name): Index
    requires n.Valid()
  {
    Filed(ix, JoinSpec(n, CANONICALIZE_STATUS), PlainHash(n, 0), BaseHash(n, 0), OrderedHash(n, 0), StrippedKey(n))
  }

  /** The insertions of Add, given the canonical name and the hashes: the
      plain hash into the canonical map, the base hash and (if it differs)
      the ordered hash into the trie and the spelling map, the stripped key
      into the stripped map if it differs from the ordered hash. */
  function Filed(ix: Index, canonical: string, plain: string, u: UString, o: UString, st: UString): Index {
    var spelling := Inserted(ix.spelling, u, canonical);
    Index(
      ix.names + {canonical},
      Inserted(ix.canonical, plain, canonical),
      if u != o then Inserted(spelling, o, canonical) else spelling,
      if st != o then Inserted(ix.stripped, st, canonical) else ix.stripped,
      ix.trie + Keyed(u) + (if u != o then Keyed(o) else {}))
  }

  /** Database::Add(string): the name the text tokenizes to, added. */
  function AddedText(ix: Index, l: Locale, s: string): Index {
    NameOfValid(s, l);
    AddedName(ix, NameOf(s, l))
  }

  /** The canonical form Add files a text under. */
  function CanonicalText(s: string, l: Locale): string {
    NameOfValid(s, l);
    JoinSpec(NameOf(s, l), CANONICALIZE_STATUS)
  }

  /** The texts added one after the other. */
  function AddedAll(ix: Index, l: Locale, ss: seq<string>): Index
    decreases |ss|
  {
    if |ss| == 0 then ix else AddedText(AddedAll(ix, l, ss[..|ss| - 1]), l, ss[|ss| - 1])
  }

  lemma AddedAllSnoc(ix: Index, l: Locale, ss: seq<string>, s: string)
    ensures AddedAll(ix, l, ss + [s]) == AddedText(AddedAll(ix, l, ss), l, s)
  {
    assert (ss + [s])[..|ss|] == ss;
  }

  lemma InsertedHolds<K(!new)>(m: MultiMap<K>, names: set<string>, k: K, v: string, names': set<string>)
    requires Holds(m, names) && names <= names' && v in names'
    ensures Holds(Inserted(m, k, v), names')
  {
    var r := Inserted(m, k, v);
    forall j | j in r
      ensures |r[j]| > 0 && forall i :: 0 <= i < |r[j]| ==> r[j][i] in names'
    {
      assert r[j] == Entries(r, j);
      if j != k {
        assert r[j] == m[j];
      }
    }
  }

  lemma HoldsGrows<K(!new)>(m: MultiMap<K>, names: set<string>, names': set<string>)
    requires Holds(m, names) && names <= names'
    ensures Holds(m, names')
  {
  }

  /** Add keeps the invariant. */
  lemma AddKeepsInv(ix: Index, canonical: string, plain: string, u: UString, o: UString, st: UString)
    requires IndexInv(ix)
    ensures IndexInv(Filed(ix, canonical, plain, u, o, st))
  {
    var a := Filed(ix, canonical, plain, u, o, st);
    var spelling := Inserted(ix.spelling, u, canonical);
    InsertedHolds(ix.canonical, ix.names, plain, canonical, a.names);
    InsertedHolds(ix.spelling, ix.names, u, canonical, a.names);
    if u != o {
      InsertedHolds(spelling, a.names, o, canonical, a.names);
    }
    if st != o {
      InsertedHolds(ix.stripped, ix.names, st, canonical, a.names);
    } else {
      HoldsGrows(ix.stripped, ix.names, a.names);
    }
    AddKeepsTrie(ix.trie, ix.spelling, canonical, u, o);
  }

  /** The trie keeps holding the non-empty spelling keys. */
  lemma AddKeepsTrie(trie: set<UString>, spelling: MultiMap<UString>, canonical: string, u: UString, o: UString)
    requires forall w :: w in trie <==> w in spelling && |w| > 0
    ensures var s1 := Inserted(spelling, u, canonical);
      var s2 := if u != o then Inserted(s1, o, canonical) else s1;
      forall w :: w in trie + Keyed(u) + (if u != o then Keyed(o) else {}) <==> w in s2 && |w| > 0
  {
    var s1 := Inserted(spelling, u, canonical);
    assert s1.Keys == spelling.Keys + {u};
    if u != o {
      assert Inserted(s1, o, canonical).Keys == s1.Keys + {o};
    }
  }

  /** Add only inserts: every name and every suggestion already there stays,
      in its place, and the new name follows them. */
  lemma AddOnlyInserts(ix: Index, canonical: string, plain: string, u: UString, o: UString, st: UString)
    ensures var a := Filed(ix, canonical, plain, u, o, st);
      a.names == ix.names + {canonical} && ix.trie <= a.trie &&
      (forall k :: Entries(a.canonical, k) == Entries(ix.canonical, k) + (if k == plain then [canonical] else [])) &&
      (forall k :: Entries(a.spelling, k) == Entries(ix.spelling, k) + (if k == u || k == o then [canonical] else [])) &&
      (forall k :: Entries(a.stripped, k) == Entries(ix.stripped, k) + (if k == st && st != o then [canonical] else []))
  {
  }

  /** After Add, the canonical form of the name is an exact match, and it is
      a suggestion under the name's plain hash. */
  lemma AddThenExact(ix: Index, n: Name)
    requires n.Valid()
    ensures var a := AddedName(ix, n); var canonical := JoinSpec(n, CANONICALIZE_STATUS);
      canonical in a.names && Entries(a.canonical, PlainHash(n, 0)) == Entries(ix.canonical, PlainHash(n, 0)) + [canonical]
  {
  }

  /** A query name finds the added name's canonical form just when the two
      names, joined under HASH_FLAGS, are equal ignoring case (with nothing
      under that key before). */
  lemma CanonicalMatch(ix: Index, n: Name, m: Name)
    requires n.Valid() && m.Valid() && Entries(ix.canonical, PlainHash(m, 0)) == []
    ensures Entries(AddedName(ix, n).canonical, PlainHash(m, 0)) ==
      if LowerString(JoinSpec(m, HASH_FLAGS)) == LowerString(JoinSpec(n, HASH_FLAGS)) then [JoinSpec(n, CANONICALIZE_STATUS)] else []
  {
    PlainHashIsLowered(n, 0);
    PlainHashIsLowered(m, 0);
    assert HASH_FLAGS | 0 == HASH_FLAGS;
  }

  /** A name without a status part is filed as stripped only when its
      ordered hash holds a ё: removing statuses changes nothing, so only the
      ё to е rewrite can make the keys differ. */
  lemma NoStatusNotStripped(ix: Index, n: Name)
    requires n.Valid() && !n.HasStatusPart()
    ensures AddedName(ix, n).stripped == ix.stripped <==> YO !in OrderedHash(n, 0)
  {
    JoinWithoutStatus(n, HASH_FLAGS | REMOVE_ALL_STATUSES);
    JoinWithoutStatus(n, HASH_FLAGS | 0);
    assert (HASH_FLAGS | REMOVE_ALL_STATUSES) & NORMALIZE_WHITESPACE == (HASH_FLAGS | 0) & NORMALIZE_WHITESPACE;
    assert OrderedHash(n, REMOVE_ALL_STATUSES) == OrderedHash(n, 0);
    ReplaceRemovesAll(OrderedHash(n, 0), YO, YE);
    var st := StrippedKey(n);
    if st != OrderedHash(n, 0) {
      var r := Inserted(ix.stripped, st, JoinSpec(n, CANONICALIZE_STATUS));
      assert Entries(r, st) != Entries(ix.stripped, st);
    }
  }

  // ---------------------------------------------------------------------
  // The spelling search

  /** The smaller of the distances of `w` from the base hash and from the
      ordered hash. */
  function Distance(w: UString, h: UString, o: UString): nat {
    var a := Trie.EditDistance(w, h);
    var b := Trie.EditDistance(w, o);
    if a <= b then a else b
  }

  /** The stored strings the two FindApprox calls of radius `r` report. */
  ghost function Hits(C: set<UString>, h: UString, o: UString, r: int): set<UString> {
    set w | w in C && (Trie.Within(w, h, r) || Trie.Within(w, o, r))
  }

  /** The radius loop of CheckSpelling from radius `i` on: the hits of the
      first radius up to `depth` that has any. */
  ghost function FirstHits(C: set<UString>, h: UString, o: UString, i: int, depth: int): set<UString>
    decreases if i <= depth then depth - i + 1 else 0
  {
    if i > depth then {}
    else if Hits(C, h, o, i) != {} then Hits(C, h, o, i)
    else FirstHits(C, h, o, i + 1, depth)
  }

  /** The hits of radius `r` are the strings at distance at most `r`. */
  lemma HitsByDistance(C: set<UString>, h: UString, o: UString, r: int, w: UString)
    requires r >= 0
    ensures w in Hits(C, h, o, r) <==> w in C && Distance(w, h, o) <= r
  {
    Trie.WithinIsEditDistance(w, h, r);
    Trie.WithinIsEditDistance(w, o, r);
  }

  /** From a radius `i` below every stored string's distance, the loop finds
      exactly the stored strings nearest to the name, if they are at most
      `depth` away. */
  lemma {:induction false} FirstHitsNearest(C: set<UString>, h: UString, o: UString, i: nat, depth: int, w: UString)
    requires forall v :: v in C ==> Distance(v, h, o) >= i
    ensures w in FirstHits(C, h, o, i, depth) <==>
      w in C && Distance(w, h, o) <= depth && forall v :: v in C ==> Distance(w, h, o) <= Distance(v, h, o)
    decreases if i <= depth then depth - i + 1 else 0
  {
    if i <= depth {
      HitsByDistance(C, h, o, i, w);
      if Hits(C, h, o, i) != {} {
        var v :| v in Hits(C, h, o, i);
        HitsByDistance(C, h, o, i, v);
      } else {
        forall v | v in C
          ensures Distance(v, h, o) >= i + 1
        {
          HitsByDistance(C, h, o, i, v);
        }
        FirstHitsNearest(C, h, o, i + 1, depth, w);
      }
    }
  }

  /** CheckSpelling's matches: the stored strings nearest (in edit distance
      over code units) to the name's base or ordered hash, when the nearest
      are at most `depth` away, and none otherwise. */
  lemma SpellMatchesNearest(C: set<UString>, h: UString, o: UString, depth: int, w: UString)
    ensures w in FirstHits(C, h, o, 0, depth) <==>
      w in C && Distance(w, h, o) <= depth && forall v :: v in C ==> Distance(w, h, o) <= Distance(v, h, o)
  {
    FirstHitsNearest(C, h, o, 0, depth, w);
  }

  /** A stored string is the least of a set in UnicodeString order. */
  predicate IsLeast(w: UString, S: set<UString>) {
    forall v :: v in S ==> UnitsLe(w, v)
  }

  lemma {:induction false} LeastExists(S: set<UString>)
    requires S != {}
    ensures exists w :: w in S && IsLeast(w, S)
    decreases |S|
  {
    var x :| x in S;
    if S == {x} {
      UnitsLeTotal(x, x);
      assert IsLeast(x, S);
    } else {
      var R := S - {x};
      LeastExists(R);
      var m :| m in R && IsLeast(m, R);
      UnitsLeTotal(x, m);
      if UnitsLe(x, m) {
        forall v | v in S
          ensures UnitsLe(x, v)
        {
          if v == x {
            UnitsLeTotal(x, x);
          } else {
            assert v in R;
            UnitsLeTransitive(x, m, v);
          }
        }
      } else {
        assert IsLeast(m, S);
      }
    }
  }

  /** The members of a set in ascending order: std::set<UnicodeString>'s
      iteration order. */
  ghost function Ascending(S: set<UString>): (r: seq<UString>)
    decreases |S|
  {
    if S == {} then []
    else
      LeastExists(S);
      var m :| m in S && IsLeast(m, S);
      [m] + Ascending(S - {m})
  }

  /** The least member comes first. */
  lemma AscendingLeast(S: set<UString>, w: UString)
    requires w in S && IsLeast(w, S)
    ensures Ascending(S) == [w] + Ascending(S - {w})
  {
    LeastExists(S);
    var m :| m in S && IsLeast(m, S) && Ascending(S) == [m] + Ascending(S - {m});
    UnitsLeAntisymmetric(m, w);
  }

  /** Ascending lists every member once, in order. */
  lemma {:induction false} AscendingSpec(S: set<UString>)
    ensures var r := Ascending(S); |r| == |S| && (forall w :: w in r <==> w in S) && Sorted(r)
    decreases |S|
  {
    if S != {} {
      LeastExists(S);
      var m :| m in S && IsLeast(m, S);
      AscendingLeast(S, m);
      AscendingSpec(S - {m});
      AscendingStep(S, m);
    }
  }

  lemma AscendingStep(S: set<UString>, m: UString)
    requires m in S && IsLeast(m, S) && Ascending(S) == [m] + Ascending(S - {m})
    requires var r := Ascending(S - {m}); |r| == |S - {m}| && (forall w :: w in r <==> w in S - {m}) && Sorted(r)
    ensures var r := Ascending(S); |r| == |S| && (forall w :: w in r <==> w in S) && Sorted(r)
  {
    var r := Ascending(S - {m});
    forall k | 0 <= k < |r|
      ensures UnitsLe(m, r[k])
    {
      assert r[k] in r;
    }
    SortedCons(m, r);
    forall w
      ensures w in Ascending(S) <==> w in S
    {
      assert w in [m] + r <==> w == m || w in r;
    }
  }


  /** The names filed under each key of `ks`, key after key. */
  function Gather<K(==,!new)>(m: MultiMap<K>, ks: seq<K>): seq<string>
    decreases |ks|
  {
    if |ks| == 0 then [] else Entries(m, ks[0]) + Gather(m, ks[1..])
  }

  lemma GatherCons<K(!new)>(m: MultiMap<K>, k: K, ks: seq<K>)
    ensures Gather(m, [k] + ks) == Entries(m, k) + Gather(m, ks)
  {
    assert ([k] + ks)[1..] == ks;
  }

  lemma {:induction false} GatherHas<K(!new)>(m: MultiMap<K>, ks: seq<K>, k: K, v: string)
    requires k in ks && v in Entries(m, k)
    ensures v in Gather(m, ks)
    decreases |ks|
  {
    if ks[0] != k {
      GatherHas(m, ks[1..], k, v);
    }
  }

  /** Every name a lookup under one key returns is a canonical name of the
      database. */
  lemma EntriesAreNames<K(!new)>(m: MultiMap<K>, names: set<string>, k: K)
    requires Holds(m, names)
    ensures forall v :: v in Entries(m, k) ==> v in names
  {
    if k in m {
      forall v | v in Entries(m, k)
        ensures v in names
      {
        var i :| 0 <= i < |m[k]| && m[k][i] == v;
      }
    }
  }

  /** And so is every name CheckSpelling returns. */
  lemma {:induction false} GatherAreNames<K(!new)>(m: MultiMap<K>, names: set<string>, ks: seq<K>)
    requires Holds(m, names)
    ensures forall v :: v in Gather(m, ks) ==> v in names
    decreases |ks|
  {
    if |ks| > 0 {
      EntriesAreNames(m, names, ks[0]);
      GatherAreNames(m, names, ks[1..]);
    }
  }

  /** The suggestions of all three checks of a valid index are canonical
      names that were added. */
  lemma SuggestionsAreNames(ix: Index, plain: string, ks: seq<UString>, stripped: UString)
    requires IndexInv(ix)
    ensures forall v :: v in Entries(ix.canonical, plain) ==> v in ix.names
    ensures forall v :: v in Gather(ix.spelling, ks) ==> v in ix.names
    ensures forall v :: v in Entries(ix.stripped, stripped) ==> v in ix.names
  {
    EntriesAreNames(ix.canonical, ix.names, plain);
    GatherAreNames(ix.spelling, ix.names, ks);
    EntriesAreNames(ix.stripped, ix.names, stripped);
  }

  /** After Add, a spelling check of a name with a non-empty base hash
      finds the name's own canonical form, at any depth: the loop already
      stops at radius 0. */
  lemma SpellingFindsFiled(ix: Index, canonical: string, plain: string, u: UString, o: UString, st: UString, depth: int)
    requires depth >= 0 && |u| > 0
    ensures var a := Filed(ix, canonical, plain, u, o, st);
      canonical in Gather(a.spelling, Ascending(FirstHits(a.trie, u, o, 0, depth)))
  {
    var a := Filed(ix, canonical, plain, u, o, st);
    Trie.WithinNoBudget(u, u, 0);
    assert u in a.trie;
    assert u in Hits(a.trie, u, o, 0);
    AscendingSpec(Hits(a.trie, u, o, 0));
    var spelling := Inserted(ix.spelling, u, canonical);
    InsertedSpec(ix.spelling, u, canonical);
    assert canonical in Entries(spelling, u);
    if u != o {
      InsertedSpec(spelling, o, canonical);
      assert Entries(a.spelling, u) == Entries(spelling, u);
    }
    GatherHas(a.spelling, Ascending(FirstHits(a.trie, u, o, 0, depth)), u, canonical);
  }

  lemma SpellingFindsOwn(ix: Index, n: Name, depth: int)
    requires n.Valid() && depth >= 0 && |BaseHash(n, 0)| > 0
    ensures var a := AddedName(ix, n);
      JoinSpec(n, CANONICALIZE_STATUS) in Gather(a.spelling, Ascending(FirstHits(a.trie, BaseHash(n, 0), OrderedHash(n, 0), 0, depth)))
  {
    SpellingFindsFiled(ix, JoinSpec(n, CANONICALIZE_STATUS), PlainHash(n, 0), BaseHash(n, 0), OrderedHash(n, 0), StrippedKey(n), depth);
  }

  // ---------------------------------------------------------------------
  // The database

  /** The canonical name and the four keys Database::Add files a name under. */
  method AddKeys(n: Name) returns (canonical: string, hash: string, uhash: UString, uhashordered: UString, stripped: UString)
    requires n.Valid()
    ensures canonical == JoinSpec(n, CANONICALIZE_STATUS) && hash == PlainHash(n, 0)
    ensures uhash == BaseHash(n, 0) && uhashordered == OrderedHash(n, 0) && stripped == StrippedKey(n)
  {
    hash, uhash, uhashordered := NameToHashes(n, 0);
    canonical := Join(n, CANONICALIZE_STATUS);
    var _, _, ordered := NameToHashes(n, REMOVE_ALL_STATUSES);
    stripped := ReplaceUnit(ordered, YO, YE);
  }

  /** The loop over an equal_range: push_back of each name, counting. */
  method AppendRange(acc: seq<string>, range: seq<string>) returns (out: seq<string>, count: int)
    ensures out == acc + range && count == |range|
  {
    out := acc;
    count := 0;
    while count < |range|
      invariant 0 <= count <= |range| && out == acc + range[..count]
    {
      out := out + [range[count]];
      assert range[..count + 1] == range[..count] + [range[count]];
      count := count + 1;
    }
    assert range[..count] == range;
  }

  /** The body of Load's loop for one character, apart from the Add: the
      line it ends, if it ends a non-empty one, comes back in `emitted`. */
  method ReadChar(name0: string, line0: int, space0: bool, comment0: bool, c: char, ghost out: seq<string>)
    returns (name: string, line: int, space: bool, comment: bool, emitted: string)
    ensures StringListParser.Reader(name, line, space, comment, out + (if emitted != [] then [emitted] else [])) ==
      StringListParser.Step(StringListParser.Reader(name0, line0, space0, comment0, out), c)
  {
    name, line, space, comment, emitted := name0, line0, space0, comment0, [];
    if c == '\n' {
      if name != [] {
        emitted := name;
        name := [];
      }
      line := line + 1;
      comment := false;
      space := false;
    } else if comment {
    } else if c == '#' {
      comment := true;
    } else if c == ' ' || c == '\t' {
      space := true;
    } else {
      if space {
        if name != [] {
          name := name + [' '];
        }
        space := false;
      }
      name := name + [c];
    }
  }

  /** Database: the locale it tokenizes with, and the index. */
  class Database {
    const locale: Locale
    var names: set<string>
    var canonicalMap: MultiMap<string>
    var spellingMap: MultiMap<UString>
    var strippedMap: MultiMap<UString>
    const spellTrie: Trie.TrieBase<Unit>

    ghost function State(): Index
      reads this, spellTrie
    {
      Index(names, canonicalMap, spellingMap, strippedMap, spellTrie.Contents)
    }

    ghost predicate Valid()
      reads this, spellTrie
    {
      spellTrie.Valid() && IndexInv(State())
    }

    constructor (l: Locale)
      ensures Valid() && locale == l && State() == EMPTY
    {
      locale := l;
      names := {};
      canonicalMap := map[];
      spellingMap := map[];
      strippedMap := map[];
      spellTrie := new Trie.TrieBase<Unit>();
    }

    /** Database::Add: the text, tokenized in the database's locale, filed
        under its canonical form. */
    method Add(s: string)
      requires Valid()
      modifies this, spellTrie
      ensures Valid() && State() == AddedText(old(State()), locale, s)
    {
      var tokenized := NewName(s, locale);
      NameOfValid(s, locale);
      AddName(tokenized);
    }

    /** The body of Add once the text is tokenized. */
    method AddName(n: Name)
      requires Valid() && n.Valid()
      modifies this, spellTrie
      ensures Valid() && State() == AddedName(old(State()), n)
    {
      var canonical, hash, uhash, uhashordered, stripped := AddKeys(n);
      Store(canonical, hash, uhash, uhashordered, stripped);
    }

    /** The insertions of Add, given the name and its keys. */
    method Store(canonical: string, hash: string, uhash: UString, uhashordered: UString, stripped: UString)
      requires Valid()
      modifies this, spellTrie
      ensures Valid() && State() == Filed(old(State()), canonical, hash, uhash, uhashordered, stripped)
    {
      ghost var ix := State();
      AddKeepsInv(ix, canonical, hash, uhash, uhashordered, stripped);
      File(canonical, hash, uhash, uhashordered, stripped);
      Remember(uhash, uhashordered);
      assert State() == Filed(ix, canonical, hash, uhash, uhashordered, stripped);
    }

    /** The map insertions of Add. */
    method File(canonical: string, hash: string, uhash: UString, uhashordered: UString, stripped: UString)
      modifies this
      ensures names == old(names) + {canonical}
      ensures canonicalMap == Inserted(old(canonicalMap), hash, canonical)
      ensures spellingMap == if uhash != uhashordered
        then Inserted(Inserted(old(spellingMap), uhash, canonical), uhashordered, canonical)
        else Inserted(old(spellingMap), uhash, canonical)
      ensures strippedMap == if stripped != uhashordered then Inserted(old(strippedMap), stripped, canonical) else old(strippedMap)
    {
      names := names + {canonical};
      canonicalMap := Inserted(canonicalMap, hash, canonical);
      spellingMap := Inserted(spellingMap, uhash, canonical);
      if uhash != uhashordered {
        spellingMap := Inserted(spellingMap, uhashordered, canonical);
      }
      if stripped != uhashordered {
        strippedMap := Inserted(strippedMap, stripped, canonical);
      }
    }

    /** The trie insertions of Add: the base hash, and the ordered hash when
        it differs. */
    method Remember(uhash: UString, uhashordered: UString)
      requires spellTrie.Valid()
      modifies spellTrie
      ensures spellTrie.Valid()
      ensures spellTrie.Contents == old(spellTrie.Contents) + Keyed(uhash) + (if uhash != uhashordered then Keyed(uhashordered) else {})
    {
      spellTrie.Insert(uhash);
      if uhash != uhashordered {
        spellTrie.Insert(uhashordered);
      }
    }

    /** CheckExactMatch(Name): whether the name, joined as it is, is a
        canonical name of the database. */
    method CheckExactMatch(n: Name) returns (count: int)
      requires n.Valid()
      ensures count == if JoinSpec(n, 0) in names then 1 else 0
    {
      var joined := Join(n, 0);
      count := if joined in names then 1 else 0;
    }

    /** CheckExactMatch(string): the text itself, not tokenized. */
    method CheckExactMatchString(s: string) returns (count: int)
      ensures count == if s in names then 1 else 0
    {
      count := if s in names then 1 else 0;
    }

    /** CheckCanonicalForm(Name): the names filed under the plain hash. */
    method CheckCanonicalForm(n: Name, suggestions: seq<string>) returns (out: seq<string>, count: int)
      requires n.Valid()
      ensures out == suggestions + Entries(canonicalMap, PlainHash(n, 0))
      ensures count == |Entries(canonicalMap, PlainHash(n, 0))|
    {
      var hash, uhash, ordered := NameToHashes(n, 0);
      out, count := AppendRange(suggestions, Entries(canonicalMap, hash));
    }

    method CheckCanonicalFormString(s: string, suggestions: seq<string>) returns (out: seq<string>, count: int)
      ensures NameOf(s, locale).Valid()
      ensures out == suggestions + Entries(canonicalMap, PlainHash(NameOf(s, locale), 0))
      ensures count == |out| - |suggestions|
    {
      var n := NewName(s, locale);
      NameOfValid(s, locale);
      out, count := CheckCanonicalForm(n, suggestions);
    }

    /** CheckSpelling(Name): the names filed under each match, matches in
        ascending order. */
    method CheckSpelling(n: Name, suggestions: seq<string>, depth: int) returns (out: seq<string>, count: int)
      requires Valid() && n.Valid()
      ensures out == suggestions +
        Gather(spellingMap, Ascending(FirstHits(spellTrie.Contents, BaseHash(n, 0), OrderedHash(n, 0), 0, depth)))
      ensures count == |out| - |suggestions|
    {
      var plain, hash, hashordered := NameToHashes(n, 0);
      var matches := SpellMatches(hash, hashordered, depth);
      out, count := Suggest(matches, suggestions);
    }

    /** The second loop of CheckSpelling: the names filed under each match,
        in ascending order of the matches. */
    method Suggest(matches: set<UString>, suggestions: seq<string>) returns (out: seq<string>, count: int)
      ensures out == suggestions + Gather(spellingMap, Ascending(matches))
      ensures count == |out| - |suggestions|
    {
      out := suggestions;
      count := 0;
      var rest := matches;
      while rest != {}
        invariant out + Gather(spellingMap, Ascending(rest)) == suggestions + Gather(spellingMap, Ascending(matches))
        invariant count == |out| - |suggestions|
        decreases |rest|
      {
        LeastExists(rest);
        var w :| w in rest && IsLeast(w, rest);
        ghost var tail := Gather(spellingMap, Ascending(rest - {w}));
        AscendingLeast(rest, w);
        GatherCons(spellingMap, w, Ascending(rest - {w}));
        assert Gather(spellingMap, Ascending(rest)) == Entries(spellingMap, w) + tail;
        ghost var before := out;
        var k;
        out, k := AppendRange(out, Entries(spellingMap, w));
        assert out + tail == before + (Entries(spellingMap, w) + tail);
        count := count + k;
        rest := rest - {w};
      }
    }

    /** The radius loop of CheckSpelling: FindApprox of both hashes at each
        radius from 0 until something is found or `depth` is passed. */
    method SpellMatches(hash: UString, hashordered: UString, depth: int) returns (matches: set<UString>)
      requires Valid()
      ensures matches == FirstHits(spellTrie.Contents, hash, hashordered, 0, depth)
    {
      ghost var C := spellTrie.Contents;
      matches := {};
      var i := 0;
      while matches == {} && i <= depth
        invariant i >= 0
        invariant FirstHits(C, hash, hashordered, 0, depth) ==
          if matches == {} then FirstHits(C, hash, hashordered, i, depth) else matches
        decreases if i <= depth then depth - i + 1 else 0
      {
        matches := spellTrie.FindApprox(hash, i, matches);
        matches := spellTrie.FindApprox(hashordered, i, matches);
        assert matches == Hits(C, hash, hashordered, i);
        i := i + 1;
      }
    }

    method CheckSpellingString(s: string, suggestions: seq<string>, depth: int) returns (out: seq<string>, count: int)
      requires Valid()
      ensures NameOf(s, locale).Valid()
      ensures out == suggestions + Gather(spellingMap,
        Ascending(FirstHits(spellTrie.Contents, BaseHash(NameOf(s, locale), 0), OrderedHash(NameOf(s, locale), 0), 0, depth)))
      ensures count == |out| - |suggestions|
    {
      var n := NewName(s, locale);
      NameOfValid(s, locale);
      out, count := CheckSpelling(n, suggestions, depth);
    }

    /** CheckStrippedStatus(Name): the names filed under the ordered hash
        with ё written as е. */
    method CheckStrippedStatus(n: Name, matches: seq<string>) returns (out: seq<string>, count: int)
      requires n.Valid()
      ensures out == matches + Entries(strippedMap, StrippedQuery(n))
      ensures count == |Entries(strippedMap, StrippedQuery(n))|
    {
      var plain, uhash, uhashordered := NameToHashes(n, 0);
      uhashordered := ReplaceUnit(uhashordered, YO, YE);
      out, count := AppendRange(matches, Entries(strippedMap, uhashordered));
    }

    method CheckStrippedStatusString(s: string, matches: seq<string>) returns (out: seq<string>, count: int)
      ensures NameOf(s, locale).Valid()
      ensures out == matches + Entries(strippedMap, StrippedQuery(NameOf(s, locale)))
      ensures count == |out| - |matches|
    {
      var n := NewName(s, locale);
      NameOfValid(s, locale);
      out, count := CheckStrippedStatus(n, matches);
    }
 
    /** Database::Load over the buffers `read` returns: every line of the
        file, cleaned as StringListParser cleans it, added in order. */
    method Load(chunks: seq<string>)
      requires Valid()
      modifies this, spellTrie
      ensures Valid()
      ensures State() == AddedAll(old(State()), locale, StringListParser.Lines(StringListParser.Concat(chunks)))
    {
      ghost var S0 := State();
      ghost var out: seq<string> := [];
      var name: string := [];
      var line := 1;
      var space := false;
      var comment := false;
      var k := 0;
      while k < |chunks|
        invariant 0 <= k <= |chunks|
        invariant Valid() && State() == AddedAll(S0, locale, out)
        invariant StringListParser.Reader(name, line, space, comment, out) ==
          StringListParser.Run(StringListParser.START, StringListParser.Concat(chunks[..k]))
      {
        name, line, space, comment, out := LoadBuffer(name, line, space, comment, chunks[k], out, S0);
        StringListParser.ConcatSnoc(chunks, k);
        StringListParser.RunConcat(StringListParser.START, StringListParser.Concat(chunks[..k]), chunks[k]);
        k := k + 1;
      }
      assert chunks[..k] == chunks;
      if name != [] {
        Add(name);
        AddedAllSnoc(S0, locale, out, name);
        out := out + [name];
      }
      StringListParser.ReaderComputesLines(StringListParser.Concat(chunks));
      assert out == StringListParser.Lines(StringListParser.Concat(chunks));
    }

    /** One character of Load's loop. */
    method Feed(name0: string, line0: int, space0: bool, comment0: bool, c: char, ghost out0: seq<string>, ghost S0: Index)
      returns (name: string, line: int, space: bool, comment: bool, ghost out: seq<string>)
      requires Valid() && State() == AddedAll(S0, locale, out0)
      modifies this, spellTrie
      ensures Valid() && State() == AddedAll(S0, locale, out)
      ensures StringListParser.Reader(name, line, space, comment, out) ==
        StringListParser.Step(StringListParser.Reader(name0, line0, space0, comment0, out0), c)
    {
      var emitted;
      name, line, space, comment, emitted := ReadChar(name0, line0, space0, comment0, c, out0);
      out := out0;
      if emitted != [] {
        Add(emitted);
        AddedAllSnoc(S0, locale, out, emitted);
        out := out + [emitted];
      }
    }

    /** The loop of Load over one buffer: a line is added as soon as its
        '\n' is read. */
    method LoadBuffer(name0: string, line0: int, space0: bool, comment0: bool, buffer: string,
                      ghost out0: seq<string>, ghost S0: Index)
      returns (name: string, line: int, space: bool, comment: bool, ghost out: seq<string>)
      requires Valid() && State() == AddedAll(S0, locale, out0)
      modifies this, spellTrie
      ensures Valid() && State() == AddedAll(S0, locale, out)
      ensures StringListParser.Reader(name, line, space, comment, out) ==
        StringListParser.Run(StringListParser.Reader(name0, line0, space0, comment0, out0), buffer)
    {
      ghost var r0 := StringListParser.Reader(name0, line0, space0, comment0, out0);
      name, line, space, comment, out := name0, line0, space0, comment0, out0;
      var i := 0;
      while i < |buffer|
        invariant 0 <= i <= |buffer|
        invariant Valid() && State() == AddedAll(S0, locale, out)
        invariant StringListParser.Reader(name, line, space, comment, out) == StringListParser.Run(r0, buffer[..i])
      {
        var c := buffer[i];
        name, line, space, comment, out := Feed(name, line, space, comment, c, out, S0);
        StringListParser.RunPrefixSnoc(r0, buffer, i);
        i := i + 1;
      }
      assert buffer[..i] == buffer;
    }
  }
}
