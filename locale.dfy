/** StreetMangler::Locale: the per-locale table of street status parts
    ("улица", "переулок", ...), the registry of known locales, and the
    lookup of a status part by any of its variants. */
module Locale {
  import opened Wrappers

  /** Number of slots in StatusPartData::variants. */
  const VARIANT_SLOTS: nat := 10

  /** The flag the ru_RU table gives to parts whose position in a name is
      not fixed. Its numeric value is not part of this model's sources; any
      non-zero value serves. */
  const RANDOM_ORDER: int := 1

  /** One row of a locale's declared table. NULL pointers are None. */
  datatype StatusPartData = StatusPartData(
    full: Option<string>,
    canonical: Option<string>,
    abbrev: Option<string>,
    variants: seq<Option<string>>,
    flags: int)

  /** A processed status part; priority 1 is the highest. */
  datatype StatusPart = StatusPart(priority: int, full: string, canonical: string, abbrev: string, flags: int)

  /** `this` takes precedence over `other`; a missing other loses to anything. */
  predicate IsPrior(p: StatusPart, other: Option<StatusPart>) {
    other.None? || p.priority < other.value.priority
  }

  lemma IsPriorNone(p: StatusPart)
    ensures IsPrior(p, None)
  {
  }

  lemma IsPriorStrict(p: StatusPart, q: StatusPart)
    ensures !IsPrior(p, Some(p))
    ensures IsPrior(p, Some(q)) ==> !IsPrior(q, Some(p))
  {
  }

  datatype LocaleError = UnknownLocale | DuplicateLocale(name: string) | DuplicateVariant(variant: string)

  /** Locale::Registrar: a named table in the registry's list. */
  datatype Registrar = Registrar(name: string, statusParts: seq<StatusPartData>)

  /** The static list of registrars, newest first. */
  class Registry {
    var locales: seq<Registrar>

    constructor ()
      ensures locales == []
    {
      locales := [];
    }

    /** Registrar::Registrar: checks that the name is new (an assertion in
        debug builds, modelled as a failure) and prepends the registrar. */
    method Register(name: string, statusParts: seq<StatusPartData>) returns (r: Result<bool, LocaleError>)
      modifies this
      ensures (exists i :: 0 <= i < |old(locales)| && old(locales)[i].name == name) ==>
        r == Failure(DuplicateLocale(name)) && locales == old(locales)
      ensures (forall i :: 0 <= i < |old(locales)| ==> old(locales)[i].name != name) ==>
        r == Success(true) && locales == [Registrar(name, statusParts)] + old(locales)
    {
      var k := 0;
      while k < |locales|
        invariant 0 <= k <= |locales|
        invariant forall i :: 0 <= i < k ==> locales[i].name != name
      {
        if locales[k].name == name {
          return Failure(DuplicateLocale(name));
        }
        k := k + 1;
      }
      locales := [Registrar(name, statusParts)] + locales;
      r := Success(true);
    }
  }

  /** The first registrar carrying the name. */
  function Lookup(locales: seq<Registrar>, name: string): (r: Option<Registrar>)
    ensures r.None? <==> forall i :: 0 <= i < |locales| ==> locales[i].name != name
    ensures r.Some? ==> r.value.name == name && exists i :: (0 <= i < |locales| && locales[i] == r.value &&
      forall j :: 0 <= j < i ==> locales[j].name != name)
  {
    if |locales| == 0 then None
    else if locales[0].name == name then Some(locales[0])
    else
      var r := Lookup(locales[1..], name);
      assert r.Some? ==> exists i :: 0 <= i < |locales[1..]| && locales[1..][i] == r.value;
      assert forall i :: 0 < i < |locales| ==> locales[i] == locales[1..][i - 1];
      r
  }

  /** Number of rows processed: the table ends at the first row whose full
      form is NULL. */
  function ActiveCount(t: seq<StatusPartData>): (n: nat)
    ensures n <= |t|
    ensures forall i :: 0 <= i < n ==> t[i].full.Some?
    ensures n < |t| ==> t[n].full.None?
  {
    if |t| == 0 || t[0].full.None? then 0
    else
      var n := 1 + ActiveCount(t[1..]);
      assert forall i :: 0 < i < n ==> t[i] == t[1..][i - 1];
      n
  }

  /** The declared variants of a row: the slots up to the first NULL. */
  function VariantList(d: StatusPartData): (r: seq<string>)
    ensures |r| <= VARIANT_SLOTS
  {
    var slots := if |d.variants| <= VARIANT_SLOTS then d.variants else d.variants[..VARIANT_SLOTS];
    VariantsIn(slots)
  }

  /** The variants are the non-NULL slots before the first NULL, within the
      ten slots of the row. */
  lemma VariantListSpec(d: StatusPartData)
    ensures var r := VariantList(d);
      |r| <= |d.variants| &&
      (forall i :: 0 <= i < |r| ==> d.variants[i] == Some(r[i])) &&
      (|r| < VARIANT_SLOTS && |r| < |d.variants| ==> d.variants[|r|].None?)
  {
  }

  function VariantsIn(vs: seq<Option<string>>): (r: seq<string>)
    ensures |r| <= |vs|
    ensures forall i :: 0 <= i < |r| ==> vs[i] == Some(r[i])
    ensures |r| < |vs| ==> vs[|r|].None?
  {
    if |vs| == 0 || vs[0].None? then [] else [vs[0].value] + VariantsIn(vs[1..])
  }

  /** Slots holding the given names and then a NULL list exactly those names. */
  lemma {:induction false} VariantsUpToNull(slots: seq<Option<string>>, vs: seq<string>)
    requires |vs| < |slots| && slots[|vs|].None?
    requires forall i :: 0 <= i < |vs| ==> slots[i] == Some(vs[i])
    ensures VariantsIn(slots) == vs
  {
    if |vs| > 0 {
      assert slots[0] == Some(vs[0]);
      forall i | 0 <= i < |vs| - 1
        ensures slots[1..][i] == Some(vs[1..][i])
      {
        assert slots[i + 1] == Some(vs[i + 1]);
      }
      VariantsUpToNull(slots[1..], vs[1..]);
    }
  }

  /** The part a row yields at the given priority: canonical defaults to
      full, abbreviation to canonical. */
  function MakePart(priority: int, d: StatusPartData): (p: StatusPart)
    requires d.full.Some?
    ensures p.priority == priority && p.full == d.full.value && p.flags == d.flags
    ensures p.canonical == (if d.canonical.Some? then d.canonical.value else d.full.value)
    ensures p.abbrev == (if d.abbrev.Some? then d.abbrev.value else p.canonical)
  {
    var canonical := if d.canonical.Some? then d.canonical.value else d.full.value;
    var abbrev := if d.abbrev.Some? then d.abbrev.value else canonical;
    StatusPart(priority, d.full.value, canonical, abbrev, d.flags)
  }

  function PartsOf(t: seq<StatusPartData>): (r: seq<StatusPart>)
    ensures |r| == ActiveCount(t)
    ensures forall i :: 0 <= i < |r| ==> r[i] == MakePart(i + 1, t[i])
  {
    seq(ActiveCount(t), i requires 0 <= i < ActiveCount(t) => MakePart(i + 1, t[i]))
  }

  /** The declared variants of every processed row. */
  function VariantRows(t: seq<StatusPartData>): (rows: seq<seq<string>>)
    ensures |rows| == ActiveCount(t)
    ensures forall i :: 0 <= i < |rows| ==> rows[i] == VariantList(t[i])
  {
    seq(ActiveCount(t), i requires 0 <= i < ActiveCount(t) => VariantList(t[i]))
  }

  /** The variant map after the first n rows; inserting a key that is
      already present is the assertion failure of locale.cc. */
  function MapRows(rows: seq<seq<string>>, n: nat, parts: seq<StatusPart>): Result<map<string, StatusPart>, LocaleError>
    requires n <= |rows| && n <= |parts|
  {
    if n == 0 then Success(map[])
    else
      match MapRows(rows, n - 1, parts)
      case Failure(e) => Failure(e)
      case Success(m) => MapRow(m, rows[n - 1], parts[n - 1])
  }

  /** Inserting one row's variants, in order, all pointing at its part. */
  function MapRow(m: map<string, StatusPart>, vs: seq<string>, p: StatusPart): Result<map<string, StatusPart>, LocaleError>
    decreases |vs|
  {
    if |vs| == 0 then Success(m)
    else if vs[0] in m then Failure(DuplicateVariant(vs[0]))
    else MapRow(m[vs[0] := p], vs[1..], p)
  }

  datatype Locale = Locale(statusParts: seq<StatusPart>, statusPartByAny: map<string, StatusPart>)

  /** Locale::FindStatus: the part declaring the variant, if any. */
  function FindStatus(l: Locale, name: string): Option<StatusPart> {
    if name in l.statusPartByAny then Some(l.statusPartByAny[name]) else None
  }

  /** A space or a tab: the characters the name tokenizer reads as space. */
  predicate IsBlank(c: char) {
    c == ' ' || c == '\t'
  }

  /** A form the tokenizer reads as one word: not empty, and no blank in it. */
  predicate OneWord(s: string) {
    |s| > 0 && forall j :: 0 <= j < |s| ==> !IsBlank(s[j])
  }

  /** The three forms Join may write for a part are one word each. */
  predicate WordForms(p: StatusPart) {
    OneWord(p.full) && OneWord(p.canonical) && OneWord(p.abbrev)
  }

  /** Every part the locale finds has one-word forms. */
  ghost predicate OneWordForms(l: Locale) {
    forall v :: v in l.statusPartByAny ==> WordForms(l.statusPartByAny[v])
  }

  function BuildLocale(t: seq<StatusPartData>): Result<Locale, LocaleError> {
    var parts := PartsOf(t);
    match MapRows(VariantRows(t), ActiveCount(t), parts)
    case Failure(e) => Failure(e)
    case Success(m) => Success(Locale(parts, m))
  }

  /** The result of Locale::Locale(name) over the registry's list. */
  function LocaleOf(locales: seq<Registrar>, name: string): Result<Locale, LocaleError> {
    match Lookup(locales, name)
    case None => Failure(UnknownLocale)
    case Some(reg) => BuildLocale(reg.statusParts)
  }

  /** Locale::Locale: find the registrar, then number the rows and fill in
      the defaults, then map every variant to its part. */
  method NewLocale(locales: seq<Registrar>, name: string) returns (r: Result<Locale, LocaleError>)
    ensures r == LocaleOf(locales, name)
  {
    var locale := FindRegistrar(locales, name);
    if locale.None? {
      return Failure(UnknownLocale);
    }
    var table := locale.value.statusParts;
    var parts := ProcessParts(table);
    var m := MapVariants(table, parts);
    match m
    case Failure(e) => r := Failure(e);
    case Success(byAny) => r := Success(Locale(parts, byAny));
  }

  /** The search of the registrar list (locale.cc:43-49). */
  method FindRegistrar(locales: seq<Registrar>, name: string) returns (locale: Option<Registrar>)
    ensures locale == Lookup(locales, name)
  {
    locale := None;
    var k := 0;
    while k < |locales|
      invariant 0 <= k <= |locales|
      invariant Lookup(locales, name) == Lookup(locales[k..], name)
    {
      if locales[k].name == name {
        locale := Some(locales[k]);
        return;
      }
      assert locales[k..][1..] == locales[k + 1..];
      k := k + 1;
    }
  }

  /** The first row without a full form, found by inspection. */
  lemma ActiveCountIs(t: seq<StatusPartData>, n: nat)
    requires n < |t| && t[n].full.None?
    requires forall i :: 0 <= i < n ==> t[i].full.Some?
    ensures ActiveCount(t) == n
  {
  }

  /** A row with a full form, not beyond the terminator, is before it. */
  lemma BeforeTerminator(t: seq<StatusPartData>, i: nat)
    requires i <= ActiveCount(t) && i < |t| && t[i].full.Some?
    ensures i < ActiveCount(t)
  {
  }

  /** The priority loop (locale.cc:54-62). */
  method ProcessParts(table: seq<StatusPartData>) returns (parts: seq<StatusPart>)
    ensures parts == PartsOf(table)
  {
    parts := [];
    var priority := 1;
    var i := 0;
    while i < |table| && table[i].full.Some?
      invariant 0 <= i <= ActiveCount(table)
      invariant priority == i + 1
      invariant parts == PartsOf(table)[..i]
    {
      BeforeTerminator(table, i);
      var canonical := if table[i].canonical.Some? then table[i].canonical.value else table[i].full.value;
      var abbrev := if table[i].abbrev.Some? then table[i].abbrev.value else canonical;
      var part := StatusPart(priority, table[i].full.value, canonical, abbrev, table[i].flags);
      assert part == PartsOf(table)[i];
      assert PartsOf(table)[..i + 1] == PartsOf(table)[..i] + [part];
      parts := parts + [part];
      i := i + 1;
      priority := priority + 1;
    }
  }

  /** The variant loop (locale.cc:64-72). */
  method MapVariants(table: seq<StatusPartData>, parts: seq<StatusPart>) returns (r: Result<map<string, StatusPart>, LocaleError>)
    requires |parts| == ActiveCount(table)
    ensures r == MapRows(VariantRows(table), ActiveCount(table), parts)
  {
    ghost var rows := VariantRows(table);
    var n := ActiveCount(table);
    var m: map<string, StatusPart> := map[];
    var i := 0;
    while i < |table| && table[i].full.Some?
      invariant 0 <= i <= n
      invariant MapRows(rows, i, parts) == Success(m)
    {
      var res := AddRow(table, i, parts, m);
      if res.Failure? {
        return res;
      }
      m := res.value;
      i := i + 1;
    }
    AtTerminator(table, i);
    r := Success(m);
  }

  /** One turn of the variant loop: a failing row is the outcome of the
      whole map, a successful one the map after one more row. */
  method AddRow(table: seq<StatusPartData>, i: nat, parts: seq<StatusPart>, m: map<string, StatusPart>) returns (res: Result<map<string, StatusPart>, LocaleError>)
    requires i <= ActiveCount(table) && i < |table| && table[i].full.Some? && |parts| == ActiveCount(table)
    requires MapRows(VariantRows(table), i, parts) == Success(m)
    ensures i < ActiveCount(table)
    ensures res.Failure? ==> MapRows(VariantRows(table), ActiveCount(table), parts) == res
    ensures res.Success? ==> MapRows(VariantRows(table), i + 1, parts) == res
  {
    BeforeTerminator(table, i);
    res := InsertRow(m, table[i], parts[i]);
    RowStep(table, i, parts, m, res);
  }

  /** The row loop's step, stated on the specification. */
  lemma RowStep(table: seq<StatusPartData>, i: nat, parts: seq<StatusPart>, m: map<string, StatusPart>, res: Result<map<string, StatusPart>, LocaleError>)
    requires i < ActiveCount(table) && |parts| == ActiveCount(table)
    requires MapRows(VariantRows(table), i, parts) == Success(m)
    requires res == MapRow(m, VariantList(table[i]), parts[i])
    ensures res.Failure? ==> MapRows(VariantRows(table), ActiveCount(table), parts) == res
    ensures res.Success? ==> MapRows(VariantRows(table), i + 1, parts) == res
  {
    var rows := VariantRows(table);
    assert rows[i] == VariantList(table[i]);
    MapRowsStep(rows, i, parts, m);
    if res.Failure? {
      FailureSticks(rows, i + 1, ActiveCount(table), parts, res.error);
    }
  }

  /** One more row of the variant map. */
  lemma MapRowsStep(rows: seq<seq<string>>, i: nat, parts: seq<StatusPart>, m: map<string, StatusPart>)
    requires i < |rows| && i < |parts| && MapRows(rows, i, parts) == Success(m)
    ensures MapRows(rows, i + 1, parts) == MapRow(m, rows[i], parts[i])
  {
  }

  /** The row loop stops at the terminator. */
  lemma AtTerminator(t: seq<StatusPartData>, i: nat)
    requires i <= ActiveCount(t) && (i == |t| || t[i].full.None?)
    ensures i == ActiveCount(t)
  {
  }

  /** The inner loop over one row's variant slots. */
  method InsertRow(m0: map<string, StatusPart>, row: StatusPartData, p: StatusPart) returns (r: Result<map<string, StatusPart>, LocaleError>)
    ensures r == MapRow(m0, VariantList(row), p)
  {
    ghost var vs := VariantList(row);
    VariantListSpec(row);
    var m := m0;
    var j := 0;
    while j < VARIANT_SLOTS && j < |row.variants| && row.variants[j].Some?
      invariant 0 <= j <= |vs|
      invariant MapRow(m, vs[j..], p) == MapRow(m0, vs, p)
    {
      var v := row.variants[j].value;
      assert j < |vs|;
      assert vs[j..][0] == v && vs[j..][1..] == vs[j + 1..];
      if v in m {
        return Failure(DuplicateVariant(v));
      }
      m := m[v := p];
      j := j + 1;
    }
    assert j == |vs|;
    assert vs[j..] == [];
    r := Success(m);
  }

  /** Once an insertion fails, the later rows cannot undo it. */
  lemma {:induction false} FailureSticks(rows: seq<seq<string>>, i: nat, n: nat, parts: seq<StatusPart>, e: LocaleError)
    requires i <= n <= |rows| && n <= |parts|
    requires MapRows(rows, i, parts) == Failure(e)
    ensures MapRows(rows, n, parts) == Failure(e)
    decreases n
  {
    if i < n {
      FailureSticks(rows, i, n - 1, parts, e);
    }
  }

  /** Inserting one row succeeds iff its variants are new and pairwise
      distinct; the map then gains exactly those keys, all pointing at the
      row's part, and keeps every old entry. */
  lemma {:induction false} MapRowSpec(m: map<string, StatusPart>, vs: seq<string>, p: StatusPart)
    ensures MapRow(m, vs, p).Success? <==>
      (forall a :: 0 <= a < |vs| ==> vs[a] !in m) && (forall a, b :: 0 <= a < b < |vs| ==> vs[a] != vs[b])
    ensures MapRow(m, vs, p).Failure? ==> MapRow(m, vs, p).error.DuplicateVariant?
    ensures MapRow(m, vs, p).Success? ==> var m' := MapRow(m, vs, p).value;
      (forall v :: v in m' <==> v in m || v in vs) &&
      (forall v :: v in m' ==> m'[v] == if v in vs then p else m[v])
    decreases |vs|
  {
    if |vs| > 0 {
      var m1 := m[vs[0] := p];
      MapRowSpec(m1, vs[1..], p);
      if vs[0] in m {
        assert MapRow(m, vs, p).Failure?;
      } else {
        assert MapRow(m, vs, p) == MapRow(m1, vs[1..], p);
        assert forall a :: 0 < a < |vs| ==> vs[a] == vs[1..][a - 1];
        assert forall v :: v in vs <==> v == vs[0] || v in vs[1..];
      }
    }
  }

  /** Slot a of row i and slot b of row j are two declarations of one variant. */
  ghost predicate Clash(rows: seq<seq<string>>, i: int, a: int, j: int, b: int)
    requires 0 <= i < |rows| && 0 <= j < |rows| && 0 <= a && 0 <= b
  {
    (i, a) != (j, b) && a < |rows[i]| && b < |rows[j]| && rows[i][a] == rows[j][b]
  }

  /** The rows below n declare no variant twice. */
  ghost predicate DistinctVariants(rows: seq<seq<string>>, n: nat)
    requires n <= |rows|
  {
    forall i, a, j, b | 0 <= i < n && 0 <= j < n && 0 <= a && 0 <= b :: !Clash(rows, i, a, j, b)
  }

  /** Row i, below n, declares the variant. */
  ghost predicate DeclaredIn(rows: seq<seq<string>>, n: nat, v: string, i: int)
    requires n <= |rows|
  {
    0 <= i < n && v in rows[i]
  }

  /** m is the map the rows below n should give. */
  ghost predicate MapMatches(rows: seq<seq<string>>, n: nat, parts: seq<StatusPart>, m: map<string, StatusPart>)
    requires n <= |rows| && n <= |parts|
  {
    (forall v :: v in m <==> exists i :: DeclaredIn(rows, n, v, i)) &&
    (forall v, i :: DeclaredIn(rows, n, v, i) ==> v in m && m[v] == parts[i])
  }

  /** Building the map over rows below n succeeds iff no variant is declared
      twice; then a variant is a key iff some row declares it, and it maps to
      that row's part. */
  lemma {:induction false} MapRowsSpec(rows: seq<seq<string>>, n: nat, parts: seq<StatusPart>)
    requires n <= |rows| && n <= |parts|
    ensures MapRows(rows, n, parts).Success? <==> DistinctVariants(rows, n)
    ensures MapRows(rows, n, parts).Failure? ==> MapRows(rows, n, parts).error.DuplicateVariant?
    ensures MapRows(rows, n, parts).Success? ==> MapMatches(rows, n, parts, MapRows(rows, n, parts).value)
    decreases n
  {
    if n > 0 {
      MapRowsSpec(rows, n - 1, parts);
      DistinctPrefix(rows, n);
      var prev := MapRows(rows, n - 1, parts);
      if prev.Success? {
        var m := prev.value;
        MapRowSpec(m, rows[n - 1], parts[n - 1]);
        assert MapRows(rows, n, parts) == MapRow(m, rows[n - 1], parts[n - 1]);
        if DistinctVariants(rows, n) {
          RowFresh(rows, n, parts, m);
          MatchesStep(rows, n, parts, m, MapRows(rows, n, parts).value);
        } else if DistinctVariants(rows, n - 1) {
          RowClash(rows, n, parts, m);
        }
      }
    }
  }

  lemma DistinctPrefix(rows: seq<seq<string>>, n: nat)
    requires 0 < n <= |rows|
    ensures DistinctVariants(rows, n) ==> DistinctVariants(rows, n - 1)
  {
  }

  /** With no duplicates, the next row's variants are new and distinct. */
  lemma RowFresh(rows: seq<seq<string>>, n: nat, parts: seq<StatusPart>, m: map<string, StatusPart>)
    requires 0 < n <= |rows| && n <= |parts|
    requires DistinctVariants(rows, n) && MapMatches(rows, n - 1, parts, m)
    ensures var vs := rows[n - 1];
      (forall a :: 0 <= a < |vs| ==> vs[a] !in m) && (forall a, b :: 0 <= a < b < |vs| ==> vs[a] != vs[b])
  {
    var vs := rows[n - 1];
    forall a | 0 <= a < |vs|
      ensures vs[a] !in m
    {
      if vs[a] in m {
        var i :| DeclaredIn(rows, n - 1, vs[a], i);
        var b :| 0 <= b < |rows[i]| && rows[i][b] == vs[a];
        assert Clash(rows, i, b, n - 1, a);
      }
    }
    forall a, b | 0 <= a < b < |vs|
      ensures vs[a] != vs[b]
    {
      assert !Clash(rows, n - 1, a, n - 1, b);
    }
  }

  /** Adding a fresh row to a matching map gives the matching map one row on. */
  lemma MatchesStep(rows: seq<seq<string>>, n: nat, parts: seq<StatusPart>, m: map<string, StatusPart>, m': map<string, StatusPart>)
    requires 0 < n <= |rows| && n <= |parts|
    requires MapMatches(rows, n - 1, parts, m)
    requires var vs := rows[n - 1];
      (forall a :: 0 <= a < |vs| ==> vs[a] !in m) &&
      (forall v :: v in m' <==> v in m || v in vs) &&
      (forall v :: v in m' ==> m'[v] == if v in vs then parts[n - 1] else m[v])
    ensures MapMatches(rows, n, parts, m')
  {
    forall v, i | DeclaredIn(rows, n, v, i)
      ensures v in m' && m'[v] == parts[i]
    {
      if i < n - 1 {
        assert DeclaredIn(rows, n - 1, v, i);
      }
    }
    forall v | v in m'
      ensures exists i :: DeclaredIn(rows, n, v, i)
    {
      if v in m {
        var i :| DeclaredIn(rows, n - 1, v, i);
        assert DeclaredIn(rows, n, v, i);
      } else {
        assert DeclaredIn(rows, n, v, n - 1);
      }
    }
  }

  /** A duplicate that involves the next row shows up when inserting it. */
  lemma RowClash(rows: seq<seq<string>>, n: nat, parts: seq<StatusPart>, m: map<string, StatusPart>)
    requires 0 < n <= |rows| && n <= |parts|
    requires DistinctVariants(rows, n - 1) && !DistinctVariants(rows, n) && MapMatches(rows, n - 1, parts, m)
    ensures var vs := rows[n - 1];
      (exists a :: 0 <= a < |vs| && vs[a] in m) || (exists a, b :: 0 <= a < b < |vs| && vs[a] == vs[b])
  {
    var vs := rows[n - 1];
    var i, a, j, b :| 0 <= i < n && 0 <= j < n && 0 <= a && 0 <= b && Clash(rows, i, a, j, b);
    if i == n - 1 && j == n - 1 {
      if a < b { assert vs[a] == vs[b]; } else { assert vs[b] == vs[a]; }
    } else if i == n - 1 {
      assert DeclaredIn(rows, n - 1, vs[a], j);
    } else {
      assert DeclaredIn(rows, n - 1, vs[b], i);
    }
  }

  /** Locale construction fails with UnknownLocale exactly when no registrar
      carries the name; any other failure is a duplicate variant. */
  lemma LocaleOfFailure(locales: seq<Registrar>, name: string)
    ensures LocaleOf(locales, name) == Failure(UnknownLocale) <==>
      forall i :: 0 <= i < |locales| ==> locales[i].name != name
    ensures LocaleOf(locales, name).Failure? ==>
      LocaleOf(locales, name).error.UnknownLocale? || LocaleOf(locales, name).error.DuplicateVariant?
  {
    var reg := Lookup(locales, name);
    if reg.Some? {
      var t := reg.value.statusParts;
      MapRowsSpec(VariantRows(t), ActiveCount(t), PartsOf(t));
    }
  }

  /** Row i of the table is processed and lists v among its variants. */
  ghost predicate Declares(t: seq<StatusPartData>, v: string, i: int) {
    0 <= i < ActiveCount(t) && v in VariantList(t[i])
  }

  /** No variant is listed twice among the processed rows. */
  ghost predicate NoDuplicateVariant(t: seq<StatusPartData>) {
    forall i, a, j, b | 0 <= i < ActiveCount(t) && 0 <= j < ActiveCount(t) && 0 <= a < |VariantList(t[i])| && 0 <= b < |VariantList(t[j])| ::
      (i, a) != (j, b) ==> VariantList(t[i])[a] != VariantList(t[j])[b]
  }

  lemma DeclaresRows(t: seq<StatusPartData>, v: string, i: int)
    ensures Declares(t, v, i) <==> DeclaredIn(VariantRows(t), ActiveCount(t), v, i)
  {
  }

  lemma NoDuplicateRows(t: seq<StatusPartData>)
    ensures NoDuplicateVariant(t) <==> DistinctVariants(VariantRows(t), ActiveCount(t))
  {
    var rows := VariantRows(t);
    var n := ActiveCount(t);
    if NoDuplicateVariant(t) {
      forall i, a, j, b | 0 <= i < n && 0 <= j < n && 0 <= a && 0 <= b
        ensures !Clash(rows, i, a, j, b)
      {
        assert rows[i] == VariantList(t[i]) && rows[j] == VariantList(t[j]);
      }
    }
    if DistinctVariants(rows, n) {
      forall i, a, j, b | 0 <= i < n && 0 <= j < n && 0 <= a < |VariantList(t[i])| && 0 <= b < |VariantList(t[j])|
        ensures (i, a) != (j, b) ==> VariantList(t[i])[a] != VariantList(t[j])[b]
      {
        assert !Clash(rows, i, a, j, b);
      }
    }
  }

  /** A table has no duplicate variant when the row declaring each variant
      is a function of the variant and no row lists one twice. */
  lemma NoDuplicateByOwner(t: seq<StatusPartData>, owner: string -> int)
    requires forall i, a :: 0 <= i < ActiveCount(t) && 0 <= a < |VariantList(t[i])| ==>
      owner(VariantList(t[i])[a]) == i
    requires forall i, a, b :: 0 <= i < ActiveCount(t) && 0 <= a < b < |VariantList(t[i])| ==>
      VariantList(t[i])[a] != VariantList(t[i])[b]
    ensures NoDuplicateVariant(t)
  {
    var n := ActiveCount(t);
    forall i, a, j, b | 0 <= i < n && 0 <= j < n && 0 <= a < |VariantList(t[i])| && 0 <= b < |VariantList(t[j])|
      ensures (i, a) != (j, b) ==> VariantList(t[i])[a] != VariantList(t[j])[b]
    {
      if i == j && b < a {
        assert VariantList(t[i])[b] != VariantList(t[i])[a];
      }
    }
  }

  /** A table builds iff no variant is declared twice among its rows; then
      FindStatus finds a variant iff some row declares it, and returns that
      row's part: priority = position + 1 and the filled-in defaults. The
      full form is found only if it is listed among the variants. */
  lemma BuildLocaleSpec(t: seq<StatusPartData>)
    ensures BuildLocale(t).Success? <==> NoDuplicateVariant(t)
    ensures BuildLocale(t).Failure? ==> BuildLocale(t).error.DuplicateVariant?
    ensures BuildLocale(t).Success? ==> var l := BuildLocale(t).value;
      l.statusParts == PartsOf(t) &&
      (forall v :: FindStatus(l, v).Some? <==> exists i :: Declares(t, v, i)) &&
      (forall v, i :: Declares(t, v, i) ==> FindStatus(l, v) == Some(MakePart(i + 1, t[i])))
  {
    var rows := VariantRows(t);
    var n := ActiveCount(t);
    MapRowsSpec(rows, n, PartsOf(t));
    NoDuplicateRows(t);
    if BuildLocale(t).Success? {
      var l := BuildLocale(t).value;
      assert MapMatches(rows, n, PartsOf(t), l.statusPartByAny);
      forall v
        ensures FindStatus(l, v).Some? <==> exists i :: Declares(t, v, i)
      {
        if FindStatus(l, v).Some? {
          var i :| DeclaredIn(rows, n, v, i);
          DeclaresRows(t, v, i);
        } else {
          forall i | Declares(t, v, i)
            ensures false
          {
            DeclaresRows(t, v, i);
          }
        }
      }
      forall v, i | Declares(t, v, i)
        ensures FindStatus(l, v) == Some(MakePart(i + 1, t[i]))
      {
        DeclaresRows(t, v, i);
        assert PartsOf(t)[i] == MakePart(i + 1, t[i]);
      }
    }
  }

  /** Within one built locale, an earlier row takes precedence over a
      later one, and never over itself. */
  lemma PriorityOrder(t: seq<StatusPartData>, i: nat, j: nat)
    requires BuildLocale(t).Success?
    requires i < |BuildLocale(t).value.statusParts| && j < |BuildLocale(t).value.statusParts|
    ensures var ps := BuildLocale(t).value.statusParts;
      IsPrior(ps[i], Some(ps[j])) <==> i < j
  {
  }
}
