/** The ru_RU locale: Russian street status parts ("улица", "переулок",
    ...) in priority order, and its registrar. */
module RuLocale {
  import opened Wrappers
  import opened Locale

  /** One line of the C array with its NULL variant slots left off. */
  datatype Entry = Entry(full: string, canonical: Option<string>, abbrev: Option<string>, variants: seq<string>, flags: int)

  /** A row's variant array: the listed variants, then NULL in every
      remaining slot of the ten. */
  function Slots(vs: seq<string>): (r: seq<Option<string>>)
    ensures |r| == VARIANT_SLOTS
    ensures forall i :: 0 <= i < VARIANT_SLOTS ==> r[i] == if i < |vs| then Some(vs[i]) else None
  {
    seq(VARIANT_SLOTS, i requires 0 <= i < VARIANT_SLOTS => if i < |vs| then Some(vs[i]) else None)
  }

  /** The StatusPartData an entry stands for; with fewer than ten variants
      it lists exactly them. */
  function RowOf(e: Entry): (d: StatusPartData)
    ensures d.full == Some(e.full) && d.canonical == e.canonical && d.abbrev == e.abbrev && d.flags == e.flags
    ensures |e.variants| < VARIANT_SLOTS ==> VariantList(d) == e.variants
  {
    var d := StatusPartData(Some(e.full), e.canonical, e.abbrev, Slots(e.variants), e.flags);
    if |e.variants| < VARIANT_SLOTS then
      VariantsUpToNull(d.variants, e.variants);
      d
    else
      d
  }

  /** The lines of lib/locales/ru.cc before the terminator. */
  const ENTRIES: seq<Entry> := [
    Entry("улица", None, Some("ул."), ["улица", "ул"], 0),
    Entry("площадь", None, Some("пл."), ["площадь", "пл"], 0),
    Entry("переулок", None, Some("пер."), ["переулок", "пер", "пер-к"], 0),
    Entry("проезд", None, Some("пр-д."), ["проезд", "пр-д"], 0),
    Entry("шоссе", None, Some("ш."), ["шоссе", "ш"], 0),
    Entry("бульвар", None, Some("бул."), ["бульвар", "бул", "б-р"], 0),
    Entry("тупик", None, Some("туп."), ["тупик", "туп"], 0),
    Entry("набережная", None, Some("наб."), ["набережная", "наб"], 0),
    Entry("проспект", None, Some("пр-т."), ["проспект", "просп", "пр-кт", "пр-т"], 0),
    Entry("линия", None, None, ["линия"], 0),
    Entry("аллея", None, None, ["аллея"], 0),
    Entry("метромост", None, None, ["метромост"], 0),
    Entry("мост", None, None, ["мост"], 0),
    Entry("просек", None, None, ["просек"], 0),
    Entry("просека", None, None, ["просека"], 0),
    Entry("путепровод", None, None, ["путепровод"], 0),
    Entry("тракт", None, None, ["тракт", "тр-т", "тр"], 0),
    Entry("тропа", None, None, ["тропа"], 0),
    Entry("туннель", None, None, ["туннель"], 0),
    Entry("тоннель", None, None, ["тоннель"], 0),
    Entry("эстакада", None, None, ["эстакада", "эст"], 0),
    Entry("спуск", None, None, ["спуск"], 0),
    Entry("подход", None, None, ["подход"], 0),
    Entry("подъезд", None, None, ["подъезд"], 0),
    Entry("съезд", None, None, ["съезд"], 0),
    Entry("заезд", None, None, ["заезд"], 0),
    Entry("разъезд", None, None, ["разъезд"], 0),
    Entry("слобода", None, None, ["слобода"], 0),
    Entry("район", None, None, ["район", "р-н"], RANDOM_ORDER),
    Entry("микрорайон", None, None, ["микрорайон", "мкр-н", "мк-н", "мкр", "мкрн"], RANDOM_ORDER),
    Entry("посёлок", None, None, ["посёлок", "поселок", "пос"], RANDOM_ORDER),
    Entry("деревня", None, None, ["деревня", "дер", "д"], RANDOM_ORDER),
    Entry("квартал", None, None, ["квартал", "кв-л"], RANDOM_ORDER)
  ]

  function RowsOf(es: seq<Entry>): (r: seq<StatusPartData>)
    ensures |r| == |es| && forall i :: 0 <= i < |es| ==> r[i] == RowOf(es[i])
  {
    seq(|es|, i requires 0 <= i < |es| => RowOf(es[i]))
  }

  /** The ru_RU table, ended by the all-NULL row. */
  const STATUS_PARTS: seq<StatusPartData> := RowsOf(ENTRIES) + [StatusPartData(None, None, None, Slots([]), 0)]

  /** The only registrar of this model's locale list. */
  const RU_RU: Registrar := Registrar("ru_RU", STATUS_PARTS)

  /** No variant is listed twice. */
  predicate Distinct(vs: seq<string>) {
    forall a, b :: 0 <= a < b < |vs| ==> vs[a] != vs[b]
  }

  /** The entry listing v among its variants, or -1: the table's variant
      columns read the other way round. */
  function DeclaringRow(v: string): int {
    if v in {"улица", "ул"} then 0
    else if v in {"площадь", "пл"} then 1
    else if v in {"переулок", "пер", "пер-к"} then 2
    else if v in {"проезд", "пр-д"} then 3
    else if v in {"шоссе", "ш"} then 4
    else if v in {"бульвар", "бул", "б-р"} then 5
    else if v in {"тупик", "туп"} then 6
    else if v in {"набережная", "наб"} then 7
    else if v in {"проспект", "просп", "пр-кт", "пр-т"} then 8
    else if v in {"линия"} then 9
    else if v in {"аллея"} then 10
    else if v in {"метромост"} then 11
    else if v in {"мост"} then 12
    else if v in {"просек"} then 13
    else if v in {"просека"} then 14
    else if v in {"путепровод"} then 15
    else if v in {"тракт", "тр-т", "тр"} then 16
    else if v in {"тропа"} then 17
    else if v in {"туннель"} then 18
    else if v in {"тоннель"} then 19
    else if v in {"эстакада", "эст"} then 20
    else if v in {"спуск"} then 21
    else if v in {"подход"} then 22
    else if v in {"подъезд"} then 23
    else if v in {"съезд"} then 24
    else if v in {"заезд"} then 25
    else if v in {"разъезд"} then 26
    else if v in {"слобода"} then 27
    else if v in {"район", "р-н"} then 28
    else if v in {"микрорайон", "мкр-н", "мк-н", "мкр", "мкрн"} then 29
    else if v in {"посёлок", "поселок", "пос"} then 30
    else if v in {"деревня", "дер", "д"} then 31
    else if v in {"квартал", "кв-л"} then 32
    else -1
  }

  /** The table has 33 status parts before its terminator. */
  lemma ActiveRows()
    ensures |ENTRIES| == 33 && ActiveCount(STATUS_PARTS) == 33
  {
    ActiveCountIs(STATUS_PARTS, |ENTRIES|);
  }

  /** Every entry lists fewer than ten variants, so the slot array always
      ends with a NULL. */
  lemma EntriesShort()
    ensures forall k :: 0 <= k < |ENTRIES| ==> |ENTRIES[k].variants| < VARIANT_SLOTS
  {
  }

  /** Entries 0-1 ("улица" and "площадь") lead back to themselves. */
  lemma Declares0()
    ensures forall k, a :: 0 <= k < 2 && 0 <= a < |ENTRIES[k].variants| ==>
      DeclaringRow(ENTRIES[k].variants[a]) == k
  {
    forall k, a | 0 <= k < 2 && 0 <= a < |ENTRIES[k].variants|
      ensures DeclaringRow(ENTRIES[k].variants[a]) == k
    {
      if k == 0 { }
      else if k == 1 { }
    }
  }

  /** Entries 2-3 ("переулок" and "проезд") lead back to themselves. */
  lemma Declares2()
    ensures forall k, a :: 2 <= k < 4 && 0 <= a < |ENTRIES[k].variants| ==>
      DeclaringRow(ENTRIES[k].variants[a]) == k
  {
    forall k, a | 2 <= k < 4 && 0 <= a < |ENTRIES[k].variants|
      ensures DeclaringRow(ENTRIES[k].variants[a]) == k
    {
      if k == 2 { }
      else if k == 3 { }
    }
  }

  /** Entries 4-5 ("шоссе" and "бульвар") lead back to themselves. */
  lemma Declares4()
    ensures forall k, a :: 4 <= k < 6 && 0 <= a < |ENTRIES[k].variants| ==>
      DeclaringRow(ENTRIES[k].variants[a]) == k
  {
    forall k, a | 4 <= k < 6 && 0 <= a < |ENTRIES[k].variants|
      ensures DeclaringRow(ENTRIES[k].variants[a]) == k
    {
      if k == 4 { }
      else if k == 5 { }
    }
  }

  /** Entries 6-7 ("тупик" and "набережная") lead back to themselves. */
  lemma Declares6()
    ensures forall k, a :: 6 <= k < 8 && 0 <= a < |ENTRIES[k].variants| ==>
      DeclaringRow(ENTRIES[k].variants[a]) == k
  {
    forall k, a | 6 <= k < 8 && 0 <= a < |ENTRIES[k].variants|
      ensures DeclaringRow(ENTRIES[k].variants[a]) == k
    {
      if k == 6 { }
      else if k == 7 { }
    }
  }

  /** Entries 8-9 ("проспект" and "линия") lead back to themselves. */
  lemma Declares8()
    ensures forall k, a :: 8 <= k < 10 && 0 <= a < |ENTRIES[k].variants| ==>
      DeclaringRow(ENTRIES[k].variants[a]) == k
  {
    forall k, a | 8 <= k < 10 && 0 <= a < |ENTRIES[k].variants|
      ensures DeclaringRow(ENTRIES[k].variants[a]) == k
    {
      if k == 8 { }
      else if k == 9 { }
    }
  }

  /** Entries 10-11 ("аллея" and "метромост") lead back to themselves. */
  lemma Declares10()
    ensures forall k, a :: 10 <= k < 12 && 0 <= a < |ENTRIES[k].variants| ==>
      DeclaringRow(ENTRIES[k].variants[a]) == k
  {
    forall k, a | 10 <= k < 12 && 0 <= a < |ENTRIES[k].variants|
      ensures DeclaringRow(ENTRIES[k].variants[a]) == k
    {
      if k == 10 { }
      else if k == 11 { }
    }
  }

  /** Entries 12-13 ("мост" and "просек") lead back to themselves. */
  lemma Declares12()
    ensures forall k, a :: 12 <= k < 14 && 0 <= a < |ENTRIES[k].variants| ==>
      DeclaringRow(ENTRIES[k].variants[a]) == k
  {
    forall k, a | 12 <= k < 14 && 0 <= a < |ENTRIES[k].variants|
      ensures DeclaringRow(ENTRIES[k].variants[a]) == k
    {
      if k == 12 { }
      else if k == 13 { }
    }
  }

  /** Entries 14-15 ("просека" and "путепровод") lead back to themselves. */
  lemma Declares14()
    ensures forall k, a :: 14 <= k < 16 && 0 <= a < |ENTRIES[k].variants| ==>
      DeclaringRow(ENTRIES[k].variants[a]) == k
  {
    forall k, a | 14 <= k < 16 && 0 <= a < |ENTRIES[k].variants|
      ensures DeclaringRow(ENTRIES[k].variants[a]) == k
    {
      if k == 14 { }
      else if k == 15 { }
    }
  }

  /** Entries 16-17 ("тракт" and "тропа") lead back to themselves. */
  lemma Declares16()
    ensures forall k, a :: 16 <= k < 18 && 0 <= a < |ENTRIES[k].variants| ==>
      DeclaringRow(ENTRIES[k].variants[a]) == k
  {
    forall k, a | 16 <= k < 18 && 0 <= a < |ENTRIES[k].variants|
      ensures DeclaringRow(ENTRIES[k].variants[a]) == k
    {
      if k == 16 { }
      else if k == 17 { }
    }
  }

  /** Entries 18-19 ("туннель" and "тоннель") lead back to themselves. */
  lemma Declares18()
    ensures forall k, a :: 18 <= k < 20 && 0 <= a < |ENTRIES[k].variants| ==>
      DeclaringRow(ENTRIES[k].variants[a]) == k
  {
    forall k, a | 18 <= k < 20 && 0 <= a < |ENTRIES[k].variants|
      ensures DeclaringRow(ENTRIES[k].variants[a]) == k
    {
      if k == 18 { }
      else if k == 19 { }
    }
  }

  /** Entries 20-21 ("эстакада" and "спуск") lead back to themselves. */
  lemma Declares20()
    ensures forall k, a :: 20 <= k < 22 && 0 <= a < |ENTRIES[k].variants| ==>
      DeclaringRow(ENTRIES[k].variants[a]) == k
  {
    forall k, a | 20 <= k < 22 && 0 <= a < |ENTRIES[k].variants|
      ensures DeclaringRow(ENTRIES[k].variants[a]) == k
    {
      if k == 20 { }
      else if k == 21 { }
    }
  }

  /** Entries 22-23 ("подход" and "подъезд") lead back to themselves. */
  lemma Declares22()
    ensures forall k, a :: 22 <= k < 24 && 0 <= a < |ENTRIES[k].variants| ==>
      DeclaringRow(ENTRIES[k].variants[a]) == k
  {
    forall k, a | 22 <= k < 24 && 0 <= a < |ENTRIES[k].variants|
      ensures DeclaringRow(ENTRIES[k].variants[a]) == k
    {
      if k == 22 { }
      else if k == 23 { }
    }
  }

  /** Entries 24-25 ("съезд" and "заезд") lead back to themselves. */
  lemma Declares24()
    ensures forall k, a :: 24 <= k < 26 && 0 <= a < |ENTRIES[k].variants| ==>
      DeclaringRow(ENTRIES[k].variants[a]) == k
  {
    forall k, a | 24 <= k < 26 && 0 <= a < |ENTRIES[k].variants|
      ensures DeclaringRow(ENTRIES[k].variants[a]) == k
    {
      if k == 24 { }
      else if k == 25 { }
    }
  }

  /** Entries 26-27 ("разъезд" and "слобода") lead back to themselves. */
  lemma Declares26()
    ensures forall k, a :: 26 <= k < 28 && 0 <= a < |ENTRIES[k].variants| ==>
      DeclaringRow(ENTRIES[k].variants[a]) == k
  {
    forall k, a | 26 <= k < 28 && 0 <= a < |ENTRIES[k].variants|
      ensures DeclaringRow(ENTRIES[k].variants[a]) == k
    {
      if k == 26 { }
      else if k == 27 { }
    }
  }

  /** Entries 28-29 ("район" and "микрорайон") lead back to themselves. */
  lemma Declares28()
    ensures forall k, a :: 28 <= k < 30 && 0 <= a < |ENTRIES[k].variants| ==>
      DeclaringRow(ENTRIES[k].variants[a]) == k
  {
    forall k, a | 28 <= k < 30 && 0 <= a < |ENTRIES[k].variants|
      ensures DeclaringRow(ENTRIES[k].variants[a]) == k
    {
      if k == 28 { }
      else if k == 29 { }
    }
  }

  /** Entries 30-31 ("посёлок" and "деревня") lead back to themselves. */
  lemma Declares30()
    ensures forall k, a :: 30 <= k < 32 && 0 <= a < |ENTRIES[k].variants| ==>
      DeclaringRow(ENTRIES[k].variants[a]) == k
  {
    forall k, a | 30 <= k < 32 && 0 <= a < |ENTRIES[k].variants|
      ensures DeclaringRow(ENTRIES[k].variants[a]) == k
    {
      if k == 30 { }
      else if k == 31 { }
    }
  }

  /** Entry 32 ("квартал") leads back to itself. */
  lemma Declares32()
    ensures forall k, a :: 32 <= k < 33 && 0 <= a < |ENTRIES[k].variants| ==>
      DeclaringRow(ENTRIES[k].variants[a]) == k
  {
    forall k, a | 32 <= k < 33 && 0 <= a < |ENTRIES[k].variants|
      ensures DeclaringRow(ENTRIES[k].variants[a]) == k
    {
      if k == 32 { }
    }
  }

  /** Entries 0-2 list distinct variants and carry the flags of
      their lines. */
  lemma DistinctA()
    ensures forall k :: 0 <= k < 3 ==> Distinct(ENTRIES[k].variants)
    ensures forall k :: 0 <= k < 3 ==> ENTRIES[k].flags == if k >= 28 then RANDOM_ORDER else 0
  {
    forall k | 0 <= k < 3
      ensures Distinct(ENTRIES[k].variants)
    {
      if k == 0 { }
      else if k == 1 { }
      else if k == 2 { }
    }
  }

  /** Entries 3-5 list distinct variants and carry the flags of
      their lines. */
  lemma DistinctB()
    ensures forall k :: 3 <= k < 6 ==> Distinct(ENTRIES[k].variants)
    ensures forall k :: 3 <= k < 6 ==> ENTRIES[k].flags == if k >= 28 then RANDOM_ORDER else 0
  {
    forall k | 3 <= k < 6
      ensures Distinct(ENTRIES[k].variants)
    {
      if k == 3 { }
      else if k == 4 { }
      else if k == 5 { }
    }
  }

  /** Entries 6-8 list distinct variants and carry the flags of
      their lines. */
  lemma DistinctC()
    ensures forall k :: 6 <= k < 9 ==> Distinct(ENTRIES[k].variants)
    ensures forall k :: 6 <= k < 9 ==> ENTRIES[k].flags == if k >= 28 then RANDOM_ORDER else 0
  {
    forall k | 6 <= k < 9
      ensures Distinct(ENTRIES[k].variants)
    {
      if k == 6 { }
      else if k == 7 { }
      else if k == 8 { }
    }
  }

  /** Entries 9-12 list distinct variants and carry the flags of
      their lines. */
  lemma DistinctD()
    ensures forall k :: 9 <= k < 13 ==> Distinct(ENTRIES[k].variants)
    ensures forall k :: 9 <= k < 13 ==> ENTRIES[k].flags == if k >= 28 then RANDOM_ORDER else 0
  {
    forall k | 9 <= k < 13
      ensures Distinct(ENTRIES[k].variants)
    {
      if k == 9 { }
      else if k == 10 { }
      else if k == 11 { }
      else if k == 12 { }
    }
  }

  /** Entries 13-16 list distinct variants and carry the flags of
      their lines. */
  lemma DistinctE()
    ensures forall k :: 13 <= k < 17 ==> Distinct(ENTRIES[k].variants)
    ensures forall k :: 13 <= k < 17 ==> ENTRIES[k].flags == if k >= 28 then RANDOM_ORDER else 0
  {
    forall k | 13 <= k < 17
      ensures Distinct(ENTRIES[k].variants)
    {
      if k == 13 { }
      else if k == 14 { }
      else if k == 15 { }
      else if k == 16 { }
    }
  }

  /** Entries 17-20 list distinct variants and carry the flags of
      their lines. */
  lemma DistinctF()
    ensures forall k :: 17 <= k < 21 ==> Distinct(ENTRIES[k].variants)
    ensures forall k :: 17 <= k < 21 ==> ENTRIES[k].flags == if k >= 28 then RANDOM_ORDER else 0
  {
    forall k | 17 <= k < 21
      ensures Distinct(ENTRIES[k].variants)
    {
      if k == 17 { }
      else if k == 18 { }
      else if k == 19 { }
      else if k == 20 { }
    }
  }

  /** Entries 21-24 list distinct variants and carry the flags of
      their lines. */
  lemma DistinctG()
    ensures forall k :: 21 <= k < 25 ==> Distinct(ENTRIES[k].variants)
    ensures forall k :: 21 <= k < 25 ==> ENTRIES[k].flags == if k >= 28 then RANDOM_ORDER else 0
  {
    forall k | 21 <= k < 25
      ensures Distinct(ENTRIES[k].variants)
    {
      if k == 21 { }
      else if k == 22 { }
      else if k == 23 { }
      else if k == 24 { }
    }
  }

  /** Entries 25-28 list distinct variants and carry the flags of
      their lines. */
  lemma DistinctH()
    ensures forall k :: 25 <= k < 29 ==> Distinct(ENTRIES[k].variants)
    ensures forall k :: 25 <= k < 29 ==> ENTRIES[k].flags == if k >= 28 then RANDOM_ORDER else 0
  {
    forall k | 25 <= k < 29
      ensures Distinct(ENTRIES[k].variants)
    {
      if k == 25 { }
      else if k == 26 { }
      else if k == 27 { }
      else if k == 28 { }
    }
  }

  /** Entries 29-30 list distinct variants and carry the flags of
      their lines. */
  lemma DistinctI()
    ensures forall k :: 29 <= k < 31 ==> Distinct(ENTRIES[k].variants)
    ensures forall k :: 29 <= k < 31 ==> ENTRIES[k].flags == if k >= 28 then RANDOM_ORDER else 0
  {
    forall k | 29 <= k < 31
      ensures Distinct(ENTRIES[k].variants)
    {
      if k == 29 { }
      else if k == 30 { }
    }
  }

  /** Entries 31-32 list distinct variants and carry the flags of
      their lines. */
  lemma DistinctJ()
    ensures forall k :: 31 <= k < 33 ==> Distinct(ENTRIES[k].variants)
    ensures forall k :: 31 <= k < 33 ==> ENTRIES[k].flags == if k >= 28 then RANDOM_ORDER else 0
  {
    forall k | 31 <= k < 33
      ensures Distinct(ENTRIES[k].variants)
    {
      if k == 31 { }
      else if k == 32 { }
    }
  }

  /** Each entry's variants lead back to them and are pairwise distinct. */
  lemma EntriesDeclare()
    ensures forall k, a :: 0 <= k < |ENTRIES| && 0 <= a < |ENTRIES[k].variants| ==>
      DeclaringRow(ENTRIES[k].variants[a]) == k
    ensures forall k :: 0 <= k < |ENTRIES| ==> Distinct(ENTRIES[k].variants)
    ensures forall k :: 0 <= k < |ENTRIES| ==> ENTRIES[k].flags == if k >= 28 then RANDOM_ORDER else 0
  {
    ActiveRows();
    Declares0();
    Declares2();
    Declares4();
    Declares6();
    Declares8();
    Declares10();
    Declares12();
    Declares14();
    Declares16();
    Declares18();
    Declares20();
    Declares22();
    Declares24();
    Declares26();
    Declares28();
    Declares30();
    Declares32();
    DistinctA();
    DistinctB();
    DistinctC();
    DistinctD();
    DistinctE();
    DistinctF();
    DistinctG();
    DistinctH();
    DistinctI();
    DistinctJ();
  }

  /** The processed rows are the entries, each listing its own variants. */
  lemma RowsAreEntries()
    ensures |ENTRIES| == ActiveCount(STATUS_PARTS) == 33
    ensures forall k :: 0 <= k < 33 ==> STATUS_PARTS[k] == RowOf(ENTRIES[k])
    ensures forall k :: 0 <= k < 33 ==> VariantList(STATUS_PARTS[k]) == ENTRIES[k].variants
  {
    ActiveRows();
    EntriesShort();
  }

  /** The ru_RU table builds: the assertion of locale.cc never fires on it. */
  lemma RuBuilds()
    ensures NoDuplicateVariant(STATUS_PARTS)
    ensures BuildLocale(STATUS_PARTS).Success?
  {
    RowsAreEntries();
    EntriesDeclare();
    NoDuplicateByOwner(STATUS_PARTS, DeclaringRow);
    BuildLocaleSpec(STATUS_PARTS);
  }

  /** Only the last five entries are RANDOM_ORDER; the terminator is all NULL. */
  lemma RuFlags()
    ensures forall k :: 0 <= k < 33 ==> STATUS_PARTS[k].flags == if k >= 28 then RANDOM_ORDER else 0
    ensures |STATUS_PARTS| == 34
    ensures STATUS_PARTS[33].full.None? && STATUS_PARTS[33].canonical.None? && STATUS_PARTS[33].abbrev.None?
    ensures STATUS_PARTS[33].flags == 0 && VariantList(STATUS_PARTS[33]) == []
  {
    RowsAreEntries();
    EntriesDeclare();
    VariantsUpToNull(STATUS_PARTS[33].variants, []);
  }

  /** The locale a registry holding only ru_RU gives for a name. */
  function RuLocaleOf(name: string): Result<Locale, LocaleError> {
    LocaleOf([RU_RU], name)
  }

  /** An unregistered name fails with UnknownLocale. */
  lemma UnknownName()
    ensures RuLocaleOf("NONEXISTENT") == Failure(UnknownLocale)
  {
  }

  /** ru_RU builds, and FindStatus finds exactly the listed variants, each
      giving the part of the entry listing it. */
  lemma RuLocaleSpec()
    ensures RuLocaleOf("ru_RU").Success?
    ensures forall v :: FindStatus(RuLocaleOf("ru_RU").value, v).Some? <==>
      exists k :: 0 <= k < 33 && v in ENTRIES[k].variants
    ensures forall k, v :: 0 <= k < 33 && v in ENTRIES[k].variants ==>
      FindStatus(RuLocaleOf("ru_RU").value, v) == Some(MakePart(k + 1, RowOf(ENTRIES[k])))
  {
    RuBuilds();
    BuildLocaleSpec(STATUS_PARTS);
    RowsAreEntries();
    assert RuLocaleOf("ru_RU") == BuildLocale(STATUS_PARTS);
    forall v, k | 0 <= k < 33 && v in ENTRIES[k].variants
      ensures Declares(STATUS_PARTS, v, k)
    {
    }
    forall k, v | 0 <= k < 33 && v in ENTRIES[k].variants
      ensures FindStatus(RuLocaleOf("ru_RU").value, v) == Some(MakePart(k + 1, RowOf(ENTRIES[k])))
    {
      assert Declares(STATUS_PARTS, v, k);
    }
  }

  /** The forms an entry gives its part are one word each. */
  predicate EntryWords(e: Entry) {
    OneWord(e.full) && (e.canonical.Some? ==> OneWord(e.canonical.value)) && (e.abbrev.Some? ==> OneWord(e.abbrev.value))
  }

  /** The forms of entries 0-1 are one word each. */
  lemma WordsA()
    ensures forall k :: 0 <= k < 2 ==> EntryWords(ENTRIES[k])
  {
    forall k | 0 <= k < 2
      ensures EntryWords(ENTRIES[k])
    {
      if k == 0 { }
      else if k == 1 { }
    }
  }

  /** The forms of entries 2-3 are one word each. */
  lemma WordsB()
    ensures forall k :: 2 <= k < 4 ==> EntryWords(ENTRIES[k])
  {
    forall k | 2 <= k < 4
      ensures EntryWords(ENTRIES[k])
    {
      if k == 2 { }
      else if k == 3 { }
    }
  }

  /** The forms of entries 4-5 are one word each. */
  lemma WordsC()
    ensures forall k :: 4 <= k < 6 ==> EntryWords(ENTRIES[k])
  {
    forall k | 4 <= k < 6
      ensures EntryWords(ENTRIES[k])
    {
      if k == 4 { }
      else if k == 5 { }
    }
  }

  /** The forms of entries 6-7 are one word each. */
  lemma WordsD()
    ensures forall k :: 6 <= k < 8 ==> EntryWords(ENTRIES[k])
  {
    forall k | 6 <= k < 8
      ensures EntryWords(ENTRIES[k])
    {
      if k == 6 { }
      else if k == 7 { }
    }
  }

  /** The forms of entries 8-9 are one word each. */
  lemma WordsE()
    ensures forall k :: 8 <= k < 10 ==> EntryWords(ENTRIES[k])
  {
    forall k | 8 <= k < 10
      ensures EntryWords(ENTRIES[k])
    {
      if k == 8 { }
      else if k == 9 { }
    }
  }

  /** The forms of entries 10-11 are one word each. */
  lemma WordsF()
    ensures forall k :: 10 <= k < 12 ==> EntryWords(ENTRIES[k])
  {
    forall k | 10 <= k < 12
      ensures EntryWords(ENTRIES[k])
    {
      if k == 10 { }
      else if k == 11 { }
    }
  }

  /** The forms of entries 12-13 are one word each. */
  lemma WordsG()
    ensures forall k :: 12 <= k < 14 ==> EntryWords(ENTRIES[k])
  {
    forall k | 12 <= k < 14
      ensures EntryWords(ENTRIES[k])
    {
      if k == 12 { }
      else if k == 13 { }
    }
  }

  /** The forms of entries 14-15 are one word each. */
  lemma WordsH()
    ensures forall k :: 14 <= k < 16 ==> EntryWords(ENTRIES[k])
  {
    forall k | 14 <= k < 16
      ensures EntryWords(ENTRIES[k])
    {
      if k == 14 { }
      else if k == 15 { }
    }
  }

  /** The forms of entries 16-17 are one word each. */
  lemma WordsI()
    ensures forall k :: 16 <= k < 18 ==> EntryWords(ENTRIES[k])
  {
    forall k | 16 <= k < 18
      ensures EntryWords(ENTRIES[k])
    {
      if k == 16 { }
      else if k == 17 { }
    }
  }

  /** The forms of entries 18-19 are one word each. */
  lemma WordsJ()
    ensures forall k :: 18 <= k < 20 ==> EntryWords(ENTRIES[k])
  {
    forall k | 18 <= k < 20
      ensures EntryWords(ENTRIES[k])
    {
      if k == 18 { }
      else if k == 19 { }
    }
  }

  /** The forms of entries 20-21 are one word each. */
  lemma WordsK()
    ensures forall k :: 20 <= k < 22 ==> EntryWords(ENTRIES[k])
  {
    forall k | 20 <= k < 22
      ensures EntryWords(ENTRIES[k])
    {
      if k == 20 { }
      else if k == 21 { }
    }
  }

  /** The forms of entries 22-23 are one word each. */
  lemma WordsL()
    ensures forall k :: 22 <= k < 24 ==> EntryWords(ENTRIES[k])
  {
    forall k | 22 <= k < 24
      ensures EntryWords(ENTRIES[k])
    {
      if k == 22 { }
      else if k == 23 { }
    }
  }

  /** The forms of entries 24-25 are one word each. */
  lemma WordsM()
    ensures forall k :: 24 <= k < 26 ==> EntryWords(ENTRIES[k])
  {
    forall k | 24 <= k < 26
      ensures EntryWords(ENTRIES[k])
    {
      if k == 24 { }
      else if k == 25 { }
    }
  }

  /** The forms of entries 26-27 are one word each. */
  lemma WordsN()
    ensures forall k :: 26 <= k < 28 ==> EntryWords(ENTRIES[k])
  {
    forall k | 26 <= k < 28
      ensures EntryWords(ENTRIES[k])
    {
      if k == 26 { }
      else if k == 27 { }
    }
  }

  /** The forms of entries 28-29 are one word each. */
  lemma WordsO()
    ensures forall k :: 28 <= k < 30 ==> EntryWords(ENTRIES[k])
  {
    forall k | 28 <= k < 30
      ensures EntryWords(ENTRIES[k])
    {
      if k == 28 { }
      else if k == 29 { }
    }
  }

  /** The forms of entries 30-31 are one word each. */
  lemma WordsP()
    ensures forall k :: 30 <= k < 32 ==> EntryWords(ENTRIES[k])
  {
    forall k | 30 <= k < 32
      ensures EntryWords(ENTRIES[k])
    {
      if k == 30 { }
      else if k == 31 { }
    }
  }

  /** The forms of entry 32 are one word each. */
  lemma WordsQ()
    ensures EntryWords(ENTRIES[32])
  {
  }

  lemma EntriesWords()
    ensures forall k :: 0 <= k < 33 ==> EntryWords(ENTRIES[k])
  {
    WordsA();
    WordsB();
    WordsC();
    WordsD();
    WordsE();
    WordsF();
    WordsG();
    WordsH();
    WordsI();
    WordsJ();
    WordsK();
    WordsL();
    WordsM();
    WordsN();
    WordsO();
    WordsP();
    WordsQ();
  }

  /** Every part ru_RU finds has one-word forms, so Join keeps its words
      whole (see Names.NameSpacing). */
  lemma RuOneWordForms()
    ensures RuLocaleOf("ru_RU").Success? && OneWordForms(RuLocaleOf("ru_RU").value)
  {
    RuLocaleSpec();
    EntriesWords();
    var l := RuLocaleOf("ru_RU").value;
    forall v | v in l.statusPartByAny
      ensures WordForms(l.statusPartByAny[v])
    {
      assert FindStatus(l, v).Some?;
      var k :| 0 <= k < 33 && v in ENTRIES[k].variants;
      assert FindStatus(l, v) == Some(MakePart(k + 1, RowOf(ENTRIES[k])));
      assert EntryWords(ENTRIES[k]);
    }
  }

  /** A string no entry lists is no status part. */
  lemma NotAStatus(v: string)
    requires DeclaringRow(v) == -1
    ensures RuLocaleOf("ru_RU").Success? && FindStatus(RuLocaleOf("ru_RU").value, v) == None
  {
    RuLocaleSpec();
    EntriesDeclare();
    assert forall k :: 0 <= k < 33 ==> v !in ENTRIES[k].variants;
  }

  /** The strings the locale test expects to find nothing lead to no entry. */
  lemma UnknownStrings()
    ensures DeclaringRow("неттакогосттуса") == -1 && DeclaringRow("у") == -1 && DeclaringRow("") == -1
  {
  }

  /** Entry k's variant v finds entry k's part p, with priority k + 1. */
  lemma FindsEntry(k: nat, v: string, p: StatusPart)
    requires k < 33 && v in ENTRIES[k].variants
    requires p == MakePart(k + 1, RowOf(ENTRIES[k]))
    ensures RuLocaleOf("ru_RU").Success?
    ensures FindStatus(RuLocaleOf("ru_RU").value, v) == Some(p)
  {
    RuLocaleSpec();
  }

  /** Entry 0 lists "улица" and "ул" and carries the abbreviation "ул.". */
  lemma StreetEntry()
    ensures "улица" in ENTRIES[0].variants && "ул" in ENTRIES[0].variants
    ensures MakePart(1, RowOf(ENTRIES[0])) == StatusPart(1, "улица", "улица", "ул.", 0)
  {
  }

  /** The entries the priority test compares: "переулок" and "проезд". */
  lemma LaneEntries()
    ensures "переулок" in ENTRIES[2].variants && "проезд" in ENTRIES[3].variants
  {
  }

  /** The entries the priority test compares: "шоссе" and "тракт". */
  lemma HighwayEntries()
    ensures "шоссе" in ENTRIES[4].variants && "тракт" in ENTRIES[16].variants
  {
  }

  /** "улица" and "ул" find the same part, with full form "улица" and
      abbreviation "ул.". */
  lemma StreetScenario()
    ensures RuLocaleOf("ru_RU").Success?
    ensures FindStatus(RuLocaleOf("ru_RU").value, "улица") == Some(StatusPart(1, "улица", "улица", "ул.", 0))
    ensures FindStatus(RuLocaleOf("ru_RU").value, "ул") == Some(StatusPart(1, "улица", "улица", "ул.", 0))
  {
    StreetEntry();
    FindsEntry(0, "улица", StatusPart(1, "улица", "улица", "ул.", 0));
    FindsEntry(0, "ул", StatusPart(1, "улица", "улица", "ул.", 0));
  }

  /** Strings no entry lists find nothing. */
  lemma UnknownScenario()
    ensures RuLocaleOf("ru_RU").Success?
    ensures FindStatus(RuLocaleOf("ru_RU").value, "неттакогосттуса") == None
    ensures FindStatus(RuLocaleOf("ru_RU").value, "у") == None
    ensures FindStatus(RuLocaleOf("ru_RU").value, "") == None
  {
    UnknownStrings();
    NotAStatus("неттакогосттуса");
    NotAStatus("у");
    NotAStatus("");
  }

  /** "шоссе" takes precedence over "тракт" and over no part at all, and
      "переулок" over "проезд". */
  lemma PriorityScenario()
    ensures RuLocaleOf("ru_RU").Success?
    ensures FindStatus(RuLocaleOf("ru_RU").value, "шоссе").Some? && FindStatus(RuLocaleOf("ru_RU").value, "тракт").Some?
    ensures IsPrior(FindStatus(RuLocaleOf("ru_RU").value, "шоссе").value, FindStatus(RuLocaleOf("ru_RU").value, "тракт"))
    ensures IsPrior(FindStatus(RuLocaleOf("ru_RU").value, "шоссе").value, None)
    ensures FindStatus(RuLocaleOf("ru_RU").value, "переулок").Some? && FindStatus(RuLocaleOf("ru_RU").value, "проезд").Some?
    ensures IsPrior(FindStatus(RuLocaleOf("ru_RU").value, "переулок").value, FindStatus(RuLocaleOf("ru_RU").value, "проезд"))
  {
    LaneEntries();
    HighwayEntries();
    FindsEntry(4, "шоссе", MakePart(5, RowOf(ENTRIES[4])));
    FindsEntry(16, "тракт", MakePart(17, RowOf(ENTRIES[16])));
    FindsEntry(2, "переулок", MakePart(3, RowOf(ENTRIES[2])));
    FindsEntry(3, "проезд", MakePart(4, RowOf(ENTRIES[3])));
  }
}
