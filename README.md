# streetmangler in Dafny

A model of the core of streetmangler, a C++ library and tool set that
checks and normalises street names (mostly Russian ones, as tagged in
OpenStreetMap). The model covers:

- the tspell character trie (`TrieBase` with its string and UTF-16
  wrappers and its set appenders). `Trie.TrieBase` is a class over an arena
  of nodes, with index links in place of pointers. It is proved to store
  exactly the inserted strings. Its approximate search is proved to visit
  exactly the stored strings within a Levenshtein distance. With the
  `std::string` appender it reports exactly those strings. The UTF-16
  appender reverses with ICU's `UnicodeString::reverse()`, which reports a
  string with two adjacent characters above U+FFFF differently (see
  Findings). `UniTrie.IcuSetAppender` models that appender as written;
  the rest of the model uses the exact one;
- the locale machinery: registration of status-part tables, building a
  `Locale` with priorities and a variant map, and `FindStatus`;
- the full `ru_RU` table, in module `RuLocale`;
- `Name`, which splits a text into tokens and picks the status part
  ("улица", "ул", ...), and `Name::Join`, which writes the name back with
  the status expanded, shrunk, moved or removed and with punctuation and
  whitespace normalised under bit flags;
- `Database`: the hashes of a name, `Add`, `Load`, and the four checks
  (exact match, canonical form, spelling, stripped status), over the
  multimaps and the spelling trie the class keeps;
- `StringListParser`, the line reader shared by the name lists and the
  database loader;
- `NameAggregator`, the classifier the command-line tools use. It holds
  six counters and the sets and maps of each category.

Code that reads or writes step by step is modelled as methods with loops:
the tokenizer, the lookup loop, `Join`'s output loops, the locale
construction loops, the readers, the hash splitting, the trie operations
and the `Database` and `NameAggregator` classes. Each method is proved
equal to a specification function, and the properties the source promises
are proved about that function. Flags are `bv32`. Text is `seq<char>`.
ICU `UnicodeString` is a sequence of UTF-16 code units
(`Unicode.UString`).

Where the code and its documentation disagree, the model follows the code:

- `Locale` builds its table exactly as `lib/locale.cc` does. There is no
  random-order expansion of variants and no approximate-distance helper.
- Spelling suggestions are not deduplicated.
- The `flags` member of a status part comes from `lib/locale.cc` and the
  locale tables. The `lib/streetmangler/locale.hh` in the sources declares
  neither `flags` nor a flags constructor argument.

## Model

| member | source | states |
|---|---|---|
| Trie.SetAppender.Append | contrib/tspell/tspell/stringtrie.hh:46-53 | walking the parent links and reversing adds exactly the string spelled from the root to the node |
| Trie.SetAppender.constructor | contrib/tspell/tspell/stringtrie.hh:43-44 | the appender starts from the caller's set |
| Trie.TrieBase.constructor | contrib/tspell/tspell/triebase.hh:118-119 | a new trie is well formed and holds no string |
| Trie.TrieBase.Insert | contrib/tspell/tspell/triebase.hh:126-129 | contents grow by exactly `s` when it is non-empty; an empty or already present string adds no node; at most `|s|` nodes are added |
| Trie.TrieBase.InsertAt | contrib/tspell/tspell/triebase.hh:46-61 | the recursive insert adds the path to `parent` followed by `s`, keeps the trie well formed and only appends nodes |
| Trie.TrieBase.FindSlot | contrib/tspell/tspell/triebase.hh:47-51 | the sibling walk stops at the child carrying `x`, or at the NULL link ending the chain when no child carries it |
| Trie.TrieBase.NewNode | contrib/tspell/tspell/triebase.hh:53-54 | the new node is appended, linked from the NULL slot, spells the parent's path plus `x`, and changes no contents |
| Trie.TrieBase.SetData | contrib/tspell/tspell/triebase.hh:56-57 | marking the node terminal adds its path to the contents; re-marking changes nothing |
| Trie.TrieBase.FindExact | contrib/tspell/tspell/triebase.hh:131-136 | true exactly when `s` was inserted, so false for the empty string and for an empty trie |
| Trie.TrieBase.FindExactAt | contrib/tspell/tspell/triebase.hh:64-79 | the recursive lookup is true exactly when the parent's path followed by `s` is stored |
| Trie.TrieBase.FindApprox | contrib/tspell/tspell/triebase.hh:138-141 | adds to `out` exactly the stored strings reachable from `s` by the four moves within `distance` |
| Trie.TrieBase.FindApproxAt | contrib/tspell/tspell/triebase.hh:81-107 | one recursive step adds exactly the stored extensions of `last`'s path that are within budget |
| Trie.TrieBase.FindApproxStart | contrib/tspell/tspell/triebase.hh:82-92 | the remove move and the terminal match add their share of the result |
| Trie.TrieBase.VisitChildren | contrib/tspell/tspell/triebase.hh:94-106 | the loop over the children completes the step's share for every longer string |
| Trie.TrieBase.VisitChild | contrib/tspell/tspell/triebase.hh:95-105 | one child adds exactly what its normal, change and add moves reach |
| Trie.TrieBase.VisitNormal | contrib/tspell/tspell/triebase.hh:96-97 | a child equal to the next query unit continues with the same budget |
| Trie.TrieBase.VisitChange | contrib/tspell/tspell/triebase.hh:100-101 | a child different from the next query unit continues with one less |
| Trie.TrieBase.VisitAdd | contrib/tspell/tspell/triebase.hh:104-105 | a child consumed without a query unit continues with one less |
| Trie.WithinIsEditDistance | contrib/tspell/tspell/triebase.hh:81-107 | the strings the four moves reach within budget `d` are exactly those at Levenshtein distance at most `d` |
| Trie.WithinNoBudget | contrib/tspell/tspell/triebase.hh:83-92 | with no budget only the query itself is found |
| Trie.WithinEmptyStored | contrib/tspell/tspell/triebase.hh:83-88 | the empty string is within `d` of a query exactly when the query has at most `d` units |
| Trie.WithinEmptyQuery | contrib/tspell/tspell/triebase.hh:104-105 | a string is within `d` of the empty query exactly when it has at most `d` units |
| Trie.PathInjective | contrib/tspell/tspell/triebase.hh:49-54 | since siblings carry distinct characters, distinct nodes spell distinct strings |
| Trie.TerminalPath | contrib/tspell/tspell/triebase.hh:56-57 | a node's path is stored exactly when its `data` flag is set |
| Trie.EmptyNotContained | contrib/tspell/tspell/triebase.hh:126-133 | the empty string is never stored, and nothing is stored without a root |
| Trie.AttachValid | contrib/tspell/tspell/triebase.hh:53-54 | attaching a node at the end of a child chain keeps the trie well formed and the contents unchanged |
| Trie.MarkTerminal | contrib/tspell/tspell/triebase.hh:56-57 | setting `data` on a node keeps the shape and adds exactly its path |
| Trie.WalkedUp | contrib/tspell/tspell/stringtrie.hh:47-49 | walking the parent links up collects the node's path, last unit first |
| UniTrie.IcuSetAppender.constructor | contrib/tspell/tspell/unitrie.hh:41-42 | the appender starts from the caller's set |
| UniTrie.IcuSetAppender.Append | contrib/tspell/tspell/unitrie.hh:44-51 | as written, the appender adds the node's path with every trail surrogate that is followed by a lead surrogate swapped with it |
| UniTrie.IcuReverseIsReswap | contrib/tspell/tspell/unitrie.hh:48 | `reverse()` is the plain reversal followed by the surrogate-pair pass, whether or not a lead surrogate occurs |
| UniTrie.ReswapFixed | contrib/tspell/tspell/unitrie.hh:48 | the pair pass leaves a string unchanged exactly when no trail surrogate in it is followed by a lead surrogate |
| UniTrie.ReversedTwice | contrib/tspell/tspell/unitrie.hh:45-48 | reversing the walked-up units twice gives the path back |
| UniTrie.BmpEncoding | lib/database.cc:60 | a text of characters below U+10000 has no surrogate in its UTF-16 form |
| UniTrie.BmpAppendedIsPath | contrib/tspell/tspell/unitrie.hh:44-51 | for such a text, the source's appender reports the stored string itself |
| UniTrie.AdjacentSupplementarySwapped | contrib/tspell/tspell/unitrie.hh:44-51 | "𝔸𝔹" is stored as D835 DD38 D835 DD39, and the source's appender reports D835 D835 DD38 DD39 |
| Trie.ReversedSnoc | contrib/tspell/tspell/stringtrie.hh:48-50 | reversing a string with one more unit at the end puts that unit first |
| Unicode.EncodeChar | lib/database.cc:60 | a character becomes one code unit below U+10000 and a surrogate pair above it |
| Unicode.DecodeUtf16Inverse | lib/database.cc:60 | decoding the UTF-16 form of a text gives the text back |
| Unicode.Utf16Injective | lib/database.cc:60 | distinct texts have distinct UTF-16 forms |
| Unicode.Utf16Concat | lib/database.cc:60 | the UTF-16 form of a concatenation is the concatenation of the forms |
| Unicode.LowerUnitsIdempotent | lib/database.cc:60 | lower-casing twice is lower-casing once |
| Unicode.LowerCommutesWithUtf16 | lib/database.cc:60 | lower-casing the text and then encoding gives the same units as encoding and then lower-casing |
| Unicode.ReplaceRemovesAll | lib/database.cc:196 | after the replacement the unit does not occur, and the text is unchanged exactly when it did not occur |
| Locale.IsPriorNone | lib/streetmangler/locale.hh:78 | any part is prior to NULL |
| Locale.IsPriorStrict | lib/streetmangler/locale.hh:78 | IsPrior is irreflexive and asymmetric |
| Locale.Registry.constructor | lib/locale.cc:26 | the registrar list starts empty |
| Locale.Registry.Register | lib/locale.cc:28-39 | a duplicate name is refused with DuplicateLocale and the list is unchanged; otherwise the registrar is prepended |
| Locale.Lookup | lib/locale.cc:43-49 | no registrar is found exactly when no registrar has the name; a found one has the name and is the first with it (the newest) |
| Locale.FindRegistrar | lib/locale.cc:43-49 | the search loop returns what Lookup specifies |
| Locale.ActiveCount | lib/locale.cc:56 | the rows before the NULL terminator all have a full form, and the terminator has none |
| Locale.VariantsIn | lib/locale.cc:68 | the variants of a row are read up to the first NULL slot |
| Locale.MakePart | lib/locale.cc:57-61 | a missing canonical form falls back to the full form, a missing abbreviation to the canonical form; priority and flags are kept |
| Locale.PartsOf | lib/locale.cc:55-62 | one part per active row, the i-th with priority i+1 |
| Locale.ProcessParts | lib/locale.cc:55-62 | the priority loop computes PartsOf |
| Locale.MapVariants | lib/locale.cc:65-72 | the variant loop computes the variant map, or fails at the first duplicate variant |
| Locale.AddRow | lib/locale.cc:64-72 | one row of the variant loop extends the map as MapRows specifies, or gives the failure the whole table ends in |
| Locale.InsertRow | lib/locale.cc:68-71 | the inner loop inserts every variant of a row, or fails on a duplicate |
| Locale.NewLocale | lib/locale.cc:41-73 | Locale::Locale computes LocaleOf: UnknownLocale for an unregistered name, else the locale the table builds |
| Locale.LocaleOfFailure | lib/locale.cc:51-52 | UnknownLocale is returned exactly when no registrar has the name |
| Locale.MapRowsSpec | lib/locale.cc:65-72 | the map is built exactly when no variant is declared twice; it then maps every declared variant to its row's part, and nothing else |
| Locale.NoDuplicateRows | lib/locale.cc:67-71 | no variant declared twice in the table is the same as distinct variants in the rows read up to the terminator |
| Locale.BuildLocaleSpec | lib/locale.cc:55-80 | a table builds exactly when no variant is declared twice; FindStatus then finds exactly the declared variants, each giving its row's part with priority row+1 |
| Locale.PriorityOrder | lib/locale.cc:55-62 | in a built locale a part is prior to another exactly when its row comes first |
| RuLocale.RowOf | lib/locales/ru.cc:34-74 | a table row keeps the entry's forms and flags and its variants up to NULL |
| RuLocale.RowsAreEntries | lib/locales/ru.cc:27-77 | the table has 33 active rows, each the row of its entry |
| RuLocale.RuBuilds | lib/locales/ru.cc:31 | no variant of ru_RU is declared twice, so the locale builds |
| RuLocale.RuFlags | lib/locales/ru.cc:66-76 | only the last five rows are RANDOM_ORDER; the terminator row is all NULL with no variants |
| RuLocale.UnknownName | tests/locale_test.cc:27 | an unregistered locale name fails with UnknownLocale |
| RuLocale.RuLocaleSpec | lib/locales/ru.cc:80-82 | "ru_RU" builds and FindStatus finds exactly the variants the table lists, each to its row's part |
| RuLocale.FindsEntry | lib/locales/ru.cc:34-74 | every listed variant finds the part of its row |
| RuLocale.NotAStatus | lib/locale.cc:75-80 | a string no row lists finds nothing |
| RuLocale.StreetScenario | tests/locale_test.cc:39-49 | "улица" and "ул" find the same part, whose full form is "улица" and abbreviation "ул." |
| RuLocale.UnknownScenario | tests/locale_test.cc:43-45 | "неттакогосттуса", "у" and "" find nothing |
| RuLocale.PriorityScenario | tests/locale_test.cc:52-56 | "шоссе" is prior to "тракт" and to NULL; "переулок" is prior to "проезд" |
| Names.NulIndex | lib/name.cc:31 | the constructor reads up to the first NUL character |
| Names.TokenizeSpec | lib/name.cc:30-49 | the tokens concatenate to the text, are non-empty, hold one class each, and no two neighbours share a class |
| Names.TokenizeUnique | lib/name.cc:30-49 | any tokenization with those properties is the tokenizer's |
| Names.Push | lib/name.cc:39-45 | one character of the loop continues the current token or pushes it and starts a new one |
| Names.Split | lib/name.cc:30-49 | the character loop computes Tokenize of the text up to NUL |
| Names.Marked | lib/name.cc:54-59 | every token keeps its class and text; it takes the part FindStatus gives for its lower-cased text when there is one, and keeps its own part otherwise |
| Names.BestSpec | lib/name.cc:52-66 | no status exactly when no token has a part; otherwise the chosen token has the lowest priority and every earlier token with a part has a higher one |
| Names.SelectStatus | lib/name.cc:51-66 | the lookup loop marks every token and chooses what Best specifies |
| Names.NewName | lib/name.cc:28-67 | Name::Name builds NameOf |
| Names.NameOfSpec | lib/name.cc:28-67 | the Name's tokens spell the text up to NUL, each carrying FindStatus of its lower-cased text; HasStatusPart exactly when some token names a part; the chosen token has the lowest priority; GetStatusFlags is its flags, or 0 |
| Names.Rewrite | lib/name.cc:92-96 | the mode rewrites the status text and keeps its class and part |
| Names.MergeDot | lib/name.cc:98-109 | merging the following dot keeps the status where it is; under EXPAND or SHRINK the status text is not extended |
| Names.SpaceAfterComma | lib/name.cc:111-115 | inserting a space after a comma leaves the status token as it was |
| Names.CommaToSpace | lib/name.cc:117-128 | the comma edits leave the status token as it was |
| Names.EditStatus | lib/name.cc:90-129 | the in-place edits keep a valid status index with the same part |
| Names.Without | lib/name.cc:144-159 | erasing one token shifts the later tokens down by one |
| Names.Unlink | lib/name.cc:142-160 | taking out a status drops the space on each side; with both there it becomes the one space left, otherwise it goes |
| Names.UnlinkWords | lib/name.cc:142-160 | taking out a status token keeps every other word, in order |
| Names.RemoveStatusesSpec | lib/name.cc:134-161 | REMOVE_ALL_STATUSES keeps the words in order and leaves no status outside a space |
| Names.RemoveAllStatuses | lib/name.cc:136-161 | the removal loop computes RemoveStatuses |
| Names.MoveStatusSpec | lib/name.cc:162-193 | the moved status comes first (last), with one space next to it when anything is left, and the words keep their order |
| Names.PlaceStatus | lib/name.cc:183-192 | putting the status at either end adds no word |
| Names.SkipSpaces | lib/name.cc:199-200 | leading spaces are skipped |
| Names.TrimBlanks | lib/name.cc:215-218 | trailing blanks are cut: the result is a prefix |
| Names.Edited | lib/name.cc:83-129 | the edited token list keeps a valid status index with the name's part |
| Names.PlainText | lib/name.cc:220-221 | without NORMALIZE_WHITESPACE the output is the concatenated token texts |
| Names.NormalizedText | lib/name.cc:198-218 | the NORMALIZE_WHITESPACE output skips, squeezes and trims |
| Names.SkipLeadingSpaces | lib/name.cc:199-200 | the skip loop stops at the first non-space token |
| Names.SqueezeSpaces | lib/name.cc:202-213 | the squeezing loop writes a run of spaces as one " " |
| Names.TrimTrailingBlanks | lib/name.cc:215-218 | the trimming loop computes TrimBlanks |
| Names.Join | lib/name.cc:69-225 | Name::Join computes JoinSpec |
| Names.JoinPlain | lib/name.cc:82-83 | Join() with no flags gives the token texts back |
| Names.JoinRoundTrip | lib/streetmangler/name.hh:88 | Join() of a constructed Name is its text up to the first NUL |
| Names.JoinWithoutStatus | lib/name.cc:82-83 | with no status only NORMALIZE_WHITESPACE has an effect |
| Names.EditedStatusText | lib/name.cc:92-103 | under EXPAND, SHRINK or CANONICALIZE the status text is exactly the full, abbreviated or canonical form |
| Names.EffectiveMode | lib/name.cc:85-90 | moving adds NORMALIZE_PUNCT but keeps the mode, and the three modes share a bit with EXPAND or SHRINK |
| Names.JoinRemovesStatuses | lib/name.cc:134-161 | REMOVE_ALL_STATUSES leaves no word with a status part and keeps every other word in order |
| Names.JoinStatusToLeft | lib/name.cc:131-193 | STATUS_TO_LEFT puts the status token first and keeps the words in order |
| Names.JoinStatusToRight | lib/name.cc:131-193 | STATUS_TO_RIGHT alone puts the status token last and keeps the words in order |
| Names.SqueezeSpacing | lib/name.cc:202-213 | the squeezed text has single spaces, never doubled |
| Names.TrimBlanksSpec | lib/name.cc:215-218 | the trimmed text does not end in a blank |
| Names.NormalizedSpacing | lib/name.cc:196-218 | when the words hold no blanks, the normalised output has no blank at either end and single spaces between words |
| Names.SkipSpacesSolid | lib/name.cc:199-200 | skipping the leading spaces keeps the words free of blanks |
| Names.TrimmedEnds | lib/name.cc:215-218 | cutting the trailing blanks of a text that does not start with one leaves no blank at either end |
| Names.InnerBlanksPrefix | lib/name.cc:215-218 | cutting the trailing blanks keeps the inner blanks single spaces |
| Names.NameOfOk | lib/name.cc:30-59 | in a locale whose part forms are one word each, every word token of a constructed Name is non-empty and blank-free, and every part it carries has one-word forms |
| Names.MergeDotOk | lib/name.cc:98-109 | merging the dot keeps every word token non-empty and blank-free |
| Names.SpaceAfterCommaOk | lib/name.cc:111-115 | the inserted space keeps every word token non-empty and blank-free |
| Names.CommaToSpaceOk | lib/name.cc:117-128 | the comma edits keep every word token non-empty and blank-free |
| Names.EditedOk | lib/name.cc:83-129 | the status edits, including writing a full, abbreviated or canonical form, keep every word token non-empty and blank-free |
| Names.UnlinkOk | lib/name.cc:142-160 | taking out a status keeps every word token non-empty and blank-free |
| Names.RemoveStatusesOk | lib/name.cc:134-161 | REMOVE_ALL_STATUSES keeps every word token non-empty and blank-free |
| Names.MoveStatusOk | lib/name.cc:162-193 | moving the status keeps every word token non-empty and blank-free |
| Names.JoinTokensOk | lib/name.cc:83-193 | whatever the flags, the tokens Join writes hold no blank outside the space tokens |
| Names.NameSpacing | lib/name.cc:196-218 | with NORMALIZE_WHITESPACE, Join of a Name built in such a locale has no blank at either end and one space between words |
| RuLocale.RuOneWordForms | lib/locales/ru.cc:34-74 | every part of ru_RU has a non-empty, blank-free full, canonical and abbreviated form |
| TokenizerCases.RuNormalizedSpacing | tests/tokenizer_test.cc:98 | in ru_RU, Join with NORMALIZE_WHITESPACE of any text has no blank at either end and one space between words |
| TokenizerCases.Passthrough0 | tests/tokenizer_test.cc:31 | Join() of "улица Ленина" gives it back |
| TokenizerCases.Passthrough1 | tests/tokenizer_test.cc:32 | Join() keeps leading, inner and trailing runs of spaces |
| TokenizerCases.Passthrough2 | tests/tokenizer_test.cc:33 | Join() keeps a text of dots, commas, tabs and spaces |
| TokenizerCases.Punct1 | tests/tokenizer_test.cc:39 | "Зелёная,улица" with NORMALIZE_PUNCT gives "Зелёная улица" |
| TokenizerCases.Punct2 | tests/tokenizer_test.cc:40 | "Зелёная, улица" with NORMALIZE_PUNCT gives "Зелёная улица" |
| TokenizerCases.PunctSpace | tests/tokenizer_test.cc:46 | "Зелёная  ,улица" with NORMALIZE_PUNCT and NORMALIZE_WHITESPACE gives "Зелёная улица" |
| TokenizerCases.ExpandDot | tests/tokenizer_test.cc:50 | "ул. Ленина" expands to "улица Ленина" |
| TokenizerCases.ExpandDotWord | tests/tokenizer_test.cc:51 | "ул.Ленина" expands to "улица Ленина" |
| TokenizerCases.ExpandEnd | tests/tokenizer_test.cc:54 | "Зелёная ул." expands to "Зелёная улица" |
| TokenizerCases.Shrink | tests/tokenizer_test.cc:63 | "улица Ленина" shrinks to "ул. Ленина" |
| TokenizerCases.ShrinkDotWord | tests/tokenizer_test.cc:65 | "ул.Ленина" shrinks to "ул. Ленина" |
| TokenizerCases.LeftComma | tests/tokenizer_test.cc:79 | "Зелёная, улица" with STATUS_TO_LEFT gives "улица Зелёная" |
| TokenizerCases.LeftMiddle | tests/tokenizer_test.cc:81 | "1-я улица Доватора" with STATUS_TO_LEFT gives "улица 1-я Доватора" |
| TokenizerCases.Right | tests/tokenizer_test.cc:85 | "улица Ленина" with STATUS_TO_RIGHT gives "Ленина улица" |
| TokenizerCases.LeftAlone | tests/tokenizer_test.cc:88 | "улица" with STATUS_TO_LEFT stays "улица" |
| TokenizerCases.RemoveTwo | tests/tokenizer_test.cc:92 | "улица Широкое Шоссе" with REMOVE_ALL_STATUSES gives "Широкое" |
| TokenizerCases.RemoveAll | tests/tokenizer_test.cc:93 | "  улица\tулица улица" with REMOVE_ALL_STATUSES gives "" |
| TokenizerCases.RemoveComma | tests/tokenizer_test.cc:94 | "Зелёная,  ул." with REMOVE_ALL_STATUSES gives "Зелёная" |
| TokenizerCases.PunctKeepsSpaces | tests/tokenizer_test.cc:97 | "Зелёная,  ул." with NORMALIZE_PUNCT gives "Зелёная  ул." |
| TokenizerCases.Whitespace | tests/tokenizer_test.cc:98 | "Зелёная,  ул." with NORMALIZE_WHITESPACE gives "Зелёная, ул." |
| TokenizerCases.NoStatus | tests/tokenizer_test.cc:102 | a name with no status is unchanged by EXPAND_STATUS |
| TokenizerCases.NoStatusFlags | tests/tokenizer_test.cc:103-106 | a name with no status is unchanged by SHRINK_STATUS, REMOVE_ALL_STATUSES, STATUS_TO_LEFT and STATUS_TO_RIGHT |
| TokenizerCases.NoStatusWhitespace | tests/tokenizer_test.cc:108 | "Зелёная  Штуковина" with NORMALIZE_WHITESPACE gives "Зелёная Штуковина" |
| TokenizerCases.MatrixA1 | tests/tokenizer_test.cc:117-142 | " ул.  Ленина " under the first flag set of the matrix gives "улица Ленина" |
| TokenizerCases.MatrixA2 | tests/tokenizer_test.cc:117-143 | " ул.  Ленина " under the second flag set gives "Ленина улица" |
| TokenizerCases.MatrixA3 | tests/tokenizer_test.cc:117-144 | " ул.  Ленина " under the third flag set gives "ул. Ленина" |
| TokenizerCases.MatrixA4 | tests/tokenizer_test.cc:117-145 | " ул.  Ленина " under the fourth flag set gives "Ленина ул." |
| TokenizerCases.MatrixB1 | tests/tokenizer_test.cc:129-142 | "Ленина, УЛИЦА" under the first flag set gives "улица Ленина" |
| TokenizerCases.MatrixB2 | tests/tokenizer_test.cc:129-143 | "Ленина, УЛИЦА" under the second flag set gives "Ленина улица" |
| TokenizerCases.MatrixB3 | tests/tokenizer_test.cc:129-144 | "Ленина, УЛИЦА" under the third flag set gives "ул. Ленина" |
| TokenizerCases.MatrixB4 | tests/tokenizer_test.cc:129-145 | "Ленина, УЛИЦА" under the fourth flag set gives "Ленина ул." |
| StringListParser.Parse | lib/stringlistparser.cc:38-83 | with the corrected reader step (see Findings), the strings passed on, over any split of the file into read chunks, are the cleaned non-empty lines of the whole text |
| StringListParser.ReadBuffer | lib/stringlistparser.cc:51-73 | the loop over one buffer computes Run, the corrected reader step applied to every character |
| StringListParser.RunConcat | lib/stringlistparser.cc:50-74 | reader state carries across chunk boundaries: reading `a + b` is reading `a` and then `b` |
| StringListParser.ReaderComputesLines | lib/stringlistparser.cc:46-77 | with the space fix, the reader yields for every line its text before `#`, words joined by one space, and drops empty lines |
| StringListParser.LinesShape | lib/stringlistparser.cc:46-77 | every line yielded is non-empty, single-spaced and holds no newline, tab or `#` |
| StringListParser.CleanKeepsCharacters | lib/stringlistparser.cc:64-71 | cleaning drops only blanks: the other characters stay, in order |
| StringListParser.HashAt | lib/stringlistparser.cc:62-63 | a line is read up to its first `#` |
| StringListParser.SplitJoin | lib/stringlistparser.cc:52-59 | splitting at newlines and joining back gives the text |
| StringListParser.LeadingBlankSplitsWord | lib/stringlistparser.cc:67-70 | as written, the line " ab" is passed on as "a b", while its cleaned form is "ab" |
| Database.PlainHashIsLowered | lib/database.cc:57-66 | the plain hash is the lower-cased Join under STATUS_TO_LEFT, EXPAND_STATUS and both normalisations |
| Database.IndexOfSpec | lib/database.cc:73 | indexOf gives the first occurrence from `start`, or -1 when there is none |
| Database.SplitWords | lib/database.cc:69-79 | the splitting loop gives the non-empty space-separated words |
| Database.HashWordsAreWords | lib/database.cc:74-79 | every word is non-empty and holds no space |
| Database.SplitJoinedWords | lib/database.cc:85-90 | splitting words joined by single spaces gives the words back |
| Database.JoinSpaced | lib/database.cc:85-90 | the join loop puts one space between words |
| Database.UnitsLeTotal | lib/database.cc:83 | UnicodeString's code-unit order is total |
| Database.UnitsLeAntisymmetric | lib/database.cc:83 | the order is antisymmetric |
| Database.UnitsLeTransitive | lib/database.cc:83 | the order is transitive |
| Database.Sort | lib/database.cc:83 | sorting permutes the words |
| Database.SortSorted | lib/database.cc:83 | the sorted words are in order |
| Database.SortedUnique | lib/database.cc:83 | two ordered permutations of the same words are equal, so the arrangement of equal words does not matter |
| Database.OrderedHashWords | lib/database.cc:68-91 | the ordered hash has the base hash's words, all sorted, or (with a status kept) the first word kept in front and the rest sorted |
| Database.OrderedIgnoresWordOrder | lib/database.cc:81-83 | names with the same words get the same ordered hash when all words are sorted |
| Database.NameToHashes | lib/database.cc:57-92 | the three hashes of a name |
| Database.InsertedSpec | lib/database.cc:183-198 | a multimap insert appends the value under its key and leaves the other keys |
| Database.AddedAllSnoc | lib/database.cc:131 | adding names one after another is adding them one at a time |
| Database.AddKeepsInv | lib/database.cc:166-199 | Add keeps the index invariant: the trie holds exactly the non-empty spelling keys, and every suggestion is a stored name |
| Database.AddOnlyInserts | lib/database.cc:177-198 | Add inserts the canonical name, under the plain hash, under the base and ordered hashes, and under the stripped key only when it differs from the ordered hash |
| Database.AddThenExact | lib/database.cc:177-183 | after Add the canonical form is stored and is a canonical suggestion under the name's plain hash |
| Database.CanonicalMatch | lib/database.cc:208-220 | a name added under a plain hash is suggested for another name exactly when their hashes are equal |
| Database.NoStatusNotStripped | lib/database.cc:194-198 | for a name with no status part, Add leaves the stripped map unchanged exactly when the ordered hash has no ё |
| Database.HitsByDistance | lib/database.cc:227-230 | one round finds the stored strings within the radius of either hash |
| Database.SpellMatchesNearest | lib/database.cc:226-230 | the matches are exactly the stored strings nearest to either hash, when the nearest are at most `depth` away |
| Database.AscendingSpec | lib/database.cc:233 | a set is iterated in ascending order, once per member |
| Database.GatherHas | lib/database.cc:233-239 | every suggestion filed under a match is returned |
| Database.SuggestionsAreNames | lib/database.cc:204-257 | every suggestion a check returns is a stored canonical name |
| Database.SpellingFindsOwn | lib/database.cc:186-191 | after Add of a name with a non-empty base hash, the spelling check with the exact appender finds the name's own canonical form at every depth from 0 up |
| Database.AddKeys | lib/database.cc:167-196 | the keys Add computes: canonical form, plain, base, ordered and stripped hashes |
| Database.AppendRange | lib/database.cc:216-217 | the equal_range loop appends the range and counts it |
| Database.ReadChar | lib/database.cc:128-149 | one character of Load's loop is one Step of the line reader |
| Database.Database.constructor | lib/database.cc:109-110 | a new database is empty and uses the given locale |
| Database.Database.Add | lib/database.cc:166-199 | Add files the name as AddedText specifies and keeps the invariant |
| Database.Database.AddName | lib/database.cc:167-199 | Add on a tokenized name |
| Database.Database.Store | lib/database.cc:179-198 | storing the keys in the maps and the trie |
| Database.Database.File | lib/database.cc:179-198 | the multimap inserts of Add |
| Database.Database.Remember | lib/database.cc:186-191 | the spelling trie gains the base hash and, when it differs, the ordered hash (never an empty one) |
| Database.Database.CheckExactMatch | lib/database.cc:204-206 | 1 exactly when Join() of the name is a stored name, else 0 |
| Database.Database.CheckExactMatchString | lib/database.cc:262-265 | 1 exactly when the string itself is a stored name, else 0 |
| Database.Database.CheckCanonicalForm | lib/database.cc:208-220 | appends the names filed under the plain hash, in insertion order, and returns their number |
| Database.Database.CheckCanonicalFormString | lib/database.cc:267-269 | the same after tokenizing in the database's locale |
| Database.Database.CheckSpelling | lib/database.cc:222-242 | appends, for the nearest matches in ascending order, the names filed under them, and returns their number |
| Database.Database.SpellMatches | lib/database.cc:226-230 | the radius loop stops at the first radius with a match or after `depth` |
| Database.Database.Suggest | lib/database.cc:232-241 | the suggestion loop gathers the names of the matches in ascending order |
| Database.Database.CheckSpellingString | lib/database.cc:271-273 | the same after tokenizing |
| Database.Database.CheckStrippedStatus | lib/database.cc:244-257 | appends the names filed under the ordered hash with ё written as е, and returns their number |
| Database.Database.CheckStrippedStatusString | lib/database.cc:275-277 | the same after tokenizing |
| Database.Database.Load | lib/database.cc:115-160 | loading a file adds, in order, every line the corrected reader yields from the whole text, over any split into read chunks |
| Database.Database.LoadBuffer | lib/database.cc:128-150 | one buffer of Load adds the lines it completes |
| Database.Database.Feed | lib/database.cc:129-149 | one character of Load adds the line it completes, if any |
| Aggregator.LoadedNameIsExact | utils/name_aggregator.cc:53-57 | a line a database was loaded with, in canonical form, is classified as an exact match |
| Aggregator.FirstTrue | utils/name_aggregator.cc:52-106 | the first true answer, or the length |
| Aggregator.ClassifyTakesFirstAnswer | utils/name_aggregator.cc:52-106 | the category is the first check that answers, in the order exact, canonical, spelling, stripped, status part; a name none answers is a non-name |
| Aggregator.Bump | utils/name_aggregator.cc:41-42 | `++m[k]` counts a missing key from 0 and leaves the other keys |
| Aggregator.CountsEveryCall | utils/name_aggregator.cc:39-45 | every call counts the name in count_all_ and all_ |
| Aggregator.RepeatOnlyCounts | utils/name_aggregator.cc:44-50 | without PERSTREET_STATS or COUNT_NAMES a name seen before changes only count_all_ |
| Aggregator.OneCategoryPerCall | utils/name_aggregator.cc:52-106 | a call not skipped adds one to the counter of its category only and files the name there |
| Aggregator.InitialBalanced | utils/name_aggregator.cc:25-36 | the counters start balanced |
| Aggregator.ProcessedBalanced | utils/name_aggregator.cc:38-107 | with either flag count_all_ stays the sum of the six counters; without, the sum stays the number of distinct names |
| Aggregator.SuggestionsKept | utils/name_aggregator.cc:65-74 | a later call never overwrites a name's first canonical or spelling suggestions |
| Aggregator.CanonicalRecordsFirstSuggestion | utils/name_aggregator.cc:63-66 | the canonical record of a new name is the first suggestion of the check |
| Aggregator.NameAggregator.constructor | utils/name_aggregator.cc:25-36 | all counters are zero and all sets and maps are empty |
| Aggregator.NameAggregator.Count | utils/name_aggregator.cc:39-50 | every call adds one to count_all_, under COUNT_NAMES one to the name's counts_all_, and adds the name to all_; it skips exactly a name already in all_ when neither PERSTREET_STATS nor COUNT_NAMES is set |
| Aggregator.NameAggregator.ProcessName | utils/name_aggregator.cc:38-107 | the new state is Processed of the old state and the name's verdict |
| Aggregator.NameAggregator.Categorize | utils/name_aggregator.cc:52-106 | the checks are made in order and the name is recorded under the first that answers |
| Aggregator.NameAggregator.RecordExact | utils/name_aggregator.cc:54-55 | the exact-match counter and set |
| Aggregator.NameAggregator.RecordCanonical | utils/name_aggregator.cc:64-65 | the canonical counter and the first suggestion, unless already recorded |
| Aggregator.NameAggregator.RecordSpelling | utils/name_aggregator.cc:70-77 | the spelling counter; the suggestions only when the insert takes place; the per-name count under COUNT_NAMES |
| Aggregator.NameAggregator.RecordStripped | utils/name_aggregator.cc:83-87 | the stripped counter, set and per-name count |
| Aggregator.NameAggregator.RecordNoMatch | utils/name_aggregator.cc:93-97 | the no-match counter, set and per-name count |
| Aggregator.NameAggregator.RecordNonName | utils/name_aggregator.cc:102-106 | the non-name counter, set and per-name count |

## Left out

- Destructors and `TrieBase::Destroy` (contrib/tspell/tspell/triebase.hh:109-124) are not modelled, because the arena model has no memory to free.
- File I/O is not modelled. `open`, `read` and `close` in `Database::Load` and `StringListParser::Parse`, and their `errno` exceptions, are left out. The file's text is a parameter, given as the sequence of chunks the reads return.
- ICU is replaced by a character-wise lower-casing of Latin and Cyrillic capitals (`Unicode.LowerCode`), because full Unicode case mapping is outside the model. `Unicode.LowerString` states only what that mapping does.
- Names.Split classifies characters, while the source classifies the bytes of the UTF-8 text. Every byte of a multi-byte character is ALPHA, so the token texts agree. The byte encoding itself is not modelled.
- The en and uk tables (lib/locales/en.cc, lib/locales/uk.cc) are not modelled. Only the ru_RU table is.
- The `assert`s in the registrar (duplicate locale name) and in the locale constructor (duplicate variant) are modelled as `Failure` results, because aborting the process has no Dafny counterpart. Builds with `NDEBUG`, where the asserts vanish, are not modelled.
- Locale.VariantsIn reads at most the ten variant slots. A row filling all ten slots, which the source would read past, is not modelled: no table does it.
- The numeric value of RANDOM_ORDER is not shown in the sources and is a nonzero constant here.
- `Locale::StatusPart::GetFlags` is modelled from its use in lib/streetmangler/name.hh:86. The header copy of locale.hh lacks it.
- tests/locale_internal_test.cc and tests/canonical_test.cc are not modelled, because they test locale internals and the en table, which are outside this model.
- The tokenizer cases cover tests/tokenizer_test.cc lines 31-33, 39-40, 46, 50-51, 54, 63, 65, 79, 81, 85, 88, 92-94, 97-98, 102-106 and 108, and two of the 24 inputs of the matrix (lines 117 and 129) under all four flag sets. The other literal cases are not stated, to keep proof cost down. The general lemmas of `Names` cover their shapes.
- `std::sort` is modelled as an insertion-sort function. Database.SortedUnique shows that the result does not depend on the algorithm.
- Suggestion vectors passed by reference are modelled as a sequence in and a sequence out.
- `StringListParser::ProcessString` is a virtual callback; here the strings it would receive are collected into a sequence.
- The `line` counter of both readers is kept but nothing reads it: the model states nothing about it.
- `Database::GetLocale` (lib/database.cc:162-164) is the `locale` field.
- `int` counters are unbounded, so overflow of the aggregator's counters is not modelled.
- `NameAggregator::DumpStats`, `DumpData` and the other output code (utils/name_aggregator.cc:109-247) are left out, because it is printing.
- Aggregator: the `Database` the aggregator consults is an `Oracle` of the answers of its four checks and of `HasStatusPart`, and `Aggregator.DatabaseOracle` instantiates it with the modelled database. `canonical_form_` is declared as a map to vectors in utils/name_aggregator.hh, but the .cc stores `suggestions.front()`; the model stores one string, as the .cc does.
- Database.Database.Load uses the corrected reader step (see Findings). Database.ReadChar models the corrected step.
- Database.Database.LoadBuffer runs the corrected reader step over one buffer, not lib/database.cc:144-147 as written.
- Database.Database.Feed is one corrected reader step; as written, a blank before the first word of a line puts a space inside that word.
- StringListParser.Parse yields the lines of the corrected reader; as written, the source reads " ab" as "a b" (StringListParser.LeadingBlankSplitsWord).
- ReadBuffer (StringListParser.ReadBuffer) runs the corrected step, not lib/stringlistparser.cc:67-70 as written.
- Trie.SetAppender.Append models `StringSetAppender`, whose plain reversal is exact. The UTF-16 trie of `Database` uses it too, in place of `UnicodeStringSetAppender`, whose ICU reversal is modelled separately by UniTrie.IcuSetAppender.Append (see Findings).
- Database.Database.SpellMatches reports the stored strings themselves. With the source's UTF-16 appender, a match holding two adjacent characters above U+FFFF would come back with its surrogates swapped; for text below U+10000, which includes every Russian name, the two agree (UniTrie.BmpAppendedIsPath).
- CheckSpelling (Database.Database.CheckSpelling) inherits that: with the source's appender, such a swapped match is not a key of the spelling map, so the check would stop at it and return no suggestion.
- CheckSpellingString (Database.Database.CheckSpellingString) inherits the same gap.
- Database.Database.CheckExactMatch follows the code. It looks up `Join()` with no flags, not the canonical form that `Add` stores.

## Findings

| source | as written | input that shows it | evidently intended | confidence | as-written member | corrected member |
|---|---|---|---|---|---|---|
| contrib/tspell/tspell/unitrie.hh:44-51 | the walked-up units are turned around with ICU `UnicodeString::reverse()`, which swaps every trail surrogate followed by a lead surrogate back; in the walked-up string each pair is trail first, so two adjacent pairs come out as lead, lead, trail, trail | the stored "𝔸𝔹" (D835 DD38 D835 DD39) is reported as D835 D835 DD38 DD39 | the appender reports the stored string, as `StringSetAppender` does | not executed | UniTrie.AdjacentSupplementarySwapped | Trie.SetAppender.Append |
| lib/stringlistparser.cc:67-70 (the same code is at lib/database.cc:144-147) | a blank before the first word sets `space`; it is not cleared until a later word starts, so a space goes in before the first word's second character | the line " ab" is read as "a b" | blanks before the first word are dropped: " ab" is read as "ab" | not executed | StringListParser.LeadingBlankSplitsWord | StringListParser.ReaderComputesLines |
