# morph decoders in Dafny

This project models the computational core of `morph`. This Go program reads two
morphologically tagged Bible texts and turns their compact codes into
readable records:

- **WLC.** The Westminster Leningrad Codex, Hebrew and Aramaic, in parsewlc.go.
  A code such as `HVqp3ms` has one language letter, then `/`-separated
  sub-entries. Each sub-entry starts with a part-of-speech letter. That
  letter selects a decision tree, and the tree is walked one character at a
  time. Every node stores the label of its character under its category name
  and moves on to its successor or, through a decider, to its alternate.
  `Parse` flattens the result to `key=value,…|…`. `ParseFileContent` numbers
  the words of a book with fixed-width verse and sequence identities.
- **GNT.** The Greek New Testament, in parsegnt.go and its package copy
  internal/parser/parsegnt.go. A code is read position by position through
  eight tables. The part of speech comes from a closed 13-case switch.
  `ParseFileContent` builds a verse number (book + 39, then chapter and verse
  digits) and an absolute identity from it. It also keeps a word counter
  that restarts at 1 whenever the verse key of a line changes.
- **Partition.** In partition.go and internal/util/partition.go it splits
  `[0, n)` into consecutive batches of a given size.

Modules:

| file | module | what it holds |
|---|---|---|
| outcome.dfy | `Outcome` | `Result`/`Fatal` (the fatal conditions: panics, nil dereference, `errorf` exits), table lookup with Go's zero value, and `Collect`: the shape of a loop that appends results and stops at the first fatal item |
| numerals.dfy | `Numerals` | `strconv.Itoa`, `strconv.ParseInt` (sign, digits, signed bit width), `%0Nd` padding, and the digit-string arithmetic the identity proofs need |
| strings.dfy | `Strings` | `strings.Split` and `strings.Join` with their counting and round-trip lemmas |
| wlc_tables.dfy | `WlcTables` | the WLC lookup tables, `bookOrder`, the `filenames` loop and the decision trees of `setupTables` |
| parsewlc.dfy | `Wlc` | `parseMorphology`, `Parse`, and the loops of `ParseFileContent` |
| gnt.dfy | `Gnt` | parsegnt.go: the tables, the `bookNames` loop, `getPartName`, `getMorphology`, `createAbsoluteID`, and the loop of `ParseFileContent` |
| parser_gnt.dfy | `ParserGnt` | the package copy internal/parser/parsegnt.go, which hands over to `Gnt` |
| partition.dfy | `Partitioning` | `Partition` and `IdxRange` of partition.go |
| util_partition.dfy | `UtilPartition` | `Partition` of internal/util/partition.go, which hands over to `Partitioning` |

The source code is followed wherever it differs from what its description
suggests:

- **WLC word counter.** `wordid` is never reset per verse (parsewlc.go:513, 526). It counts
  across the whole book, so the three-digit word field of a sequence number
  grows past three digits once a book has more than 999 words.
  `Wlc.SequenceIdsUnique` proves that the numbers stay distinct anyway.
- **Sub-entry too long.** A WLC sub-entry with more letters than its tree is
  fatal. Line 443 reads `tree.Name` before the `tree != nil` test at 446, so
  the walk dereferences a nil node (`NilDereference`) rather than ignoring
  the letter.
- **Aramaic verbs.** Their tree's `TopName` is `"Verb"` (parsewlc.go:378),
  whereas Hebrew verbs have `"verb"`.
- **GNT numbering.** The book number is shifted by 39 for the verse text
  (parsegnt.go:262) and by 60 for `bookNames` (parsegnt.go:14, 168-173).
  The word counter is appended to the verse text without zero padding
  (parsegnt.go:223).
- **Unreadable book digits.** A failed `strconv.ParseInt` of the two book
  digits is ignored by the code and yields book 0 (parsegnt.go:261).

## Model

| member | source | states |
|---|---|---|
| WlcTables.BookOrderBounds | parsewlc.go:83-124 | every one of the 39 books has a number from 1 to 39 |
| WlcTables.BuildFilenames | parsewlc.go:259-261 | `filenames` has exactly the lower-cased, space-free names as keys, and each key maps back to a book whose file key it is, whatever the map iteration order |
| Wlc.WalkEntry | parsewlc.go:440-459 | the character loop computes the walk `Walk`: it stores `Lookup[ch]` under `Name` except at `-`, then follows `Next`, or `Decider`→`Next`/`Alternate`, and a character after the end of the tree is a nil dereference |
| Wlc.ParseEntry | parsewlc.go:422-460 | one sub-entry: an empty one fails at `part[0]`, a missing tree at the nil root, otherwise the walk starts from `{"Part": topName}` |
| Wlc.ParseEntries | parsewlc.go:420-461 | the outer loop yields the sub-entry results in order, and the first fatal sub-entry ends it |
| Wlc.ParseMorphology | parsewlc.go:405-463 | succeeds only on a non-empty code, and then has exactly one entry per `/`-separated segment after the language letter |
| Wlc.MorphologyLanguage | parsewlc.go:407-417 | the language is `Hebrew` for `H`, `Aramaic` for `A`, and empty for any other letter |
| Wlc.EntryTree | parsewlc.go:424-438 | a `V` sub-entry takes tree `"V"+language`, any other one the tree of its letter; a missing tree is fatal; `"Part"` is the root's `TopName`, or its `Name` when that is empty |
| Wlc.PartLabels | parsewlc.go:288-402 | every tree's `"Part"` is its part-of-speech name, except that Aramaic verbs read `"Verb"` |
| Wlc.TreeDomain | parsewlc.go:262-402 | the tree table has exactly the keys C, D, A, N, P, R, S, T, VH and VA |
| Wlc.TreeFollowsSchema | parsewlc.go:263-402 | every tree visits the categories of its schema in order, deciders included: pronouns take person/gender/number only after type `x`, and verbs skip the person after conjugation `r` or `s` |
| Wlc.VerbFollows | parsewlc.go:346-402 | both verb trees: stem, conjugation, then gender, number and state after a participle, active (`r`) or passive (`s`), and person, gender, number and state after any other conjugation |
| Wlc.PronounFollows | parsewlc.go:306-330 | the pronoun tree goes to the person/gender/number branch exactly when the type letter is `x`, and otherwise to the `-` placeholder and gender/number/state |
| Wlc.WalkFollows | parsewlc.go:440-459 | walking a tree that follows a category list stores each letter's label under its category; one letter more than the list is a nil dereference |
| Wlc.ApplyKeys | parsewlc.go:442-445 | the walk adds exactly the category names it reaches, and nothing for categories it never reaches |
| Wlc.ApplyLabel | parsewlc.go:442-445 | each reached category holds the label of its letter, `""` when the table lacks it |
| Wlc.DecodeEntryMeaning | parsewlc.go:421-460 | a sub-entry with a tree decodes exactly when it has no more letters than its schema; its keys are then `"Part"` plus the reached names, each holding its letter's label; otherwise it fails with the nil dereference |
| Wlc.DecodeEntrySucceeds | parsewlc.go:421-460 | a sub-entry decodes if and only if it is well formed |
| Wlc.DecodeMorphologySucceeds | parsewlc.go:405-463 | a code decodes if and only if it is non-empty and every sub-entry is well formed |
| Wlc.DecodeQalPerfect | parsewlc.go:136-258 | `HVqp3ms` decodes to Hebrew and one entry: Part=verb, Stem=qal, Conjugation=perfect (qatal), Person=third, Gender=masculine, Number=singular |
| Wlc.FlattenMorphology | parsewlc.go:470-477 | the two rendering loops give the `|`-join of the `,`-joined `key=value` pairs of each entry, in some iteration order of its keys |
| Wlc.PairsContents | parsewlc.go:472-474 | the set of pairs of an entry does not depend on the iteration order |
| Wlc.FlattenSplits | parsewlc.go:470-477 | with separator-free labels, splitting the rendering on `|` gives one segment per entry, and splitting a segment on `,` gives its pairs |
| Wlc.DecodeMorphologyPlain | parsewlc.go:126-258 | every decoded entry holds `"Part"`, and no key or label contains `|` or `,` |
| Wlc.Parse | parsewlc.go:465-488 | `Parse` fails exactly when the code does; otherwise it keeps `Codes`, lemma and id, and renders the morphology |
| Wlc.AnalyseWord | parsewlc.go:465-488 | an analysed word record carries the verse id and the sequence number it is handed |
| Wlc.DecodeSlot | parsewlc.go:518-524 | a word that decodes carries, as its sequence number, the value of its zero-padded book, chapter, verse and word-number text |
| Wlc.RenderedSegments | parsewlc.go:465-488 | `Codes` is the raw code, and `MorphologyString` has one `|` segment per `/` sub-entry, each splitting into that entry's pairs |
| Wlc.ParseFileContent | parsewlc.go:512-530 | one record per word in reading order, each the decoding of its word; the first word whose identity or code fails ends the run |
| Wlc.ParseChapters | parsewlc.go:515-529 | the triple loop collects the words of all chapters, verses and words in reading order |
| Wlc.ParseWord | parsewlc.go:518-526 | one word: the sequence text is parsed as a 64-bit integer (fatal on failure), then the word is parsed |
| Wlc.VerseIdValue | parsewlc.go:518 | `%02d%03d%03d` has eight digits, worth book·10⁶ + (chapter+1)·10³ + (verse+1) |
| Wlc.WordIdentity | parsewlc.go:512-527 | word `wi` of verse `vi` of chapter `ci` is record `k`, which counts all words before it in the book; its verse identity is `%02d%03d%03d` of the book, chapter and verse; its sequence number is the value of that identity followed by `%03d` of `k + 1`, so `wordid` is never reset per verse |
| Wlc.BookFailsAtWord | parsewlc.go:515-529 | a book fails if and only if some word fails, numbered by its place in the whole book |
| Wlc.SequenceTextInjective | parsewlc.go:519 | for a known book with chapters and verses of at most three digits, the sequence number determines chapter, verse and word number |
| Wlc.SequenceIdsUnique | parsewlc.go:512-527 | in a known book of at most 999 chapters of at most 999 verses, no two records share a sequence number |
| Numerals.PadValue | parsewlc.go:518-519 | `%0Nd` keeps the value and pads to exactly N characters when the number has at most N digits |
| Numerals.ParseDigits | parsewlc.go:520-523 | parsing a digit string succeeds exactly when its value fits the signed bit width |
| Gnt.BuildBookNames | parsegnt.go:139-173 | `bookNames` has exactly the keys `bookOrder[name] + 60`, and `bookNames[bookOrder[name] + 60] == name` for all 27 books |
| Gnt.BookOrderDistinct | parsegnt.go:139-166 | no two books share a number |
| Gnt.BookOrderBounds | parsegnt.go:139-166 | every book has a number from 1 to 27 |
| Gnt.PartNameDomain | parsegnt.go:40-72 | `getPartName` succeeds on exactly the 13 listed prefixes; any other prefix is fatal and reported |
| Gnt.PartNameLabels | parsegnt.go:40-72 | e.g. `N-`→noun, `RA`→definite article, `V-`→verb; `--` is fatal |
| Gnt.GetMorphology | parsegnt.go:74-122 | the character loop sets position k's field from the k-th table, for k = 0..7 |
| Gnt.DecodeMorphologyFails | parsegnt.go:74-122 | `getMorphology` fails if and only if the prefix is not one of the 13; the code itself never makes it fail |
| Gnt.DecodeMorphologyFields | parsegnt.go:83-110 | position 0..7 gives person, tense, voice, mood, case, number, gender and degree through their tables; a position the code does not reach, or an unmapped character, gives `""` |
| Gnt.DecodeMorphologyPrefix | parsegnt.go:83-110 | characters from position 8 on are ignored |
| Gnt.DashReadsEmpty | parsegnt.go:83-110 | `-` at any position reads as `""` |
| Gnt.DecodeThirdAoristActiveIndicative | parsegnt.go:175-200 | `3AAI` gives third / aorist / active / indicative, and every other field empty |
| Gnt.AbsoluteIdValue | parsegnt.go:222-228 | for a digit verse, `createAbsoluteID` is the verse value shifted by the unpadded digits of the id plus the id, or fatal when that does not fit 32 bits |
| Gnt.AbsoluteIdInjective | parsegnt.go:222-228 | for verses of equal width without a leading zero, the identity determines both the verse and the id, although the id is not padded |
| Gnt.AbsoluteIdDistinct | parsegnt.go:222-228 | for a fixed verse, distinct ids give distinct identities |
| Gnt.VerseValue | parsegnt.go:261-262 | for a six-digit key the verse text is all digits, worth (book digits + 39)·10⁴ + the value of key[2:6] |
| Gnt.VerseLeads | parsegnt.go:261-262 | a verse text always starts with a digit other than zero |
| Gnt.WordIdReset | parsegnt.go:254-260 | with a non-empty first key, the counter is 1 exactly on the first line and on a line whose key differs from the previous line's |
| Gnt.WordIdRun | parsegnt.go:254-274 | the counter of a line is the length of the run of equal keys that ends there: the lines of the run share its key, and the line before the run has another |
| Gnt.WordIdAdvance | parsegnt.go:254-274 | along lines with one key the counter goes up by exactly one per line |
| Gnt.ParseLine | parsegnt.go:261-273 | one line: key slices, then the identity, then the morphology and then the remaining fields, each fatal in turn |
| Gnt.NextCounter | parsegnt.go:254-260 | the counter test sets the key and restarts at 1 on a new key |
| Gnt.ParseFileContent | parsegnt.go:248-277 | the loop yields `DecodeFile`: one word per line in order, the first fatal line ending the run |
| Gnt.DecodeFileWord | parsegnt.go:261-274 | word `j` carries the verse text of its key, the identity of that verse and its counter, the code, its morphology and fields 3..6 of its line |
| Gnt.EmptyFirstKeyFails | parsegnt.go:254-263 | a file whose first line has an empty key fails |
| Gnt.RunIdsDistinct | parsegnt.go:254-274 | words of one run of equal keys have distinct identities |
| Gnt.BookNumberValue | parsegnt.go:261 | two book digits read as their decimal value: the 32-bit `ParseInt` never rejects them |
| ParserGnt.PartName | internal/parser/parsegnt.go:20-52 | succeeds exactly on the 13 prefixes; any other is reported through `util.Errorf` |
| ParserGnt.GetMorphology | internal/parser/parsegnt.go:54-102 | reads position k in the k-th table, and fails if and only if the prefix is unknown |
| ParserGnt.BuildBookNames | internal/parser/parsegnt.go:119-153 | `bookNames` is `bookOrder` inverted with 60 added |
| ParserGnt.CreateAbsoluteId | internal/parser/parsegnt.go:202-208 | the value of the verse digits followed by `Itoa(id)`, fatal beyond 32 bits |
| ParserGnt.ParseFileContent | internal/parser/parsegnt.go:232-261 | one word per line, as in parsegnt.go |
| Partitioning.Partition | partition.go:7-28 | the ranges sent are those of `Ranges`: none for a size ≤ 0, the full batches in order, then the leftover when the division leaves a remainder |
| Partitioning.RangesCount | partition.go:9-23 | size ≤ 0 or n = 0 gives no range; otherwise there are ⌈n/size⌉ ranges |
| Partitioning.RangesShape | partition.go:15-23 | the first n/size ranges are `[i·size, (i+1)·size)`, and a last `[full·size, n)` follows exactly when size does not divide n |
| Partitioning.RangesTile | partition.go:15-23 | the ranges start at 0, each begins where the previous ends, the last ends at n, and each holds 1 to size indices |
| Partitioning.RangesCover | partition.go:15-23 | every index of `[0, n)` lies in some range, and every range lies within `[0, n)` |
| Partitioning.RangesNegative | partition.go:14-23 | a negative length gives Go's truncating result: one inverted range `[0, n)` unless size divides n |
| UtilPartition.Partition | internal/util/partition.go:7-28 | the same ranges; for a length ≥ 0, ⌈n/size⌉ contiguous ranges from 0 to n of 1 to size indices each |

## Left out

- File reading, the extension checks and JSON decoding (`ReadFile`, `readFile`, `json.Unmarshal`). The WLC book arrives as a nested sequence of words, and a GNT file as its lines already split on spaces.
- The goroutine and channel of `Partition`: the ranges come back as a sequence in the order they would be sent.
- Go's 64-bit `int` overflow in `Partition` and in the counters. Integers are unbounded here. Only `ParseInt` checks its bit width.
- Non-ASCII input. Codes and keys are treated as sequences of ASCII characters, where Go's byte indexing and rune iteration agree.
- The `debug` output and the printing part of `errorf`. An exit becomes a fatal `Err` that carries its reason.
- The trees are a function from key to root, built from constant nodes. The tables are map literals keyed by the character rather than by a one-character string.
- Gnt.ParseLine: Go does not fix the order in which a too-short line's indexing and the `getMorphology` call fail. The model fails on the key slices first, then the identity, then `parts[1]`/`parts[2]`, then the part of speech, then `parts[3..6]`. Only the reported reason depends on this order.
- Gnt.RunIdsDistinct: distinct identities are proved only within one run of equal keys. A key that returns later restarts at 1 and may repeat an identity, as the source does.
- WlcTables.BuildFilenames: injectivity of the file keys over the 39 names is not proved. The contract states only that every entry maps back to a book with that key.
- WlcTables.BookOrderBounds: only the bounds of the WLC book numbers are proved, not that they are distinct.
- Partitioning.Partition: a negative `collectionLen` is modelled (`RangesNegative`), but the tiling lemmas assume a length ≥ 0, since a length is never negative.
