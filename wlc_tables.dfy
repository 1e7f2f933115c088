/** The fixed tables and decision trees of the Hebrew/Aramaic (WLC)
    decoder, built once by `setupTables` in parsewlc.go and read-only
    afterwards. Go keys every lookup table by a one-character string; here
    the key is the character itself. A `nil` table (the `C` and `D`
    roots have none) reads like an empty one. */
module WlcTables {
  import opened Outcome

  /** How a node picks the node for the next character, judging the
      character it has just stored (`Decider` in Go; `nil` is
      `NoDecider`). */
  datatype Decider =
    | NoDecider
    | IsX        // the pronoun decider: the type letter is `x`
    | NotRorS    // the verb decider: the conjugation letter is neither `r` nor `s`

  /** The lookup table a node reads its character in; `NoTable` is the
      nil table of the `C` and `D` roots. */
  datatype Table =
    | NoTable
    | AdjectiveTable | NounTable | PronounTable | PrepositionTable | SuffixTable | ParticleTable
    | HebrewStemTable | AramaicVerbTable | ConjugationTable
    | PersonTable | GenderTable | NumberTable | StateTable | NotUsedTable

  /** A decision node: the category it decodes (`name`), the table for
      its character, the part-of-speech label of a root (`topName`, empty
      when absent), and its successors. */
  datatype Node = Node(
    lookup: Table,
    name: string,
    topName: string,
    next: Option<Node>,
    alternate: Option<Node>,
    decider: Decider)

  function Decides(d: Decider, c: char): bool {
    match d
    case NoDecider => true
    case IsX => c == 'x'
    case NotRorS => c != 'r' && c != 's'
  }

  /** A node with an unconditional successor and no part-of-speech label. */
  function Step(lookup: Table, name: string, next: Option<Node>): Node {
    Node(lookup, name, "", next, None, NoDecider)
  }

  // ---------------------------------------------------------------------
  // Lookup tables

  const PartOfSpeechLookup: map<char, string> := map[
    'A' := "adjective", 'C' := "conjunction", 'D' := "adverb", 'N' := "noun",
    'P' := "pronoun", 'R' := "preposition", 'S' := "suffix", 'T' := "particle",
    'V' := "verb"]

  const HebrewStemLookup: map<char, string> := map[
    'q' := "qal", 'N' := "niphal", 'p' := "piel", 'P' := "pual", 'h' := "hiphil",
    'H' := "hophal", 't' := "hithpael", 'o' := "polel", 'O' := "polal",
    'r' := "hithpolel", 'm' := "poel", 'M' := "poal", 'k' := "palel", 'K' := "pulal",
    'Q' := "qal passive", 'l' := "pilpel", 'L' := "polpal", 'f' := "hithpalpel",
    'D' := "nithpael", 'j' := "pealal", 'i' := "pilel", 'u' := "hothpaal",
    'c' := "tiphil", 'v' := "hishtaphel", 'w' := "nithpalel", 'y' := "nithpoel",
    'z' := "hithpoel"]

  const AramaicVerbLookup: map<char, string> := map[
    'q' := "peal", 'Q' := "peil", 'u' := "hithpeel", 'p' := "pael", 'P' := "ithpaal",
    'M' := "hithpaal", 'a' := "aphel", 'h' := "haphel", 's' := "saphel",
    'e' := "shaphel", 'H' := "hophal", 'i' := "ithpeel", 't' := "hishtaphel",
    'v' := "ishtaphel", 'w' := "hithaphel", 'o' := "polel", 'z' := "ithpoel",
    'r' := "hithpolel", 'f' := "hithpalpel", 'b' := "hephal", 'c' := "tiphel",
    'm' := "poel", 'l' := "palpel", 'L' := "ithpalpel", 'O' := "ithpolel",
    'G' := "ittaphal"]

  const VerbConjugationTypesLookup: map<char, string> := map[
    'p' := "perfect (qatal)", 'q' := "sequential perfect (weqatal)",
    'i' := "imperfect (yiqtol)", 'w' := "sequential imperfect (wayyiqtol)",
    'h' := "cohortative", 'j' := "jussive", 'v' := "imperative",
    'r' := "participle active", 's' := "participle passive",
    'a' := "infinitive absolute", 'c' := "infinitive construct"]

  const AdjectiveLookup: map<char, string> := map[
    'a' := "adjective", 'c' := "cardinal number", 'g' := "gentilic", 'o' := "ordinal number"]

  const NounLookup: map<char, string> := map[
    'c' := "common", 'g' := "gentilic", 'p' := "proper name"]

  const PronounLookup: map<char, string> := map[
    'd' := "demonstrative", 'f' := "indefinite", 'i' := "interrogative",
    'p' := "personal", 'r' := "relative"]

  const PrepositionLookup: map<char, string> := map['d' := "definite article"]

  const SuffixLookup: map<char, string> := map[
    'd' := "directional he", 'h' := "paragogic he", 'n' := "paragogic nun", 'p' := "pronominal"]

  const ParticleLookup: map<char, string> := map[
    'a' := "affirmation", 'd' := "definite article", 'e' := "exhortation",
    'i' := "interrogative", 'j' := "interjection", 'm' := "demonstrative",
    'n' := "negative", 'o' := "direct object marker", 'r' := "relative"]

  const HebrewPersonLookup: map<char, string> := map['1' := "first", '2' := "second", '3' := "third"]

  const HebrewGenderLookup: map<char, string> := map[
    'b' := "both (noun)", 'c' := "common (verb)", 'f' := "feminine", 'm' := "masculine"]

  const HebrewNumberLookup: map<char, string> := map['d' := "dual", 'p' := "plural", 's' := "singular"]

  const StateLookup: map<char, string> := map['a' := "absolute", 'c' := "construct", 'd' := "determined"]

  const LanguageLookup: map<char, string> := map['H' := "Hebrew", 'A' := "Aramaic"]

  const NotUsedLookup: map<char, string> := map['x' := "-"]

  const LanguageVerbLookup: map<char, map<char, string>> := map[
    'H' := HebrewStemLookup, 'A' := AramaicVerbLookup]

  /** The table a node refers to. */
  function Lookup(t: Table): map<char, string> {
    match t
    case NoTable => map[]
    case AdjectiveTable => AdjectiveLookup
    case NounTable => NounLookup
    case PronounTable => PronounLookup
    case PrepositionTable => PrepositionLookup
    case SuffixTable => SuffixLookup
    case ParticleTable => ParticleLookup
    case HebrewStemTable => HebrewStemLookup
    case AramaicVerbTable => AramaicVerbLookup
    case ConjugationTable => VerbConjugationTypesLookup
    case PersonTable => HebrewPersonLookup
    case GenderTable => HebrewGenderLookup
    case NumberTable => HebrewNumberLookup
    case StateTable => StateLookup
    case NotUsedTable => NotUsedLookup
  }

  // ---------------------------------------------------------------------
  // Book order; books are numbered 1..39 in canonical order

  const BookOrder: map<string, nat> := map[
    "Genesis" := 1, "Exodus" := 2, "Leviticus" := 3, "Numbers" := 4, "Deuteronomy" := 5,
    "Joshua" := 6, "Judges" := 7, "Ruth" := 8, "I Samuel" := 9, "II Samuel" := 10,
    "I Kings" := 11, "II Kings" := 12, "I Chronicles" := 13, "II Chronicles" := 14, "Ezra" := 15,
    "Nehemiah" := 16, "Esther" := 17, "Job" := 18, "Psalms" := 19, "Proverbs" := 20,
    "Ecclesiastes" := 21, "Song of Solomon" := 22, "Isaiah" := 23, "Jeremiah" := 24,
    "Lamentations" := 25, "Ezekiel" := 26, "Daniel" := 27, "Hosea" := 28, "Joel" := 29,
    "Amos" := 30, "Obadiah" := 31, "Jonah" := 32, "Micah" := 33, "Nahum" := 34,
    "Habakkuk" := 35, "Zephaniah" := 36, "Haggai" := 37, "Zechariah" := 38, "Malachi" := 39]

  /** Every known book has a two-digit number from 1 to 39. */
  lemma BookOrderBounds()
    ensures forall k | k in BookOrder :: 1 <= BookOrder[k] <= 39
  {
  }

  /** ASCII lower-casing (the book names are ASCII). */
  function Lower(s: string): (r: string)
    ensures |r| == |s|
  {
    seq(|s|, i requires 0 <= i < |s| => if 'A' <= s[i] <= 'Z' then (s[i] as int + 32) as char else s[i])
  }

  /** `strings.Replace(s, " ", "", -1)`. */
  function WithoutSpaces(s: string): (r: string)
    ensures ' ' !in r && |r| <= |s|
  {
    if |s| == 0 then "" else (if s[0] == ' ' then "" else [s[0]]) + WithoutSpaces(s[1..])
  }

  /** The file name stem of a book: lower case, spaces removed. */
  function FileKey(book: string): string {
    Lower(WithoutSpaces(book))
  }

  /** The loop of `setupTables` that fills `filenames`, visiting the books
      in Go's unspecified map order. Every book is reachable under its
      file key, and every entry maps a key back to a book with that key. */
  method BuildFilenames() returns (filenames: map<string, string>)
    ensures filenames.Keys == set k | k in BookOrder :: FileKey(k)
    ensures forall f | f in filenames :: filenames[f] in BookOrder && FileKey(filenames[f]) == f
  {
    filenames := IndexByFileKey(BookOrder.Keys);
  }

  method IndexByFileKey(books: set<string>) returns (filenames: map<string, string>)
    ensures filenames.Keys == set k | k in books :: FileKey(k)
    ensures forall f | f in filenames :: filenames[f] in books && FileKey(filenames[f]) == f
  {
    filenames := map[];
    var pending := books;
    while pending != {}
      invariant pending <= books
      invariant filenames.Keys == set k | k in books - pending :: FileKey(k)
      invariant forall f | f in filenames :: filenames[f] in books && FileKey(filenames[f]) == f
      decreases |pending|
    {
      var k :| k in pending;
      filenames := filenames[FileKey(k) := k];
      pending := pending - {k};
    }
  }

  // ---------------------------------------------------------------------
  // Decision trees

  /** Gender, then number, then state (`gnsBranch`). */
  const GnsBranch: Node :=
    Step(GenderTable, "Gender",
      Some(Step(NumberTable, "Number",
        Some(Step(StateTable, "State", None)))))

  /** Person, then gender, then number (`pgnBranch`). */
  const PgnBranch: Node :=
    Step(PersonTable, "Person",
      Some(Step(GenderTable, "Gender",
        Some(Step(NumberTable, "Number", None)))))

  /** The verb tree: stem, then conjugation; a participle, active (`r`)
      or passive (`s`), goes on to gender, number and state, any other
      conjugation to person, gender, number and state. Hebrew and Aramaic differ only in the stem
      table and the part-of-speech label. */
  function VerbTree(stems: Table, topName: string): Node {
    Node(stems, "Stem", topName,
      Some(Node(ConjugationTable, "Conjugation", "",
        Some(Step(PersonTable, "Person", Some(GnsBranch))),
        Some(Step(GenderTable, "Gender",
          Some(Step(NumberTable, "Number",
            Some(Step(StateTable, "State", None)))))),
        NotRorS)),
      None, NoDecider)
  }

  /** The pronoun tree: the type, then person/gender/number when the type
      letter is `x`, otherwise a skipped placeholder followed by gender,
      number and state. */
  const PronounTree: Node :=
    Node(PronounTable, "Type", "pronoun",
      Some(PgnBranch),
      Some(Step(NotUsedTable, "-",
        Some(Step(GenderTable, "Gender",
          Some(Step(NumberTable, "Number",
            Some(Step(StateTable, "State", None)))))))),
      IsX)

  /** `trees[key]`: the root for each part-of-speech letter, and for
      verbs for `V` followed by the language letter; any other key reads
      as nil. */
  function Tree(key: string): Option<Node> {
    if key == "C" then Some(Node(NoTable, "conjunction", "", None, None, NoDecider))
    else if key == "D" then Some(Node(NoTable, "adverb", "", None, None, NoDecider))
    else if key == "A" then Some(Node(AdjectiveTable, "Type", "adjective", Some(GnsBranch), None, NoDecider))
    else if key == "N" then Some(Node(NounTable, "Type", "noun", Some(GnsBranch), None, NoDecider))
    else if key == "P" then Some(PronounTree)
    else if key == "R" then Some(Node(PrepositionTable, "preposition", "", None, None, NoDecider))
    else if key == "S" then Some(Node(SuffixTable, "Type", "suffix", Some(PgnBranch), None, NoDecider))
    else if key == "T" then Some(Node(ParticleTable, "Type", "particle", None, None, NoDecider))
    else if key == "VH" then Some(VerbTree(HebrewStemTable, "verb"))
    else if key == "VA" then Some(VerbTree(AramaicVerbTable, "Verb"))
    else None
  }

  /** The keys the tree table holds. */
  const TreeKeys: set<string> := {"C", "D", "A", "N", "P", "R", "S", "T", "VH", "VA"}
}
