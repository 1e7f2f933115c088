/** The Greek (GNT) positional decoder of parsegnt.go.

    A line of a GNT text file holds, separated by spaces, a six-digit
    verse key (book, chapter, verse, two digits each), a two-character
    part-of-speech prefix, an eight-position parsing code and four word
    forms. Position `k` of the code is read in the `k`-th lookup table;
    the word's identity is the verse number followed by its place in the
    verse, read back as a 32-bit integer. */
module Gnt {
  import opened Outcome
  import opened Numerals

  /** `gntMorphology`. */
  datatype GntMorphology = GntMorphology(
    part: string,
    person: string,
    tense: string,
    voice: string,
    mood: string,
    caseLabel: string,
    number: string,
    gender: string,
    degree: string)

  /** `gntWord`. */
  datatype GntWord = GntWord(
    verse: string,
    id: int,
    codes: string,
    morphology: GntMorphology,
    text: string,
    word: string,
    normalized: string,
    lemmaText: string)

  // ---------------------------------------------------------------------
  // Tables of setupTables

  const PersonLookup: map<char, string> := map['1' := "first", '2' := "second", '3' := "third"]

  const TenseLookup: map<char, string> := map[
    'P' := "present", 'I' := "imperfect", 'F' := "future",
    'A' := "aorist", 'X' := "perfect", 'Y' := "pluperfect"]

  const VoiceLookup: map<char, string> := map['A' := "active", 'M' := "middle", 'P' := "passive"]

  const MoodLookup: map<char, string> := map[
    'I' := "indicative", 'D' := "imperative", 'S' := "subjunctive",
    'O' := "optative", 'N' := "infinitive", 'P' := "participle"]

  const CaseLookup: map<char, string> := map[
    'N' := "nominative", 'G' := "genitive", 'D' := "dative", 'A' := "accusative"]

  const NumberLookup: map<char, string> := map['S' := "singular", 'P' := "plural"]

  const GenderLookup: map<char, string> := map['M' := "masculine", 'F' := "feminine", 'N' := "neuter"]

  const DegreeLookup: map<char, string> := map['C' := "comparative", 'S' := "superlative"]

  /** The table that reads position `k` of a code. */
  function PositionTable(k: nat): map<char, string>
    requires k < 8
  {
    if k == 0 then PersonLookup
    else if k == 1 then TenseLookup
    else if k == 2 then VoiceLookup
    else if k == 3 then MoodLookup
    else if k == 4 then CaseLookup
    else if k == 5 then NumberLookup
    else if k == 6 then GenderLookup
    else DegreeLookup
  }

  /** The New Testament books, numbered 1..27 in canonical order. */
  const BookOrder: map<string, nat> := map[
    "Matthew" := 1, "Mark" := 2, "Luke" := 3, "John" := 4, "Acts" := 5,
    "Romans" := 6, "1 Corinthians" := 7, "2 Corinthians" := 8, "Galatians" := 9,
    "Ephesians" := 10, "Philippians" := 11, "Colossians" := 12,
    "1 Thessalonians" := 13, "2 Thessalonians" := 14, "1 Timothy" := 15,
    "2 Timothy" := 16, "Titus" := 17, "Philemon" := 18, "Hebrews" := 19,
    "James" := 20, "1 Peter" := 21, "2 Peter" := 22, "1 John" := 23,
    "2 John" := 24, "3 John" := 25, "Jude" := 26, "Revelation" := 27]

  /** The offset that places the New Testament books after the 39 books
      of the Old Testament and a gap. */
  const BookOffset: nat := 60

  /** The loop of `setupTables` that inverts `bookOrder` into `bookNames`,
      visiting the books in Go's unspecified map order. The keys are
      exactly the shifted book numbers, and each names a book with that
      number. */
  method BuildBookNames() returns (bookNames: map<int, string>)
    ensures bookNames.Keys == set k | k in BookOrder :: BookOrder[k] + BookOffset
    ensures forall n | n in bookNames :: bookNames[n] in BookOrder && BookOrder[bookNames[n]] + BookOffset == n
    ensures forall k | k in BookOrder :: bookNames[BookOrder[k] + BookOffset] == k
  {
    BookOrderDistinct();
    bookNames := InvertDistinct(BookOrder, BookOffset);
  }

  /** `Invert` on distinct numbers, which loses no book. */
  method InvertDistinct(order: map<string, nat>, offset: nat) returns (names: map<int, string>)
    requires Distinct(order)
    ensures names.Keys == set k | k in order :: order[k] + offset
    ensures forall n | n in names :: names[n] in order && order[names[n]] + offset == n
    ensures forall k | k in order :: names[order[k] + offset] == k
  {
    names := Invert(order, offset);
    InvertRoundTrip(order, offset, names);
  }

  /** No two books of `order` share a number. */
  ghost predicate Distinct(order: map<string, nat>) {
    forall a, b | a in order && b in order && order[a] == order[b] :: a == b
  }

  /** With distinct numbers, every book is found under its own shifted
      number. */
  lemma InvertRoundTrip(order: map<string, nat>, offset: nat, names: map<int, string>)
    requires Distinct(order)
    requires names.Keys == set k | k in order :: order[k] + offset
    requires forall n | n in names :: names[n] in order && order[names[n]] + offset == n
    ensures forall k | k in order :: order[k] + offset in names && names[order[k] + offset] == k
  {
    forall k | k in order
      ensures order[k] + offset in names && names[order[k] + offset] == k
    {
      var n := order[k] + offset;
      assert n in names;
    }
  }

  /** Inverts `order`, shifting each number by `offset`; a later book
      with the same number would overwrite an earlier one. */
  method Invert(order: map<string, nat>, offset: nat) returns (names: map<int, string>)
    ensures names.Keys == set k | k in order :: order[k] + offset
    ensures forall n | n in names :: names[n] in order && order[names[n]] + offset == n
  {
    names := map[];
    var pending := order.Keys;
    while pending != {}
      invariant pending <= order.Keys
      invariant names.Keys == set k | k in order.Keys - pending :: order[k] + offset
      invariant forall n | n in names :: names[n] in order.Keys - pending && order[names[n]] + offset == n
      decreases |pending|
    {
      var k :| k in pending;
      names := names[order[k] + offset := k];
      pending := pending - {k};
    }
  }

  // ---------------------------------------------------------------------
  // getPartName and getMorphology

  /** `getPartName`: the closed switch over the thirteen prefixes; any
      other prefix ends the run through `errorf`. */
  function PartName(part: string): Result<string> {
    match part
    case "A-" => Ok("adjective")
    case "C-" => Ok("conjunction")
    case "D-" => Ok("adverb")
    case "I-" => Ok("interjection")
    case "N-" => Ok("noun")
    case "P-" => Ok("preposition")
    case "RA" => Ok("definite article")
    case "RD" => Ok("demonstrative pronoun")
    case "RI" => Ok("interrogative/indefinite pronoun")
    case "RP" => Ok("personal pronoun")
    case "RR" => Ok("relative pronoun")
    case "V-" => Ok("verb")
    case "X-" => Ok("particle")
    case _ => Err(InvalidPart(part))
  }

  /** The thirteen prefixes the GNT files use. */
  const PartPrefixes: set<string> :=
    {"A-", "C-", "D-", "I-", "N-", "P-", "RA", "RD", "RI", "RP", "RR", "V-", "X-"}

  /** The label of position `k` of `code`: empty for a code too short to
      have it or a character its table lacks. */
  function Field(code: string, k: nat): string
    requires k < 8
  {
    if k < |code| then Label(PositionTable(k), code[k]) else ""
  }

  /** What `getMorphology` computes. */
  function DecodeMorphology(part: string, code: string): Result<GntMorphology> {
    match PartName(part)
    case Err(e) => Err(e)
    case Ok(name) =>
      Ok(GntMorphology(name, Field(code, 0), Field(code, 1), Field(code, 2), Field(code, 3),
                       Field(code, 4), Field(code, 5), Field(code, 6), Field(code, 7)))
  }

  /** `getMorphology`: one pass over the characters of the code, each
      position assigning its own variable; positions from 8 on fall
      through the switch. */
  method GetMorphology(part: string, code: string) returns (r: Result<GntMorphology>)
    ensures r == DecodeMorphology(part, code)
  {
    var person, tense, voice, mood, caseLabel, number, gender, degree := "", "", "", "", "", "", "", "";
    var i := 0;
    while i < |code|
      invariant 0 <= i <= |code|
      invariant person == Field(code[..i], 0) && tense == Field(code[..i], 1)
      invariant voice == Field(code[..i], 2) && mood == Field(code[..i], 3)
      invariant caseLabel == Field(code[..i], 4) && number == Field(code[..i], 5)
      invariant gender == Field(code[..i], 6) && degree == Field(code[..i], 7)
    {
      FieldStep(code, i);
      var value := code[i];
      if i == 0 {
        person := Label(PersonLookup, value);
      } else if i == 1 {
        tense := Label(TenseLookup, value);
      } else if i == 2 {
        voice := Label(VoiceLookup, value);
      } else if i == 3 {
        mood := Label(MoodLookup, value);
      } else if i == 4 {
        caseLabel := Label(CaseLookup, value);
      } else if i == 5 {
        number := Label(NumberLookup, value);
      } else if i == 6 {
        gender := Label(GenderLookup, value);
      } else if i == 7 {
        degree := Label(DegreeLookup, value);
      }
      i := i + 1;
    }
    assert code[..i] == code;
    var name := PartName(part);
    if name.Err? {
      return Err(name.error);
    }
    r := Ok(GntMorphology(name.value, person, tense, voice, mood, caseLabel, number, gender, degree));
  }

  /** Reading one more character changes only the field of its own
      position. */
  lemma FieldStep(code: string, i: nat)
    requires i < |code|
    ensures forall k | 0 <= k < 8 ::
      Field(code[..i + 1], k) == if k == i then Label(PositionTable(k), code[i]) else Field(code[..i], k)
  {
  }

  // ---------------------------------------------------------------------
  // Identity of a word

  /** `createAbsoluteID`: the verse number followed by the undecorated
      place of the word in the verse, parsed as a 32-bit integer; a
      failure ends the run. */
  function CreateAbsoluteId(verse: string, id: int): Result<int> {
    ParseInt(verse + Itoa(id), 32)
  }

  /** The book number of a verse key. A failed parse is ignored in the
      Go code and leaves Go's zero value (two characters cannot overflow
      32 bits). */
  function BookNumber(key: string): int
    requires |key| >= 2
  {
    match ParseInt(key[..2], 32)
    case Ok(n) => n
    case Err(_) => 0
  }

  /** The verse string of a key: the book number moved past the 39 Old
      Testament books, then the chapter and verse digits as written. */
  function VerseText(key: string): string
    requires |key| >= 6
  {
    Itoa(BookNumber(key) + 39) + key[2..4] + key[4..6]
  }

  /** What one line yields once its place in the verse is known. The
      fatal conditions come in the order Go meets them: the key, the
      identity, the morphology call, then the remaining fields. */
  function DecodeLine(parts: seq<string>, id: int): Result<GntWord> {
    if |parts| == 0 || |parts[0]| < 6 then Err(IndexOutOfRange)
    else
      var verse := VerseText(parts[0]);
      match CreateAbsoluteId(verse, id)
      case Err(e) => Err(e)
      case Ok(uniqueId) =>
        if |parts| < 3 then Err(IndexOutOfRange)
        else
          match DecodeMorphology(parts[1], parts[2])
          case Err(e) => Err(e)
          case Ok(m) =>
            if |parts| < 7 then Err(IndexOutOfRange)
            else Ok(GntWord(verse, uniqueId, parts[2], m, parts[3], parts[4], parts[5], parts[6]))
  }

  /** The verse key of every line; an empty line fails before its key is
      read, so its entry is never used. */
  function Keys(lines: seq<seq<string>>): (keys: seq<string>)
    ensures |keys| == |lines|
  {
    seq(|lines|, j requires 0 <= j < |lines| => if |lines[j]| > 0 then lines[j][0] else "")
  }

  /** The place of line `j` in its verse as the counter of
      `ParseFileContent` has it: one on a change of key, one more than
      the line before otherwise. The counter starts at Go's zero value
      against an empty previous key. */
  function WordId(keys: seq<string>, j: nat): nat
    requires j < |keys|
    decreases j
  {
    if j == 0 then (if keys[0] != "" then 1 else 0)
    else if keys[j] != keys[j - 1] then 1
    else WordId(keys, j - 1) + 1
  }

  function LineDecoder(keys: seq<string>): (nat, seq<string>) -> Result<GntWord> {
    (j: nat, parts: seq<string>) => DecodeLine(parts, if j < |keys| then WordId(keys, j) else 0)
  }

  /** What `ParseFileContent` computes for the lines of a file. */
  function DecodeFile(lines: seq<seq<string>>): Result<seq<GntWord>> {
    Collect(LineDecoder(Keys(lines)), lines)
  }

  /** The counter state before line `j`: the key of the line before and
      one more than its place. */
  ghost predicate CounterAt(keys: seq<string>, j: nat, originalVerse: string, id: int) {
    j <= |keys| &&
    if j == 0 then originalVerse == "" && id == 0
    else originalVerse == keys[j - 1] && id == WordId(keys, j - 1) + 1
  }

  /** `ParseFileContent` after the file has been read and split into
      lines of space-separated fields. */
  method ParseFileContent(lines: seq<seq<string>>) returns (r: Result<seq<GntWord>>)
    ensures r == DecodeFile(lines)
  {
    var keys := Keys(lines);
    r := ParseLines(lines, keys, LineDecoder(keys));
  }

  /** `keys` holds the first field of every line that has one. */
  ghost predicate KeysOf(keys: seq<string>, lines: seq<seq<string>>) {
    |keys| == |lines| && forall j | 0 <= j < |lines| && |lines[j]| > 0 :: keys[j] == lines[j][0]
  }

  /** `f` decodes line `j` with the place the counter gives it. */
  ghost predicate DecodesLines(f: (nat, seq<string>) -> Result<GntWord>, keys: seq<string>) {
    forall j: nat, parts: seq<string> {:trigger LineAt(keys, j, parts)} :: f(j, parts) == LineAt(keys, j, parts)
  }

  /** Line `j` of the file, decoded with the place the counter gives it. */
  ghost function LineAt(keys: seq<string>, j: nat, parts: seq<string>): Result<GntWord> {
    DecodeLine(parts, if j < |keys| then WordId(keys, j) else 0)
  }

  /** The state of the loop of `ParseFileContent` before line `j`: the
      counter is set for it and the lines before it have been decoded
      into `words`. */
  ghost predicate LinesDone(lines: seq<seq<string>>, keys: seq<string>, f: (nat, seq<string>) -> Result<GntWord>,
                            j: nat, originalVerse: string, id: int, words: seq<GntWord>) {
    KeysOf(keys, lines) && DecodesLines(f, keys) && j <= |lines| &&
    CounterAt(keys, j, originalVerse, id) && Collect(f, lines[..j]) == Ok(words)
  }

  /** The loop of `ParseFileContent`. */
  method ParseLines(lines: seq<seq<string>>, ghost keys: seq<string>, ghost f: (nat, seq<string>) -> Result<GntWord>)
    returns (r: Result<seq<GntWord>>)
    requires KeysOf(keys, lines) && DecodesLines(f, keys)
    ensures r == Collect(f, lines)
  {
    var words: seq<GntWord> := [];
    var id: int := 0;
    var originalVerse := "";
    var j := 0;
    while j < |lines|
      invariant LinesDone(lines, keys, f, j, originalVerse, id, words)
      decreases |lines| - j
    {
      var w;
      w, originalVerse, id := ParseNextLine(lines, keys, f, j, originalVerse, id, words);
      if w.Err? {
        return Err(w.error);
      }
      words := words + [w.value];
      id := id + 1;
      j := j + 1;
    }
    assert lines[..j] == lines;
    r := Ok(words);
  }

  /** One pass of the loop of `ParseFileContent`, with the progress it
      makes: the line's word and the counter it was numbered with, or the
      failure of the whole file. */
  method ParseNextLine(lines: seq<seq<string>>, ghost keys: seq<string>, ghost f: (nat, seq<string>) -> Result<GntWord>,
                       j: nat, originalVerse: string, id: int, ghost words: seq<GntWord>)
    returns (w: Result<GntWord>, originalVerse': string, id': int)
    requires j < |lines| && LinesDone(lines, keys, f, j, originalVerse, id, words)
    ensures w.Err? ==> Collect(f, lines) == Err(w.error)
    ensures w.Ok? ==> LinesDone(lines, keys, f, j + 1, originalVerse', id' + 1, words + [w.value])
    ensures w.Ok? ==> originalVerse' == keys[j] && id' == WordId(keys, j)
  {
    var parts := lines[j];
    assert lines[..j + 1] == lines[..j] + [parts];
    assert f(j, parts) == LineAt(keys, j, parts);
    CollectSnoc(f, lines[..j], parts, words);
    if |parts| == 0 {
      CollectErrWithin(f, lines[..j + 1], lines);
      return Err(IndexOutOfRange), originalVerse, id;
    }
    originalVerse', id' := NextCounter(keys, j, originalVerse, id, parts[0]);
    w := ParseLine(parts, id');
    if w.Err? {
      CollectErrWithin(f, lines[..j + 1], lines);
    }
  }

  /** The test at the top of the loop of `ParseFileContent`: a new key
      restarts the count at one. */
  method NextCounter(ghost keys: seq<string>, ghost j: nat, originalVerse: string, id: int, key: string)
    returns (originalVerse': string, id': int)
    requires j < |keys| && keys[j] == key && CounterAt(keys, j, originalVerse, id)
    ensures originalVerse' == key && id' == WordId(keys, j)
  {
    originalVerse', id' := originalVerse, id;
    if originalVerse != key {
      originalVerse' := key;
      id' := 1;
    }
  }

  /** The body of the loop of `ParseFileContent` once the counter is
      set. */
  method ParseLine(parts: seq<string>, id: int) returns (r: Result<GntWord>)
    ensures r == DecodeLine(parts, id)
  {
    if |parts| == 0 || |parts[0]| < 6 {
      return Err(IndexOutOfRange);
    }
    var originalVerse := parts[0];
    var verse := VerseText(originalVerse);
    var uniqueId := CreateAbsoluteId(verse, id);
    if uniqueId.Err? {
      return Err(uniqueId.error);
    }
    if |parts| < 3 {
      return Err(IndexOutOfRange);
    }
    var m := GetMorphology(parts[1], parts[2]);
    if m.Err? {
      return Err(m.error);
    }
    if |parts| < 7 {
      return Err(IndexOutOfRange);
    }
    r := Ok(GntWord(verse, uniqueId.value, parts[2], m.value, parts[3], parts[4], parts[5], parts[6]));
  }

  // ---------------------------------------------------------------------
  // Properties

  /** `getPartName` succeeds on exactly the thirteen listed prefixes and
      reports any other prefix. */
  lemma PartNameDomain(part: string)
    ensures PartName(part).Ok? <==> part in PartPrefixes
    ensures PartName(part).Err? ==> PartName(part).error == InvalidPart(part)
  {
  }

  /** A few of the thirteen labels. */
  lemma PartNameLabels()
    ensures PartName("N-") == Ok("noun")
    ensures PartName("RA") == Ok("definite article")
    ensures PartName("V-") == Ok("verb")
    ensures PartName("--") == Err(InvalidPart("--"))
  {
  }

  /** The code itself never makes `getMorphology` fail: only the part of
      speech can. */
  lemma DecodeMorphologyFails(part: string, code: string)
    ensures DecodeMorphology(part, code).Ok? <==> part in PartPrefixes
  {
    PartNameDomain(part);
  }

  /** Position `k` of the code is read in the `k`-th table, and a
      position the code does not reach, or a character missing from the
      table, reads as the empty label. */
  lemma DecodeMorphologyFields(part: string, code: string, m: GntMorphology)
    requires DecodeMorphology(part, code) == Ok(m)
    ensures PartName(part) == Ok(m.part)
    ensures m.person == (if 0 < |code| && code[0] in PersonLookup then PersonLookup[code[0]] else "")
    ensures m.tense == (if 1 < |code| && code[1] in TenseLookup then TenseLookup[code[1]] else "")
    ensures m.voice == (if 2 < |code| && code[2] in VoiceLookup then VoiceLookup[code[2]] else "")
    ensures m.mood == (if 3 < |code| && code[3] in MoodLookup then MoodLookup[code[3]] else "")
    ensures m.caseLabel == (if 4 < |code| && code[4] in CaseLookup then CaseLookup[code[4]] else "")
    ensures m.number == (if 5 < |code| && code[5] in NumberLookup then NumberLookup[code[5]] else "")
    ensures m.gender == (if 6 < |code| && code[6] in GenderLookup then GenderLookup[code[6]] else "")
    ensures m.degree == (if 7 < |code| && code[7] in DegreeLookup then DegreeLookup[code[7]] else "")
  {
    var name := PartName(part);
    assert name.Ok?;
    assert m == GntMorphology(name.value, Field(code, 0), Field(code, 1), Field(code, 2), Field(code, 3),
                              Field(code, 4), Field(code, 5), Field(code, 6), Field(code, 7));
  }

  /** Characters after the eighth are ignored. */
  lemma DecodeMorphologyPrefix(part: string, code: string, rest: string)
    requires |code| >= 8
    ensures DecodeMorphology(part, code + rest) == DecodeMorphology(part, code)
  {
    assert forall k | 0 <= k < 8 :: (code + rest)[k] == code[k];
  }

  /** The dash that fills unused positions is in no table. */
  lemma DashReadsEmpty(code: string, k: nat)
    requires k < |code| && k < 8 && code[k] == '-'
    ensures Field(code, k) == ""
  {
  }

  /** `"3AAI"` is third person, aorist, active, indicative; the case,
      number, gender and degree positions are absent. */
  lemma DecodeThirdAoristActiveIndicative()
    ensures DecodeMorphology("V-", "3AAI") ==
      Ok(GntMorphology("verb", "third", "aorist", "active", "indicative", "", "", "", ""))
  {
    var code := "3AAI";
    assert code[0] == '3' && code[1] == 'A' && code[2] == 'A' && code[3] == 'I';
    assert Field(code, 0) == "third";
    assert Field(code, 1) == "aorist";
    assert Field(code, 2) == "active";
    assert Field(code, 3) == "indicative";
  }

  /** The identity is the verse number shifted by the digits of the
      place, and it is fatal exactly when that does not fit 32 bits. */
  lemma AbsoluteIdValue(verse: string, id: nat)
    requires AllDigits(verse) && |verse| >= 1
    ensures var v := Value(verse) * Pow10(|Digits(id)|) + id;
            CreateAbsoluteId(verse, id) == if v < Pow2(31) then Ok(v) else Err(ParseFailure(verse + Itoa(id)))
  {
    ValueConcat(verse, Digits(id));
    ValueDigits(id);
    ParseDigits(verse + Digits(id), 32);
  }

  /** Identities of verses of the same width that start with a digit
      other than zero tell both the verse and the place apart, although
      the place is not padded. */
  lemma AbsoluteIdInjective(v1: string, id1: nat, v2: string, id2: nat)
    requires |v1| == |v2| >= 1 && IsDigit(v1[0]) && IsDigit(v2[0]) && v1[0] != '0' && v2[0] != '0'
    requires CreateAbsoluteId(v1, id1).Ok? && CreateAbsoluteId(v1, id1) == CreateAbsoluteId(v2, id2)
    ensures v1 == v2 && id1 == id2
  {
    var d1, d2 := Digits(id1), Digits(id2);
    var s1, s2 := v1 + d1, v2 + d2;
    assert s1[0] == v1[0] && s2[0] == v2[0];
    ParsedDigits(s1, 32);
    ParsedDigits(s2, 32);
    LeadingValueInjective(s1, s2);
    assert v1 == s1[..|v1|] && v2 == s2[..|v2|];
    assert d1 == s1[|v1|..] && d2 == s2[|v2|..];
    ValueDigits(id1);
    ValueDigits(id2);
  }

  /** Within one verse, distinct places give distinct identities. */
  lemma AbsoluteIdDistinct(verse: string, id1: nat, id2: nat)
    requires |verse| >= 1 && IsDigit(verse[0]) && verse[0] != '0'
    requires CreateAbsoluteId(verse, id1).Ok? && CreateAbsoluteId(verse, id2).Ok? && id1 != id2
    ensures CreateAbsoluteId(verse, id1) != CreateAbsoluteId(verse, id2)
  {
    if CreateAbsoluteId(verse, id1) == CreateAbsoluteId(verse, id2) {
      AbsoluteIdInjective(verse, id1, verse, id2);
    }
  }

  /** A key of six digits gives the verse number of its book moved past
      the 39 books, followed by its chapter and verse digits. */
  lemma VerseValue(key: string)
    requires |key| >= 6 && AllDigits(key[..6])
    ensures AllDigits(VerseText(key))
    ensures Value(VerseText(key)) == (Value(key[..2]) + 39) * 10000 + Value(key[2..6])
  {
    var a, b, c := key[..2], key[2..4], key[4..6];
    assert forall i | 0 <= i < 2 :: a[i] == key[..6][i] && b[i] == key[..6][i + 2] && c[i] == key[..6][i + 4];
    BookNumberValue(key);
    assert key[2..6] == b + c;
    ShiftFour(Digits(Value(a) + 39), b, c);
    ValueDigits(Value(a) + 39);
  }

  /** Two further pairs of digits shift a number by four places. */
  lemma ShiftFour(d: string, b: string, c: string)
    requires AllDigits(d) && AllDigits(b) && AllDigits(c) && |b| == 2 && |c| == 2
    ensures AllDigits(d + b + c) && Value(d + b + c) == Value(d) * 10000 + Value(b + c)
  {
    ValueConcat(d, b);
    ValueConcat(d + b, c);
    ValueConcat(b, c);
    assert Pow10(2) == 100;
  }

  /** The book digits of a key read as their value. */
  lemma BookNumberValue(key: string)
    requires |key| >= 2 && AllDigits(key[..2])
    ensures BookNumber(key) == Value(key[..2])
  {
    ValueBound(key[..2]);
    TwoDigitsFit();
    ParseDigits(key[..2], 32);
  }

  /** A verse string always starts with a digit other than zero: the
      book number is at least 39 less nine. */
  lemma VerseLeads(key: string)
    requires |key| >= 6
    ensures |VerseText(key)| >= 5 && IsDigit(VerseText(key)[0]) && VerseText(key)[0] != '0'
  {
    var n := BookNumber(key);
    assert n >= -9 by {
      if ParseInt(key[..2], 32).Ok? {
        SignedTwoChars(key[..2]);
      }
    }
    var d := Digits(n + 39);
    assert |d| >= 2;
    assert VerseText(key)[0] == d[0];
  }

  /** Two characters parse to at least -9. */
  lemma SignedTwoChars(s: string)
    requires |s| == 2 && ParseInt(s, 32).Ok?
    ensures ParseInt(s, 32).value >= -9
  {
    if s[0] == '-' {
      assert s[1..] == [s[1]];
      assert Value(s[1..]) == DigitValue(s[1]);
    }
  }

  /** The counter is the length of the run of equal keys that ends at
      line `j`: the lines of the run share the key, and the line before
      the run has another. */
  lemma {:induction false} WordIdRun(keys: seq<string>, j: nat)
    requires j < |keys| && keys[0] != ""
    ensures 1 <= WordId(keys, j) <= j + 1
    ensures forall i | j + 1 - WordId(keys, j) <= i <= j :: keys[i] == keys[j]
    ensures WordId(keys, j) <= j ==> keys[j - WordId(keys, j)] != keys[j]
    decreases j
  {
    if j > 0 && keys[j] == keys[j - 1] {
      WordIdRun(keys, j - 1);
    }
  }

  /** The counter is one exactly on the first line and where the key
      changes. */
  lemma WordIdReset(keys: seq<string>, j: nat)
    requires j < |keys| && keys[0] != ""
    ensures WordId(keys, j) == 1 <==> (j == 0 || keys[j] != keys[j - 1])
  {
    if j > 0 && keys[j] == keys[j - 1] {
      WordIdRun(keys, j - 1);
    }
  }

  /** Along lines with one key the counter goes up by one per line. */
  lemma {:induction false} WordIdAdvance(keys: seq<string>, j1: nat, j2: nat)
    requires j1 <= j2 < |keys|
    requires forall i | j1 <= i <= j2 :: keys[i] == keys[j1]
    ensures WordId(keys, j2) == WordId(keys, j1) + (j2 - j1)
    decreases j2
  {
    if j1 < j2 {
      WordIdAdvance(keys, j1, j2 - 1);
      assert keys[j2] == keys[j2 - 1];
    }
  }

  /** Each word of a decoded file comes from its own line: the verse of
      its key, the identity of its place, the morphology of its prefix and
      code, and the word forms as written. */
  lemma DecodeFileWord(lines: seq<seq<string>>, j: nat)
    requires DecodeFile(lines).Ok? && j < |lines|
    ensures DecodeLine(lines[j], WordId(Keys(lines), j)) == Ok(DecodeFile(lines).value[j])
    ensures var w := DecodeFile(lines).value[j];
            var parts := lines[j];
            |parts| >= 7 && |parts[0]| >= 6 &&
            w.verse == VerseText(parts[0]) && CreateAbsoluteId(w.verse, WordId(Keys(lines), j)) == Ok(w.id) &&
            w.codes == parts[2] && DecodeMorphology(parts[1], parts[2]) == Ok(w.morphology) &&
            w.text == parts[3] && w.word == parts[4] && w.normalized == parts[5] && w.lemmaText == parts[6]
  {
    CollectOk(LineDecoder(Keys(lines)), lines);
  }

  /** A first line whose key is empty meets the counter at Go's zero
      value, and fails on the key before that value is used. */
  lemma EmptyFirstKeyFails(lines: seq<seq<string>>)
    requires |lines| > 0 && Keys(lines)[0] == ""
    ensures DecodeFile(lines) == Err(IndexOutOfRange)
  {
    var keys := Keys(lines);
    var f := LineDecoder(keys);
    assert |lines[0]| == 0 || lines[0][0] == "";
    assert DecodeLine(lines[0], WordId(keys, 0)) == Err(IndexOutOfRange);
    assert f(0, lines[0]) == Err(IndexOutOfRange);
    CollectErr(f, lines);
    CollectFirstError(f, lines);
    var k :| 0 <= k < |lines| && f(k, lines[k]) == Err(DecodeFile(lines).error) &&
             forall j :: 0 <= j < k ==> f(j, lines[j]).Ok?;
    if k > 0 {
      assert false;
    }
  }

  /** Words of one run of equal keys have distinct identities. */
  lemma RunIdsDistinct(lines: seq<seq<string>>, j1: nat, j2: nat)
    requires DecodeFile(lines).Ok? && j1 < j2 < |lines|
    requires forall i | j1 <= i <= j2 :: Keys(lines)[i] == Keys(lines)[j1]
    ensures DecodeFile(lines).value[j1].id != DecodeFile(lines).value[j2].id
  {
    var keys := Keys(lines);
    DecodeFileWord(lines, j1);
    DecodeFileWord(lines, j2);
    WordIdAdvance(keys, j1, j2);
    var verse := VerseText(lines[j1][0]);
    assert VerseText(lines[j2][0]) == verse;
    VerseLeads(lines[j1][0]);
    AbsoluteIdDistinct(verse, WordId(keys, j1), WordId(keys, j2));
  }

  /** Every New Testament book has a number from 1 to 27. */
  lemma BookOrderBounds()
    ensures forall k | k in BookOrder :: 1 <= BookOrder[k] <= 27
  {
  }

  /** The books are numbered without repetition. */
  lemma BookOrderDistinct()
    ensures Distinct(BookOrder)
  {
    forall a, b | a in BookOrder && b in BookOrder && BookOrder[a] == BookOrder[b]
      ensures a == b
    {
      BookOrderInjective(a, b);
    }
  }

  /** No two books share a number. */
  lemma BookOrderInjective(a: string, b: string)
    requires a in BookOrder && b in BookOrder && BookOrder[a] == BookOrder[b]
    ensures a == b
  {
    BookAtOrder(a);
    BookAtOrder(b);
  }

  /** The book with each number, in canonical order. */
  function BookAt(n: nat): string {
    if n == 1 then "Matthew" else if n == 2 then "Mark" else if n == 3 then "Luke"
    else if n == 4 then "John" else if n == 5 then "Acts" else if n == 6 then "Romans"
    else if n == 7 then "1 Corinthians" else if n == 8 then "2 Corinthians"
    else if n == 9 then "Galatians" else if n == 10 then "Ephesians"
    else if n == 11 then "Philippians" else if n == 12 then "Colossians"
    else if n == 13 then "1 Thessalonians" else if n == 14 then "2 Thessalonians"
    else if n == 15 then "1 Timothy" else if n == 16 then "2 Timothy"
    else if n == 17 then "Titus" else if n == 18 then "Philemon"
    else if n == 19 then "Hebrews" else if n == 20 then "James"
    else if n == 21 then "1 Peter" else if n == 22 then "2 Peter"
    else if n == 23 then "1 John" else if n == 24 then "2 John"
    else if n == 25 then "3 John" else if n == 26 then "Jude" else "Revelation"
  }

  /** Reading a book's number back gives the book; one lemma per group
      of books keeps each proof small. */
  lemma BookAtOrder(k: string)
    requires k in BookOrder
    ensures BookAt(BookOrder[k]) == k
  {
    if k == "Matthew" || k == "Mark" || k == "Luke" || k == "John" || k == "Acts" {
      BookAtOrder0(k);
    } else if k == "Romans" || k == "1 Corinthians" || k == "2 Corinthians" || k == "Galatians" || k == "Ephesians" {
      BookAtOrder1(k);
    } else if k == "Philippians" || k == "Colossians" || k == "1 Thessalonians" || k == "2 Thessalonians" || k == "1 Timothy" {
      BookAtOrder2(k);
    } else if k == "2 Timothy" || k == "Titus" || k == "Philemon" || k == "Hebrews" || k == "James" {
      BookAtOrder3(k);
    } else if k == "1 Peter" || k == "2 Peter" || k == "1 John" || k == "2 John" || k == "3 John" {
      BookAtOrder4(k);
    } else {
      BookAtOrder5(k);
    }
  }

  lemma BookAtOrder0(k: string)
    requires k in BookOrder && (k == "Matthew" || k == "Mark" || k == "Luke" || k == "John" || k == "Acts")
    ensures BookAt(BookOrder[k]) == k
  {
  }

  lemma BookAtOrder1(k: string)
    requires k in BookOrder && (k == "Romans" || k == "1 Corinthians" || k == "2 Corinthians" || k == "Galatians" || k == "Ephesians")
    ensures BookAt(BookOrder[k]) == k
  {
  }

  lemma BookAtOrder2(k: string)
    requires k in BookOrder && (k == "Philippians" || k == "Colossians" || k == "1 Thessalonians" || k == "2 Thessalonians" || k == "1 Timothy")
    ensures BookAt(BookOrder[k]) == k
  {
  }

  lemma BookAtOrder3(k: string)
    requires k in BookOrder && (k == "2 Timothy" || k == "Titus" || k == "Philemon" || k == "Hebrews" || k == "James")
    ensures BookAt(BookOrder[k]) == k
  {
  }

  lemma BookAtOrder4(k: string)
    requires k in BookOrder && (k == "1 Peter" || k == "2 Peter" || k == "1 John" || k == "2 John" || k == "3 John")
    ensures BookAt(BookOrder[k]) == k
  {
  }

  lemma BookAtOrder5(k: string)
    requires k in BookOrder && (k == "Jude" || k == "Revelation")
    ensures BookAt(BookOrder[k]) == k
  {
  }
}
