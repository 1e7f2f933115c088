/** The Hebrew/Aramaic (WLC) tree-walking decoder of parsewlc.go.

    A code such as `HVqp3ms` or `HR/Ncfsa` starts with one language
    letter; the rest splits on `/` into sub-entries. Each sub-entry starts
    with a part-of-speech letter that selects a decision tree; every
    further character is looked up in the table of the current node,
    stored under the node's category name, and moves the walk on to the
    next node. */
module Wlc {
  import opened Outcome
  import opened Strings
  import opened WlcTables
  import opened Numerals

  /** One decoded sub-entry: category name to label. */
  type Entry = map<string, string>

  /** What `parseMorphology` returns: the language and one entry per
      sub-entry. */
  datatype Morphology = Morphology(language: string, entries: seq<Entry>)

  /** The node after `n` once it has consumed `c`. */
  function Advance(n: Node, c: char): Option<Node> {
    if Decides(n.decider, c) then n.next else n.alternate
  }

  /** What a node stores for `c`: nothing at the `-` placeholder. */
  function Store(m: Entry, n: Node, c: char): Entry {
    if n.name != "-" then m[n.name := Label(Lookup(n.lookup), c)] else m
  }

  /** The inner loop of `parseMorphology` over the characters of one
      sub-entry. A character that arrives when the walk has run off the
      tree dereferences a nil node. */
  function Walk(tree: Option<Node>, chars: string, m: Entry): Result<Entry>
    decreases |chars|
  {
    if |chars| == 0 then Ok(m)
    else if tree.None? then Err(NilDereference)
    else Walk(Advance(tree.value, chars[0]), chars[1..], Store(m, tree.value, chars[0]))
  }

  /** The `"Part"` value of a sub-entry: the root's `TopName`, or its
      `Name` when that is empty. */
  function PartLabel(root: Node): string {
    if |root.topName| == 0 then root.name else root.topName
  }

  function LanguageName(languageCode: char): string {
    if languageCode == 'H' then "Hebrew"
    else if languageCode == 'A' then "Aramaic"
    else ""
  }

  /** The key of the tree for a part-of-speech letter: verbs are keyed by
      `V` and the language letter of the whole code. */
  function TreeKey(languageCode: char, partOfSpeech: char): string {
    if partOfSpeech == 'V' then ['V', languageCode] else [partOfSpeech]
  }

  /** One sub-entry: an empty one fails at `part[0]`, a missing tree at
      the nil root. */
  function DecodeEntry(languageCode: char, part: string): Result<Entry> {
    if |part| == 0 then Err(IndexOutOfRange)
    else
      var key := TreeKey(languageCode, part[0]);
      var tree := Tree(key);
      if tree.None? then Err(MissingTree(key))
      else Walk(tree, part[1..], map["Part" := PartLabel(tree.value)])
  }

  function EntryDecoder(languageCode: char): (nat, string) -> Result<Entry> {
    (k: nat, part: string) => DecodeEntry(languageCode, part)
  }

  /** What `parseMorphology` computes for a whole code. */
  function DecodeMorphology(code: string): Result<Morphology> {
    if |code| == 0 then Err(IndexOutOfRange)
    else
      match Collect(EntryDecoder(code[0]), Split(code[1..], '/'))
      case Err(e) => Err(e)
      case Ok(entries) => Ok(Morphology(LanguageName(code[0]), entries))
  }

  /** The inner loop of `parseMorphology`: walks the tree from `root`
      over the characters after the part-of-speech letter. */
  method WalkEntry(root: Node, letters: string, m0: Entry) returns (r: Result<Entry>)
    ensures r == Walk(Some(root), letters, m0)
  {
    var m := m0;
    var tree: Option<Node> := Some(root);
    var j := 0;
    while j < |letters|
      invariant 0 <= j <= |letters|
      invariant Walk(Some(root), letters, m0) == Walk(tree, letters[j..], m)
    {
      assert letters[j..][1..] == letters[j + 1..];
      if tree.None? {
        return Err(NilDereference);
      }
      var node := tree.value;
      var letter := letters[j];
      if node.name != "-" {
        m := m[node.name := Label(Lookup(node.lookup), letter)];
      }
      if Decides(node.decider, letter) {
        tree := node.next;
      } else {
        tree := node.alternate;
      }
      j := j + 1;
    }
    return Ok(m);
  }

  /** One pass of the outer loop of `parseMorphology`. */
  method ParseEntry(languageCode: char, part: string) returns (e: Result<Entry>)
    ensures e == DecodeEntry(languageCode, part)
  {
    if |part| == 0 {
      return Err(IndexOutOfRange);
    }
    var key := TreeKey(languageCode, part[0]);
    var tree := Tree(key);
    if tree.None? {
      return Err(MissingTree(key));
    }
    var root := tree.value;
    e := WalkEntry(root, part[1..], map["Part" := PartLabel(root)]);
  }

  /** `parseMorphology`: strips the language letter, splits the rest on
      `/`, and walks the tree of each sub-entry character by character.
      It has one entry per `/`-separated segment. */
  method ParseMorphology(code: string) returns (r: Result<Morphology>)
    ensures r == DecodeMorphology(code)
    ensures r.Ok? ==> |code| > 0 && |r.value.entries| == Count(code[1..], '/') + 1
  {
    if |code| == 0 {
      return Err(IndexOutOfRange);
    }
    var languageCode := code[0];
    var morph := code[1..];
    var language := LanguageName(languageCode);
    var parts := Split(morph, '/');
    SplitCount(morph, '/');
    var entries := ParseEntries(languageCode, parts, EntryDecoder(languageCode));
    if entries.Err? {
      return Err(entries.error);
    }
    r := Ok(Morphology(language, entries.value));
  }

  /** Sub-entry `k`, which its place does not affect. */
  ghost function EntryAt(languageCode: char, k: nat, part: string): Result<Entry> {
    DecodeEntry(languageCode, part)
  }

  /** The outer loop of `parseMorphology`, over the `/`-separated
      sub-entries; `f` is `EntryDecoder(languageCode)`. */
  method ParseEntries(languageCode: char, parts: seq<string>, ghost f: (nat, string) -> Result<Entry>)
    returns (r: Result<seq<Entry>>)
    requires forall k: nat, part: string {:trigger EntryAt(languageCode, k, part)} :: f(k, part) == EntryAt(languageCode, k, part)
    ensures r == Collect(f, parts)
  {
    var entries: seq<Entry> := [];
    var i := 0;
    while i < |parts|
      invariant 0 <= i <= |parts|
      invariant Collect(f, parts[..i]) == Ok(entries)
    {
      var part := parts[i];
      assert parts[..i + 1] == parts[..i] + [part];
      CollectSnoc(f, parts[..i], part, entries);
      assert f(i, part) == EntryAt(languageCode, i, part);
      var e := ParseEntry(languageCode, part);
      if e.Err? {
        CollectErrWithin(f, parts[..i + 1], parts);
        return Err(e.error);
      }
      entries := entries + [e.value];
      i := i + 1;
    }
    assert parts[..i] == parts;
    r := Ok(entries);
  }

  // ---------------------------------------------------------------------
  // The tree as a list of categories

  /** One position of a code: the category name stored and the table its
      letter is looked up in. */
  datatype Category = Category(name: string, table: Table)

  const GenderNumberState: seq<Category> := [
    Category("Gender", GenderTable),
    Category("Number", NumberTable),
    Category("State", StateTable)]

  const PersonGenderNumber: seq<Category> := [
    Category("Person", PersonTable),
    Category("Gender", GenderTable),
    Category("Number", NumberTable)]

  /** The categories that the letters after the part-of-speech letter fill,
      position by position, for the tree under `key`. Pronouns take
      person, gender and number after type `x`, and a placeholder then
      gender, number and state otherwise; verbs take only gender, number
      and state after a participle, active (`r`) or passive (`s`), and
      person, gender, number and state after any other conjugation. */
  function Schema(key: string, letters: string): seq<Category> {
    if key == "C" then [Category("conjunction", NoTable)]
    else if key == "D" then [Category("adverb", NoTable)]
    else if key == "A" then [Category("Type", AdjectiveTable)] + GenderNumberState
    else if key == "N" then [Category("Type", NounTable)] + GenderNumberState
    else if key == "P" then
      [Category("Type", PronounTable)] +
      (if |letters| >= 1 && letters[0] == 'x' then PersonGenderNumber
       else [Category("-", NotUsedTable)] + GenderNumberState)
    else if key == "R" then [Category("preposition", PrepositionTable)]
    else if key == "S" then [Category("Type", SuffixTable)] + PersonGenderNumber
    else if key == "T" then [Category("Type", ParticleTable)]
    else if key == "VH" || key == "VA" then
      [Category("Stem", if key == "VH" then HebrewStemTable else AramaicVerbTable),
       Category("Conjugation", ConjugationTable)] +
      (if |letters| >= 2 && letters[1] != 'r' && letters[1] != 's'
       then [Category("Person", PersonTable)] + GenderNumberState
       else GenderNumberState)
    else []
  }

  /** Stores each letter under the category at its position, skipping the
      placeholder `-`. */
  function Apply(m: Entry, cats: seq<Category>, letters: string): Entry
    decreases |letters|
  {
    if |letters| == 0 || |cats| == 0 then m
    else
      var c := cats[0];
      Apply(if c.name != "-" then m[c.name := Label(Lookup(c.table), letters[0])] else m,
            cats[1..], letters[1..])
  }

  /** `tree` visits the categories `cats` in order while it consumes
      `letters`, and ends (a nil `Next`) right after the last category. */
  ghost predicate Follows(tree: Option<Node>, cats: seq<Category>, letters: string)
    decreases |cats|
  {
    if |cats| == 0 then tree.None?
    else
      tree.Some? && tree.value.name == cats[0].name && tree.value.lookup == cats[0].table &&
      (|letters| == 0 || Follows(Advance(tree.value, letters[0]), cats[1..], letters[1..]))
  }

  /** Walking a tree that follows a list of categories is applying that
      list, as long as the code is no longer than the list; one letter
      more runs off the tree. */
  lemma {:induction false} WalkFollows(tree: Option<Node>, cats: seq<Category>, letters: string, m: Entry)
    requires Follows(tree, cats, letters)
    ensures Walk(tree, letters, m) ==
      if |letters| <= |cats| then Ok(Apply(m, cats, letters)) else Err(NilDereference)
    decreases |letters|
  {
    if |letters| > 0 && |cats| > 0 {
      var n := tree.value;
      WalkFollows(Advance(n, letters[0]), cats[1..], letters[1..], Store(m, n, letters[0]));
    }
  }

  lemma GenderNumberStateFollows(letters: string)
    ensures Follows(Some(GnsBranch), GenderNumberState, letters)
  {
    var cats := GenderNumberState;
    if |letters| > 0 {
      var l1 := letters[1..];
      assert cats[1..][1..][1..] == [];
      if |l1| > 0 {
        assert Follows(Some(Step(StateTable, "State", None)), cats[1..][1..], l1[1..]);
      }
    }
  }

  lemma PersonGenderNumberFollows(letters: string)
    ensures Follows(Some(PgnBranch), PersonGenderNumber, letters)
  {
    var cats := PersonGenderNumber;
    if |letters| > 0 {
      var l1 := letters[1..];
      assert cats[1..][1..][1..] == [];
      if |l1| > 0 {
        assert Follows(Some(Step(NumberTable, "Number", None)), cats[1..][1..], l1[1..]);
      }
    }
  }

  /** A chain root whose `Next` follows `rest` follows `c` and then
      `rest`. */
  lemma RootFollows(root: Node, c: Category, rest: seq<Category>, letters: string)
    requires root.name == c.name && root.lookup == c.table
    requires |letters| > 0 ==> Follows(Advance(root, letters[0]), rest, letters[1..])
    ensures Follows(Some(root), [c] + rest, letters)
  {
    assert ([c] + rest)[1..] == rest;
  }

  /** Every tree of the table visits the categories of its schema. */
  lemma TreeFollowsSchema(key: string, letters: string)
    requires Tree(key).Some?
    ensures Follows(Some(Tree(key).value), Schema(key, letters), letters)
  {
    if key == "C" || key == "D" || key == "R" || key == "T" {
      LeafFollows(key, letters);
    } else if key == "A" || key == "N" || key == "S" {
      ChainFollows(key, letters);
    } else if key == "P" {
      assert Tree(key).value == PronounTree;
      PronounFollows(letters);
    } else if key == "VH" {
      assert Tree(key).value == VerbTree(HebrewStemTable, "verb");
      VerbFollows(HebrewStemTable, "verb", letters);
    } else {
      assert key == "VA";
      assert Tree(key).value == VerbTree(AramaicVerbTable, "Verb");
      VerbFollows(AramaicVerbTable, "Verb", letters);
    }
  }

  /** The one-node trees. */
  lemma LeafFollows(key: string, letters: string)
    requires key == "C" || key == "D" || key == "R" || key == "T"
    ensures Tree(key).Some? && Follows(Some(Tree(key).value), Schema(key, letters), letters)
  {
  }

  /** The trees with a type letter followed by a fixed branch. */
  lemma ChainFollows(key: string, letters: string)
    requires key == "A" || key == "N" || key == "S"
    ensures Tree(key).Some? && Follows(Some(Tree(key).value), Schema(key, letters), letters)
  {
    if |letters| > 0 {
      GenderNumberStateFollows(letters[1..]);
      PersonGenderNumberFollows(letters[1..]);
    }
    if key == "A" {
      RootFollows(Tree(key).value, Category("Type", AdjectiveTable), GenderNumberState, letters);
    } else if key == "N" {
      RootFollows(Tree(key).value, Category("Type", NounTable), GenderNumberState, letters);
    } else {
      RootFollows(Tree(key).value, Category("Type", SuffixTable), PersonGenderNumber, letters);
    }
  }

  lemma PronounFollows(letters: string)
    ensures Follows(Some(PronounTree), Schema("P", letters), letters)
  {
    var typeCat := Category("Type", PronounTable);
    if |letters| > 0 {
      var l1 := letters[1..];
      if letters[0] == 'x' {
        PersonGenderNumberFollows(l1);
        RootFollows(PronounTree, typeCat, PersonGenderNumber, letters);
      } else {
        var alt := PronounTree.alternate.value;
        var placeholder := Category("-", NotUsedTable);
        if |l1| > 0 {
          GenderNumberStateFollows(l1[1..]);
        }
        RootFollows(alt, placeholder, GenderNumberState, l1);
        RootFollows(PronounTree, typeCat, [placeholder] + GenderNumberState, letters);
      }
    }
  }

  lemma VerbFollows(stems: Table, topName: string, letters: string)
    ensures Follows(Some(VerbTree(stems, topName)), Schema(if topName == "verb" then "VH" else "VA", letters), letters)
    requires (topName == "verb" && stems == HebrewStemTable) || (topName == "Verb" && stems == AramaicVerbTable)
  {
    var key := if topName == "verb" then "VH" else "VA";
    var root := VerbTree(stems, topName);
    var stem := Category("Stem", stems);
    var conjugation := Category("Conjugation", ConjugationTable);
    var personal := |letters| >= 2 && letters[1] != 'r' && letters[1] != 's';
    var tail := if personal then [Category("Person", PersonTable)] + GenderNumberState
                else GenderNumberState;
    assert Schema(key, letters) == [stem] + ([conjugation] + tail);
    if |letters| > 0 {
      var l1 := letters[1..];
      var conj := root.next.value;
      if |l1| > 0 {
        var l2 := l1[1..];
        if personal {
          var person := conj.next.value;
          if |l2| > 0 {
            GenderNumberStateFollows(l2[1..]);
          }
          RootFollows(person, Category("Person", PersonTable), GenderNumberState, l2);
        } else {
          GenderNumberStateFollows(l2);
        }
      }
      RootFollows(conj, conjugation, tail, l1);
    }
    RootFollows(root, stem, [conjugation] + tail, letters);
  }

  // ---------------------------------------------------------------------
  // What a decoded entry holds

  /** The category names that the letters of a code fill. */
  function Visited(cats: seq<Category>, letters: string): set<string>
    decreases |letters|
  {
    if |letters| == 0 || |cats| == 0 then {}
    else (if cats[0].name != "-" then {cats[0].name} else {}) + Visited(cats[1..], letters[1..])
  }

  /** No two categories share a name. */
  predicate DistinctNames(cats: seq<Category>) {
    forall i, j :: 0 <= i < j < |cats| ==> cats[i].name != cats[j].name
  }

  /** A name that no filled position carries is not visited. */
  lemma {:induction false} NotVisited(cats: seq<Category>, letters: string, x: string)
    requires forall i :: 0 <= i < |letters| && i < |cats| ==> cats[i].name != x
    ensures x !in Visited(cats, letters)
    decreases |letters|
  {
    if |letters| > 0 && |cats| > 0 {
      assert forall i :: 0 <= i < |letters[1..]| && i < |cats[1..]| ==> cats[1..][i] == cats[i + 1];
      NotVisited(cats[1..], letters[1..], x);
    }
  }

  /** Applying adds exactly the visited names. */
  lemma {:induction false} ApplyKeys(m: Entry, cats: seq<Category>, letters: string)
    ensures Apply(m, cats, letters).Keys == m.Keys + Visited(cats, letters)
    decreases |letters|
  {
    if |letters| > 0 && |cats| > 0 {
      var c := cats[0];
      ApplyKeys(if c.name != "-" then m[c.name := Label(Lookup(c.table), letters[0])] else m, cats[1..], letters[1..]);
    }
  }

  /** A key that no letter fills keeps its value. */
  lemma {:induction false} ApplyKeeps(m: Entry, cats: seq<Category>, letters: string, k: string)
    requires k in m && k !in Visited(cats, letters)
    ensures k in Apply(m, cats, letters) && Apply(m, cats, letters)[k] == m[k]
    decreases |letters|
  {
    if |letters| > 0 && |cats| > 0 {
      var c := cats[0];
      ApplyKeeps(if c.name != "-" then m[c.name := Label(Lookup(c.table), letters[0])] else m, cats[1..], letters[1..], k);
    }
  }

  /** With distinct names, each filled category holds the label of its
      letter. */
  lemma {:induction false} ApplyLabel(m: Entry, cats: seq<Category>, letters: string, i: nat)
    requires i < |letters| && i < |cats| && cats[i].name != "-" && DistinctNames(cats)
    ensures cats[i].name in Apply(m, cats, letters)
    ensures Apply(m, cats, letters)[cats[i].name] == Label(Lookup(cats[i].table), letters[i])
    decreases i
  {
    var c := cats[0];
    var m' := if c.name != "-" then m[c.name := Label(Lookup(c.table), letters[0])] else m;
    if i == 0 {
      assert forall j :: 0 <= j < |cats[1..]| ==> cats[1..][j] == cats[j + 1];
      NotVisited(cats[1..], letters[1..], c.name);
      ApplyKeeps(m', cats[1..], letters[1..], c.name);
    } else {
      assert cats[1..][i - 1] == cats[i] && letters[1..][i - 1] == letters[i];
      ApplyLabel(m', cats[1..], letters[1..], i - 1);
    }
  }

  /** No schema repeats a category name, and none uses `"Part"`, the key
      that holds the part of speech. */
  lemma SchemaNames(key: string, letters: string)
    ensures DistinctNames(Schema(key, letters))
    ensures forall i :: 0 <= i < |Schema(key, letters)| ==> Schema(key, letters)[i].name != "Part"
    ensures forall i :: 0 <= i < |Schema(key, letters)| ==> Schema(key, letters)[i].name in CategoryNames
  {
    if key == "VH" || key == "VA" {
      VerbSchemaNames(key, letters);
    } else if key == "P" {
      PronounSchemaNames(letters);
    } else if key == "A" || key == "N" || key == "S" {
      NominalSchemaNames(key, letters);
    }
  }

  lemma NominalSchemaNames(key: string, letters: string)
    requires key == "A" || key == "N" || key == "S"
    ensures DistinctNames(Schema(key, letters))
    ensures forall i :: 0 <= i < |Schema(key, letters)| ==> Schema(key, letters)[i].name != "Part"
    ensures forall i :: 0 <= i < |Schema(key, letters)| ==> Schema(key, letters)[i].name in CategoryNames
  {
    var cats := Schema(key, letters);
    var g, n, st := Category("Gender", GenderTable), Category("Number", NumberTable), Category("State", StateTable);
    var p := Category("Person", PersonTable);
    if key == "A" {
      assert cats == [Category("Type", AdjectiveTable), g, n, st];
    } else if key == "N" {
      assert cats == [Category("Type", NounTable), g, n, st];
    } else {
      assert cats == [Category("Type", SuffixTable), p, g, n];
    }
  }

  lemma PronounSchemaNames(letters: string)
    ensures DistinctNames(Schema("P", letters))
    ensures forall i :: 0 <= i < |Schema("P", letters)| ==> Schema("P", letters)[i].name != "Part"
    ensures forall i :: 0 <= i < |Schema("P", letters)| ==> Schema("P", letters)[i].name in CategoryNames
  {
    var cats := Schema("P", letters);
    var g, n, st := Category("Gender", GenderTable), Category("Number", NumberTable), Category("State", StateTable);
    var p := Category("Person", PersonTable);
    if |letters| >= 1 && letters[0] == 'x' {
      assert cats == [Category("Type", PronounTable), p, g, n];
    } else {
      assert cats == [Category("Type", PronounTable), Category("-", NotUsedTable), g, n, st];
    }
  }

  lemma VerbSchemaNames(key: string, letters: string)
    requires key == "VH" || key == "VA"
    ensures DistinctNames(Schema(key, letters))
    ensures forall i :: 0 <= i < |Schema(key, letters)| ==> Schema(key, letters)[i].name != "Part"
    ensures forall i :: 0 <= i < |Schema(key, letters)| ==> Schema(key, letters)[i].name in CategoryNames
  {
    var cats := Schema(key, letters);
    var g, n, st := Category("Gender", GenderTable), Category("Number", NumberTable), Category("State", StateTable);
    var p := Category("Person", PersonTable);
    var stem := Category("Stem", if key == "VH" then HebrewStemTable else AramaicVerbTable);
    var conj := Category("Conjugation", ConjugationTable);
    if |letters| >= 2 && letters[1] != 'r' && letters[1] != 's' {
      assert cats == [stem, conj, p, g, n, st];
    } else {
      assert cats == [stem, conj, g, n, st];
    }
  }

  /** What walking a tree that follows `cats` gives: an entry with
      `"Part"` and every filled category, or the nil dereference when the
      code is longer than the tree. */
  lemma RootMeaning(root: Node, cats: seq<Category>, letters: string)
    requires Follows(Some(root), cats, letters) && DistinctNames(cats)
    requires forall i :: 0 <= i < |cats| ==> cats[i].name != "Part"
    ensures var r := Walk(Some(root), letters, map["Part" := PartLabel(root)]);
            (r.Ok? <==> |letters| <= |cats|) &&
            (r.Err? ==> r.error == NilDereference) &&
            (r.Ok? ==>
               r.value.Keys == {"Part"} + Visited(cats, letters) &&
               r.value["Part"] == PartLabel(root) &&
               forall i :: 0 <= i < |letters| && cats[i].name != "-" ==>
                 cats[i].name in r.value && r.value[cats[i].name] == Label(Lookup(cats[i].table), letters[i]))
  {
    var m0 := map["Part" := PartLabel(root)];
    WalkFollows(Some(root), cats, letters, m0);
    if |letters| <= |cats| {
      ApplyMeaning(PartLabel(root), cats, letters);
    }
  }

  /** Filling `cats` from `letters` into an entry that holds only
      `"Part"`. */
  lemma ApplyMeaning(part: string, cats: seq<Category>, letters: string)
    requires DistinctNames(cats) && |letters| <= |cats|
    requires forall i :: 0 <= i < |cats| ==> cats[i].name != "Part"
    ensures var e := Apply(map["Part" := part], cats, letters);
            e.Keys == {"Part"} + Visited(cats, letters) && e["Part"] == part &&
            forall i :: 0 <= i < |letters| && cats[i].name != "-" ==>
              cats[i].name in e && e[cats[i].name] == Label(Lookup(cats[i].table), letters[i])
  {
    var m0 := map["Part" := part];
    assert m0.Keys == {"Part"};
    ApplyKeys(m0, cats, letters);
    NotVisited(cats, letters, "Part");
    ApplyKeeps(m0, cats, letters, "Part");
    ApplyLabels(m0, cats, letters);
  }

  /** Every filled category holds the label of its letter. */
  lemma ApplyLabels(m: Entry, cats: seq<Category>, letters: string)
    requires DistinctNames(cats) && |letters| <= |cats|
    ensures forall i :: 0 <= i < |letters| && cats[i].name != "-" ==>
              cats[i].name in Apply(m, cats, letters) &&
              Apply(m, cats, letters)[cats[i].name] == Label(Lookup(cats[i].table), letters[i])
  {
    forall i | 0 <= i < |letters| && cats[i].name != "-"
      ensures cats[i].name in Apply(m, cats, letters)
      ensures Apply(m, cats, letters)[cats[i].name] == Label(Lookup(cats[i].table), letters[i])
    {
      ApplyLabel(m, cats, letters, i);
    }
  }

  /** A sub-entry that starts with a known part of speech decodes exactly
      when it has no more letters than its schema has categories; the
      entry then holds `"Part"` and each filled category, with the label of
      its letter. One letter too many is the nil dereference. */
  lemma DecodeEntryMeaning(languageCode: char, part: string)
    requires |part| > 0 && Tree(TreeKey(languageCode, part[0])).Some?
    ensures var key := TreeKey(languageCode, part[0]);
            var cats := Schema(key, part[1..]);
            var r := DecodeEntry(languageCode, part);
            (r.Ok? <==> |part| - 1 <= |cats|) &&
            (r.Err? ==> r.error == NilDereference) &&
            (r.Ok? ==>
               r.value.Keys == {"Part"} + Visited(cats, part[1..]) &&
               r.value["Part"] == PartLabel(Tree(key).value) &&
               forall i :: 0 <= i < |part| - 1 && cats[i].name != "-" ==>
                 cats[i].name in r.value && r.value[cats[i].name] == Label(Lookup(cats[i].table), part[i + 1]))
  {
    var key := TreeKey(languageCode, part[0]);
    var letters := part[1..];
    TreeFollowsSchema(key, letters);
    SchemaNames(key, letters);
    RootMeaning(Tree(key).value, Schema(key, letters), letters);
  }

  /** A sub-entry the decoder accepts: a part-of-speech letter with a tree,
      and no more letters than that tree has categories. */
  predicate WellFormedEntry(languageCode: char, part: string) {
    |part| > 0 && Tree(TreeKey(languageCode, part[0])).Some? &&
    |part| - 1 <= |Schema(TreeKey(languageCode, part[0]), part[1..])|
  }

  /** A sub-entry decodes exactly when it is well formed. */
  lemma DecodeEntrySucceeds(languageCode: char, part: string)
    ensures DecodeEntry(languageCode, part).Ok? <==> WellFormedEntry(languageCode, part)
  {
    if |part| > 0 && Tree(TreeKey(languageCode, part[0])).Some? {
      DecodeEntryMeaning(languageCode, part);
    }
  }

  /** A code decodes exactly when it has a language letter and every
      sub-entry is well formed. */
  lemma DecodeMorphologySucceeds(code: string)
    ensures DecodeMorphology(code).Ok? <==>
      |code| > 0 && forall k :: 0 <= k < |Split(code[1..], '/')| ==> WellFormedEntry(code[0], Split(code[1..], '/')[k])
  {
    if |code| > 0 {
      var parts := Split(code[1..], '/');
      var f := EntryDecoder(code[0]);
      assert DecodeMorphology(code).Ok? <==> Collect(f, parts).Ok?;
      CollectErr(f, parts);
      forall k | 0 <= k < |parts|
        ensures f(k, parts[k]).Ok? <==> WellFormedEntry(code[0], parts[k])
      {
        DecodeEntrySucceeds(code[0], parts[k]);
      }
      if Collect(f, parts).Err? {
        var k :| 0 <= k < |parts| && f(k, parts[k]).Err?;
        assert !WellFormedEntry(code[0], parts[k]);
        assert !DecodeMorphology(code).Ok?;
        assert Split(code[1..], '/')[k] == parts[k];
      } else {
        assert forall k :: 0 <= k < |parts| ==> f(k, parts[k]).Ok?;
      }
    }
  }

  /** The language letter names the language: `H` Hebrew, `A` Aramaic,
      anything else none. */
  lemma MorphologyLanguage(code: string)
    requires DecodeMorphology(code).Ok?
    ensures DecodeMorphology(code).value.language ==
      if code[0] == 'H' then "Hebrew" else if code[0] == 'A' then "Aramaic" else ""
  {
  }

  /** A verb sub-entry takes the tree of `V` and the language letter of
      the whole code, any other sub-entry the tree of its own letter; a
      missing tree is fatal, and a sub-entry that decodes holds the
      root's part-of-speech label under `"Part"`. */
  lemma EntryTree(languageCode: char, part: string)
    requires |part| > 0
    ensures var key := if part[0] == 'V' then "V" + [languageCode] else [part[0]];
            (Tree(key).None? ==> DecodeEntry(languageCode, part) == Err(MissingTree(key))) &&
            (DecodeEntry(languageCode, part).Ok? ==>
               Tree(key).Some? && "Part" in DecodeEntry(languageCode, part).value &&
               DecodeEntry(languageCode, part).value["Part"] == PartLabel(Tree(key).value))
  {
    var key := TreeKey(languageCode, part[0]);
    assert key == if part[0] == 'V' then "V" + [languageCode] else [part[0]];
    if Tree(key).Some? {
      DecodeEntryMeaning(languageCode, part);
    }
  }

  /** The tree table holds exactly one root per part of speech, with
      verbs split by language. */
  lemma TreeDomain(key: string)
    ensures Tree(key).Some? <==> key in TreeKeys
  {
  }

  /** The `"Part"` of every tree is its part-of-speech name as the
      part-of-speech table spells it, except that Aramaic verbs are
      labelled `"Verb"`. */
  lemma PartLabels(key: string)
    requires key in TreeKeys
    ensures Tree(key).Some? && |key| >= 1 && key[0] in PartOfSpeechLookup
    ensures PartLabel(Tree(key).value) == if key == "VA" then "Verb" else PartOfSpeechLookup[key[0]]
  {
    if key == "C" {
    } else if key == "D" {
    } else if key == "A" {
    } else if key == "N" {
    } else if key == "P" {
    } else if key == "R" {
    } else if key == "S" {
    } else if key == "T" {
    } else if key == "VH" {
    } else {
    }
  }

  /** `HVqp3ms`: a Hebrew qal perfect, third person masculine singular. */
  lemma DecodeQalPerfect()
    ensures DecodeMorphology("HVqp3ms") == Ok(Morphology("Hebrew", [map[
      "Part" := "verb", "Stem" := "qal", "Conjugation" := "perfect (qatal)",
      "Person" := "third", "Gender" := "masculine", "Number" := "singular"]]))
  {
    var code := "HVqp3ms";
    assert code[0] == 'H' && code[1..] == "Vqp3ms";
    DecodeQalPerfectEntry();
    SingleEntry(code);
  }

  /** A code without `/` has the one entry of its sub-entry. */
  lemma SingleEntry(code: string)
    requires |code| > 0 && '/' !in code[1..] && DecodeEntry(code[0], code[1..]).Ok?
    ensures DecodeMorphology(code) == Ok(Morphology(LanguageName(code[0]), [DecodeEntry(code[0], code[1..]).value]))
  {
    var part := code[1..];
    var f := EntryDecoder(code[0]);
    var e := DecodeEntry(code[0], part).value;
    SplitWithout(part, '/');
    assert f(0, part) == Ok(e);
    CollectSnoc(f, [], part, []);
    assert [] + [part] == [part] && [] + [e] == [e];
    assert Collect(f, Split(part, '/')) == Ok([e]);
  }

  lemma DecodeQalPerfectEntry()
    ensures DecodeEntry('H', "Vqp3ms") == Ok(map[
      "Part" := "verb", "Stem" := "qal", "Conjugation" := "perfect (qatal)",
      "Person" := "third", "Gender" := "masculine", "Number" := "singular"])
  {
    assert "Vqp3ms"[0] == 'V' && "Vqp3ms"[1..] == "qp3ms";
    assert Tree("VH") == Some(VerbTree(HebrewStemTable, "verb"));
    WalkQalPerfect();
  }

  /** One step of a walk at a node that stores its letter. */
  lemma WalkStore(n: Node, c: char, rest: string, m: Entry, v: string)
    requires n.name != "-" && Label(Lookup(n.lookup), c) == v
    ensures Walk(Some(n), [c] + rest, m) == Walk(Advance(n, c), rest, m[n.name := v])
  {
    assert ([c] + rest)[0] == c && ([c] + rest)[1..] == rest;
  }
  lemma WalkNumberSingular(m: Entry)
    ensures Walk(Some(GnsBranch.next.value), "s", m) == Ok(m["Number" := "singular"])
  {
    WalkStore(GnsBranch.next.value, 's', "", m, "singular");
    assert "s" == ['s'] + "";
  }
  lemma WalkGenderMasculine(m: Entry)
    ensures Walk(Some(GnsBranch), "ms", m) == Ok(m["Gender" := "masculine"]["Number" := "singular"])
  {
    WalkStore(GnsBranch, 'm', "s", m, "masculine");
    assert "ms" == ['m'] + "s";
    WalkNumberSingular(m["Gender" := "masculine"]);
  }
  lemma WalkPersonThird(m: Entry)
    ensures Walk(Some(VerbTree(HebrewStemTable, "verb").next.value.next.value), "3ms", m) ==
      Ok(m["Person" := "third"]["Gender" := "masculine"]["Number" := "singular"])
  {
    var person := VerbTree(HebrewStemTable, "verb").next.value.next.value;
    WalkStore(person, '3', "ms", m, "third");
    assert "3ms" == ['3'] + "ms";
    WalkGenderMasculine(m["Person" := "third"]);
  }
  lemma WalkPerfect(m: Entry)
    ensures Walk(Some(VerbTree(HebrewStemTable, "verb").next.value), "p3ms", m) ==
      Ok(m["Conjugation" := "perfect (qatal)"]["Person" := "third"]["Gender" := "masculine"]["Number" := "singular"])
  {
    var conj := VerbTree(HebrewStemTable, "verb").next.value;
    LabelPerfect();
    AdvancePerfect();
    WalkStore(conj, 'p', "3ms", m, "perfect (qatal)");
    assert "p3ms" == ['p'] + "3ms";
    WalkPersonThird(m["Conjugation" := "perfect (qatal)"]);
  }
  lemma LabelPerfect()
    ensures Label(Lookup(ConjugationTable), 'p') == "perfect (qatal)"
  {
  }
  lemma AdvancePerfect()
    ensures Advance(VerbTree(HebrewStemTable, "verb").next.value, 'p') == VerbTree(HebrewStemTable, "verb").next.value.next
  {
  }
  lemma LabelQal()
    ensures Label(Lookup(HebrewStemTable), 'q') == "qal"
  {
  }
  lemma WalkQalPerfect()
    ensures Walk(Some(VerbTree(HebrewStemTable, "verb")), "qp3ms", map["Part" := "verb"]) == Ok(map[
      "Part" := "verb", "Stem" := "qal", "Conjugation" := "perfect (qatal)",
      "Person" := "third", "Gender" := "masculine", "Number" := "singular"])
  {
    var root := VerbTree(HebrewStemTable, "verb");
    LabelQal();
    WalkStore(root, 'q', "p3ms", map["Part" := "verb"], "qal");
    assert "qp3ms" == ['q'] + "p3ms";
    WalkPerfect(map["Part" := "verb", "Stem" := "qal"]);
  }

  // ---------------------------------------------------------------------
  // The flattened morphology string

  /** `order` lists the keys of `m`, each once: an order in which Go's
      `range` may visit the map. */
  predicate IsOrder(order: seq<string>, m: Entry) {
    (forall i, j :: 0 <= i < j < |order| ==> order[i] != order[j]) &&
    (forall i :: 0 <= i < |order| ==> order[i] in m) &&
    (forall k :: k in m ==> k in order)
  }

  /** The `key=value` texts of `m` in the given key order. */
  function Pairs(m: Entry, order: seq<string>): (r: seq<string>)
    requires forall i :: 0 <= i < |order| ==> order[i] in m
    ensures |r| == |order|
  {
    seq(|order|, i requires 0 <= i < |order| => order[i] + "=" + m[order[i]])
  }

  /** One entry rendered: its pairs joined by `,`. */
  function Segment(m: Entry, order: seq<string>): string
    requires forall i :: 0 <= i < |order| ==> order[i] in m
  {
    Join(Pairs(m, order), ',')
  }

  predicate OrdersFor(orders: seq<seq<string>>, ms: seq<Entry>) {
    |orders| == |ms| && forall i :: 0 <= i < |ms| ==> IsOrder(orders[i], ms[i])
  }

  function Segments(ms: seq<Entry>, orders: seq<seq<string>>): (r: seq<string>)
    requires OrdersFor(orders, ms)
    ensures |r| == |ms|
  {
    seq(|ms|, i requires 0 <= i < |ms| => Segment(ms[i], orders[i]))
  }

  /** `MorphologyString`: the segments of all entries joined by `|`. */
  function Flatten(ms: seq<Entry>, orders: seq<seq<string>>): string
    requires OrdersFor(orders, ms)
  {
    Join(Segments(ms, orders), '|')
  }

  /** The two loops of `Parse` that render the morphology; the key order
      within each entry is whatever map iteration yields. */
  method FlattenMorphology(ms: seq<Entry>) returns (s: string, ghost orders: seq<seq<string>>)
    ensures OrdersFor(orders, ms) && s == Flatten(ms, orders)
  {
    var outer: seq<string> := [];
    orders := [];
    var i := 0;
    while i < |ms|
      invariant 0 <= i <= |ms|
      invariant OrdersFor(orders, ms[..i])
      invariant outer == Segments(ms[..i], orders)
    {
      var m := ms[i];
      var inner: seq<string> := [];
      ghost var order: seq<string> := [];
      var keys := m.Keys;
      while keys != {}
        invariant forall a, b :: 0 <= a < b < |order| ==> order[a] != order[b]
        invariant forall a :: 0 <= a < |order| ==> order[a] in m && order[a] !in keys
        invariant keys <= m.Keys
        invariant forall k :: k in m ==> k in keys || k in order
        invariant inner == Pairs(m, order)
        decreases |keys|
      {
        var k :| k in keys;
        inner := inner + [k + "=" + m[k]];
        order := order + [k];
        keys := keys - {k};
      }
      outer := outer + [Join(inner, ',')];
      orders := orders + [order];
      i := i + 1;
      assert ms[..i] == ms[..i - 1] + [m];
    }
    assert ms[..i] == ms;
    s := Join(outer, '|');
  }

  /** Text with neither separator of the rendering. */
  predicate Plain(t: string) {
    '|' !in t && ',' !in t
  }

  /** Entries whose keys and values are plain. */
  predicate PlainEntries(ms: seq<Entry>) {
    forall i, k :: 0 <= i < |ms| && k in ms[i] ==> Plain(k) && Plain(ms[i][k])
  }

  /** The pairs of an entry, as a set, do not depend on the key order. */
  lemma PairsContents(m: Entry, order: seq<string>)
    requires IsOrder(order, m)
    ensures (set i | 0 <= i < |Pairs(m, order)| :: Pairs(m, order)[i]) == set k | k in m :: k + "=" + m[k]
  {
    var ps := Pairs(m, order);
    var listed := set i | 0 <= i < |ps| :: ps[i];
    var rendered := set k | k in m :: k + "=" + m[k];
    forall x | x in listed ensures x in rendered {
      var i :| 0 <= i < |ps| && ps[i] == x;
      assert order[i] in m;
    }
    forall k | k in m ensures k + "=" + m[k] in listed {
      var i :| 0 <= i < |order| && order[i] == k;
      assert ps[i] == k + "=" + m[k];
    }
    assert listed == rendered;
  }

  /** With plain keys and values, splitting the rendering on `|` gives one
      segment per entry, and splitting a segment on `,` gives its pairs. */
  lemma FlattenSplits(ms: seq<Entry>, orders: seq<seq<string>>)
    requires OrdersFor(orders, ms) && |ms| >= 1 && PlainEntries(ms)
    requires forall i :: 0 <= i < |ms| ==> |ms[i]| >= 1
    ensures Split(Flatten(ms, orders), '|') == Segments(ms, orders)
    ensures forall i :: 0 <= i < |ms| ==> Split(Segments(ms, orders)[i], ',') == Pairs(ms[i], orders[i])
  {
    var segs := Segments(ms, orders);
    forall i | 0 <= i < |ms|
      ensures '|' !in segs[i]
      ensures Split(segs[i], ',') == Pairs(ms[i], orders[i])
    {
      var ps := Pairs(ms[i], orders[i]);
      assert |orders[i]| >= 1 by {
        var k :| k in ms[i];
      }
      forall j | 0 <= j < |ps| ensures Plain(ps[j]) {
        PlainPair(orders[i][j], ms[i][orders[i][j]]);
      }
      JoinPlain(ps, ',', '|');
      SplitJoin(ps, ',');
    }
    SplitJoin(segs, '|');
  }

  lemma PlainPair(k: string, v: string)
    requires Plain(k) && Plain(v)
    ensures Plain(k + "=" + v)
  {
    assert forall c :: c in k + "=" + v ==> c in k || c == '=' || c in v;
  }

  /** Joining texts with a separator other than `c` adds no `c`. */
  lemma {:induction false} JoinPlain(xs: seq<string>, sep: char, c: char)
    requires c != sep && forall i :: 0 <= i < |xs| ==> c !in xs[i]
    ensures c !in Join(xs, sep)
    decreases |xs|
  {
    if |xs| > 1 {
      JoinPlain(xs[1..], sep, c);
      assert forall d :: d in xs[0] + [sep] + Join(xs[1..], sep) ==> d in xs[0] || d == sep || d in Join(xs[1..], sep);
    }
  }

  predicate PlainTable(m: map<char, string>) {
    forall c :: c in m ==> Plain(m[c])
  }

  /** No label in any lookup table contains a separator. */
  lemma TablesPlain(t: Table, c: char)
    ensures Plain(Label(Lookup(t), c))
  {
    match t
    case NoTable =>
    case AdjectiveTable => AdjectivePlain();
    case NounTable => NounPlain();
    case PronounTable => PronounPlain();
    case PrepositionTable => PrepositionPlain();
    case SuffixTable => SuffixPlain();
    case ParticleTable => ParticlePlain();
    case PersonTable => HebrewPersonPlain();
    case GenderTable => HebrewGenderPlain();
    case NumberTable => HebrewNumberPlain();
    case StateTable => StatePlain();
    case NotUsedTable => NotUsedPlain();
    case HebrewStemTable => HebrewStemPlain();
    case AramaicVerbTable => AramaicVerbPlain();
    case ConjugationTable => ConjugationPlain();
  }

  // One lemma per table keeps each proof small.
  lemma AdjectivePlain() ensures PlainTable(AdjectiveLookup) {}
  lemma NounPlain() ensures PlainTable(NounLookup) {}
  lemma PronounPlain() ensures PlainTable(PronounLookup) {}
  lemma PrepositionPlain() ensures PlainTable(PrepositionLookup) {}
  lemma SuffixPlain() ensures PlainTable(SuffixLookup) {}
  lemma HebrewPersonPlain() ensures PlainTable(HebrewPersonLookup) {}
  lemma HebrewGenderPlain() ensures PlainTable(HebrewGenderLookup) {}
  lemma HebrewNumberPlain() ensures PlainTable(HebrewNumberLookup) {}
  lemma StatePlain() ensures PlainTable(StateLookup) {}
  lemma NotUsedPlain() ensures PlainTable(NotUsedLookup) {}

  // One lemma per group of keys keeps each proof small.
  lemma ParticlePlain() ensures PlainTable(ParticleLookup) {
    forall c | c in ParticleLookup ensures Plain(ParticleLookup[c]) {
      if c in "adei" {
        ParticlePlain0(c);
      } else if c in "jmno" {
        ParticlePlain1(c);
      } else {
        ParticlePlain2(c);
      }
    }
  }
  lemma ParticlePlain0(c: char)
    requires c in ParticleLookup && c in "adei"
    ensures Plain(ParticleLookup[c])
  {
  }
  lemma ParticlePlain1(c: char)
    requires c in ParticleLookup && c in "jmno"
    ensures Plain(ParticleLookup[c])
  {
  }
  lemma ParticlePlain2(c: char)
    requires c in ParticleLookup && c !in "adeijmno"
    ensures Plain(ParticleLookup[c])
  {
  }
  lemma HebrewStemPlain() ensures PlainTable(HebrewStemLookup) {
    forall c | c in HebrewStemLookup ensures Plain(HebrewStemLookup[c]) {
      if c in "qNpP" {
        HebrewStemPlain0(c);
      } else if c in "hHto" {
        HebrewStemPlain1(c);
      } else if c in "OrmM" {
        HebrewStemPlain2(c);
      } else if c in "kKQl" {
        HebrewStemPlain3(c);
      } else if c in "LfDj" {
        HebrewStemPlain4(c);
      } else if c in "iucv" {
        HebrewStemPlain5(c);
      } else {
        HebrewStemPlain6(c);
      }
    }
  }
  lemma HebrewStemPlain0(c: char)
    requires c in HebrewStemLookup && c in "qNpP"
    ensures Plain(HebrewStemLookup[c])
  {
  }
  lemma HebrewStemPlain1(c: char)
    requires c in HebrewStemLookup && c in "hHto"
    ensures Plain(HebrewStemLookup[c])
  {
  }
  lemma HebrewStemPlain2(c: char)
    requires c in HebrewStemLookup && c in "OrmM"
    ensures Plain(HebrewStemLookup[c])
  {
  }
  lemma HebrewStemPlain3(c: char)
    requires c in HebrewStemLookup && c in "kKQl"
    ensures Plain(HebrewStemLookup[c])
  {
  }
  lemma HebrewStemPlain4(c: char)
    requires c in HebrewStemLookup && c in "LfDj"
    ensures Plain(HebrewStemLookup[c])
  {
  }
  lemma HebrewStemPlain5(c: char)
    requires c in HebrewStemLookup && c in "iucv"
    ensures Plain(HebrewStemLookup[c])
  {
  }
  lemma HebrewStemPlain6(c: char)
    requires c in HebrewStemLookup && c !in "qNpPhHtoOrmMkKQlLfDjiucv"
    ensures Plain(HebrewStemLookup[c])
  {
  }
  lemma AramaicVerbPlain() ensures PlainTable(AramaicVerbLookup) {
    forall c | c in AramaicVerbLookup ensures Plain(AramaicVerbLookup[c]) {
      if c in "qQup" {
        AramaicVerbPlain0(c);
      } else if c in "PMah" {
        AramaicVerbPlain1(c);
      } else if c in "seHi" {
        AramaicVerbPlain2(c);
      } else if c in "tvwo" {
        AramaicVerbPlain3(c);
      } else if c in "zrfb" {
        AramaicVerbPlain4(c);
      } else if c in "cmlL" {
        AramaicVerbPlain5(c);
      } else {
        AramaicVerbPlain6(c);
      }
    }
  }
  lemma AramaicVerbPlain0(c: char)
    requires c in AramaicVerbLookup && c in "qQup"
    ensures Plain(AramaicVerbLookup[c])
  {
  }
  lemma AramaicVerbPlain1(c: char)
    requires c in AramaicVerbLookup && c in "PMah"
    ensures Plain(AramaicVerbLookup[c])
  {
  }
  lemma AramaicVerbPlain2(c: char)
    requires c in AramaicVerbLookup && c in "seHi"
    ensures Plain(AramaicVerbLookup[c])
  {
  }
  lemma AramaicVerbPlain3(c: char)
    requires c in AramaicVerbLookup && c in "tvwo"
    ensures Plain(AramaicVerbLookup[c])
  {
  }
  lemma AramaicVerbPlain4(c: char)
    requires c in AramaicVerbLookup && c in "zrfb"
    ensures Plain(AramaicVerbLookup[c])
  {
  }
  lemma AramaicVerbPlain5(c: char)
    requires c in AramaicVerbLookup && c in "cmlL"
    ensures Plain(AramaicVerbLookup[c])
  {
  }
  lemma AramaicVerbPlain6(c: char)
    requires c in AramaicVerbLookup && c !in "qQupPMahseHitvwozrfbcmlL"
    ensures Plain(AramaicVerbLookup[c])
  {
  }
  lemma ConjugationPlain() ensures PlainTable(VerbConjugationTypesLookup) {
    forall c | c in VerbConjugationTypesLookup ensures Plain(VerbConjugationTypesLookup[c]) {
      if c in "p" {
        ConjugationPlain0(c);
      } else if c in "q" {
        ConjugationPlain1(c);
      } else if c in "i" {
        ConjugationPlain2(c);
      } else if c in "w" {
        ConjugationPlain3(c);
      } else if c in "h" {
        ConjugationPlain4(c);
      } else if c in "j" {
        ConjugationPlain5(c);
      } else if c in "v" {
        ConjugationPlain6(c);
      } else if c in "r" {
        ConjugationPlain7(c);
      } else if c in "s" {
        ConjugationPlain8(c);
      } else if c in "a" {
        ConjugationPlain9(c);
      } else {
        ConjugationPlain10(c);
      }
    }
  }
  lemma ConjugationPlain0(c: char)
    requires c in VerbConjugationTypesLookup && c in "p"
    ensures Plain(VerbConjugationTypesLookup[c])
  {
  }
  lemma ConjugationPlain1(c: char)
    requires c in VerbConjugationTypesLookup && c in "q"
    ensures Plain(VerbConjugationTypesLookup[c])
  {
  }
  lemma ConjugationPlain2(c: char)
    requires c in VerbConjugationTypesLookup && c in "i"
    ensures Plain(VerbConjugationTypesLookup[c])
  {
  }
  lemma ConjugationPlain3(c: char)
    requires c in VerbConjugationTypesLookup && c in "w"
    ensures Plain(VerbConjugationTypesLookup[c])
  {
  }
  lemma ConjugationPlain4(c: char)
    requires c in VerbConjugationTypesLookup && c in "h"
    ensures Plain(VerbConjugationTypesLookup[c])
  {
  }
  lemma ConjugationPlain5(c: char)
    requires c in VerbConjugationTypesLookup && c in "j"
    ensures Plain(VerbConjugationTypesLookup[c])
  {
  }
  lemma ConjugationPlain6(c: char)
    requires c in VerbConjugationTypesLookup && c in "v"
    ensures Plain(VerbConjugationTypesLookup[c])
  {
  }
  lemma ConjugationPlain7(c: char)
    requires c in VerbConjugationTypesLookup && c in "r"
    ensures Plain(VerbConjugationTypesLookup[c])
  {
  }
  lemma ConjugationPlain8(c: char)
    requires c in VerbConjugationTypesLookup && c in "s"
    ensures Plain(VerbConjugationTypesLookup[c])
  {
  }
  lemma ConjugationPlain9(c: char)
    requires c in VerbConjugationTypesLookup && c in "a"
    ensures Plain(VerbConjugationTypesLookup[c])
  {
  }
  lemma ConjugationPlain10(c: char)
    requires c in VerbConjugationTypesLookup && c !in "pqiwhjvrsa"
    ensures Plain(VerbConjugationTypesLookup[c])
  {
  }

  /** Every name a schema can use. */
  const CategoryNames: set<string> :=
    {"conjunction", "adverb", "preposition", "Type", "Stem", "Conjugation", "-", "Person", "Gender", "Number", "State"}

  lemma CategoryNamesPlain(x: string)
    requires x in CategoryNames
    ensures Plain(x)
  {
  }

  lemma PartOfSpeechPlain() ensures PlainTable(PartOfSpeechLookup) {}

  lemma PartLabelPlain(key: string)
    requires Tree(key).Some?
    ensures Plain(PartLabel(Tree(key).value))
  {
    TreeDomain(key);
    PartLabels(key);
    if key != "VA" {
      PartOfSpeechPlain();
    }
  }

  /** Every visited name is the name of a category at a filled position. */
  lemma {:induction false} VisitedAt(cats: seq<Category>, letters: string, x: string)
    requires x in Visited(cats, letters)
    ensures exists i :: 0 <= i < |letters| && i < |cats| && cats[i].name == x && x != "-"
    decreases |letters|
  {
    if x != cats[0].name || x == "-" {
      VisitedAt(cats[1..], letters[1..], x);
      var i :| 0 <= i < |letters[1..]| && i < |cats[1..]| && cats[1..][i].name == x && x != "-";
      assert cats[i + 1] == cats[1..][i];
    }
  }

  /** A decoded sub-entry holds no separator in its keys or labels. */
  lemma DecodeEntryPlain(languageCode: char, part: string)
    requires DecodeEntry(languageCode, part).Ok?
    ensures forall k :: k in DecodeEntry(languageCode, part).value ==>
      Plain(k) && Plain(DecodeEntry(languageCode, part).value[k])
  {
    var key := TreeKey(languageCode, part[0]);
    var letters := part[1..];
    var cats := Schema(key, letters);
    var e := DecodeEntry(languageCode, part).value;
    DecodeEntryMeaning(languageCode, part);
    SchemaNames(key, letters);
    forall k | k in e ensures Plain(k) && Plain(e[k]) {
      if k == "Part" {
        PartLabelPlain(key);
      } else {
        VisitedAt(cats, letters, k);
        var i :| 0 <= i < |letters| && i < |cats| && cats[i].name == k && k != "-";
        TablesPlain(cats[i].table, letters[i]);
        CategoryNamesPlain(k);
      }
    }
  }

  /** Every entry of a decoded code is plain and holds at least `"Part"`. */
  lemma DecodeMorphologyPlain(code: string)
    requires DecodeMorphology(code).Ok?
    ensures PlainEntries(DecodeMorphology(code).value.entries)
    ensures forall i :: 0 <= i < |DecodeMorphology(code).value.entries| ==> "Part" in DecodeMorphology(code).value.entries[i]
  {
    var parts := Split(code[1..], '/');
    var f := EntryDecoder(code[0]);
    var es := DecodeMorphology(code).value.entries;
    CollectOk(f, parts);
    forall i | 0 <= i < |es|
      ensures forall k :: k in es[i] ==> Plain(k) && Plain(es[i][k])
      ensures "Part" in es[i]
    {
      assert f(i, parts[i]) == Ok(es[i]);
      DecodeEntryPlain(code[0], parts[i]);
      DecodeEntryMeaning(code[0], parts[i]);
    }
  }

  // ---------------------------------------------------------------------
  // Words

  /** `wlcWord`. */
  datatype WlcWord = WlcWord(
    codes: string,
    language: string,
    lemmaText: string,
    id: string,
    morphology: seq<Entry>,
    sequenceID: int,
    verse: string,
    morphologyString: string)

  /** Everything `Parse` determines about a word: all fields of `wlcWord`
      except the rendered string, whose pair order is not determined. */
  datatype Analysis = Analysis(
    codes: string,
    language: string,
    lemmaText: string,
    id: string,
    morphology: seq<Entry>,
    sequenceID: int,
    verse: string)

  /** A word record `[lemma, id, code, ...]` analysed: fewer than three
      fields is an index out of range. */
  function AnalyseWord(word: seq<string>, verseID: string, sequence: int): (r: Result<Analysis>)
    ensures r.Ok? ==> r.value.sequenceID == sequence && r.value.verse == verseID
  {
    if |word| < 3 then Err(IndexOutOfRange)
    else
      match DecodeMorphology(word[2])
      case Err(e) => Err(e)
      case Ok(mo) => Ok(Analysis(word[2], mo.language, word[0], word[1], mo.entries, sequence, verseID))
  }

  /** `w` carries the fields of `a`, and a rendering of its morphology in
      some key order. */
  ghost predicate Renders(w: WlcWord, a: Analysis) {
    w.codes == a.codes && w.language == a.language && w.lemmaText == a.lemmaText && w.id == a.id &&
    w.morphology == a.morphology && w.sequenceID == a.sequenceID && w.verse == a.verse &&
    exists orders :: OrdersFor(orders, a.morphology) && w.morphologyString == Flatten(a.morphology, orders)
  }

  /** `Parse`. */
  method Parse(word: seq<string>, verseID: string, sequence: int) returns (r: Result<WlcWord>)
    ensures AnalyseWord(word, verseID, sequence).Err? ==> r == Err(AnalyseWord(word, verseID, sequence).error)
    ensures AnalyseWord(word, verseID, sequence).Ok? ==>
      r.Ok? && Renders(r.value, AnalyseWord(word, verseID, sequence).value)
  {
    if |word| < 3 {
      return Err(IndexOutOfRange);
    }
    var lemmaText, id, morph := word[0], word[1], word[2];
    var decoded := ParseMorphology(morph);
    if decoded.Err? {
      return Err(decoded.error);
    }
    var flat, orders := FlattenMorphology(decoded.value.entries);
    r := Ok(WlcWord(morph, decoded.value.language, lemmaText, id, decoded.value.entries, sequence, verseID, flat));
  }

  /** What the rendering needs of decoded entries: they are plain, each
      holds `"Part"`, and there is one per `/`-separated sub-entry. */
  predicate Renderable(code: string, ms: seq<Entry>) {
    |code| > 0 && PlainEntries(ms) && |ms| == Count(code[1..], '/') + 1 &&
    forall i :: 0 <= i < |ms| ==> "Part" in ms[i]
  }

  lemma DecodedRenderable(code: string)
    requires DecodeMorphology(code).Ok?
    ensures Renderable(code, DecodeMorphology(code).value.entries)
  {
    SplitCount(code[1..], '/');
    DecodeMorphologyPlain(code);
  }

  /** `seg` is the `,`-join of the pairs of `m` in some order of its keys. */
  ghost predicate SegmentOf(seg: string, m: Entry) {
    exists order :: IsOrder(order, m) && Split(seg, ',') == Pairs(m, order)
  }

  /** A rendering of decoded entries has one `|` segment per entry, and
      each segment splits on `,` into the `key=value` pairs of its entry in
      some order of its keys. */
  lemma RenderedWith(code: string, ms: seq<Entry>, text: string)
    requires Renderable(code, ms)
    requires exists orders :: OrdersFor(orders, ms) && text == Flatten(ms, orders)
    ensures |Split(text, '|')| == |ms| == Count(code[1..], '/') + 1
    ensures forall i :: 0 <= i < |ms| ==> SegmentOf(Split(text, '|')[i], ms[i])
  {
    var orders :| OrdersFor(orders, ms) && text == Flatten(ms, orders);
    forall i | 0 <= i < |ms| ensures |ms[i]| >= 1 {
      assert "Part" in ms[i];
    }
    FlattenSplits(ms, orders);
    forall i | 0 <= i < |ms| ensures SegmentOf(Split(text, '|')[i], ms[i]) {
      assert IsOrder(orders[i], ms[i]);
      assert Split(Split(text, '|')[i], ',') == Pairs(ms[i], orders[i]);
    }
  }

  /** The rendered morphology of a word has one `|` segment per
      `/`-separated sub-entry of its code, and each segment splits on `,`
      into the `key=value` pairs of its entry in some order of its keys. */
  lemma RenderedSegments(word: seq<string>, verseID: string, sequence: int, w: WlcWord)
    requires AnalyseWord(word, verseID, sequence).Ok?
    requires Renders(w, AnalyseWord(word, verseID, sequence).value)
    ensures w.codes == word[2]
    ensures |Split(w.morphologyString, '|')| == |w.morphology| == Count(word[2][1..], '/') + 1
    ensures forall i :: 0 <= i < |w.morphology| ==> SegmentOf(Split(w.morphologyString, '|')[i], w.morphology[i])
  {
    var code := word[2];
    DecodedRenderable(code);
    RenderedWith(code, w.morphology, w.morphologyString);
  }

  // ---------------------------------------------------------------------
  // Book files and word identity

  /** A book file as decoded from JSON: chapters of verses of words, each
      word a record of strings. */
  type BookText = seq<seq<seq<seq<string>>>>

  /** A word together with the zero-based chapter and verse it sits in. */
  datatype Slot = Slot(chapter: nat, verse: nat, word: seq<string>)

  /** The words of the book in reading order, the order in which the
      three nested loops of `ParseFileContent` visit them. */
  function VerseSlots(ci: nat, vi: nat, verse: seq<seq<string>>): (r: seq<Slot>)
    ensures |r| == |verse|
  {
    seq(|verse|, w requires 0 <= w < |verse| => Slot(ci, vi, verse[w]))
  }

  function ChapterSlots(ci: nat, chapter: seq<seq<seq<string>>>): seq<Slot>
    decreases |chapter|
  {
    if |chapter| == 0 then []
    else ChapterSlots(ci, chapter[..|chapter| - 1]) + VerseSlots(ci, |chapter| - 1, chapter[|chapter| - 1])
  }

  function BookSlots(obj: BookText): seq<Slot>
    decreases |obj|
  {
    if |obj| == 0 then []
    else BookSlots(obj[..|obj| - 1]) + ChapterSlots(|obj| - 1, obj[|obj| - 1])
  }

  /** Word counts of a chapter and of a book. */
  function ChapterWords(chapter: seq<seq<seq<string>>>): nat
    decreases |chapter|
  {
    if |chapter| == 0 then 0 else ChapterWords(chapter[..|chapter| - 1]) + |chapter[|chapter| - 1]|
  }

  function BookWords(obj: BookText): nat
    decreases |obj|
  {
    if |obj| == 0 then 0 else BookWords(obj[..|obj| - 1]) + ChapterWords(obj[|obj| - 1])
  }

  /** How many words of the book come before verse `vi` of chapter `ci`. */
  function WordsBefore(obj: BookText, ci: nat, vi: nat): nat
    requires ci < |obj| && vi <= |obj[ci]|
  {
    BookWords(obj[..ci]) + ChapterWords(obj[ci][..vi])
  }

  /** `t.bookOrder[bookName]`; an unknown book reads as 0. */
  function BookId(bookName: string): nat {
    if bookName in BookOrder then BookOrder[bookName] else 0
  }

  /** `fmt.Sprintf("%02d%03d%03d", bookID, ci+1, vi+1)`. */
  function VerseId(book: nat, ci: nat, vi: nat): (r: string)
    ensures AllDigits(r)
  {
    Pad(book, 2) + Pad(ci + 1, 3) + Pad(vi + 1, 3)
  }

  /** `fmt.Sprintf("%02d%03d%03d%03d", bookID, ci+1, vi+1, wordid)`. */
  function SequenceText(book: nat, ci: nat, vi: nat, wordid: nat): (r: string)
    ensures AllDigits(r) && |r| > 0
  {
    VerseId(book, ci, vi) + Pad(wordid, 3)
  }

  /** One pass of the innermost loop: the identity of the word is parsed
      first (a failure panics), then the word itself. */
  function DecodeSlot(book: nat, slot: Slot, wordid: nat): (r: Result<Analysis>)
    ensures r.Ok? ==> r.value.sequenceID == Value(SequenceText(book, slot.chapter, slot.verse, wordid))
  {
    ParseSequence(book, slot.chapter, slot.verse, wordid);
    var verseID := VerseId(book, slot.chapter, slot.verse);
    match ParseInt(SequenceText(book, slot.chapter, slot.verse, wordid), 64)
    case Err(e) => Err(e)
    case Ok(sequence) => AnalyseWord(slot.word, verseID, sequence)
  }

  /** The `k`-th word of the book (from zero) has `wordid == k + 1`. */
  function SlotDecoder(book: nat): (nat, Slot) -> Result<Analysis> {
    (k: nat, slot: Slot) => DecodeSlot(book, slot, k + 1)
  }

  /** What `ParseFileContent` determines about a decoded book file. */
  function AnalyseBook(bookName: string, obj: BookText): Result<seq<Analysis>> {
    Collect(SlotDecoder(BookId(bookName)), BookSlots(obj))
  }

  /** The words decoded so far: `done` are the slots visited, `analyses`
      what the decoder makes of them, `words` the records built for them,
      and `wordid` the number the next word gets. */
  ghost predicate Progress(f: (nat, Slot) -> Result<Analysis>, done: seq<Slot>, analyses: seq<Analysis>,
                           words: seq<WlcWord>, wordid: nat) {
    Collect(f, done) == Ok(analyses) && wordid == |done| + 1 &&
    |words| == |analyses| && forall k :: 0 <= k < |words| ==> Renders(words[k], analyses[k])
  }

  /** `f` decodes the word numbered `wordid` as the `wordid - 1`-th
      item of the book. */
  ghost predicate DecodesBook(f: (nat, Slot) -> Result<Analysis>, book: nat) {
    forall wordid: nat, slot: Slot {:trigger DecodeSlot(book, slot, wordid)} | wordid >= 1 ::
      f(wordid - 1, slot) == DecodeSlot(book, slot, wordid)
  }

  /** A word decoded and rendered extends the progress by one. */
  lemma ProgressStep(f: (nat, Slot) -> Result<Analysis>, done: seq<Slot>, analyses: seq<Analysis>,
                     words: seq<WlcWord>, wordid: nat, slot: Slot, w: WlcWord)
    requires Progress(f, done, analyses, words, wordid)
    requires f(|done|, slot).Ok? && Renders(w, f(|done|, slot).value)
    ensures Progress(f, done + [slot], analyses + [f(|done|, slot).value], words + [w], wordid + 1)
  {
    CollectSnoc(f, done, slot, analyses);
  }

  /** A word that fails ends the collection with its error. */
  lemma ProgressFailure(f: (nat, Slot) -> Result<Analysis>, done: seq<Slot>, analyses: seq<Analysis>, slot: Slot)
    requires Collect(f, done) == Ok(analyses) && f(|done|, slot).Err?
    ensures Collect(f, done + [slot]) == Err(f(|done|, slot).error)
  {
    CollectSnoc(f, done, slot, analyses);
  }

  /** The loops of `ParseFileContent` after the file has been read and
      decoded: one word record per word, in reading order; the first word
      whose identity or code fails to parse ends the run. */
  method ParseFileContent(bookName: string, obj: BookText) returns (r: Result<seq<WlcWord>>)
    ensures AnalyseBook(bookName, obj).Err? ==> r == Err(AnalyseBook(bookName, obj).error)
    ensures AnalyseBook(bookName, obj).Ok? ==>
      r.Ok? && |r.value| == |AnalyseBook(bookName, obj).value| &&
      forall k :: 0 <= k < |r.value| ==> Renders(r.value[k], AnalyseBook(bookName, obj).value[k])
  {
    var bookID := BookId(bookName);
    SlotDecoderDecodes(bookID);
    r := ParseChapters(bookID, obj, SlotDecoder(bookID));
  }

  lemma SlotDecoderDecodes(book: nat)
    ensures DecodesBook(SlotDecoder(book), book)
  {
  }

  /** The loop over the chapters of the book. */
  method ParseChapters(bookID: nat, obj: BookText, ghost f: (nat, Slot) -> Result<Analysis>)
    returns (r: Result<seq<WlcWord>>)
    requires DecodesBook(f, bookID)
    ensures Collect(f, BookSlots(obj)).Err? ==> r == Err(Collect(f, BookSlots(obj)).error)
    ensures Collect(f, BookSlots(obj)).Ok? ==>
      r.Ok? && |r.value| == |Collect(f, BookSlots(obj)).value| &&
      forall k :: 0 <= k < |r.value| ==> Renders(r.value[k], Collect(f, BookSlots(obj)).value[k])
  {
    var wordid := 1;
    var words: seq<WlcWord> := [];
    ghost var done: seq<Slot> := [];
    ghost var analyses: seq<Analysis> := [];
    var ci := 0;
    while ci < |obj|
      invariant 0 <= ci <= |obj|
      invariant done == BookSlots(obj[..ci])
      invariant Progress(f, done, analyses, words, wordid)
    {
      assert obj[..ci + 1][..ci] == obj[..ci];
      var next;
      ghost var done', analyses';
      next, wordid, done', analyses' := ParseChapter(bookID, ci, obj[ci], words, wordid, f, done, analyses);
      if next.Err? {
        BookFailure(f, obj, ci);
        return Err(next.error);
      }
      words, done, analyses := next.value, done', analyses';
      ci := ci + 1;
    }
    assert obj[..ci] == obj;
    return Ok(words);
  }

  /** The loop over the verses of chapter `ci`. */
  method ParseChapter(bookID: nat, ci: nat, chapter: seq<seq<seq<string>>>, words0: seq<WlcWord>, wordid0: nat,
                      ghost f: (nat, Slot) -> Result<Analysis>, ghost done0: seq<Slot>, ghost analyses0: seq<Analysis>)
    returns (r: Result<seq<WlcWord>>, wordid: nat, ghost done: seq<Slot>, ghost analyses: seq<Analysis>)
    requires DecodesBook(f, bookID) && Progress(f, done0, analyses0, words0, wordid0)
    ensures r.Ok? ==> done == done0 + ChapterSlots(ci, chapter) && Progress(f, done, analyses, r.value, wordid)
    ensures r.Err? ==> Collect(f, done0 + ChapterSlots(ci, chapter)) == Err(r.error)
  {
    var words := words0;
    wordid, done, analyses := wordid0, done0, analyses0;
    var vi := 0;
    while vi < |chapter|
      invariant 0 <= vi <= |chapter|
      invariant done == done0 + ChapterSlots(ci, chapter[..vi])
      invariant Progress(f, done, analyses, words, wordid)
    {
      assert chapter[..vi + 1][..vi] == chapter[..vi];
      var next;
      ghost var done', analyses';
      next, wordid, done', analyses' := ParseVerse(bookID, ci, vi, chapter[vi], words, wordid, f, done, analyses);
      if next.Err? {
        ChapterFailure(f, done0, ci, chapter, vi);
        return Err(next.error), wordid, done, analyses;
      }
      words, done, analyses := next.value, done', analyses';
      vi := vi + 1;
    }
    assert chapter[..vi] == chapter;
    return Ok(words), wordid, done, analyses;
  }

  /** The loop over the words of verse `vi` of chapter `ci`; `wordid` goes
      on counting from where the previous verse left it. */
  method ParseVerse(bookID: nat, ci: nat, vi: nat, verse: seq<seq<string>>, words0: seq<WlcWord>, wordid0: nat,
                    ghost f: (nat, Slot) -> Result<Analysis>, ghost done0: seq<Slot>, ghost analyses0: seq<Analysis>)
    returns (r: Result<seq<WlcWord>>, wordid: nat, ghost done: seq<Slot>, ghost analyses: seq<Analysis>)
    requires DecodesBook(f, bookID) && Progress(f, done0, analyses0, words0, wordid0)
    ensures r.Ok? ==> done == done0 + VerseSlots(ci, vi, verse) && Progress(f, done, analyses, r.value, wordid)
    ensures r.Err? ==> Collect(f, done0 + VerseSlots(ci, vi, verse)) == Err(r.error)
  {
    var words := words0;
    wordid, done, analyses := wordid0, done0, analyses0;
    var wi := 0;
    while wi < |verse|
      invariant 0 <= wi <= |verse|
      invariant done == done0 + VerseSlots(ci, vi, verse[..wi])
      invariant Progress(f, done, analyses, words, wordid)
    {
      VerseSlotsSnoc(ci, vi, verse, wi);
      var next;
      ghost var analyses';
      next, analyses' := ParseNext(bookID, ci, vi, verse[wi], words, wordid, f, done, analyses);
      if next.Err? {
        VerseFailure(f, done0, ci, vi, verse, wi, done);
        return Err(next.error), wordid, done, analyses;
      }
      words, analyses := next.value, analyses';
      done := done + [Slot(ci, vi, verse[wi])];
      wordid := wordid + 1;
      wi := wi + 1;
    }
    assert verse[..wi] == verse;
    return Ok(words), wordid, done, analyses;
  }

  /** One word of the innermost loop, with the progress it makes. */
  method ParseNext(bookID: nat, ci: nat, vi: nat, word: seq<string>, words: seq<WlcWord>, wordid: nat,
                   ghost f: (nat, Slot) -> Result<Analysis>, ghost done: seq<Slot>, ghost analyses: seq<Analysis>)
    returns (r: Result<seq<WlcWord>>, ghost analyses': seq<Analysis>)
    requires DecodesBook(f, bookID) && Progress(f, done, analyses, words, wordid)
    ensures r.Ok? ==> Progress(f, done + [Slot(ci, vi, word)], analyses', r.value, wordid + 1)
    ensures r.Err? ==> Collect(f, done + [Slot(ci, vi, word)]) == Err(r.error)
  {
    ghost var slot := Slot(ci, vi, word);
    var parsed := ParseWord(bookID, ci, vi, word, wordid);
    if parsed.Err? {
      ProgressFailure(f, done, analyses, slot);
      return Err(parsed.error), analyses;
    }
    ghost var a := DecodeSlot(bookID, slot, wordid).value;
    ProgressStep(f, done, analyses, words, wordid, slot, parsed.value);
    return Ok(words + [parsed.value]), analyses + [a];
  }

  /** One pass of the innermost loop of `ParseFileContent`. */
  method ParseWord(bookID: nat, ci: nat, vi: nat, word: seq<string>, wordid: nat) returns (r: Result<WlcWord>)
    ensures DecodeSlot(bookID, Slot(ci, vi, word), wordid).Err? ==>
      r == Err(DecodeSlot(bookID, Slot(ci, vi, word), wordid).error)
    ensures DecodeSlot(bookID, Slot(ci, vi, word), wordid).Ok? ==>
      r.Ok? && Renders(r.value, DecodeSlot(bookID, Slot(ci, vi, word), wordid).value)
  {
    var verseID := VerseId(bookID, ci, vi);
    var sequenceID := verseID + Pad(wordid, 3);
    var sequence := ParseInt(sequenceID, 64);
    if sequence.Err? {
      return Err(sequence.error);
    }
    r := Parse(word, verseID, sequence.value);
  }

  lemma VerseSlotsSnoc(ci: nat, vi: nat, verse: seq<seq<string>>, wi: nat)
    requires wi < |verse|
    ensures VerseSlots(ci, vi, verse[..wi + 1]) == VerseSlots(ci, vi, verse[..wi]) + [Slot(ci, vi, verse[wi])]
  {
  }

  /** A failure at word `wi` of a verse is the failure of the verse. */
  lemma VerseFailure(f: (nat, Slot) -> Result<Analysis>, done0: seq<Slot>, ci: nat, vi: nat,
                     verse: seq<seq<string>>, wi: nat, done: seq<Slot>)
    requires wi < |verse| && done == done0 + VerseSlots(ci, vi, verse[..wi])
    requires Collect(f, done + [Slot(ci, vi, verse[wi])]).Err?
    ensures Collect(f, done0 + VerseSlots(ci, vi, verse)) == Collect(f, done + [Slot(ci, vi, verse[wi])])
  {
    VerseSlotsSnoc(ci, vi, verse, wi);
    VerseSlotsPrefix(ci, vi, verse, wi + 1);
    assert done + [Slot(ci, vi, verse[wi])] == done0 + VerseSlots(ci, vi, verse[..wi + 1]);
    PrefixAppend(done0, VerseSlots(ci, vi, verse[..wi + 1]), VerseSlots(ci, vi, verse));
    CollectErrWithin(f, done0 + VerseSlots(ci, vi, verse[..wi + 1]), done0 + VerseSlots(ci, vi, verse));
  }

  lemma VerseSlotsPrefix(ci: nat, vi: nat, verse: seq<seq<string>>, n: nat)
    requires n <= |verse|
    ensures VerseSlots(ci, vi, verse[..n]) <= VerseSlots(ci, vi, verse)
  {
  }

  lemma PrefixAppend<T>(xs: seq<T>, ys: seq<T>, zs: seq<T>)
    requires ys <= zs
    ensures xs + ys <= xs + zs
  {
  }

  /** A failure in verse `vi` of a chapter is the failure of the chapter. */
  lemma ChapterFailure(f: (nat, Slot) -> Result<Analysis>, done0: seq<Slot>, ci: nat,
                       chapter: seq<seq<seq<string>>>, vi: nat)
    requires vi < |chapter|
    requires Collect(f, done0 + ChapterSlots(ci, chapter[..vi]) + VerseSlots(ci, vi, chapter[vi])).Err?
    ensures Collect(f, done0 + ChapterSlots(ci, chapter)) ==
            Collect(f, done0 + ChapterSlots(ci, chapter[..vi]) + VerseSlots(ci, vi, chapter[vi]))
  {
    ChapterSlotsSnoc(ci, chapter, vi);
    ChapterSlotsPrefix(ci, chapter, vi + 1);
    PrefixAppend(done0, ChapterSlots(ci, chapter[..vi + 1]), ChapterSlots(ci, chapter));
    assert done0 + ChapterSlots(ci, chapter[..vi]) + VerseSlots(ci, vi, chapter[vi]) == done0 + ChapterSlots(ci, chapter[..vi + 1]);
    CollectErrWithin(f, done0 + ChapterSlots(ci, chapter[..vi + 1]), done0 + ChapterSlots(ci, chapter));
  }

  lemma ChapterSlotsSnoc(ci: nat, chapter: seq<seq<seq<string>>>, vi: nat)
    requires vi < |chapter|
    ensures ChapterSlots(ci, chapter[..vi + 1]) == ChapterSlots(ci, chapter[..vi]) + VerseSlots(ci, vi, chapter[vi])
  {
    assert chapter[..vi + 1][..vi] == chapter[..vi];
  }

  /** A failure in chapter `ci` is the failure of the book. */
  lemma BookFailure(f: (nat, Slot) -> Result<Analysis>, obj: BookText, ci: nat)
    requires ci < |obj|
    requires Collect(f, BookSlots(obj[..ci]) + ChapterSlots(ci, obj[ci])).Err?
    ensures Collect(f, BookSlots(obj)) == Collect(f, BookSlots(obj[..ci]) + ChapterSlots(ci, obj[ci]))
  {
    BookSlotsSnoc(obj, ci);
    BookSlotsPrefix(obj, ci + 1);
    CollectErrWithin(f, BookSlots(obj[..ci + 1]), BookSlots(obj));
  }

  lemma BookSlotsSnoc(obj: BookText, ci: nat)
    requires ci < |obj|
    ensures BookSlots(obj[..ci + 1]) == BookSlots(obj[..ci]) + ChapterSlots(ci, obj[ci])
  {
    assert obj[..ci + 1][..ci] == obj[..ci];
  }

  lemma {:induction false} ChapterSlotsPrefix(ci: nat, chapter: seq<seq<seq<string>>>, j: nat)
    requires j <= |chapter|
    ensures ChapterSlots(ci, chapter[..j]) <= ChapterSlots(ci, chapter)
    decreases |chapter|
  {
    if j < |chapter| {
      var front := chapter[..|chapter| - 1];
      ChapterSlotsPrefix(ci, front, j);
      assert front[..j] == chapter[..j];
    } else {
      assert chapter[..j] == chapter;
    }
  }

  lemma {:induction false} BookSlotsPrefix(obj: BookText, j: nat)
    requires j <= |obj|
    ensures BookSlots(obj[..j]) <= BookSlots(obj)
    decreases |obj|
  {
    if j < |obj| {
      var front := obj[..|obj| - 1];
      BookSlotsPrefix(front, j);
      assert front[..j] == obj[..j];
    } else {
      assert obj[..j] == obj;
    }
  }

  // ---------------------------------------------------------------------
  // Which word gets which identity

  lemma {:induction false} ChapterSlotsLength(ci: nat, chapter: seq<seq<seq<string>>>)
    ensures |ChapterSlots(ci, chapter)| == ChapterWords(chapter)
    decreases |chapter|
  {
    if |chapter| > 0 {
      ChapterSlotsLength(ci, chapter[..|chapter| - 1]);
    }
  }

  lemma {:induction false} BookSlotsLength(obj: BookText)
    ensures |BookSlots(obj)| == BookWords(obj)
    decreases |obj|
  {
    if |obj| > 0 {
      BookSlotsLength(obj[..|obj| - 1]);
      ChapterSlotsLength(|obj| - 1, obj[|obj| - 1]);
    }
  }

  /** Word `wi` of verse `vi` sits in its chapter's words after the words
      of the earlier verses. */
  lemma ChapterSlotAt(ci: nat, chapter: seq<seq<seq<string>>>, vi: nat, wi: nat)
    requires vi < |chapter| && wi < |chapter[vi]|
    ensures ChapterWords(chapter[..vi]) + wi < |ChapterSlots(ci, chapter)|
    ensures ChapterSlots(ci, chapter)[ChapterWords(chapter[..vi]) + wi] == Slot(ci, vi, chapter[vi][wi])
  {
    assert chapter[..vi + 1][..vi] == chapter[..vi];
    var front := ChapterSlots(ci, chapter[..vi + 1]);
    assert front == ChapterSlots(ci, chapter[..vi]) + VerseSlots(ci, vi, chapter[vi]);
    ChapterSlotsLength(ci, chapter[..vi]);
    ChapterSlotsPrefix(ci, chapter, vi + 1);
  }

  /** Word `wi` of verse `vi` of chapter `ci` is the book's word number
      `WordsBefore(obj, ci, vi) + wi` (from zero). */
  lemma SlotAt(obj: BookText, ci: nat, vi: nat, wi: nat)
    requires ci < |obj| && vi < |obj[ci]| && wi < |obj[ci][vi]|
    ensures WordsBefore(obj, ci, vi) + wi < |BookSlots(obj)|
    ensures BookSlots(obj)[WordsBefore(obj, ci, vi) + wi] == Slot(ci, vi, obj[ci][vi][wi])
  {
    BookSlotsSnoc(obj, ci);
    BookSlotsLength(obj[..ci]);
    ChapterSlotAt(ci, obj[ci], vi, wi);
    BookSlotsPrefix(obj, ci + 1);
  }

  /** The `k`-th word of a chapter is at position `k - ChapterWords(chapter[..vi])`
      of its verse `vi`. */
  ghost predicate InChapter(ci: nat, chapter: seq<seq<seq<string>>>, k: nat, slot: Slot) {
    slot.chapter == ci && slot.verse < |chapter| &&
    ChapterWords(chapter[..slot.verse]) <= k < ChapterWords(chapter[..slot.verse]) + |chapter[slot.verse]| &&
    slot.word == chapter[slot.verse][k - ChapterWords(chapter[..slot.verse])]
  }

  ghost predicate InBook(obj: BookText, k: nat, slot: Slot) {
    slot.chapter < |obj| && slot.verse < |obj[slot.chapter]| &&
    WordsBefore(obj, slot.chapter, slot.verse) <= k < WordsBefore(obj, slot.chapter, slot.verse) + |obj[slot.chapter][slot.verse]| &&
    slot.word == obj[slot.chapter][slot.verse][k - WordsBefore(obj, slot.chapter, slot.verse)]
  }

  lemma {:induction false} ChapterSlotsWhere(ci: nat, chapter: seq<seq<seq<string>>>)
    ensures forall k :: 0 <= k < |ChapterSlots(ci, chapter)| ==> InChapter(ci, chapter, k, ChapterSlots(ci, chapter)[k])
    decreases |chapter|
  {
    if |chapter| > 0 {
      var n := |chapter| - 1;
      var front := chapter[..n];
      ChapterSlotsWhere(ci, front);
      ChapterSlotsLength(ci, front);
      forall k | 0 <= k < |ChapterSlots(ci, chapter)|
        ensures InChapter(ci, chapter, k, ChapterSlots(ci, chapter)[k])
      {
        var slot := ChapterSlots(ci, chapter)[k];
        if k < |ChapterSlots(ci, front)| {
          assert slot == ChapterSlots(ci, front)[k];
          assert InChapter(ci, front, k, slot);
          assert chapter[..slot.verse] == front[..slot.verse];
        } else {
          assert chapter[..n] == front;
        }
      }
    }
  }

  /** Every word of the book is some word `k - WordsBefore(...)` of some
      verse; with `SlotAt`, the words are numbered in reading order with
      no gaps. */
  lemma {:induction false} BookSlotsWhere(obj: BookText)
    ensures forall k :: 0 <= k < |BookSlots(obj)| ==> InBook(obj, k, BookSlots(obj)[k])
    decreases |obj|
  {
    if |obj| > 0 {
      var n := |obj| - 1;
      var front := obj[..n];
      BookSlotsWhere(front);
      BookSlotsLength(front);
      ChapterSlotsWhere(n, obj[n]);
      forall k | 0 <= k < |BookSlots(obj)|
        ensures InBook(obj, k, BookSlots(obj)[k])
      {
        var slot := BookSlots(obj)[k];
        if k < |BookSlots(front)| {
          assert slot == BookSlots(front)[k];
          assert InBook(front, k, slot);
          assert obj[..slot.chapter] == front[..slot.chapter];
        } else {
          var k' := k - BookWords(front);
          assert slot == ChapterSlots(n, obj[n])[k'];
          assert InChapter(n, obj[n], k', slot);
        }
      }
    }
  }

  /** The verse identity has fixed-width fields: two digits of book, three
      of chapter and three of verse, as long as each number fits. */
  lemma VerseIdValue(book: nat, ci: nat, vi: nat)
    requires book < 100 && ci + 1 < 1000 && vi + 1 < 1000
    ensures |VerseId(book, ci, vi)| == 8
    ensures Value(VerseId(book, ci, vi)) == book * 1000000 + (ci + 1) * 1000 + (vi + 1)
  {
    var b, c, v := Pad(book, 2), Pad(ci + 1, 3), Pad(vi + 1, 3);
    PadWidth(book, 2);
    PadWidth(ci + 1, 3);
    PadWidth(vi + 1, 3);
    ValueConcat(b, c);
    ValueConcat(b + c, v);
  }

  /** A number below `10^width` is padded to exactly `width` digits. */
  lemma PadWidth(n: nat, width: nat)
    requires width >= 1 && n < Pow10(width)
    ensures |Pad(n, width)| == width && Value(Pad(n, width)) == n
  {
    DigitsLength(n, width);
    PadValue(n, width);
  }

  /** The sequence text of a known book with chapter and verse numbers of
      at most three digits determines chapter, verse and word number. */
  lemma SequenceTextInjective(book: nat, c1: nat, v1: nat, w1: nat, c2: nat, v2: nat, w2: nat)
    requires 1 <= book < 100
    requires c1 + 1 < 1000 && v1 + 1 < 1000 && c2 + 1 < 1000 && v2 + 1 < 1000
    requires Value(SequenceText(book, c1, v1, w1)) == Value(SequenceText(book, c2, v2, w2))
    ensures c1 == c2 && v1 == v2 && w1 == w2
  {
    PadValue(book, 2);
    SequenceSplit(book, c1, v1, w1);
    SequenceSplit(book, c2, v2, w2);
    HeadValueInjective(Pad(book, 2), Tail(c1, v1, w1), Tail(c2, v2, w2));
    TailInjective(c1, v1, w1, c2, v2, w2);
  }

  lemma SequenceSplit(book: nat, ci: nat, vi: nat, wordid: nat)
    ensures SequenceText(book, ci, vi, wordid) == Pad(book, 2) + Tail(ci, vi, wordid)
  {
    var a, b, c, d := Pad(book, 2), Pad(ci + 1, 3), Pad(vi + 1, 3), Pad(wordid, 3);
    assert SequenceText(book, ci, vi, wordid) == a + b + c + d;
    assert Tail(ci, vi, wordid) == b + c + d;
    Associate(a, b, c, d);
  }

  lemma Associate(a: string, b: string, c: string, d: string)
    ensures a + b + c + d == a + (b + c + d)
  {
  }

  /** The digits after the book number. */
  function Tail(ci: nat, vi: nat, wordid: nat): (r: string)
    ensures AllDigits(r)
  {
    Pad(ci + 1, 3) + Pad(vi + 1, 3) + Pad(wordid, 3)
  }

  lemma TailInjective(c1: nat, v1: nat, w1: nat, c2: nat, v2: nat, w2: nat)
    requires c1 + 1 < 1000 && v1 + 1 < 1000 && c2 + 1 < 1000 && v2 + 1 < 1000
    requires Tail(c1, v1, w1) == Tail(c2, v2, w2)
    ensures c1 == c2 && v1 == v2 && w1 == w2
  {
    TailFields(c1, v1, w1, c2, v2, w2);
    PadInjective(c1 + 1, c2 + 1, 3);
    PadInjective(v1 + 1, v2 + 1, 3);
    PadInjective(w1, w2, 3);
  }

  /** Equal tails have equal fields. */
  lemma TailFields(c1: nat, v1: nat, w1: nat, c2: nat, v2: nat, w2: nat)
    requires c1 + 1 < 1000 && v1 + 1 < 1000 && c2 + 1 < 1000 && v2 + 1 < 1000
    requires Tail(c1, v1, w1) == Tail(c2, v2, w2)
    ensures Pad(c1 + 1, 3) == Pad(c2 + 1, 3) && Pad(v1 + 1, 3) == Pad(v2 + 1, 3) && Pad(w1, 3) == Pad(w2, 3)
  {
    PadWidth(c1 + 1, 3);
    PadWidth(v1 + 1, 3);
    PadWidth(c2 + 1, 3);
    PadWidth(v2 + 1, 3);
    ThreeFields(Pad(c1 + 1, 3), Pad(v1 + 1, 3), Pad(w1, 3), Pad(c2 + 1, 3), Pad(v2 + 1, 3), Pad(w2, 3));
  }

  lemma PadInjective(n1: nat, n2: nat, width: nat)
    requires Pad(n1, width) == Pad(n2, width)
    ensures n1 == n2
  {
    PadValue(n1, width);
    PadValue(n2, width);
  }

  /** Two fixed-width fields followed by a third split apart uniquely. */
  lemma ThreeFields(a1: string, b1: string, c1: string, a2: string, b2: string, c2: string)
    requires |a1| == |a2| && |b1| == |b2| && a1 + b1 + c1 == a2 + b2 + c2
    ensures a1 == a2 && b1 == b2 && c1 == c2
  {
    var x := a1 + b1 + c1;
    assert a1 == x[..|a1|] == a2;
    assert b1 == x[|a1|..|a1| + |b1|] == b2;
    assert c1 == x[|a1| + |b1|..] == c2;
  }

  /** Parsing the sequence text gives its value when it fits 64 bits. */
  lemma ParseSequence(book: nat, ci: nat, vi: nat, wordid: nat)
    ensures ParseInt(SequenceText(book, ci, vi, wordid), 64) ==
      if Value(SequenceText(book, ci, vi, wordid)) < Pow2(63) then Ok(Value(SequenceText(book, ci, vi, wordid)))
      else Err(ParseFailure(SequenceText(book, ci, vi, wordid)))
  {
    ParseDigits(SequenceText(book, ci, vi, wordid), 64);
  }

  /** What a decoder of the book yields for its `k`-th word. */
  lemma DecodedAt(f: (nat, Slot) -> Result<Analysis>, book: nat, slots: seq<Slot>, k: nat)
    requires DecodesBook(f, book) && Collect(f, slots).Ok? && k < |slots|
    ensures DecodeSlot(book, slots[k], k + 1) == Ok(Collect(f, slots).value[k])
  {
    CollectOk(f, slots);
    assert f(k, slots[k]) == Ok(Collect(f, slots).value[k]);
  }

  /** A decoder of the book that fails on it fails on one of its words. */
  lemma FailureAt(f: (nat, Slot) -> Result<Analysis>, book: nat, slots: seq<Slot>) returns (k: nat)
    requires DecodesBook(f, book) && Collect(f, slots).Err?
    ensures k < |slots| && DecodeSlot(book, slots[k], k + 1).Err?
  {
    CollectErr(f, slots);
    k :| 0 <= k < |slots| && f(k, slots[k]).Err?;
  }

  /** A decoder of the book that fails on one of its words fails on it. */
  lemma FailureFrom(f: (nat, Slot) -> Result<Analysis>, book: nat, slots: seq<Slot>, k: nat)
    requires DecodesBook(f, book) && k < |slots| && DecodeSlot(book, slots[k], k + 1).Err?
    ensures Collect(f, slots).Err?
  {
    CollectErr(f, slots);
    assert f(k, slots[k]).Err?;
  }

  /** The record of word `wi` of verse `vi` of chapter `ci` is at position
      `k = WordsBefore(obj, ci, vi) + wi`: it carries verse identity
      `VerseId(book, ci, vi)` and sequence number the value of that
      identity followed by `k + 1`, the count of words so far in the whole
      book, padded to three digits; the word itself is analysed as
      `Parse` analyses it. */
  lemma WordIdentity(bookName: string, obj: BookText, ci: nat, vi: nat, wi: nat)
    requires ci < |obj| && vi < |obj[ci]| && wi < |obj[ci][vi]|
    requires AnalyseBook(bookName, obj).Ok?
    ensures WordsBefore(obj, ci, vi) + wi < |AnalyseBook(bookName, obj).value|
    ensures var k := WordsBefore(obj, ci, vi) + wi;
            var sequence := Value(SequenceText(BookId(bookName), ci, vi, k + 1));
            sequence < Pow2(63) &&
            AnalyseWord(obj[ci][vi][wi], VerseId(BookId(bookName), ci, vi), sequence) ==
              Ok(AnalyseBook(bookName, obj).value[k])
  {
    var book := BookId(bookName);
    var k := WordsBefore(obj, ci, vi) + wi;
    SlotAt(obj, ci, vi, wi);
    BookDecodedAt(bookName, obj, k);
    SlotDecoded(book, BookSlots(obj)[k], k + 1, AnalyseBook(bookName, obj).value[k]);
  }

  /** The `k`-th record of a decoded book is the decoding of its `k`-th
      word, numbered `k + 1`. */
  lemma BookDecodedAt(bookName: string, obj: BookText, k: nat)
    requires AnalyseBook(bookName, obj).Ok? && k < |BookSlots(obj)|
    ensures DecodeSlot(BookId(bookName), BookSlots(obj)[k], k + 1) == Ok(AnalyseBook(bookName, obj).value[k])
  {
    SlotDecoderDecodes(BookId(bookName));
    DecodedAt(SlotDecoder(BookId(bookName)), BookId(bookName), BookSlots(obj), k);
  }

  /** A word that decodes has a sequence text that fits 64 bits, and its
      record is the analysis of the word under that number. */
  lemma SlotDecoded(book: nat, slot: Slot, wordid: nat, a: Analysis)
    requires DecodeSlot(book, slot, wordid) == Ok(a)
    ensures var sequence := Value(SequenceText(book, slot.chapter, slot.verse, wordid));
            sequence < Pow2(63) && AnalyseWord(slot.word, VerseId(book, slot.chapter, slot.verse), sequence) == Ok(a)
  {
    ParseSequence(book, slot.chapter, slot.verse, wordid);
  }

  /** A book fails exactly when one of its words fails, numbered by its
      position in the whole book. */
  lemma BookFailsAtWord(bookName: string, obj: BookText)
    ensures AnalyseBook(bookName, obj).Err? <==>
      exists ci: nat, vi: nat, wi: nat :: ci < |obj| && vi < |obj[ci]| && wi < |obj[ci][vi]| &&
        DecodeSlot(BookId(bookName), Slot(ci, vi, obj[ci][vi][wi]), WordsBefore(obj, ci, vi) + wi + 1).Err?
  {
    var book := BookId(bookName);
    if AnalyseBook(bookName, obj).Err? {
      var ci, vi, wi := BookFailureWord(bookName, obj);
    }
    if exists ci: nat, vi: nat, wi: nat :: ci < |obj| && vi < |obj[ci]| && wi < |obj[ci][vi]| &&
        DecodeSlot(book, Slot(ci, vi, obj[ci][vi][wi]), WordsBefore(obj, ci, vi) + wi + 1).Err? {
      var ci: nat, vi: nat, wi: nat :| ci < |obj| && vi < |obj[ci]| && wi < |obj[ci][vi]| &&
        DecodeSlot(book, Slot(ci, vi, obj[ci][vi][wi]), WordsBefore(obj, ci, vi) + wi + 1).Err?;
      BookFailsFrom(bookName, obj, ci, vi, wi);
    }
  }

  lemma BookFailureWord(bookName: string, obj: BookText) returns (ci: nat, vi: nat, wi: nat)
    requires AnalyseBook(bookName, obj).Err?
    ensures ci < |obj| && vi < |obj[ci]| && wi < |obj[ci][vi]|
    ensures DecodeSlot(BookId(bookName), Slot(ci, vi, obj[ci][vi][wi]), WordsBefore(obj, ci, vi) + wi + 1).Err?
  {
    var k := BookFailureSlot(bookName, obj);
    ci, vi, wi := SlotPosition(obj, k);
    SameSlot(BookId(bookName), BookSlots(obj)[k], k + 1, Slot(ci, vi, obj[ci][vi][wi]), WordsBefore(obj, ci, vi) + wi + 1);
  }

  lemma SameSlot(book: nat, s1: Slot, w1: nat, s2: Slot, w2: nat)
    requires s1 == s2 && w1 == w2 && DecodeSlot(book, s1, w1).Err?
    ensures DecodeSlot(book, s2, w2).Err?
  {
  }

  lemma BookFailureSlot(bookName: string, obj: BookText) returns (k: nat)
    requires AnalyseBook(bookName, obj).Err?
    ensures k < |BookSlots(obj)| && DecodeSlot(BookId(bookName), BookSlots(obj)[k], k + 1).Err?
  {
    SlotDecoderDecodes(BookId(bookName));
    k := FailureAt(SlotDecoder(BookId(bookName)), BookId(bookName), BookSlots(obj));
  }

  lemma BookFailsFrom(bookName: string, obj: BookText, ci: nat, vi: nat, wi: nat)
    requires ci < |obj| && vi < |obj[ci]| && wi < |obj[ci][vi]|
    requires DecodeSlot(BookId(bookName), Slot(ci, vi, obj[ci][vi][wi]), WordsBefore(obj, ci, vi) + wi + 1).Err?
    ensures AnalyseBook(bookName, obj).Err?
  {
    SlotAt(obj, ci, vi, wi);
    SlotDecoderDecodes(BookId(bookName));
    FailureFrom(SlotDecoder(BookId(bookName)), BookId(bookName), BookSlots(obj), WordsBefore(obj, ci, vi) + wi);
  }

  /** Where the `k`-th word of a book stands. */
  lemma SlotPosition(obj: BookText, k: nat) returns (ci: nat, vi: nat, wi: nat)
    requires k < |BookSlots(obj)|
    ensures ci < |obj| && vi < |obj[ci]| && wi < |obj[ci][vi]| && k == WordsBefore(obj, ci, vi) + wi
    ensures BookSlots(obj)[k] == Slot(ci, vi, obj[ci][vi][wi])
  {
    BookSlotsWhere(obj);
    var slot := BookSlots(obj)[k];
    assert InBook(obj, k, slot);
    ci, vi := slot.chapter, slot.verse;
    wi := k - WordsBefore(obj, ci, vi);
  }

  /** For a known book with at most 999 chapters of at most 999 verses,
      no two words share a sequence number, however many words it has:
      the word number is not reset per verse, and it is the only field
      that may grow past its width. */
  lemma SequenceIdsUnique(bookName: string, obj: BookText)
    requires bookName in BookOrder
    requires |obj| <= 999 && forall c :: 0 <= c < |obj| ==> |obj[c]| <= 999
    requires AnalyseBook(bookName, obj).Ok?
    ensures forall k1, k2 :: 0 <= k1 < k2 < |AnalyseBook(bookName, obj).value| ==>
      AnalyseBook(bookName, obj).value[k1].sequenceID != AnalyseBook(bookName, obj).value[k2].sequenceID
  {
    var book := BookId(bookName);
    BookOrderBounds();
    SlotDecoderSequenced(book);
    SequenceNumberDistinguishes(book);
    var slots := BookSlots(obj);
    forall k | 0 <= k < |slots| ensures Fits(slots[k]) {
      SlotBounds(obj, k);
    }
    SequenceIdsDistinct(SlotDecoder(book), SequenceNumber(book), slots);
  }

  /** Chapter and verse numbers of at most three digits. */
  predicate Fits(slot: Slot) {
    slot.chapter + 1 < 1000 && slot.verse + 1 < 1000
  }

  /** The sequence number of word number `w + 1` at `slot`. */
  function SequenceNumber(book: nat): (nat, Slot) -> int {
    (w: nat, slot: Slot) => Value(SequenceText(book, slot.chapter, slot.verse, w + 1))
  }

  /** Every record `f` yields carries the number `num` gives its word. */
  ghost predicate Sequenced(f: (nat, Slot) -> Result<Analysis>, num: (nat, Slot) -> int) {
    forall w: nat, slot: Slot {:trigger f(w, slot)} :: f(w, slot).Ok? ==> f(w, slot).value.sequenceID == num(w, slot)
  }

  /** `num` tells apart any two different word numbers. */
  ghost predicate Distinguishes(num: (nat, Slot) -> int) {
    forall w1: nat, s1: Slot, w2: nat, s2: Slot {:trigger num(w1, s1), num(w2, s2)} ::
      w1 != w2 && Fits(s1) && Fits(s2) ==> num(w1, s1) != num(w2, s2)
  }

  lemma SlotDecoderSequenced(book: nat)
    ensures Sequenced(SlotDecoder(book), SequenceNumber(book))
  {
  }

  lemma SequenceNumberDistinguishes(book: nat)
    requires 1 <= book < 100
    ensures Distinguishes(SequenceNumber(book))
  {
    forall w1: nat, s1: Slot, w2: nat, s2: Slot | w1 != w2 && Fits(s1) && Fits(s2)
      ensures SequenceNumber(book)(w1, s1) != SequenceNumber(book)(w2, s2)
    {
      SlotNumbersDistinct(book, w1, s1, w2, s2);
    }
  }

  lemma SlotNumbersDistinct(book: nat, w1: nat, s1: Slot, w2: nat, s2: Slot)
    requires 1 <= book < 100 && w1 != w2 && Fits(s1) && Fits(s2)
    ensures SequenceNumber(book)(w1, s1) != SequenceNumber(book)(w2, s2)
  {
    SequenceNumberAt(book, w1, s1);
    SequenceNumberAt(book, w2, s2);
    SequenceTextDistinct(book, s1.chapter, s1.verse, w1 + 1, s2.chapter, s2.verse, w2 + 1);
  }

  lemma SequenceNumberAt(book: nat, w: nat, s: Slot)
    ensures SequenceNumber(book)(w, s) == Value(SequenceText(book, s.chapter, s.verse, w + 1))
  {
  }

  /** A decoder whose numbers tell words apart gives distinct numbers to
      the records of a collection. */
  lemma SequenceIdsDistinct(f: (nat, Slot) -> Result<Analysis>, num: (nat, Slot) -> int, slots: seq<Slot>)
    requires Sequenced(f, num) && Distinguishes(num)
    requires forall k :: 0 <= k < |slots| ==> Fits(slots[k])
    requires Collect(f, slots).Ok?
    ensures forall k1, k2 :: 0 <= k1 < k2 < |Collect(f, slots).value| ==>
      Collect(f, slots).value[k1].sequenceID != Collect(f, slots).value[k2].sequenceID
  {
    CollectOk(f, slots);
    forall k1, k2 | 0 <= k1 < k2 < |Collect(f, slots).value|
      ensures Collect(f, slots).value[k1].sequenceID != Collect(f, slots).value[k2].sequenceID
    {
      assert f(k1, slots[k1]) == Ok(Collect(f, slots).value[k1]);
      assert f(k2, slots[k2]) == Ok(Collect(f, slots).value[k2]);
      assert Fits(slots[k1]) && Fits(slots[k2]);
    }
  }

  /** Different word numbers give different sequence numbers. */
  lemma SequenceTextDistinct(book: nat, c1: nat, v1: nat, w1: nat, c2: nat, v2: nat, w2: nat)
    requires 1 <= book < 100 && w1 != w2
    requires c1 + 1 < 1000 && v1 + 1 < 1000 && c2 + 1 < 1000 && v2 + 1 < 1000
    ensures Value(SequenceText(book, c1, v1, w1)) != Value(SequenceText(book, c2, v2, w2))
  {
    if Value(SequenceText(book, c1, v1, w1)) == Value(SequenceText(book, c2, v2, w2)) {
      SequenceTextInjective(book, c1, v1, w1, c2, v2, w2);
    }
  }

  /** Within a book of at most 999 chapters of at most 999 verses, every
      word's chapter and verse numbers fit three digits. */
  lemma SlotBounds(obj: BookText, k: nat)
    requires |obj| <= 999 && forall c :: 0 <= c < |obj| ==> |obj[c]| <= 999
    requires k < |BookSlots(obj)|
    ensures Fits(BookSlots(obj)[k])
  {
    BookSlotsWhere(obj);
    assert InBook(obj, k, BookSlots(obj)[k]);
  }
}
