/** The package copy of the GNT decoder, internal/parser/parsegnt.go.
    Its functions are those of parsegnt.go line for line; it reports a
    bad prefix or identity through `util.Errorf` instead of `errorf`
    (both print and exit with status 2) and returns the types of
    internal/models, which have the same fields. Each member hands over
    to the model of parsegnt.go and states what the caller gets. */
module ParserGnt {
  import opened Outcome
  import opened Numerals
  import Gnt

  /** `getPartName`. */
  function PartName(part: string): (r: Result<string>)
    ensures r.Ok? <==> part in Gnt.PartPrefixes
    ensures r.Err? ==> r.error == InvalidPart(part)
  {
    Gnt.PartName(part)
  }

  /** `getMorphology`: fails only on the prefix, and reads the code
      position by position. */
  method GetMorphology(part: string, code: string) returns (r: Result<Gnt.GntMorphology>)
    ensures r == Gnt.DecodeMorphology(part, code)
    ensures r.Ok? <==> part in Gnt.PartPrefixes
  {
    Gnt.DecodeMorphologyFails(part, code);
    r := Gnt.GetMorphology(part, code);
  }

  /** The `bookNames` loop of `setupTables`. */
  method BuildBookNames() returns (bookNames: map<int, string>)
    ensures bookNames.Keys == set k | k in Gnt.BookOrder :: Gnt.BookOrder[k] + Gnt.BookOffset
    ensures forall k | k in Gnt.BookOrder :: bookNames[Gnt.BookOrder[k] + Gnt.BookOffset] == k
  {
    bookNames := Gnt.BuildBookNames();
  }

  /** `createAbsoluteID`: the verse number shifted by the digits of the
      place, fatal when it does not fit 32 bits. */
  function CreateAbsoluteId(verse: string, id: nat): (r: Result<int>)
    ensures AllDigits(verse) && |verse| >= 1 ==>
      var v := Value(verse) * Pow10(|Digits(id)|) + id;
      r == if v < Pow2(31) then Ok(v) else Err(ParseFailure(verse + Itoa(id)))
  {
    if AllDigits(verse) && |verse| >= 1 then
      Gnt.AbsoluteIdValue(verse, id);
      Gnt.CreateAbsoluteId(verse, id)
    else
      Gnt.CreateAbsoluteId(verse, id)
  }

  /** `ParseFileContent` after the file has been read. */
  method ParseFileContent(lines: seq<seq<string>>) returns (r: Result<seq<Gnt.GntWord>>)
    ensures r == Gnt.DecodeFile(lines)
    ensures r.Ok? ==> |r.value| == |lines|
  {
    r := Gnt.ParseFileContent(lines);
  }
}
