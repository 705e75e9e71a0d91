/** The pure parts of the start-up pipeline that the search engine relies on: the
    text each collection is embedded from, and the order of the corpus whose
    positions index both the vector index and the keyword index. */
module Startup {
  import opened Models

  /** A collection record as read from the catalogue file: field name to value. */
  type Record = map<string, string>

  /** The one way building the embedding text can fail: the record has no name. */
  datatype TextError = MissingName

  const DefaultDescription: string := "No description available"

  /** The text a collection is embedded from. */
  function EmbeddingText(name: string, description: string): string
  {
    "Name: " + name + " \nDescription: " + description
  }

  /** `get_text_from_collection`: fails exactly when the record has no name; a
      missing description reads as the default one; the text is `EmbeddingText`
      of the name and that description. */
  function GetTextFromCollection(collection: Record): (r: Result<string, TextError>)
    ensures r.Failure? <==> "name" !in collection
    ensures r.Success? && "description" in collection ==>
      r.value == EmbeddingText(collection["name"], collection["description"])
    ensures r.Success? && "description" !in collection ==>
      r.value == EmbeddingText(collection["name"], DefaultDescription)
  {
    if "name" !in collection then Failure(MissingName)
    else
      var description := if "description" in collection then collection["description"] else DefaultDescription;
      Success(EmbeddingText(collection["name"], description))
  }

  /** The position of the first line break in the embedding text is fixed by the name. */
  lemma FirstLineBreak(name: string, description: string, p: nat)
    requires forall i :: 0 <= i < |name| ==> name[i] != '\n'
    requires p < |EmbeddingText(name, description)| && EmbeddingText(name, description)[p] == '\n'
    ensures p >= |name| + 7
  {
    var text := EmbeddingText(name, description);
    assert text[..6] == "Name: ";
    assert text[6..6 + |name|] == name;
    assert text[6 + |name|] == ' ';
    assert forall q :: 0 <= q < 6 ==> text[q] == text[..6][q];
    assert forall q :: 6 <= q < 6 + |name| ==> text[q] == text[6..6 + |name|][q - 6];
  }

  /** Collections whose names have no line break and whose (name, description)
      pairs differ are embedded from different texts: the embedding text
      determines both the name and the description. */
  lemma {:induction false} EmbeddingTextInjective(name1: string, description1: string, name2: string, description2: string)
    requires forall i :: 0 <= i < |name1| ==> name1[i] != '\n'
    requires forall i :: 0 <= i < |name2| ==> name2[i] != '\n'
    requires EmbeddingText(name1, description1) == EmbeddingText(name2, description2)
    ensures name1 == name2 && description1 == description2
  {
    var text := EmbeddingText(name1, description1);
    assert text[|name1| + 7] == '\n';
    assert EmbeddingText(name2, description2)[|name2| + 7] == '\n';
    FirstLineBreak(name1, description1, |name2| + 7);
    FirstLineBreak(name2, description2, |name1| + 7);
    assert |name1| == |name2|;
    assert name1 == text[6..6 + |name1|];
    assert name2 == text[6..6 + |name2|];
    var tail := |name1| + 21;
    assert description1 == text[tail..];
    assert description2 == text[tail..];
  }

  /** The record a typed collection stands for. */
  function ToRecord(c: Collection): Record
  {
    map["collectionId" := c.collectionId, "name" := c.name, "description" := c.description]
  }

  /** A collection with every field present is embedded from its own name and description. */
  lemma TextOfCompleteRecord(c: Collection)
    ensures GetTextFromCollection(ToRecord(c)) == Success(EmbeddingText(c.name, c.description))
  {
    assert "name" in ToRecord(c) && "description" in ToRecord(c);
  }

  predicate IsDigit(ch: char)
  {
    '0' <= ch <= '9'
  }

  /** A non-empty string of decimal digits, the form `int` parses here. */
  predicate IsDigits(s: string)
  {
    |s| > 0 && forall i :: 0 <= i < |s| ==> IsDigit(s[i])
  }

  /** The value `int(s)` gives a string of decimal digits. */
  function DecimalValue(s: string): nat
    requires forall i :: 0 <= i < |s| ==> IsDigit(s[i])
  {
    if s == [] then 0
    else
      assert IsDigit(s[|s| - 1]);
      DecimalValue(s[..|s| - 1]) * 10 + (s[|s| - 1] as int - '0' as int)
  }

  /** The corpus after `sorted(..., key=int(collectionId))`, with the catalogue's
      ids taken to be distinct: every id is decimal and the ids strictly ascend by
      their integer value. */
  ghost predicate CorpusOrdered(collections: seq<Collection>)
  {
    && (forall i :: 0 <= i < |collections| ==> IsDigits(collections[i].collectionId))
    && (forall i, j :: 0 <= i < j < |collections| ==>
          DecimalValue(collections[i].collectionId) < DecimalValue(collections[j].collectionId))
  }

  /** In an ordered corpus different positions carry different ids, so a set of
      distinct positions names distinct collections. */
  lemma OrderedCorpusIdsDistinct(collections: seq<Collection>, i: nat, j: nat)
    requires CorpusOrdered(collections)
    requires i < |collections| && j < |collections| && i != j
    ensures collections[i].collectionId != collections[j].collectionId
  {
    if j < i {
      assert DecimalValue(collections[j].collectionId) < DecimalValue(collections[i].collectionId);
    }
  }
}
