/** Breed validation against the external breed catalogue. The HTTP fetch is
    an input: either the decoded list of breed records or an HTTP error. */
module ExternalServices {
  import opened Catalogue

  /** The outcome of fetching the catalogue. */
  datatype BreedFetch = Fetched(records: seq<BreedRecord>) | HttpError

  /** `get_cat_breeds`: the fetched records, or none when the request failed. */
  function GetCatBreeds(fetch: BreedFetch): (r: seq<BreedRecord>)
    ensures fetch.HttpError? ==> r == []
    ensures fetch.Fetched? ==> r == fetch.records
  {
    match fetch
    case Fetched(records) => records
    case HttpError => []
  }

  /** Lower-casing of one character (ASCII letters; other characters unchanged). */
  function LowerChar(c: char): (r: char)
    ensures 'A' <= c <= 'Z' ==> 'a' <= r <= 'z' && r as int == c as int + 32
    ensures !('A' <= c <= 'Z') ==> r == c
  {
    if 'A' <= c <= 'Z' then (c as int + 32) as char else c
  }

  /** `str.lower()`, character by character. */
  function Lower(s: string): (r: string)
    ensures |r| == |s|
    ensures forall i :: 0 <= i < |s| ==> r[i] == LowerChar(s[i])
  {
    seq(|s|, i requires 0 <= i < |s| => LowerChar(s[i]))
  }

  /** The lower-cased names of the records, in order. */
  function LoweredNames(records: seq<BreedRecord>): (r: seq<string>)
    ensures |r| == |records|
    ensures forall i :: 0 <= i < |records| ==> r[i] == Lower(records[i].name)
  {
    seq(|records|, i requires 0 <= i < |records| => Lower(records[i].name))
  }

  /** `validate_cat_breed`: the breed is valid when its lower-cased form is one
      of the lower-cased catalogue names (whole-name list membership). */
  function ValidateCatBreed(breed: string, fetch: BreedFetch): (ok: bool)
    ensures ok <==> exists r :: r in GetCatBreeds(fetch) && Lower(r.name) == Lower(breed)
  {
    var names := LoweredNames(GetCatBreeds(fetch));
    assert forall r :: r in GetCatBreeds(fetch) ==> Lower(r.name) in names by {
      forall r | r in GetCatBreeds(fetch) ensures Lower(r.name) in names {
        var i :| 0 <= i < |GetCatBreeds(fetch)| && GetCatBreeds(fetch)[i] == r;
        assert names[i] == Lower(r.name);
      }
    }
    Lower(breed) in names
  }

  /** A failed fetch makes every breed invalid. */
  lemma FetchFailureRejectsEveryBreed(breed: string)
    ensures !ValidateCatBreed(breed, HttpError)
  {
  }

  /** Lower-casing is idempotent, so the test is insensitive to ASCII case. */
  lemma LowerIdempotent(s: string)
    ensures Lower(Lower(s)) == Lower(s)
  {
  }

  /** Two spellings that agree after lower-casing are judged alike. */
  lemma CaseInsensitive(a: string, b: string, fetch: BreedFetch)
    requires Lower(a) == Lower(b)
    ensures ValidateCatBreed(a, fetch) == ValidateCatBreed(b, fetch)
  {
  }

  /** The verdict depends only on the set of lower-cased names, not on the
      order or multiplicity of the records. */
  lemma OnlyNameSetMatters(breed: string, a: seq<BreedRecord>, b: seq<BreedRecord>)
    requires (set r | r in a :: Lower(r.name)) == (set r | r in b :: Lower(r.name))
    ensures ValidateCatBreed(breed, Fetched(a)) == ValidateCatBreed(breed, Fetched(b))
  {
    var inA := set x | x in a :: Lower(x.name);
    var inB := set x | x in b :: Lower(x.name);
    if ValidateCatBreed(breed, Fetched(a)) {
      var r :| r in a && Lower(r.name) == Lower(breed);
      assert Lower(r.name) in inA;
      var y :| y in b && Lower(y.name) == Lower(r.name);
    }
    if ValidateCatBreed(breed, Fetched(b)) {
      var r :| r in b && Lower(r.name) == Lower(breed);
      assert Lower(r.name) in inB;
      var y :| y in a && Lower(y.name) == Lower(r.name);
    }
  }

  /** Matching is on whole names: a catalogue name that merely contains the
      breed does not make it valid, while a different case does. */
  lemma WholeNameMembership()
    ensures !ValidateCatBreed("Bengal", Fetched([BreedRecord("Bengal Cat")]))
    ensures ValidateCatBreed("bengal", Fetched([BreedRecord("Bengal")]))
  {
    assert Lower("Bengal") == "bengal";
    assert Lower("Bengal Cat") == "bengal cat";
    assert |Lower("Bengal Cat")| != |Lower("Bengal")|;
  }
}
