/** The frontend's view of remote calls, and the breed list loader. */
module Api {
  import opened Base
  import opened Catalogue

  /** The outcome of a remote call as the caller observes it: the response
      value, or a failure carrying the server's `detail` when there is one. */
  datatype Remote<+T> = Ok(value: T) | Err(detail: Option<string>)

  /** The names offered when the catalogue cannot be fetched. */
  const FallbackBreeds: seq<string> := [
    "Abyssinian", "American Bobtail", "American Curl", "American Shorthair",
    "Bengal", "British Shorthair", "Maine Coon", "Persian", "Ragdoll",
    "Russian Blue", "Siamese", "Sphynx"]

  /** `getCatBreeds`: the name of every fetched record, in order; on any
      failure, the fallback list. It never fails towards its caller. */
  function GetCatBreeds(fetch: Remote<seq<BreedRecord>>): (names: seq<string>)
    ensures fetch.Ok? ==> |names| == |fetch.value| && forall i :: 0 <= i < |names| ==> names[i] == fetch.value[i].name
    ensures fetch.Err? ==> names == FallbackBreeds
  {
    match fetch
    case Ok(records) => seq(|records|, i requires 0 <= i < |records| => records[i].name)
    case Err(_) => FallbackBreeds
  }

  /** Whatever the failure, twelve different names are offered; the list is
      empty only when the catalogue itself answered with no records. */
  lemma OfferedBreeds(fetch: Remote<seq<BreedRecord>>)
    ensures fetch.Err? ==> |GetCatBreeds(fetch)| == 12
    ensures fetch.Err? ==> forall i, j :: 0 <= i < j < |GetCatBreeds(fetch)| ==> GetCatBreeds(fetch)[i] != GetCatBreeds(fetch)[j]
    ensures GetCatBreeds(fetch) == [] <==> fetch.Ok? && fetch.value == []
  {
  }
}
