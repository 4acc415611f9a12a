/** How the form's rules relate to the server's validators for the same body. */
module ClientServer {
  import CatTypes
  import Schemas
  import SpyCatForm

  /** The server-side body carrying the same four fields as a draft. */
  function ToServerBody(d: CatTypes.SpyCatCreate): (b: Schemas.SpyCatCreate)
    ensures b.name == d.name && b.yearsOfExperience == d.yearsOfExperience
    ensures b.breed == d.breed && b.salary == d.salary
  {
    Schemas.SpyCatCreate(d.name, d.yearsOfExperience, d.breed, d.salary)
  }

  /** A draft the form lets through never fails the server's field validators:
      the form checks both numeric bounds the server checks, and more. */
  lemma ValidDraftPassesServerValidators(d: CatTypes.SpyCatCreate)
    requires SpyCatForm.DraftValid(d)
    ensures Schemas.SpyCatCreateErrors(ToServerBody(d)) == []
  {
  }

  /** The converse fails: the server accepts a blank name, which the form refuses. */
  lemma ServerAcceptsBlankName()
    ensures Schemas.SpyCatCreateErrors(ToServerBody(CatTypes.SpyCatCreate("", 0, "Bengal", 0.0))) == []
    ensures !SpyCatForm.DraftValid(CatTypes.SpyCatCreate("", 0, "Bengal", 0.0))
  {
  }
}
