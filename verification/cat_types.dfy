/** The shapes the frontend exchanges with the backend. */
module CatTypes {

  /** A spy cat as returned by the server. */
  datatype SpyCat = SpyCat(id: int, name: string, yearsOfExperience: int, breed: string, salary: real)

  /** The body of a create request, and the form's draft. */
  datatype SpyCatCreate = SpyCatCreate(name: string, yearsOfExperience: int, breed: string, salary: real)

  /** The body of an update request: the salary only. */
  datatype SpyCatUpdate = SpyCatUpdate(salary: real)
}
