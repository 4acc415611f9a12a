/** Request bodies accepted by the backend and their field validators.
    A body that fails a validator is refused before any handler runs. */
module Schemas {
  import opened Base

  /** Body of `POST /spy-cats/`. */
  datatype SpyCatCreate = SpyCatCreate(name: string, yearsOfExperience: int, breed: string, salary: real)

  /** Body of `PUT /spy-cats/{id}`: the salary is the only field. */
  datatype SpyCatUpdate = SpyCatUpdate(salary: real)

  /** One target of a mission-creation body. */
  datatype TargetCreate = TargetCreate(name: string, country: string, notes: string)

  /** Body of `PUT /missions/targets/{id}`; `None` means "leave unchanged". */
  datatype TargetUpdate = TargetUpdate(notes: Option<string>, complete: Option<bool>)

  /** Body of `POST /missions/`. */
  datatype MissionCreate = MissionCreate(targets: seq<TargetCreate>)

  const ExperienceMessage: string := "Years of experience must be non-negative"
  const SalaryMessage: string := "Salary must be non-negative"
  const TargetsCountMessage: string := "Mission must have between 1 and 3 targets"

  /** The messages of every validator of `SpyCatCreate` that rejects `c`
      (all field validators run; their errors are collected). */
  function SpyCatCreateErrors(c: SpyCatCreate): (errs: seq<string>)
    ensures ExperienceMessage in errs <==> c.yearsOfExperience < 0
    ensures SalaryMessage in errs <==> c.salary < 0.0
    ensures errs == [] <==> c.yearsOfExperience >= 0 && c.salary >= 0.0
  {
    (if c.yearsOfExperience < 0 then [ExperienceMessage] else [])
    + (if c.salary < 0.0 then [SalaryMessage] else [])
  }

  /** The messages of the `SpyCatUpdate` salary validator. */
  function SpyCatUpdateErrors(u: SpyCatUpdate): (errs: seq<string>)
    ensures errs == [] <==> u.salary >= 0.0
    ensures errs != [] ==> errs == [SalaryMessage]
  {
    if u.salary < 0.0 then [SalaryMessage] else []
  }

  /** The messages of `validate_targets_count`. */
  function MissionCreateErrors(m: MissionCreate): (errs: seq<string>)
    ensures errs == [] <==> 1 <= |m.targets| <= 3
    ensures errs != [] ==> errs == [TargetsCountMessage]
  {
    if |m.targets| < 1 || |m.targets| > 3 then [TargetsCountMessage] else []
  }

  /** A target body as parsed: an absent `notes` takes its default, the empty string. */
  function ParseTargetCreate(name: string, country: string, notes: Option<string>): (t: TargetCreate)
    ensures t.name == name && t.country == country
    ensures notes.None? ==> t.notes == ""
    ensures notes.Some? ==> t.notes == notes.value
  {
    TargetCreate(name, country, if notes.Some? then notes.value else "")
  }

  /** A target-update body as parsed: absent fields default to `None`. */
  function ParseTargetUpdate(notes: Option<Option<string>>, complete: Option<Option<bool>>): (u: TargetUpdate)
    ensures notes.None? ==> u.notes.None?
    ensures complete.None? ==> u.complete.None?
    ensures notes.Some? ==> u.notes == notes.value
    ensures complete.Some? ==> u.complete == complete.value
  {
    TargetUpdate(
      if notes.Some? then notes.value else None,
      if complete.Some? then complete.value else None)
  }
}
