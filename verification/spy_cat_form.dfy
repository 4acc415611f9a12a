/** The spy-cat form: its draft, field validation, the per-field error map,
    and submission. */
module SpyCatForm {
  import opened Base
  import opened CatTypes
  import Api
  import Catalogue

  datatype Field = NameField | YearsField | BreedField | SalaryField

  /** The error text shown under each field; a field without an entry shows none. */
  type Errors = map<Field, string>

  /** The form's state: the draft, the error map and the breeds offered. */
  datatype FormState = FormState(draft: SpyCatCreate, errors: Errors, breeds: seq<string>)

  const NameRequired: string := "Name is required"
  const YearsNonNegative: string := "Years of experience must be non-negative"
  const BreedRequired: string := "Breed is required"
  const SalaryNonNegative: string := "Salary must be non-negative"

  // ---------------------------------------------------------------------
  // Whitespace and `String.prototype.trim`
  // ---------------------------------------------------------------------

  /** The characters `trim` removes: ECMAScript white space and line terminators. */
  predicate IsWhitespace(c: char)
  {
    || c == '\t' || c == '\n' || c == '\U{000B}' || c == '\U{000C}' || c == '\r' || c == ' '
    || c == '\U{00A0}' || c == '\U{1680}' || ('\U{2000}' <= c <= '\U{200A}')
    || c == '\U{2028}' || c == '\U{2029}' || c == '\U{202F}' || c == '\U{205F}'
    || c == '\U{3000}' || c == '\U{FEFF}'
  }

  /** Every character of `s` is white space. */
  predicate Blank(s: string)
  {
    forall i :: 0 <= i < |s| ==> IsWhitespace(s[i])
  }

  /** `s` without its leading white space. */
  function TrimStart(s: string): (r: string)
    ensures |r| <= |s| && r == s[|s| - |r|..]
    ensures Blank(s[..|s| - |r|])
    ensures r == [] || !IsWhitespace(r[0])
    decreases |s|
  {
    if s == [] || !IsWhitespace(s[0]) then s
    else
      var r := TrimStart(s[1..]);
      assert s[..|s| - |r|] == [s[0]] + s[1..][..|s[1..]| - |r|];
      r
  }

  /** `s` without its trailing white space. */
  function TrimEnd(s: string): (r: string)
    ensures |r| <= |s| && r == s[..|r|]
    ensures Blank(s[|r|..])
    ensures r == [] || !IsWhitespace(r[|r| - 1])
    decreases |s|
  {
    if s == [] || !IsWhitespace(s[|s| - 1]) then s
    else
      var r := TrimEnd(s[..|s| - 1]);
      assert s[|r|..] == s[..|s| - 1][|r|..] + [s[|s| - 1]];
      r
  }

  /** `s.trim()`. */
  function Trim(s: string): string
  {
    TrimEnd(TrimStart(s))
  }

  /** A string trims to nothing exactly when it is all white space. */
  lemma TrimEmptyIffBlank(s: string)
    ensures Trim(s) == "" <==> Blank(s)
  {
  }

  // ---------------------------------------------------------------------
  // Draft
  // ---------------------------------------------------------------------

  /** JavaScript `a || b` on a string: `b` when `a` is empty. */
  function OrText(a: string, b: string): string { if a != "" then a else b }

  /** JavaScript `a || b` on a number: `b` when `a` is zero. */
  function OrInt(a: int, b: int): int { if a != 0 then a else b }
  function OrReal(a: real, b: real): real { if a != 0.0 then a else b }

  /** The initial draft: each field of the edited cat, or '' / 0 when there is
      none. The `||` fallbacks never change a value. */
  function InitialDraft(cat: Option<SpyCat>): (d: SpyCatCreate)
    ensures cat.Some? ==>
      d == SpyCatCreate(cat.value.name, cat.value.yearsOfExperience, cat.value.breed, cat.value.salary)
    ensures cat.None? ==> d == SpyCatCreate("", 0, "", 0.0)
  {
    match cat
    case Some(c) => SpyCatCreate(OrText(c.name, ""), OrInt(c.yearsOfExperience, 0), OrText(c.breed, ""), OrReal(c.salary, 0.0))
    case None => SpyCatCreate("", 0, "", 0.0)
  }

  /** The form as mounted: the initial draft, no errors, no breeds yet. */
  function Mount(cat: Option<SpyCat>): (s: FormState)
    ensures s.draft == InitialDraft(cat) && s.errors == map[] && s.breeds == []
  {
    FormState(InitialDraft(cat), map[], [])
  }

  /** The breed list arrives; `getCatBreeds` never fails, so this always
      replaces the offered breeds and never touches the error map. */
  function BreedsLoaded(s: FormState, fetch: Api.Remote<seq<Catalogue.BreedRecord>>): (r: FormState)
    ensures r.draft == s.draft && r.errors == s.errors
    ensures fetch.Err? ==> r.breeds == Api.FallbackBreeds
    ensures fetch.Ok? ==> |r.breeds| == |fetch.value|
    ensures fetch.Ok? ==> forall i :: 0 <= i < |r.breeds| ==> r.breeds[i] == fetch.value[i].name
  {
    s.(breeds := Api.GetCatBreeds(fetch))
  }

  // ---------------------------------------------------------------------
  // Validation
  // ---------------------------------------------------------------------

  /** All four field rules hold. */
  predicate DraftValid(d: SpyCatCreate)
  {
    !Blank(d.name) && d.yearsOfExperience >= 0 && d.breed != "" && d.salary >= 0.0
  }

  /** Whether `d` breaks the rule of field `f`. */
  predicate Fails(d: SpyCatCreate, f: Field)
  {
    match f
    case NameField => Trim(d.name) == ""
    case YearsField => d.yearsOfExperience < 0
    case BreedField => d.breed == ""
    case SalaryField => d.salary < 0.0
  }

  /** The message shown for a broken rule. */
  function Message(f: Field): string
  {
    match f
    case NameField => NameRequired
    case YearsField => YearsNonNegative
    case BreedField => BreedRequired
    case SalaryField => SalaryNonNegative
  }

  /** The error map of `validateForm`: every rule is checked, each failing one
      contributes its field and message. */
  function Validate(d: SpyCatCreate): (e: Errors)
    ensures NameField in e <==> Blank(d.name)
    ensures YearsField in e <==> d.yearsOfExperience < 0
    ensures BreedField in e <==> d.breed == ""
    ensures SalaryField in e <==> d.salary < 0.0
    ensures NameField in e ==> e[NameField] == NameRequired
    ensures YearsField in e ==> e[YearsField] == YearsNonNegative
    ensures BreedField in e ==> e[BreedField] == BreedRequired
    ensures SalaryField in e ==> e[SalaryField] == SalaryNonNegative
  {
    TrimEmptyIffBlank(d.name);
    var e := map f: Field | Fails(d, f) :: Message(f);
    assert NameField in e <==> Fails(d, NameField);
    assert YearsField in e <==> Fails(d, YearsField);
    assert BreedField in e <==> Fails(d, BreedField);
    assert SalaryField in e <==> Fails(d, SalaryField);
    e
  }

  datatype Validated = Validated(ok: bool, state: FormState)

  /** `validateForm`: replaces the whole error map and reports whether it is empty. */
  function ValidateForm(s: FormState): (v: Validated)
    ensures v.ok <==> DraftValid(s.draft)
    ensures v.ok <==> v.state.errors == map[]
    ensures v.state == s.(errors := Validate(s.draft))
  {
    var e := Validate(s.draft);
    assert e == map[] <==> DraftValid(s.draft) by {
      if !DraftValid(s.draft) {
        assert NameField in e || YearsField in e || BreedField in e || SalaryField in e;
      }
    }
    Validated(|e.Keys| == 0, s.(errors := e))
  }

  datatype Submitted = Submitted(emitted: Option<SpyCatCreate>, state: FormState)

  /** `handleSubmit`: the unchanged draft is handed to the caller exactly when
      it validates; either way the error map is the fresh one. */
  function HandleSubmit(s: FormState): (r: Submitted)
    ensures r.emitted.Some? <==> DraftValid(s.draft)
    ensures r.emitted.Some? ==> r.emitted.value == s.draft
    ensures r.state.draft == s.draft && r.state.breeds == s.breeds
    ensures r.state.errors == Validate(s.draft)
  {
    var v := ValidateForm(s);
    if v.ok then Submitted(Some(s.draft), v.state) else Submitted(None, v.state)
  }

  // ---------------------------------------------------------------------
  // Editing a field
  // ---------------------------------------------------------------------

  /** A change to one field of the draft. */
  datatype Edit = SetName(name: string) | SetYears(years: int) | SetBreed(breed: string) | SetSalary(salary: real)

  function FieldOf(e: Edit): Field
  {
    match e
    case SetName(_) => NameField
    case SetYears(_) => YearsField
    case SetBreed(_) => BreedField
    case SetSalary(_) => SalaryField
  }

  function ApplyEdit(d: SpyCatCreate, e: Edit): (r: SpyCatCreate)
    ensures FieldOf(e) != NameField ==> r.name == d.name
    ensures FieldOf(e) != YearsField ==> r.yearsOfExperience == d.yearsOfExperience
    ensures FieldOf(e) != BreedField ==> r.breed == d.breed
    ensures FieldOf(e) != SalaryField ==> r.salary == d.salary
    ensures e.SetName? ==> r.name == e.name
    ensures e.SetYears? ==> r.yearsOfExperience == e.years
    ensures e.SetBreed? ==> r.breed == e.breed
    ensures e.SetSalary? ==> r.salary == e.salary
  {
    match e
    case SetName(v) => d.(name := v)
    case SetYears(v) => d.(yearsOfExperience := v)
    case SetBreed(v) => d.(breed := v)
    case SetSalary(v) => d.(salary := v)
  }

  /** `handleChange`: sets the one field; a shown error of that field is
      blanked, every other error stays as it was. Nothing is re-validated. */
  function HandleChange(s: FormState, e: Edit): (r: FormState)
    ensures r.draft == ApplyEdit(s.draft, e) && r.breeds == s.breeds
    ensures r.errors.Keys == s.errors.Keys
    ensures FieldOf(e) in r.errors ==> r.errors[FieldOf(e)] == ""
    ensures forall f :: f in s.errors && f != FieldOf(e) ==> r.errors[f] == s.errors[f]
  {
    var f := FieldOf(e);
    var errors := if f in s.errors && s.errors[f] != "" then s.errors[f := ""] else s.errors;
    FormState(ApplyEdit(s.draft, e), errors, s.breeds)
  }

  /** The rules are independent: changing one field leaves the verdict on
      every other field as it was. */
  lemma ValidationIndependent(d: SpyCatCreate, e: Edit, f: Field)
    requires f != FieldOf(e)
    ensures f in Validate(d) <==> f in Validate(ApplyEdit(d, e))
  {
  }

  /** A draft that breaks every rule yields all four errors at once. */
  lemma AllFourErrors()
    ensures Validate(SpyCatCreate("", -1, "", -5.0)) ==
      map[NameField := NameRequired, YearsField := YearsNonNegative,
          BreedField := BreedRequired, SalaryField := SalaryNonNegative]
  {
  }
}
