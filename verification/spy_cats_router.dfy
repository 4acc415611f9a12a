/** The `/spy-cats` endpoints: each turns a store outcome into a status and a body. */
module SpyCatsRouter {
  import opened Models
  import opened Schemas
  import opened Crud
  import opened Http
  import opened ExternalServices

  const CatNotFound: string := "Spy cat not found"

  /** `POST /spy-cats/`: body validation (422), then the breed check (400),
      then the insert (201). */
  function CreateSpyCatRoute(db: Db, body: SpyCatCreate, fetch: BreedFetch): (x: Exchange<SpyCat>)
    ensures SpyCatCreateErrors(body) != [] ==>
      x == Exchange(Reply(UNPROCESSABLE, Invalid(SpyCatCreateErrors(body))), db)
    ensures SpyCatCreateErrors(body) == [] && !ValidateCatBreed(body.breed, fetch) ==>
      x == Exchange(Reply(BAD_REQUEST, Detail("Invalid cat breed: " + body.breed)), db)
    ensures x.reply.status == CREATED <==> SpyCatCreateErrors(body) == [] && ValidateCatBreed(body.breed, fetch)
    ensures x.reply.status == CREATED ==>
      && x.reply.payload == Json(CreateSpyCat(db, body).result)
      && x.db == CreateSpyCat(db, body).db
    ensures x.reply.status != CREATED ==> x.db == db
  {
    var errs := SpyCatCreateErrors(body);
    if errs != [] then Exchange(Reply(UNPROCESSABLE, Invalid(errs)), db)
    else if !ValidateCatBreed(body.breed, fetch) then
      Exchange(Reply(BAD_REQUEST, Detail("Invalid cat breed: " + body.breed)), db)
    else
      var step := CreateSpyCat(db, body);
      Exchange(Reply(CREATED, Json(step.result)), step.db)
  }

  /** `GET /spy-cats/?skip=&limit=`; both query parameters have defaults. */
  function ReadSpyCatsRoute(db: Db, skip: nat := 0, limit: nat := 100): (reply: Reply<seq<SpyCat>>)
    ensures reply.status == OK
    ensures reply.payload == Json(GetSpyCats(db, skip, limit))
  {
    Reply(OK, Json(GetSpyCats(db, skip, limit)))
  }

  /** `GET /spy-cats/available`. */
  function ReadAvailableSpyCatsRoute(db: Db): (reply: Reply<seq<SpyCat>>)
    ensures reply.status == OK
    ensures reply.payload.Json? && forall c :: c in reply.payload.value <==>
      c in db.cats && !HasActiveMission(db.missions, c.id)
  {
    Reply(OK, Json(GetAvailableSpyCats(db)))
  }

  /** `GET /spy-cats/{id}`. */
  function ReadSpyCatRoute(db: Db, catId: int): (reply: Reply<SpyCat>)
    ensures reply.status == NOT_FOUND <==> forall c :: c in db.cats ==> c.id != catId
    ensures reply.status == NOT_FOUND ==> reply.payload == Detail(CatNotFound)
    ensures reply.status != NOT_FOUND ==>
      reply.status == OK && reply.payload.Json? && reply.payload.value in db.cats && reply.payload.value.id == catId
  {
    match GetSpyCat(db, catId)
    case None => Reply(NOT_FOUND, Detail(CatNotFound))
    case Some(cat) => Reply(OK, Json(cat))
  }

  /** `PUT /spy-cats/{id}`: body validation (422), then 404 for a missing cat. */
  function UpdateSpyCatRoute(db: Db, catId: int, body: SpyCatUpdate): (x: Exchange<SpyCat>)
    ensures body.salary < 0.0 ==> x == Exchange(Reply(UNPROCESSABLE, Invalid([SalaryMessage])), db)
    ensures body.salary >= 0.0 && GetSpyCat(db, catId).None? ==>
      x == Exchange(Reply(NOT_FOUND, Detail(CatNotFound)), db)
    ensures x.reply.status == OK <==> body.salary >= 0.0 && GetSpyCat(db, catId).Some?
    ensures x.reply.status == OK ==>
      && x.reply.payload == Json(GetSpyCat(db, catId).value.(salary := body.salary))
      && x.db == UpdateSpyCat(db, catId, body).db
  {
    var errs := SpyCatUpdateErrors(body);
    if errs != [] then Exchange(Reply(UNPROCESSABLE, Invalid(errs)), db)
    else
      var step := UpdateSpyCat(db, catId, body);
      match step.result
      case None => Exchange(Reply(NOT_FOUND, Detail(CatNotFound)), db)
      case Some(cat) => Exchange(Reply(OK, Json(cat)), step.db)
  }

  /** `DELETE /spy-cats/{id}`: 204 on success, 404 for a missing cat. */
  function DeleteSpyCatRoute(db: Db, catId: int): (x: Exchange<()>)
    ensures x.reply.status == NO_CONTENT <==> exists c :: c in db.cats && c.id == catId
    ensures x.reply.status == NO_CONTENT ==> x.reply.payload == Empty && x.db == DeleteSpyCat(db, catId).db
    ensures x.reply.status != NO_CONTENT ==> x == Exchange(Reply(NOT_FOUND, Detail(CatNotFound)), db)
  {
    var step := DeleteSpyCat(db, catId);
    if step.result then Exchange(Reply(NO_CONTENT, Empty), step.db)
    else Exchange(Reply(NOT_FOUND, Detail(CatNotFound)), db)
  }

  /** Listing without query parameters returns the first hundred cats in table order. */
  lemma ListingDefaults(db: Db)
    ensures ReadSpyCatsRoute(db).payload == Json(db.cats[..if |db.cats| < 100 then |db.cats| else 100])
  {
  }
}
