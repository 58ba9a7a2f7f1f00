/** The backend's request contract: every route handler as a function from
    the tables and the request to the new tables and the response. The
    `Backend` class performs the same steps in place and is proved equal. */
module Routes {
  import opened Wrappers
  import opened Store
  import opened Middleware
  import Jwt

  /** What replies carry about a tutor: id, name and email, never the password. */
  datatype TutorSummary = TutorSummary(id: string, name: string, email: string)

  datatype Problem =
    | Unauthorized(reason: AuthError)  // 401 from the middleware
    | EmailTaken                       // 400 on registration
    | InvalidLogin                     // 401 on login

  datatype Body =
    | Error(problem: Problem)
    | Summary(summary: TutorSummary)
    | Session(tutor: TutorSummary, token: string)
    | AnimalList(animals: seq<Animal>)
    | AnimalRecord(animal: Animal)
    | TutorRecord(record: Tutor)
    | Updated     // the "updated" message of PUT /animals/:id
    | NoContent

  /** Why the database refused a write. The handlers do not catch these;
      what the client then sees depends on the web framework, so the model
      records only the cause and leaves the tables unchanged. */
  datatype DbError = RecordNotFound | UniqueViolation | ForeignKeyViolation

  datatype Response = Reply(status: nat, body: Body) | Rejected(cause: DbError)

  datatype Outcome = Outcome(db: Db, response: Response)

  function SummaryOf(t: Tutor): TutorSummary
  {
    TutorSummary(t.id, t.name, t.email)
  }

  function Refused(e: AuthError): Response
  {
    Reply(401, Error(Unauthorized(e)))
  }

  /** POST /tutors. */
  function Register(db: Db, name: string, email: string, phone: string, password: string, newId: string)
    : (o: Outcome)
    ensures email in Emails(db.tutors) ==> o == Outcome(db, Reply(400, Error(EmailTaken)))
    ensures email !in Emails(db.tutors) ==>
              && o.db == Db(db.tutors + [Tutor(newId, name, email, phone, password)], db.animals)
              && o.response == Reply(201, Summary(TutorSummary(newId, name, email)))
    ensures Valid(db) && newId !in TutorIds(db.tutors) ==> Valid(o.db)
  {
    if email in Emails(db.tutors) then
      Outcome(db, Reply(400, Error(EmailTaken)))
    else
      var created := Tutor(newId, name, email, phone, password);
      Outcome(db.(tutors := db.tutors + [created]), Reply(201, Summary(SummaryOf(created))))
  }

  /** POST /login: succeeds exactly when some tutor has both the email and
      the password, and then answers with that tutor and a token issued for
      its id and name. */
  function Login(db: Db, email: string, password: string): (r: Response)
    ensures r == Reply(401, Error(InvalidLogin)) <==>
              forall t :: t in db.tutors ==> !(t.email == email && t.password == password)
    ensures Valid(db) ==>
              forall t :: t in db.tutors && t.email == email && t.password == password ==>
                r == Reply(200, Session(SummaryOf(t), Jwt.Sign(t.id, t.name)))
  {
    match FindLogin(db.tutors, email, password)
    case None => Reply(401, Error(InvalidLogin))
    case Some(t) =>
      assert Valid(db) ==> forall u :: u in db.tutors && u.email == email ==> u == t by {
        if Valid(db) {
          forall u | u in db.tutors && u.email == email ensures u == t {
            UniqueEmail(db, u, t);
          }
        }
      }
      Reply(200, Session(SummaryOf(t), Jwt.Sign(t.id, t.name)))
  }

  /** GET /my-animals: exactly the caller's animals. */
  function ListMyAnimals(db: Db, headers: map<string, string>): (r: Response)
    ensures CallerOf(headers).Failure? ==> r == Refused(CallerOf(headers).error)
    ensures CallerOf(headers).Success? ==>
              && r.Reply? && r.status == 200 && r.body.AnimalList?
              && (forall a :: a in r.body.animals <==> a in db.animals && a.tutorId == CallerOf(headers).value)
              && forall a :: multiset(r.body.animals)[a] ==
                              if a.tutorId == CallerOf(headers).value then multiset(db.animals)[a] else 0
  {
    match CallerOf(headers)
    case Failure(e) => Refused(e)
    case Success(caller) => Reply(200, AnimalList(FindMany(db.animals, TutorIdIs(caller))))
  }

  /** POST /animals: the new animal's owner is the caller, never a body field.
      The database refuses an owner that is no longer a tutor. */
  function CreateAnimal(db: Db, headers: map<string, string>, name: string, species: string, breed: string,
                        age: int, newId: string): (o: Outcome)
    ensures CallerOf(headers).Failure? ==> o == Outcome(db, Refused(CallerOf(headers).error))
    ensures CallerOf(headers).Success? && CallerOf(headers).value !in TutorIds(db.tutors) ==>
              o == Outcome(db, Rejected(ForeignKeyViolation))
    ensures CallerOf(headers).Success? && CallerOf(headers).value in TutorIds(db.tutors) ==>
              var created := Animal(newId, name, species, breed, age, CallerOf(headers).value);
              o == Outcome(Db(db.tutors, db.animals + [created]), Reply(201, AnimalRecord(created)))
    ensures Valid(db) && newId !in AnimalIds(db.animals) ==> Valid(o.db)
  {
    match CallerOf(headers)
    case Failure(e) => Outcome(db, Refused(e))
    case Success(caller) =>
      if caller !in TutorIds(db.tutors) then
        Outcome(db, Rejected(ForeignKeyViolation))
      else
        var created := Animal(newId, name, species, breed, age, caller);
        Outcome(db.(animals := db.animals + [created]), Reply(201, AnimalRecord(created)))
  }

  /** PUT /animals/:id: looks the animal up by id alone; the caller is not consulted. */
  function UpdateAnimal(db: Db, headers: map<string, string>, animalId: string, name: string, species: string,
                        breed: string, age: int): (o: Outcome)
    ensures CallerOf(headers).Failure? ==> o == Outcome(db, Refused(CallerOf(headers).error))
    ensures CallerOf(headers).Success? && animalId !in AnimalIds(db.animals) ==>
              o == Outcome(db, Rejected(RecordNotFound))
    ensures CallerOf(headers).Success? && animalId in AnimalIds(db.animals) ==>
              && o.response == Reply(200, Updated)
              && o.db == Db(db.tutors, UpdateAnimalRow(db.animals, animalId, name, species, breed, age))
    ensures Valid(db) ==> Valid(o.db)
  {
    match CallerOf(headers)
    case Failure(e) => Outcome(db, Refused(e))
    case Success(_) =>
      if animalId !in AnimalIds(db.animals) then
        Outcome(db, Rejected(RecordNotFound))
      else
        var animals := UpdateAnimalRow(db.animals, animalId, name, species, breed, age);
        assert Valid(db) ==> Valid(db.(animals := animals)) by {
          if Valid(db) {
            forall a | a in animals ensures a.tutorId in TutorIds(db.tutors) {
              var i :| 0 <= i < |animals| && animals[i] == a;
              assert a.tutorId == db.animals[i].tutorId;
            }
          }
        }
        Outcome(db.(animals := animals), Reply(200, Updated))
  }

  /** DELETE /animals/:id: removes the animal with that id, whoever owns it. */
  function DeleteAnimal(db: Db, headers: map<string, string>, animalId: string): (o: Outcome)
    ensures CallerOf(headers).Failure? ==> o == Outcome(db, Refused(CallerOf(headers).error))
    ensures CallerOf(headers).Success? && animalId !in AnimalIds(db.animals) ==>
              o == Outcome(db, Rejected(RecordNotFound))
    ensures CallerOf(headers).Success? && animalId in AnimalIds(db.animals) ==>
              && o.response == Reply(204, NoContent)
              && o.db.tutors == db.tutors
              && forall a :: a in o.db.animals <==> a in db.animals && a.id != animalId
    ensures Valid(db) ==> Valid(o.db)
  {
    match CallerOf(headers)
    case Failure(e) => Outcome(db, Refused(e))
    case Success(_) =>
      if animalId !in AnimalIds(db.animals) then
        Outcome(db, Rejected(RecordNotFound))
      else
        var animals := DeleteMany(db.animals, IdIs(animalId));
        assert Valid(db) ==> Valid(db.(animals := animals)) by {
          if Valid(db) {
            DeleteManyKeepsDistinct(db.animals, IdIs(animalId));
          }
        }
        Outcome(db.(animals := animals), Reply(204, NoContent))
  }

  /** PUT /tutors: edits the caller's own record and answers with all of it.
      The database refuses a missing caller and an email another tutor has. */
  function UpdateProfile(db: Db, headers: map<string, string>, name: string, email: string, phone: string)
    : (o: Outcome)
    ensures CallerOf(headers).Failure? ==> o == Outcome(db, Refused(CallerOf(headers).error))
    ensures CallerOf(headers).Success? && CallerOf(headers).value !in TutorIds(db.tutors) ==>
              o == Outcome(db, Rejected(RecordNotFound))
    ensures CallerOf(headers).Success? && CallerOf(headers).value in TutorIds(db.tutors) &&
            EmailHeldByOther(db.tutors, email, CallerOf(headers).value) ==>
              o == Outcome(db, Rejected(UniqueViolation))
    ensures CallerOf(headers).Success? && CallerOf(headers).value in TutorIds(db.tutors) &&
            !EmailHeldByOther(db.tutors, email, CallerOf(headers).value) ==>
              && o.db == Db(UpdateTutorRow(db.tutors, CallerOf(headers).value, name, email, phone), db.animals)
              && o.response == Reply(200, TutorRecord(Tutor(CallerOf(headers).value, name, email, phone,
                                                            TutorById(db.tutors, CallerOf(headers).value).value.password)))
    ensures o.response.Reply? && o.response.status == 200 ==>
              && CallerOf(headers).Success?
              && o.db == Db(UpdateTutorRow(db.tutors, CallerOf(headers).value, name, email, phone), db.animals)
              && o.response.body.TutorRecord?
              && o.response.body.record.id == CallerOf(headers).value
              && o.response.body.record in o.db.tutors
    ensures Valid(db) ==> Valid(o.db)
  {
    match CallerOf(headers)
    case Failure(e) => Outcome(db, Refused(e))
    case Success(caller) =>
      if caller !in TutorIds(db.tutors) then
        Outcome(db, Rejected(RecordNotFound))
      else if EmailHeldByOther(db.tutors, email, caller) then
        Outcome(db, Rejected(UniqueViolation))
      else
        var tutors := UpdateTutorRow(db.tutors, caller, name, email, phone);
        assert caller in TutorIds(tutors) by {
          var i :| 0 <= i < |db.tutors| && db.tutors[i].id == caller;
          assert tutors[i] in tutors;
        }
        assert Valid(db) ==> Valid(db.(tutors := tutors)) by {
          if Valid(db) {
            UpdateTutorRowKeepsValid(db, caller, name, email, phone);
          }
        }
        TutorByIdAfterUpdate(db.tutors, caller, name, email, phone);
        Outcome(db.(tutors := tutors), Reply(200, TutorRecord(TutorById(tutors, caller).value)))
  }

  /** DELETE /tutors: first deletes the caller's animals, then the caller. */
  function DeleteAccount(db: Db, headers: map<string, string>): (o: Outcome)
    ensures CallerOf(headers).Failure? ==> o == Outcome(db, Refused(CallerOf(headers).error))
    ensures CallerOf(headers).Success? ==>
              var caller := CallerOf(headers).value;
              && (forall a :: a in o.db.animals <==> a in db.animals && a.tutorId != caller)
              && (forall t :: t in o.db.tutors <==> t in db.tutors && t.id != caller)
              && o.response == (if caller in TutorIds(db.tutors) then Reply(204, NoContent)
                                else Rejected(RecordNotFound))
    ensures Valid(db) ==> Valid(o.db)
  {
    match CallerOf(headers)
    case Failure(e) => Outcome(db, Refused(e))
    case Success(caller) =>
      var animals := DeleteMany(db.animals, TutorIdIs(caller));
      assert Valid(db) ==> Valid(Db(DeleteTutorRow(db.tutors, caller), animals)) by {
        if Valid(db) {
          DeleteManyKeepsDistinct(db.animals, TutorIdIs(caller));
          DeleteTutorRowKeepsDistinct(db.tutors, caller);
          forall a | a in animals ensures a.tutorId in TutorIds(DeleteTutorRow(db.tutors, caller)) {
            var t :| t in db.tutors && t.id == a.tutorId;
          }
        }
      }
      if caller !in TutorIds(db.tutors) then
        Outcome(db.(animals := animals), Rejected(RecordNotFound))
      else
        Outcome(Db(DeleteTutorRow(db.tutors, caller), animals), Reply(204, NoContent))
  }

  // Properties that relate several requests.

  /** Registering an email a second time is refused and changes nothing. */
  lemma RegisterTwice(db: Db, name: string, email: string, phone: string, password: string, newId: string,
                      name': string, phone': string, password': string, newId': string)
    ensures var first := Register(db, name, email, phone, password, newId);
            Register(first.db, name', email, phone', password', newId') == Outcome(first.db, Reply(400, Error(EmailTaken)))
  {
  }

  /** A newly registered tutor can log in with its email and password, and
      the session names the new tutor. */
  lemma LoginAfterRegister(db: Db, name: string, email: string, phone: string, password: string, newId: string)
    requires Valid(db) && newId !in TutorIds(db.tutors)
    requires email !in Emails(db.tutors)
    ensures Login(Register(db, name, email, phone, password, newId).db, email, password)
            == Reply(200, Session(TutorSummary(newId, name, email), Jwt.Sign(newId, name)))
  {
  }

  /** The token a successful login hands out, sent back as `Bearer <token>`,
      makes the middleware act as the tutor that logged in. */
  lemma LoginTokenAuthenticates(db: Db, email: string, password: string, headers: map<string, string>)
    requires Login(db, email, password).Reply? && Login(db, email, password).status == 200
    requires AuthorizationHeader in headers
    requires headers[AuthorizationHeader] == "Bearer " + Login(db, email, password).body.token
    ensures CallerOf(headers) == Success(Login(db, email, password).body.tutor.id)
  {
    var t := FindLogin(db.tutors, email, password).value;
    IssuedTokenAuthenticates(headers, t.id, t.name);
  }

  /** After a profile edit the tutor logs in with the new email and the old
      password, and no longer with the old email. */
  lemma LoginAfterEmailChange(db: Db, headers: map<string, string>, t: Tutor, name: string, email: string,
                              phone: string)
    requires Valid(db) && t in db.tutors
    requires CallerOf(headers) == Success(t.id)
    requires UpdateProfile(db, headers, name, email, phone).response.Reply?
    ensures var after := UpdateProfile(db, headers, name, email, phone).db;
            Login(after, email, t.password) == Reply(200, Session(TutorSummary(t.id, name, email), Jwt.Sign(t.id, name)))
    ensures var after := UpdateProfile(db, headers, name, email, phone).db;
            t.email != email ==> Login(after, t.email, t.password) == Reply(401, Error(InvalidLogin))
  {
    var after := UpdateProfile(db, headers, name, email, phone).db;
    var i :| 0 <= i < |db.tutors| && db.tutors[i] == t;
    assert after.tutors[i] == Tutor(t.id, name, email, phone, t.password);
    assert after.tutors[i] in after.tutors;
    if t.email != email {
      forall u | u in after.tutors ensures !(u.email == t.email && u.password == t.password) {
        var j :| 0 <= j < |after.tutors| && after.tutors[j] == u;
        if j != i {
          assert db.tutors[j].id != t.id by {
            if j < i { assert db.tutors[j].id != db.tutors[i].id; }
            else { assert db.tutors[i].id != db.tutors[j].id; }
          }
          if j < i { assert db.tutors[j].email != db.tutors[i].email; }
          else { assert db.tutors[i].email != db.tutors[j].email; }
        }
      }
    }
  }

  /** An animal created by the caller is listed for the caller afterwards. */
  lemma CreatedAnimalIsListed(db: Db, headers: map<string, string>, name: string, species: string,
                              breed: string, age: int, newId: string)
    requires CreateAnimal(db, headers, name, species, breed, age, newId).response.Reply?
    requires CreateAnimal(db, headers, name, species, breed, age, newId).response.status == 201
    ensures var o := CreateAnimal(db, headers, name, species, breed, age, newId);
            var listed := ListMyAnimals(o.db, headers);
            listed.Reply? && listed.body.AnimalList? && o.response.body.animal in listed.body.animals
  {
  }

  /** Any authenticated caller can delete any tutor's animal: the handler
      never compares the owner with the caller. */
  lemma DeleteIgnoresOwner(db: Db, headers: map<string, string>, caller: string, a: Animal)
    requires CallerOf(headers) == Success(caller)
    requires a in db.animals && a.tutorId != caller
    ensures DeleteAnimal(db, headers, a.id).response == Reply(204, NoContent)
    ensures a !in DeleteAnimal(db, headers, a.id).db.animals
  {
  }

  /** Any authenticated caller can rewrite any tutor's animal. */
  lemma UpdateIgnoresOwner(db: Db, headers: map<string, string>, caller: string, a: Animal, name: string,
                           species: string, breed: string, age: int)
    requires CallerOf(headers) == Success(caller)
    requires a in db.animals && a.tutorId != caller
    ensures UpdateAnimal(db, headers, a.id, name, species, breed, age).response == Reply(200, Updated)
    ensures Animal(a.id, name, species, breed, age, a.tutorId)
            in UpdateAnimal(db, headers, a.id, name, species, breed, age).db.animals
  {
  }

  /** After deleting an account, listing with the same (still unexpired)
      token finds nothing, and every other tutor's list is as before. */
  lemma DeleteAccountCascades(db: Db, headers: map<string, string>, other: map<string, string>)
    requires CallerOf(headers).Success?
    ensures ListMyAnimals(DeleteAccount(db, headers).db, headers) == Reply(200, AnimalList([]))
    ensures CallerOf(other).Success? && CallerOf(other).value != CallerOf(headers).value ==>
              ListMyAnimals(DeleteAccount(db, headers).db, other) == ListMyAnimals(db, other)
  {
    var caller := CallerOf(headers).value;
    var after := DeleteAccount(db, headers).db;
    FindManyNone(after.animals, TutorIdIs(caller));
    if CallerOf(other).Success? && CallerOf(other).value != caller {
      FindManyAfterDeleteMany(db.animals, caller, CallerOf(other).value);
    }
  }
}
