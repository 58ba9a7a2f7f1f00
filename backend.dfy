/** The running backend: the tutor and animal tables, updated in place by
    the route handlers one request at a time. Each handler performs the
    same database steps as the server and is proved to end in the tables and
    response that the request contract in `Routes` prescribes. */
module Backend {
  import opened Store
  import opened Middleware
  import opened Routes

  class Server {
    var tutors: seq<Tutor>
    var animals: seq<Animal>

    function Snapshot(): Db
      reads this
    {
      Db(tutors, animals)
    }

    ghost predicate Valid()
      reads this
    {
      Store.Valid(Snapshot())
    }

    /** The connection to the database, over whatever tables it already holds. */
    constructor (db: Db)
      requires Store.Valid(db)
      ensures Valid() && Snapshot() == db
    {
      tutors, animals := db.tutors, db.animals;
    }

    /** POST /tutors. `newId` is the id the database generates for the row. */
    method Register(name: string, email: string, phone: string, password: string, newId: string)
      returns (resp: Response)
      requires Valid() && newId !in TutorIds(tutors)
      modifies this
      ensures Valid() && animals == old(animals)
      ensures Outcome(Snapshot(), resp) == Routes.Register(old(Snapshot()), name, email, phone, password, newId)
    {
      if email in Emails(tutors) {
        resp := Reply(400, Error(EmailTaken));
        return;
      }
      var created := Tutor(newId, name, email, phone, password);
      tutors := tutors + [created];
      resp := Reply(201, Summary(SummaryOf(created)));
    }

    /** POST /login. The handler's own steps (`findFirst`, then the reply),
        proved to give the reply `Routes.Login` prescribes. */
    method Login(email: string, password: string) returns (resp: Response)
      requires Valid()
      ensures resp == Routes.Login(Snapshot(), email, password)
      ensures resp.Reply? && resp.status == 200 <==>
                exists t :: t in tutors && t.email == email && t.password == password
    {
      var found := FindLogin(tutors, email, password);
      if found.None? {
        resp := Reply(401, Error(InvalidLogin));
        return;
      }
      var t := found.value;
      resp := Reply(200, Session(SummaryOf(t), Jwt.Sign(t.id, t.name)));
    }

    /** GET /my-animals. The handler's own steps (the middleware, then
        `findMany`), proved to give the reply `Routes.ListMyAnimals` prescribes. */
    method ListMyAnimals(headers: map<string, string>) returns (resp: Response)
      requires Valid()
      ensures resp == Routes.ListMyAnimals(Snapshot(), headers)
    {
      var auth := Authenticate(headers);
      if auth.Failure? {
        resp := Refused(auth.error);
        return;
      }
      var tutorId := auth.value[UserIdHeader];
      resp := Reply(200, AnimalList(FindMany(animals, TutorIdIs(tutorId))));
    }

    /** POST /animals. `newId` is the id the database generates for the row. */
    method CreateAnimal(headers: map<string, string>, name: string, species: string, breed: string, age: int,
                        newId: string) returns (resp: Response)
      requires Valid() && newId !in AnimalIds(animals)
      modifies this
      ensures Valid() && tutors == old(tutors)
      ensures Outcome(Snapshot(), resp) == Routes.CreateAnimal(old(Snapshot()), headers, name, species, breed, age, newId)
    {
      var auth := Authenticate(headers);
      if auth.Failure? {
        resp := Refused(auth.error);
        return;
      }
      var tutorId := auth.value[UserIdHeader];
      if tutorId !in TutorIds(tutors) {
        resp := Rejected(ForeignKeyViolation);
        return;
      }
      var created := Animal(newId, name, species, breed, age, tutorId);
      animals := animals + [created];
      resp := Reply(201, AnimalRecord(created));
    }

    /** PUT /animals/:id. */
    method UpdateAnimal(headers: map<string, string>, animalId: string, name: string, species: string,
                        breed: string, age: int) returns (resp: Response)
      requires Valid()
      modifies this
      ensures Valid() && tutors == old(tutors)
      ensures Outcome(Snapshot(), resp) == Routes.UpdateAnimal(old(Snapshot()), headers, animalId, name, species, breed, age)
    {
      var auth := Authenticate(headers);
      if auth.Failure? {
        resp := Refused(auth.error);
        return;
      }
      if animalId !in AnimalIds(animals) {
        resp := Rejected(RecordNotFound);
        return;
      }
      animals := UpdateAnimalRow(animals, animalId, name, species, breed, age);
      resp := Reply(200, Updated);
    }

    /** DELETE /animals/:id. */
    method DeleteAnimal(headers: map<string, string>, animalId: string) returns (resp: Response)
      requires Valid()
      modifies this
      ensures Valid() && tutors == old(tutors)
      ensures Outcome(Snapshot(), resp) == Routes.DeleteAnimal(old(Snapshot()), headers, animalId)
    {
      var auth := Authenticate(headers);
      if auth.Failure? {
        resp := Refused(auth.error);
        return;
      }
      if animalId !in AnimalIds(animals) {
        resp := Rejected(RecordNotFound);
        return;
      }
      animals := DeleteMany(animals, IdIs(animalId));
      resp := Reply(204, NoContent);
      assert Outcome(Snapshot(), resp) == Routes.DeleteAnimal(old(Snapshot()), headers, animalId);
    }

    /** PUT /tutors. */
    method UpdateProfile(headers: map<string, string>, name: string, email: string, phone: string)
      returns (resp: Response)
      requires Valid()
      modifies this
      ensures Valid() && animals == old(animals)
      ensures Outcome(Snapshot(), resp) == Routes.UpdateProfile(old(Snapshot()), headers, name, email, phone)
    {
      var auth := Authenticate(headers);
      if auth.Failure? {
        resp := Refused(auth.error);
        return;
      }
      var id := auth.value[UserIdHeader];
      if id !in TutorIds(tutors) {
        resp := Rejected(RecordNotFound);
        return;
      }
      if EmailHeldByOther(tutors, email, id) {
        resp := Rejected(UniqueViolation);
        return;
      }
      ghost var before := Snapshot();
      UpdateTutorRowKeepsValid(before, id, name, email, phone);
      tutors := UpdateTutorRow(tutors, id, name, email, phone);
      resp := Reply(200, TutorRecord(TutorById(tutors, id).value));
      assert Outcome(Snapshot(), resp) == Routes.UpdateProfile(before, headers, name, email, phone);
    }

    /** DELETE /tutors: the caller's animals first, then the caller. */
    method DeleteAccount(headers: map<string, string>) returns (resp: Response)
      requires Valid()
      modifies this
      ensures Valid()
      ensures Outcome(Snapshot(), resp) == Routes.DeleteAccount(old(Snapshot()), headers)
    {
      var auth := Authenticate(headers);
      if auth.Failure? {
        resp := Refused(auth.error);
        return;
      }
      var id := auth.value[UserIdHeader];
      animals := DeleteMany(animals, TutorIdIs(id));
      if id !in TutorIds(tutors) {
        resp := Rejected(RecordNotFound);
        assert Outcome(Snapshot(), resp) == Routes.DeleteAccount(old(Snapshot()), headers);
        return;
      }
      tutors := DeleteTutorRow(tutors, id);
      resp := Reply(204, NoContent);
      assert Outcome(Snapshot(), resp) == Routes.DeleteAccount(old(Snapshot()), headers);
    }
  }
}
