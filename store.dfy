/** The two database tables the backend works on, and what the database
    guarantees about them: generated ids are unique, tutor emails are unique,
    and every animal's `tutorId` names an existing tutor. */
module Store {
  import opened Wrappers

  datatype Tutor = Tutor(id: string, name: string, email: string, phone: string, password: string)

  datatype Animal = Animal(id: string, name: string, species: string, breed: string, age: int, tutorId: string)

  /** Both tables, each in storage order (the order `findMany` returns rows in). */
  datatype Db = Db(tutors: seq<Tutor>, animals: seq<Animal>)

  function TutorIds(tutors: seq<Tutor>): set<string>
  {
    set t | t in tutors :: t.id
  }

  function Emails(tutors: seq<Tutor>): set<string>
  {
    set t | t in tutors :: t.email
  }

  function AnimalIds(animals: seq<Animal>): set<string>
  {
    set a | a in animals :: a.id
  }

  predicate DistinctTutors(tutors: seq<Tutor>)
  {
    && (forall i, j :: 0 <= i < j < |tutors| ==> tutors[i].id != tutors[j].id)
    && (forall i, j :: 0 <= i < j < |tutors| ==> tutors[i].email != tutors[j].email)
  }

  predicate DistinctAnimals(animals: seq<Animal>)
  {
    forall i, j :: 0 <= i < j < |animals| ==> animals[i].id != animals[j].id
  }

  /** The database constraints: unique keys and the owner foreign key. */
  predicate Valid(db: Db)
  {
    && DistinctTutors(db.tutors)
    && DistinctAnimals(db.animals)
    && (forall a :: a in db.animals ==> a.tutorId in TutorIds(db.tutors))
  }

  /** Some tutor other than `id` has this email. */
  predicate EmailHeldByOther(tutors: seq<Tutor>, email: string, id: string)
  {
    exists t :: t in tutors && t.email == email && t.id != id
  }

  /** The `where` clauses the handlers put on the animal table. */
  datatype AnimalWhere = IdIs(id: string) | TutorIdIs(tutorId: string)

  predicate Matches(a: Animal, where: AnimalWhere)
  {
    match where
    case IdIs(id) => a.id == id
    case TutorIdIs(tutorId) => a.tutorId == tutorId
  }

  /** `animal.findMany({where})`: the matching rows, in storage order. */
  function FindMany(animals: seq<Animal>, where: AnimalWhere): (r: seq<Animal>)
    ensures forall a :: a in r <==> a in animals && Matches(a, where)
    ensures forall a :: multiset(r)[a] == if Matches(a, where) then multiset(animals)[a] else 0
  {
    if animals == [] then []
    else
      assert animals == [animals[0]] + animals[1..];
      if Matches(animals[0], where) then [animals[0]] + FindMany(animals[1..], where)
      else FindMany(animals[1..], where)
  }

  /** The animal table after `animal.deleteMany({where})` (and after
      `animal.delete` by id, since ids are unique): the rows that do not match. */
  function DeleteMany(animals: seq<Animal>, where: AnimalWhere): (r: seq<Animal>)
    ensures forall a :: a in r <==> a in animals && !Matches(a, where)
  {
    if animals == [] then []
    else if Matches(animals[0], where) then DeleteMany(animals[1..], where)
    else [animals[0]] + DeleteMany(animals[1..], where)
  }

  /** The animal table after `animal.update({where: {id}, data})`: the row
      with that id gets the new name, species, breed and age; the owner and
      every other row stay. */
  function UpdateAnimalRow(animals: seq<Animal>, id: string, name: string, species: string, breed: string, age: int)
    : (r: seq<Animal>)
    ensures |r| == |animals|
    ensures forall i :: 0 <= i < |animals| && animals[i].id != id ==> r[i] == animals[i]
    ensures forall i :: 0 <= i < |animals| && animals[i].id == id ==>
              r[i] == Animal(id, name, species, breed, age, animals[i].tutorId)
  {
    if animals == [] then []
    else
      var a := animals[0];
      var head := if a.id == id then a.(name := name, species := species, breed := breed, age := age) else a;
      [head] + UpdateAnimalRow(animals[1..], id, name, species, breed, age)
  }

  /** The tutor table after `tutor.update({where: {id}, data})`: the row with
      that id gets the new name, email and phone and keeps its password. */
  function UpdateTutorRow(tutors: seq<Tutor>, id: string, name: string, email: string, phone: string)
    : (r: seq<Tutor>)
    ensures |r| == |tutors|
    ensures forall i :: 0 <= i < |tutors| && tutors[i].id != id ==> r[i] == tutors[i]
    ensures forall i :: 0 <= i < |tutors| && tutors[i].id == id ==>
              r[i] == Tutor(id, name, email, phone, tutors[i].password)
  {
    if tutors == [] then []
    else
      var t := tutors[0];
      var head := if t.id == id then t.(name := name, email := email, phone := phone) else t;
      [head] + UpdateTutorRow(tutors[1..], id, name, email, phone)
  }

  /** The tutor table after `tutor.delete({where: {id}})`. */
  function DeleteTutorRow(tutors: seq<Tutor>, id: string): (r: seq<Tutor>)
    ensures forall t :: t in r <==> t in tutors && t.id != id
  {
    if tutors == [] then []
    else if tutors[0].id == id then DeleteTutorRow(tutors[1..], id)
    else [tutors[0]] + DeleteTutorRow(tutors[1..], id)
  }

  /** The first tutor row with this id. */
  function TutorById(tutors: seq<Tutor>, id: string): (r: Option<Tutor>)
    ensures r.Some? ==> r.value in tutors && r.value.id == id
    ensures r.None? <==> id !in TutorIds(tutors)
  {
    if tutors == [] then None
    else if tutors[0].id == id then Some(tutors[0])
    else TutorById(tutors[1..], id)
  }

  /** Reading a tutor back after `UpdateTutorRow` gives the edited fields
      and the password of the row it replaced. */
  lemma {:induction false} TutorByIdAfterUpdate(tutors: seq<Tutor>, id: string, name: string, email: string, phone: string)
    requires id in TutorIds(tutors)
    ensures TutorById(UpdateTutorRow(tutors, id, name, email, phone), id)
            == Some(Tutor(id, name, email, phone, TutorById(tutors, id).value.password))
  {
    var updated := UpdateTutorRow(tutors, id, name, email, phone);
    if tutors[0].id != id {
      assert id in TutorIds(tutors[1..]) by {
        var t :| t in tutors && t.id == id;
        var i :| 0 <= i < |tutors| && tutors[i] == t;
        assert tutors[1..][i - 1] == t;
      }
      assert updated[1..] == UpdateTutorRow(tutors[1..], id, name, email, phone);
      TutorByIdAfterUpdate(tutors[1..], id, name, email, phone);
    }
  }

  /** `tutor.findFirst({where: {email, password}})`: the first tutor with both. */
  function FindLogin(tutors: seq<Tutor>, email: string, password: string): (r: Option<Tutor>)
    ensures r.Some? ==> r.value in tutors && r.value.email == email && r.value.password == password
    ensures r.None? <==> forall t :: t in tutors ==> !(t.email == email && t.password == password)
  {
    if tutors == [] then None
    else if tutors[0].email == email && tutors[0].password == password then Some(tutors[0])
    else FindLogin(tutors[1..], email, password)
  }

  /** Deleting by a clause removes exactly the rows finding by it returns. */
  lemma {:induction false} FindAndDeletePartition(animals: seq<Animal>, where: AnimalWhere)
    ensures multiset(FindMany(animals, where)) + multiset(DeleteMany(animals, where)) == multiset(animals)
  {
    if animals != [] {
      FindAndDeletePartition(animals[1..], where);
      assert animals == [animals[0]] + animals[1..];
    }
  }

  /** With unique emails, a tutor with the given email is the only one. */
  lemma UniqueEmail(db: Db, t: Tutor, u: Tutor)
    requires Valid(db)
    requires t in db.tutors && u in db.tutors && t.email == u.email
    ensures t == u
  {
  }

  lemma {:induction false} DeleteManyKeepsDistinct(animals: seq<Animal>, where: AnimalWhere)
    requires DistinctAnimals(animals)
    ensures DistinctAnimals(DeleteMany(animals, where))
  {
    if animals != [] {
      var rest := animals[1..];
      DeleteManyKeepsDistinct(rest, where);
      if !Matches(animals[0], where) {
        var r := [animals[0]] + DeleteMany(rest, where);
        forall i, j | 0 <= i < j < |r| ensures r[i].id != r[j].id {
          if i == 0 {
            assert r[j] in rest;
            var k :| 0 <= k < |rest| && rest[k] == r[j];
            assert animals[k + 1] == r[j];
          }
        }
      }
    }
  }

  lemma {:induction false} DeleteTutorRowKeepsDistinct(tutors: seq<Tutor>, id: string)
    requires DistinctTutors(tutors)
    ensures DistinctTutors(DeleteTutorRow(tutors, id))
  {
    if tutors != [] {
      var rest := tutors[1..];
      DeleteTutorRowKeepsDistinct(rest, id);
      if tutors[0].id != id {
        var r := [tutors[0]] + DeleteTutorRow(rest, id);
        forall i, j | 0 <= i < j < |r| ensures r[i].id != r[j].id && r[i].email != r[j].email {
          if i == 0 {
            assert r[j] in rest;
            var k :| 0 <= k < |rest| && rest[k] == r[j];
            assert tutors[k + 1] == r[j];
          }
        }
      }
    }
  }

  /** Editing a tutor's profile keeps the constraints when no other tutor
      has the new email. */
  lemma UpdateTutorRowKeepsValid(db: Db, id: string, name: string, email: string, phone: string)
    requires Valid(db)
    requires !EmailHeldByOther(db.tutors, email, id)
    ensures Valid(db.(tutors := UpdateTutorRow(db.tutors, id, name, email, phone)))
  {
  }

  /** Deleting one owner's rows does not change what another owner finds. */
  lemma {:induction false} FindManyAfterDeleteMany(animals: seq<Animal>, gone: string, kept: string)
    requires gone != kept
    ensures FindMany(DeleteMany(animals, TutorIdIs(gone)), TutorIdIs(kept)) == FindMany(animals, TutorIdIs(kept))
  {
    if animals != [] {
      FindManyAfterDeleteMany(animals[1..], gone, kept);
      var rest := DeleteMany(animals[1..], TutorIdIs(gone));
      if !Matches(animals[0], TutorIdIs(gone)) {
        assert ([animals[0]] + rest)[1..] == rest;
      }
    }
  }

  /** A clause no row matches finds nothing. */
  lemma {:induction false} FindManyNone(animals: seq<Animal>, where: AnimalWhere)
    requires forall a :: a in animals ==> !Matches(a, where)
    ensures FindMany(animals, where) == []
  {
    if animals != [] {
      assert animals[0] in animals;
      FindManyNone(animals[1..], where);
    }
  }
}
