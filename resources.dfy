/** People: creation with defaults, merge update, delete without cascade,
    and find-or-create keyed by email. */
module Resources {

  import opened Records
  import opened Seqs
  import opened Storage

  const PERSON_NOT_FOUND := "Person not found"

  /** The fields a caller may pass to `createPerson_`. */
  datatype PersonData = PersonData(name: Option<string>, email: Option<string>, role: Option<string>)

  /** The fields a caller may pass to `updatePerson_`; `None` leaves a field alone. */
  datatype PersonPatch = PersonPatch(
    name: Option<string>,
    email: Option<string>,
    role: Option<string>,
    createdAt: Option<int>)

  /** The object-spread merge of a patch into a person: the patch's fields win
      and the id is kept; people have no update timestamp. */
  function ApplyPatch(p: Person, patch: PersonPatch, id: Id): (r: Person)
    ensures r.id == id
    ensures Takes(patch.name, p.name, r.name) && Takes(patch.email, p.email, r.email)
    ensures Takes(patch.role, p.role, r.role) && Takes(patch.createdAt, p.createdAt, r.createdAt)
  {
    Person(id, OrElse(patch.name, p.name), OrElse(patch.email, p.email),
           OrElse(patch.role, p.role), OrElse(patch.createdAt, p.createdAt))
  }

  /** Patching twice with the same fields is patching once. */
  lemma ApplyPatchIdempotent(p: Person, patch: PersonPatch, id: Id)
    ensures ApplyPatch(ApplyPatch(p, patch, id), patch, id) == ApplyPatch(p, patch, id)
  {
  }

  /** The first listed person with exactly this email, if any. */
  function FindByEmail(people: seq<Person>, email: string): (r: Option<Person>)
    ensures r.None? <==> forall i :: 0 <= i < |people| ==> people[i].email != email
    ensures r.Some? ==> r.value.email == email &&
                        exists i :: 0 <= i < |people| && people[i] == r.value &&
                                    forall j :: 0 <= j < i ==> people[j].email != email
  {
    FindFirst(people, (p: Person) => p.email == email)
  }

  /** The first listed person with this id, if any. */
  function FindById(people: seq<Person>, id: Id): Option<Person>
  {
    FindFirst(people, (p: Person) => p.id == id)
  }

  /** Scanning the stored list for an id finds exactly the record stored under it. */
  lemma FindByIdStored(st: Store, id: Id)
    requires st.Valid()
    ensures FindById(st.people.Rows(), id) == if id in st.people.rows then Some(st.people.rows[id]) else None
  {
    var rows := st.people.Rows();
    if id in st.people.rows {
      var i :| 0 <= i < |st.people.order| && st.people.order[i] == id;
      assert rows[i].id == id;
      var r := FindById(rows, id);
      assert r.Some?;
      var j :| 0 <= j < |rows| && rows[j] == r.value && rows[j].id == id;
      assert st.people.rows[st.people.order[j]].id == st.people.order[j];
    } else {
      forall i | 0 <= i < |rows|
        ensures rows[i].id != id
      {
        assert st.people.rows[st.people.order[i]].id == st.people.order[i];
      }
    }
  }

  /** `createPerson_`: empty-string defaults, a fresh id, saved. */
  method CreatePerson(st: Store, data: PersonData, clock: int) returns (person: Person)
    requires st.Valid()
    modifies st`people
    ensures st.Valid()
    ensures person.id !in old(st.Ids())
    ensures person.name == OrDefault(data.name, "") && person.email == OrDefault(data.email, "")
    ensures person.role == OrDefault(data.role, "") && person.createdAt == clock
    ensures st.people == old(st.people).Put(person.id, person)
  {
    person := Person(st.NewId(), OrDefault(data.name, ""), OrDefault(data.email, ""),
                     OrDefault(data.role, ""), clock);
    st.people := st.people.Put(person.id, person);
  }

  /** `updatePerson_`: fails for an unknown id, otherwise merges the patch. */
  method UpdatePerson(st: Store, personId: Id, patch: PersonPatch) returns (r: Result<Person>)
    requires st.Valid()
    modifies st`people
    ensures st.Valid()
    ensures personId !in old(st.people.rows) ==> r == Failure(PERSON_NOT_FOUND) && st.people == old(st.people)
    ensures personId in old(st.people.rows) ==>
              && r == Success(ApplyPatch(old(st.people.rows[personId]), patch, personId))
              && st.people == old(st.people).Put(personId, r.value)
  {
    if personId !in st.people.rows {
      return Failure(PERSON_NOT_FOUND);
    }
    var updated := ApplyPatch(st.people.rows[personId], patch, personId);
    st.people := st.people.Put(personId, updated);
    r := Success(updated);
  }

  /** `deletePerson_`: removes the person only; steps and projects keep their references. */
  method DeletePerson(st: Store, personId: Id)
    requires st.Valid()
    modifies st`people
    ensures st.Valid()
    ensures st.people == old(st.people).Remove(personId)
    ensures st.steps == old(st.steps) && st.projects == old(st.projects) && st.links == old(st.links)
  {
    st.people := st.people.Remove(personId);
  }

  /** `findOrCreatePerson_`: the first person with that email, or a new one
      named after the given name, or after the email when no name is given. */
  method FindOrCreatePerson(st: Store, email: string, name: Option<string>, clock: int) returns (person: Person)
    requires st.Valid()
    modifies st`people
    ensures st.Valid()
    ensures FindByEmail(st.people.Rows(), email) == Some(person)
    ensures FindByEmail(old(st.people.Rows()), email).Some? ==>
              person == FindByEmail(old(st.people.Rows()), email).value && st.people == old(st.people)
    ensures FindByEmail(old(st.people.Rows()), email).None? ==>
              && person.id !in old(st.Ids())
              && person.email == email && person.name == OrDefault(name, email)
              && person.role == "" && person.createdAt == clock
              && st.people == old(st.people).Put(person.id, person)
  {
    var people := st.people.Rows();
    var found := FindByEmail(people, email);
    if found.Some? {
      return found.value;
    }
    var given := OrDefault(name, email);
    person := CreatePerson(st, PersonData(Some(given), Some(email), None), clock);
    PutNewRows(old(st.people), person.id, person);
    assert st.people.Rows() == people + [person];
    assert (people + [person])[|people|] == person;
  }

  /** Two find-or-create calls for one email: the second returns the first's
      person and no second person is created. */
  method FindOrCreateTwice(st: Store, email: string, name: Option<string>, clock: int)
    returns (first: Person, second: Person)
    requires st.Valid()
    modifies st`people
    ensures st.Valid()
    ensures second == first && first.email == email
    ensures st.people == old(st.people) || st.people == old(st.people).Put(first.id, first)
    ensures |st.people.order| <= |old(st.people.order)| + 1
  {
    first := FindOrCreatePerson(st, email, name, clock);
    ghost var afterFirst := st.people;
    second := FindOrCreatePerson(st, email, name, clock);
    assert st.people == afterFirst;
  }
}
