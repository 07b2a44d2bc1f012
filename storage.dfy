/** The key-value store behind the tracker, as an abstract state: one table
    per entity type, each a map from id to record plus the order in which
    the store lists its records. Saving a new id appends it to that order;
    saving an existing id replaces the record in place. */
module Storage {

  import opened Records
  import opened Seqs

  datatype Table<T(==,!new)> = Table(rows: map<Id, T>, order: seq<Id>) {

    /** The listing order names every stored id exactly once. */
    ghost predicate Valid()
    {
      NoDup(order) && (forall k :: k in rows <==> k in order)
    }

    /** The records, in listing order. The first two ensures are the element-wise
        facts the proofs use; the last says the listing holds exactly the stored records. */
    function Rows(): (r: seq<T>)
      requires Valid()
      ensures |r| == |order|
      ensures forall i :: 0 <= i < |order| ==> order[i] in rows && r[i] == rows[order[i]]
      ensures forall v :: v in r <==> v in rows.Values
    {
      seq(|order|, i requires 0 <= i < |order| => rows[order[i]])
    }

    /** Saving a record under `id`. */
    function Put(id: Id, v: T): (t: Table<T>)
      requires Valid()
      ensures t.Valid()
      ensures t.rows == rows[id := v]
      ensures id in rows ==> t.order == order
      ensures id !in rows ==> t.order == order + [id]
    {
      var o := if id in rows then order else order + [id];
      assert forall k :: k in o <==> k in order || k == id;
      Table(rows[id := v], o)
    }

    /** Deleting the record under `id`; deleting an absent id changes nothing. */
    function Remove(id: Id): (t: Table<T>)
      requires Valid()
      ensures t.Valid()
      ensures t.rows == rows - {id}
      ensures t.order == Without(order, id)
      ensures id !in rows ==> t == this
    {
      WithoutNoDup(order, id);
      WithoutAbsent(order, id);
      Table(rows - {id}, Without(order, id))
    }
  }

  /** Saving a record under a new id lists it last. */
  lemma PutNewRows<T(!new)>(t: Table<T>, id: Id, v: T)
    requires t.Valid() && id !in t.rows
    ensures t.Put(id, v).Rows() == t.Rows() + [v]
  {
    var r := t.Put(id, v).Rows();
    assert forall i :: 0 <= i < |t.order| ==> t.order[i] != id;
    assert forall i :: 0 <= i < |t.order| ==> r[i] == t.Rows()[i];
  }

  /** Longer than every id of `ids`. */
  function Longest(ids: seq<Id>): (n: nat)
    ensures forall i :: 0 <= i < |ids| ==> |ids[i]| <= n
  {
    if ids == [] then 0
    else
      var rest := Longest(ids[1..]);
      assert forall i :: 1 <= i < |ids| ==> ids[i] == ids[1..][i - 1];
      if |ids[0]| > rest then |ids[0]| else rest
  }

  /** `generateId_`: an id that no id of `ids` equals. */
  function FreshId(ids: seq<Id>): (id: Id)
    ensures id !in ids
  {
    seq(Longest(ids) + 1, _ => 'x')
  }

  class Store {
    var projects: Table<Project>
    var steps: Table<Step>
    var people: Table<Person>
    var links: Table<Link>

    /** Each table is consistent and holds every record under its own id. */
    ghost predicate Valid()
      reads this
    {
      && projects.Valid() && steps.Valid() && people.Valid() && links.Valid()
      && (forall k :: k in projects.rows ==> projects.rows[k].id == k)
      && (forall k :: k in steps.rows ==> steps.rows[k].id == k)
      && (forall k :: k in people.rows ==> people.rows[k].id == k)
      && (forall k :: k in links.rows ==> links.rows[k].id == k)
    }

    /** Every id in use, of any entity type. */
    ghost function Ids(): set<Id>
      reads this
    {
      projects.rows.Keys + steps.rows.Keys + people.rows.Keys + links.rows.Keys
    }

    constructor ()
      ensures Valid()
      ensures projects.rows == map[] && steps.rows == map[] && people.rows == map[] && links.rows == map[]
    {
      projects := Table(map[], []);
      steps := Table(map[], []);
      people := Table(map[], []);
      links := Table(map[], []);
    }

    /** A fresh id: one no project, step, person or link has. */
    function NewId(): (id: Id)
      reads this
      requires Valid()
      ensures id !in Ids()
    {
      FreshId(projects.order + steps.order + people.order + links.order)
    }
  }
}
