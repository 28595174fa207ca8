/** `setup_database_schema`: three uniqueness constraints and one vector index, each
    created with `IF NOT EXISTS`. The database's schema is the set of its schema objects. */
module SchemaBuilder {

  datatype SchemaObject =
    | UniquenessConstraint(nodeLabel: string, property: string)
    | VectorIndex(name: string, nodeLabel: string, property: string, dimensions: nat, similarity: string)

  const CustomerEmailUnique := UniquenessConstraint("Customer", "email")
  const TicketIdUnique := UniquenessConstraint("Ticket", "id")
  const ProductNameUnique := UniquenessConstraint("Product", "name")

  /** `ticket_vectors` on `Ticket.rag_content`, 384 dimensions, cosine similarity. */
  const TicketVectors := VectorIndex("ticket_vectors", "Ticket", "rag_content", 384, "cosine")

  function Constraints(): set<SchemaObject> {
    {CustomerEmailUnique, TicketIdUnique, ProductNameUnique}
  }

  /** `IF NOT EXISTS` leaves a vector index out when an index of that name, or an index on
      the same label and property, is already there. */
  predicate BlocksIndex(existing: SchemaObject, index: SchemaObject)
    requires index.VectorIndex?
  {
    existing.VectorIndex? &&
    (existing.name == index.name ||
     (existing.nodeLabel == index.nodeLabel && existing.property == index.property))
  }

  predicate IndexBlocked(objects: set<SchemaObject>, index: SchemaObject)
    requires index.VectorIndex?
  {
    exists o :: o in objects && BlocksIndex(o, index)
  }

  /** `CREATE ... IF NOT EXISTS` of one object. A constraint on the same label and property
      is the same object, so adding it again changes nothing. */
  function CreateIfNotExists(objects: set<SchemaObject>, o: SchemaObject): (r: set<SchemaObject>)
    ensures objects <= r && r <= objects + {o}
    ensures o.UniquenessConstraint? ==> o in r
    ensures o.VectorIndex? ==> (o in r <==> o in objects || !IndexBlocked(objects, o))
  {
    if o.VectorIndex? && IndexBlocked(objects, o) then objects else objects + {o}
  }

  /** The four statements in order. */
  function Setup(objects: set<SchemaObject>): set<SchemaObject> {
    var withEmail := CreateIfNotExists(objects, CustomerEmailUnique);
    var withId := CreateIfNotExists(withEmail, TicketIdUnique);
    var withName := CreateIfNotExists(withId, ProductNameUnique);
    CreateIfNotExists(withName, TicketVectors)
  }

  /** After setup the three constraints are there, an index occupies the name
      `ticket_vectors` or the property `Ticket.rag_content`, nothing was removed, and
      nothing but these four objects was added. */
  lemma SetupEstablishes(objects: set<SchemaObject>)
    ensures Constraints() <= Setup(objects)
    ensures IndexBlocked(Setup(objects), TicketVectors)
    ensures objects <= Setup(objects)
    ensures Setup(objects) - objects <= Constraints() + {TicketVectors}
  {
    var before := CreateIfNotExists(CreateIfNotExists(CreateIfNotExists(objects,
      CustomerEmailUnique), TicketIdUnique), ProductNameUnique);
    if !IndexBlocked(before, TicketVectors) {
      assert BlocksIndex(TicketVectors, TicketVectors);
    }
  }

  /** The index declared here is present exactly when it was already there or nothing
      blocked it; constraints cannot block it. */
  lemma SetupIndex(objects: set<SchemaObject>)
    ensures TicketVectors in Setup(objects) <==> TicketVectors in objects || !IndexBlocked(objects, TicketVectors)
  {
    var before := CreateIfNotExists(CreateIfNotExists(CreateIfNotExists(objects,
      CustomerEmailUnique), TicketIdUnique), ProductNameUnique);
    assert before - objects <= Constraints();
    if IndexBlocked(before, TicketVectors) {
      var o :| o in before && BlocksIndex(o, TicketVectors);
      assert o in objects;
    }
  }

  /** Running setup twice leaves the schema of running it once. */
  lemma SetupIdempotent(objects: set<SchemaObject>)
    ensures Setup(Setup(objects)) == Setup(objects)
  {
    var once := Setup(objects);
    SetupEstablishes(objects);
    var o :| o in once && BlocksIndex(o, TicketVectors);
    assert IndexBlocked(once, TicketVectors);
    var a := CreateIfNotExists(once, CustomerEmailUnique);
    var b := CreateIfNotExists(a, TicketIdUnique);
    var c := CreateIfNotExists(b, ProductNameUnique);
    assert a == once && b == once && c == once;
    assert o in c;
  }

  /** The database's schema, changed by each statement. */
  class SchemaStore {
    var objects: set<SchemaObject>

    constructor (existing: set<SchemaObject>)
      ensures objects == existing
    {
      objects := existing;
    }

    method CreateConstraint(nodeLabel: string, property: string)
      modifies this
      ensures objects == CreateIfNotExists(old(objects), UniquenessConstraint(nodeLabel, property))
    {
      objects := objects + {UniquenessConstraint(nodeLabel, property)};
    }

    method CreateVectorIndex(name: string, nodeLabel: string, property: string, dimensions: nat, similarity: string)
      modifies this
      ensures objects == CreateIfNotExists(old(objects), VectorIndex(name, nodeLabel, property, dimensions, similarity))
    {
      var index := VectorIndex(name, nodeLabel, property, dimensions, similarity);
      if !IndexBlocked(objects, index) {
        objects := objects + {index};
      }
    }

    /** The session's four statements. */
    method SetupDatabaseSchema()
      modifies this
      ensures objects == Setup(old(objects))
    {
      CreateConstraint("Customer", "email");
      CreateConstraint("Ticket", "id");
      CreateConstraint("Product", "name");
      CreateVectorIndex("ticket_vectors", "Ticket", "rag_content", 384, "cosine");
    }
  }
}
