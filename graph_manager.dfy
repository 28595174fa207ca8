/** The knowledge-graph ingestion step (`KnowledgeGraphManager.upload_data`).

    The Neo4j store is modelled as an abstract property graph: Customer nodes keyed by
    email (with a name property), Product nodes keyed by name, Ticket nodes keyed by id,
    and three relationship sets. A MERGE is "find by key, else insert"; a property SET to
    None removes the property, so a stored `Null` stands for "no such property". */
module GraphManager {
  import opened Values
  import opened Columns

  /** A Ticket node: the four properties the upload sets, plus whatever other properties
      other writers put on the node (the vector store's `embedding`, for one). */
  datatype TicketNode = TicketNode(
    ragContent: string,
    status: Value,
    priority: Value,
    name: string,
    others: map<string, Value>)

  /** The graph. `affects` holds the AFFECTS relationships the dashboard reads; nothing in
      the ingestion step creates them. */
  datatype GraphState = GraphState(
    customers: map<Value, Value>,
    products: set<Value>,
    tickets: map<string, TicketNode>,
    raised: set<(Value, string)>,
    about: set<(string, Value)>,
    affects: set<(string, Value)>)

  const EmptyGraph := GraphState(map[], {}, map[], {}, {}, {})

  /** Neo4j refuses a MERGE whose key property is null. */
  datatype MergeError = NullPropertyValue(nodeLabel: string, property: string)

  /** The item at `index` made its statement fail; nothing after it was run. */
  datatype Failure = Failure(index: nat, error: MergeError)

  datatype IngestResult = IngestResult(graph: GraphState, failure: Option<Failure>)

  // ---------------------------------------------------------------------------
  // What one item contributes

  /** `str(item.get('Ticket ID'))`: a missing or None id becomes the text "None". */
  function TicketId(item: Record): string {
    Show(Get(item, TicketIdColumn))
  }

  /** `item.get('Customer Name', 'User')`. */
  function CustomerName(item: Record): (r: Value)
    ensures CustomerNameColumn !in item ==> r == Str("User")
    ensures CustomerNameColumn in item ==> r == item[CustomerNameColumn]
  {
    GetOr(item, CustomerNameColumn, Str("User"))
  }

  /** `item.get('Product Purchased', 'Product')`. */
  function ProductName(item: Record): (r: Value)
    ensures ProductColumn !in item ==> r == Str("Product")
    ensures ProductColumn in item ==> r == item[ProductColumn]
  {
    GetOr(item, ProductColumn, Str("Product"))
  }

  function Email(item: Record): Value {
    Get(item, EmailColumn)
  }

  /** The searchable story stored as `rag_content`. */
  function RichText(item: Record): string {
    RichTextHead(item) + RichTextTail(Get(item, RootCauseField), Get(item, SentimentField))
  }

  /** The template up to the AI fields. */
  function RichTextHead(item: Record): string {
    "Ticket " + TicketId(item) + " regarding " + Show(ProductName(item)) +
    ". Customer: " + Show(CustomerName(item)) + ". " +
    "Description: " + Show(Get(item, DescriptionColumn)) + ". "
  }

  /** The template's last sentences, with the extractor's two fields. */
  function RichTextTail(rootCause: Value, sentiment: Value): string {
    "Root Cause: " + Show(rootCause) + ". Sentiment: " + Show(sentiment) + "."
  }

  /** The Ticket properties one item sets, besides `name`. */
  datatype TicketFields = TicketFields(ragContent: string, status: Value, priority: Value)

  function FieldsOf(item: Record): TicketFields {
    TicketFields(RichText(item), Get(item, StatusColumn), Get(item, PriorityColumn))
  }

  /** Both MERGE keys that can be null are present. */
  predicate Mergeable(item: Record) {
    Email(item) != Null && ProductName(item) != Null
  }

  /** Which MERGE fails first on an unmergeable item. */
  function ErrorOf(item: Record): MergeError {
    if Email(item) == Null then NullPropertyValue("Customer", "email")
    else NullPropertyValue("Product", "name")
  }

  function OthersOf(tickets: map<string, TicketNode>, id: string): map<string, Value> {
    if id in tickets then tickets[id].others else map[]
  }

  /** `MERGE (t:Ticket {id: $tid}) SET t.rag_content = ..., t.status = ..., t.priority = ...,
      t.name = $tid`: the node is found or created, the four properties are overwritten and
      the node's other properties are kept. */
  function SetTicket(tickets: map<string, TicketNode>, id: string, f: TicketFields): (r: map<string, TicketNode>)
    ensures r.Keys == tickets.Keys + {id}
    ensures r[id] == TicketNode(f.ragContent, f.status, f.priority, id, OthersOf(tickets, id))
    ensures forall k :: k in tickets && k != id ==> r[k] == tickets[k]
  {
    tickets[id := TicketNode(f.ragContent, f.status, f.priority, id, OthersOf(tickets, id))]
  }

  /** The one Cypher statement run for one item, as a single atomic step. */
  function Step(g: GraphState, item: Record): (r: Result<GraphState, MergeError>)
    ensures r.Err? <==> !Mergeable(item)
    ensures r.Err? ==> r.error == ErrorOf(item)
  {
    if !Mergeable(item) then Err(ErrorOf(item))
    else
      var email, id, product := Email(item), TicketId(item), ProductName(item);
      Ok(GraphState(
        g.customers[email := CustomerName(item)],
        g.products + {product},
        SetTicket(g.tickets, id, FieldsOf(item)),
        g.raised + {(email, id)},
        g.about + {(id, product)},
        g.affects))
  }

  /** The loop of `upload_data`: statements run in order; the first failing statement
      raises, which ends the loop with every earlier statement committed. */
  function Ingest(g: GraphState, items: seq<Record>): IngestResult
    decreases |items|
  {
    if items == [] then IngestResult(g, None)
    else
      var prev := Ingest(g, items[..|items| - 1]);
      if prev.failure.Some? then prev
      else match Step(prev.graph, items[|items| - 1])
        case Ok(g') => IngestResult(g', None)
        case Err(e) => IngestResult(prev.graph, Some(Failure(|items| - 1, e)))
  }

  // ---------------------------------------------------------------------------
  // Reference definition: the graph as the old graph overlaid with the items' writes

  /** How many items are run successfully: the index of the first unmergeable item. */
  function Processed(items: seq<Record>): (n: nat)
    ensures n <= |items|
    ensures forall j :: 0 <= j < n ==> Mergeable(items[j])
    ensures n < |items| ==> !Mergeable(items[n])
    decreases |items|
  {
    if items == [] then 0
    else
      var p := Processed(items[..|items| - 1]);
      if p < |items| - 1 then p
      else if Mergeable(items[|items| - 1]) then |items|
      else |items| - 1
  }

  /** email -> name written by the items, the last write for each email winning. */
  function CustomerWrites(items: seq<Record>): map<Value, Value>
    decreases |items|
  {
    if items == [] then map[]
    else
      var last := items[|items| - 1];
      CustomerWrites(items[..|items| - 1])[Email(last) := CustomerName(last)]
  }

  /** id -> Ticket properties written by the items, the last write for each id winning. */
  function TicketWrites(items: seq<Record>): map<string, TicketFields>
    decreases |items|
  {
    if items == [] then map[]
    else
      var last := items[|items| - 1];
      TicketWrites(items[..|items| - 1])[TicketId(last) := FieldsOf(last)]
  }

  function ProductsOf(items: seq<Record>): set<Value> {
    set i | 0 <= i < |items| :: ProductName(items[i])
  }

  function TicketIdsOf(items: seq<Record>): set<string> {
    set i | 0 <= i < |items| :: TicketId(items[i])
  }

  function RaisedOf(items: seq<Record>): set<(Value, string)> {
    set i | 0 <= i < |items| :: (Email(items[i]), TicketId(items[i]))
  }

  function AboutOf(items: seq<Record>): set<(string, Value)> {
    set i | 0 <= i < |items| :: (TicketId(items[i]), ProductName(items[i]))
  }

  /** Tickets after the writes `w`: written ids get the written fields, `name` equal to the
      id and the properties they had before; other ids are untouched. */
  function MergeTickets(t: map<string, TicketNode>, w: map<string, TicketFields>): map<string, TicketNode> {
    map k | k in t.Keys + w.Keys ::
      if k in w then TicketNode(w[k].ragContent, w[k].status, w[k].priority, k, OthersOf(t, k))
      else t[k]
  }

  function Overlay(g: GraphState, items: seq<Record>): GraphState {
    GraphState(
      g.customers + CustomerWrites(items),
      g.products + ProductsOf(items),
      MergeTickets(g.tickets, TicketWrites(items)),
      g.raised + RaisedOf(items),
      g.about + AboutOf(items),
      g.affects)
  }

  lemma TicketWritesKeys(items: seq<Record>)
    ensures TicketWrites(items).Keys == TicketIdsOf(items)
    decreases |items|
  {
    if items != [] {
      var init := items[..|items| - 1];
      TicketWritesKeys(init);
      assert TicketIdsOf(items) == TicketIdsOf(init) + {TicketId(items[|items| - 1])} by {
        forall i | 0 <= i < |init| ensures init[i] == items[i] { }
      }
    }
  }

  lemma CustomerWritesKeys(items: seq<Record>)
    ensures CustomerWrites(items).Keys == set i | 0 <= i < |items| :: Email(items[i])
    decreases |items|
  {
    if items != [] {
      var init := items[..|items| - 1];
      CustomerWritesKeys(init);
      forall i | 0 <= i < |init| ensures init[i] == items[i] { }
    }
  }

  lemma MergeTicketsSet(t: map<string, TicketNode>, w: map<string, TicketFields>, id: string, f: TicketFields)
    ensures SetTicket(MergeTickets(t, w), id, f) == MergeTickets(t, w[id := f])
  {
    var lhs, rhs := SetTicket(MergeTickets(t, w), id, f), MergeTickets(t, w[id := f]);
    assert OthersOf(MergeTickets(t, w), id) == OthersOf(t, id);
    assert lhs.Keys == rhs.Keys;
    forall k | k in lhs ensures lhs[k] == rhs[k] { }
  }

  lemma ItemSetsSnoc(items: seq<Record>)
    requires items != []
    ensures var init, x := items[..|items| - 1], items[|items| - 1];
      && ProductsOf(items) == ProductsOf(init) + {ProductName(x)}
      && RaisedOf(items) == RaisedOf(init) + {(Email(x), TicketId(x))}
      && AboutOf(items) == AboutOf(init) + {(TicketId(x), ProductName(x))}
  {
    var init := items[..|items| - 1];
    forall i | 0 <= i < |init| ensures init[i] == items[i] { }
  }

  lemma OverlayTickets(g: GraphState, items: seq<Record>)
    requires items != []
    ensures var init, x := items[..|items| - 1], items[|items| - 1];
      SetTicket(Overlay(g, init).tickets, TicketId(x), FieldsOf(x)) == Overlay(g, items).tickets
  {
    var init, x := items[..|items| - 1], items[|items| - 1];
    MergeTicketsSet(g.tickets, TicketWrites(init), TicketId(x), FieldsOf(x));
  }

  lemma OverlayCustomers(g: GraphState, items: seq<Record>)
    requires items != []
    ensures var init, x := items[..|items| - 1], items[|items| - 1];
      Overlay(g, init).customers[Email(x) := CustomerName(x)] == Overlay(g, items).customers
  {
    var init, x := items[..|items| - 1], items[|items| - 1];
    UnionUpdate(g.customers, CustomerWrites(init), Email(x), CustomerName(x));
  }

  /** Running the last item's statement on the overlay of the others is the overlay of all. */
  lemma OverlayStep(g: GraphState, items: seq<Record>)
    requires items != [] && Mergeable(items[|items| - 1])
    ensures Step(Overlay(g, items[..|items| - 1]), items[|items| - 1]) == Ok(Overlay(g, items))
  {
    var init, x := items[..|items| - 1], items[|items| - 1];
    var s := Step(Overlay(g, init), x).value;
    var target := Overlay(g, items);
    ItemSetsSnoc(items);
    OverlayTickets(g, items);
    OverlayCustomers(g, items);
    assert s.customers == target.customers;
    assert s.products == target.products;
    assert s.tickets == target.tickets;
    assert s.raised == target.raised;
    assert s.about == target.about;
  }

  lemma UnionUpdate<K, V>(m: map<K, V>, w: map<K, V>, k: K, v: V)
    ensures (m + w)[k := v] == m + w[k := v]
  {
  }

  /** The outcome `Ingest` should have: the overlay of the items that ran, and the first
      item that did not. */
  predicate IsOverlayOutcome(g: GraphState, items: seq<Record>, r: IngestResult) {
    var n := Processed(items);
    r == IngestResult(Overlay(g, items[..n]),
                      if n < |items| then Some(Failure(n, ErrorOf(items[n]))) else None)
  }

  /** An earlier item failed: the last one is not run. */
  lemma OverlayAfterEarlierFailure(g: GraphState, items: seq<Record>)
    requires items != []
    requires var init := items[..|items| - 1];
      IsOverlayOutcome(g, init, Ingest(g, init)) && Processed(init) < |init|
    ensures IsOverlayOutcome(g, items, Ingest(g, items))
  {
    var init := items[..|items| - 1];
    var p := Processed(init);
    assert Processed(items) == p;
    assert init[..p] == items[..p];
    assert init[p] == items[p];
  }

  /** Every earlier item ran and the last one fails. */
  lemma OverlayAtFailure(g: GraphState, items: seq<Record>)
    requires items != [] && !Mergeable(items[|items| - 1])
    requires var init := items[..|items| - 1];
      IsOverlayOutcome(g, init, Ingest(g, init)) && Processed(init) == |init|
    ensures IsOverlayOutcome(g, items, Ingest(g, items))
  {
    var init := items[..|items| - 1];
    assert Processed(items) == |init|;
    assert init[..|init|] == items[..|init|];
  }

  /** Every item runs. */
  lemma OverlayAtSuccess(g: GraphState, items: seq<Record>)
    requires items != [] && Mergeable(items[|items| - 1])
    requires var init := items[..|items| - 1];
      IsOverlayOutcome(g, init, Ingest(g, init)) && Processed(init) == |init|
    ensures IsOverlayOutcome(g, items, Ingest(g, items))
  {
    var init := items[..|items| - 1];
    assert init[..|init|] == init;
    assert Ingest(g, init) == IngestResult(Overlay(g, init), None);
    OverlayStep(g, items);
    assert Ingest(g, items) == IngestResult(Overlay(g, items), None);
    assert items[..|items|] == items;
    assert Processed(items) == |items|;
  }

  /** Ingesting a list is overlaying the items that ran, and reporting the first that did not. */
  lemma {:induction false} IngestIsOverlay(g: GraphState, items: seq<Record>)
    ensures var n := Processed(items);
      Ingest(g, items) ==
        IngestResult(Overlay(g, items[..n]),
                     if n < |items| then Some(Failure(n, ErrorOf(items[n]))) else None)
    decreases |items|
  {
    if items == [] {
      assert Overlay(g, []) == g;
    } else {
      var init := items[..|items| - 1];
      IngestIsOverlay(g, init);
      assert IsOverlayOutcome(g, init, Ingest(g, init));
      if Processed(init) < |init| {
        OverlayAfterEarlierFailure(g, items);
      } else if Mergeable(items[|items| - 1]) {
        OverlayAtSuccess(g, items);
      } else {
        OverlayAtFailure(g, items);
      }
      assert IsOverlayOutcome(g, items, Ingest(g, items));
    }
  }

  // ---------------------------------------------------------------------------
  // Properties of the ingestion step

  lemma MergeTicketsIdempotent(t: map<string, TicketNode>, w: map<string, TicketFields>)
    ensures MergeTickets(MergeTickets(t, w), w) == MergeTickets(t, w)
  {
    var once := MergeTickets(t, w);
    var twice := MergeTickets(once, w);
    assert twice.Keys == once.Keys;
    forall k | k in twice ensures twice[k] == once[k] {
      if k in w {
        assert OthersOf(once, k) == OthersOf(t, k);
      }
    }
  }

  lemma OverlayIdempotent(g: GraphState, items: seq<Record>)
    ensures Overlay(Overlay(g, items), items) == Overlay(g, items)
  {
    MergeTicketsIdempotent(g.tickets, TicketWrites(items));
    var c := g.customers + CustomerWrites(items);
    assert c + CustomerWrites(items) == c;
  }

  /** Re-ingesting the same list leaves exactly the graph (and the outcome) of the first run. */
  lemma IngestIdempotent(g: GraphState, items: seq<Record>)
    ensures Ingest(Ingest(g, items).graph, items) == Ingest(g, items)
  {
    var n := Processed(items);
    IngestIsOverlay(g, items);
    var g1 := Overlay(g, items[..n]);
    IngestIsOverlay(g1, items);
    OverlayIdempotent(g, items[..n]);
  }

  /** Nothing is removed: every node, edge and the node's foreign properties survive. */
  lemma IngestMonotone(g: GraphState, items: seq<Record>)
    ensures var r := Ingest(g, items).graph;
      && g.customers.Keys <= r.customers.Keys
      && g.products <= r.products
      && g.tickets.Keys <= r.tickets.Keys
      && g.raised <= r.raised
      && g.about <= r.about
      && r.affects == g.affects
      && (forall k :: k in g.tickets ==> r.tickets[k].others == g.tickets[k].others)
  {
    IngestIsOverlay(g, items);
  }

  /** Nodes of ids no processed item names keep every property, and emails no processed
      item names keep their name. */
  lemma IngestFramesUntouched(g: GraphState, items: seq<Record>, id: string, email: Value)
    ensures var n := Processed(items); var r := Ingest(g, items).graph;
      && (id in g.tickets && id !in TicketIdsOf(items[..n]) ==>
            id in r.tickets && r.tickets[id] == g.tickets[id])
      && (email in g.customers && (forall i :: 0 <= i < n ==> Email(items[i]) != email) ==>
            email in r.customers && r.customers[email] == g.customers[email])
  {
    var n := Processed(items);
    IngestIsOverlay(g, items);
    TicketWritesKeys(items[..n]);
    CustomerWritesKeys(items[..n]);
  }

  lemma {:induction false} TicketWritesLast(items: seq<Record>, i: nat)
    requires i < |items|
    requires forall j :: i < j < |items| ==> TicketId(items[j]) != TicketId(items[i])
    ensures TicketId(items[i]) in TicketWrites(items)
    ensures TicketWrites(items)[TicketId(items[i])] == FieldsOf(items[i])
    decreases |items|
  {
    if i < |items| - 1 {
      var init := items[..|items| - 1];
      assert init[i] == items[i];
      TicketWritesLast(init, i);
    }
  }

  lemma {:induction false} CustomerWritesLast(items: seq<Record>, i: nat)
    requires i < |items|
    requires forall j :: i < j < |items| ==> Email(items[j]) != Email(items[i])
    ensures Email(items[i]) in CustomerWrites(items)
    ensures CustomerWrites(items)[Email(items[i])] == CustomerName(items[i])
    decreases |items|
  {
    if i < |items| - 1 {
      var init := items[..|items| - 1];
      assert init[i] == items[i];
      CustomerWritesLast(init, i);
    }
  }

  /** Last write wins: the last processed item with a given ticket id decides that Ticket's
      `rag_content`, `status` and `priority`; its `name` is the id. */
  lemma TicketLastWriteWins(g: GraphState, items: seq<Record>, i: nat)
    requires i < Processed(items)
    requires forall j :: i < j < Processed(items) ==> TicketId(items[j]) != TicketId(items[i])
    ensures var t := Ingest(g, items).graph.tickets; var id := TicketId(items[i]);
      && id in t
      && t[id].ragContent == RichText(items[i])
      && t[id].status == Get(items[i], StatusColumn)
      && t[id].priority == Get(items[i], PriorityColumn)
      && t[id].name == id
  {
    var n := Processed(items);
    IngestIsOverlay(g, items);
    TicketWritesLast(items[..n], i);
  }

  /** Last write wins for a customer's name, including the 'User' default. */
  lemma CustomerLastWriteWins(g: GraphState, items: seq<Record>, i: nat)
    requires i < Processed(items)
    requires forall j :: i < j < Processed(items) ==> Email(items[j]) != Email(items[i])
    ensures var c := Ingest(g, items).graph.customers;
      Email(items[i]) in c && c[Email(items[i])] == CustomerName(items[i])
  {
    var n := Processed(items);
    IngestIsOverlay(g, items);
    CustomerWritesLast(items[..n], i);
  }

  /** Every processed item leaves its three nodes, its RAISED edge and its ABOUT edge. */
  lemma IngestedItemIsLinked(g: GraphState, items: seq<Record>, i: nat)
    requires i < Processed(items)
    ensures var r := Ingest(g, items).graph;
      && Email(items[i]) in r.customers
      && ProductName(items[i]) in r.products
      && TicketId(items[i]) in r.tickets
      && (Email(items[i]), TicketId(items[i])) in r.raised
      && (TicketId(items[i]), ProductName(items[i])) in r.about
  {
    var n := Processed(items);
    IngestIsOverlay(g, items);
    var p := items[..n];
    assert p[i] == items[i];
    OverlayHasItem(g, p, i);
  }

  lemma OverlayHasItem(g: GraphState, items: seq<Record>, i: nat)
    requires i < |items|
    ensures var r := Overlay(g, items); var x := items[i];
      && Email(x) in r.customers
      && ProductName(x) in r.products
      && TicketId(x) in r.tickets
      && (Email(x), TicketId(x)) in r.raised
      && (TicketId(x), ProductName(x)) in r.about
  {
    CustomerWritesKeys(items);
    TicketWritesKeys(items);
    var x := items[i];
    assert Email(x) in CustomerWrites(items);
    assert TicketId(x) in TicketWrites(items);
    assert ProductName(x) in ProductsOf(items);
    assert (Email(x), TicketId(x)) in RaisedOf(items);
    assert (TicketId(x), ProductName(x)) in AboutOf(items);
  }

  /** Ingestion adds only the edges of the processed items (so no edge is duplicated and
      none is replaced). */
  lemma IngestEdges(g: GraphState, items: seq<Record>)
    ensures var n := Processed(items); var r := Ingest(g, items).graph;
      r.raised == g.raised + RaisedOf(items[..n]) && r.about == g.about + AboutOf(items[..n])
  {
    IngestIsOverlay(g, items);
  }

  /** The Ticket nodes afterwards are the old ones and one per processed id. */
  lemma TicketIdsAfterIngest(g: GraphState, items: seq<Record>)
    ensures Ingest(g, items).graph.tickets.Keys == g.tickets.Keys + TicketIdsOf(items[..Processed(items)])
  {
    IngestIsOverlay(g, items);
    TicketWritesKeys(items[..Processed(items)]);
  }

  /** The number of Ticket nodes is the number of distinct ids: one node per id. */
  lemma TicketCountAfterIngest(g: GraphState, items: seq<Record>)
    ensures |Ingest(g, items).graph.tickets| == |g.tickets.Keys + TicketIdsOf(items[..Processed(items)])|
  {
    var n := Processed(items);
    IngestIsOverlay(g, items);
    TicketWritesKeys(items[..n]);
    assert Ingest(g, items).graph.tickets.Keys == g.tickets.Keys + TicketIdsOf(items[..n]);
  }

  predicate NamesAreIds(g: GraphState) {
    forall k :: k in g.tickets ==> g.tickets[k].name == k
  }

  /** Every Ticket the upload writes has `name` equal to its id, so a graph whose Tickets all
      satisfy that still does afterwards. */
  lemma IngestKeepsNamesAreIds(g: GraphState, items: seq<Record>)
    requires NamesAreIds(g)
    ensures NamesAreIds(Ingest(g, items).graph)
  {
    IngestIsOverlay(g, items);
  }

  /** Referential integrity: every edge joins two nodes of the graph. */
  predicate EdgesJoinNodes(g: GraphState) {
    && (forall e :: e in g.raised ==> e.0 in g.customers && e.1 in g.tickets)
    && (forall e :: e in g.about ==> e.0 in g.tickets && e.1 in g.products)
  }

  lemma IngestKeepsEdgesJoinNodes(g: GraphState, items: seq<Record>)
    requires EdgesJoinNodes(g)
    ensures EdgesJoinNodes(Ingest(g, items).graph)
  {
    var n := Processed(items);
    IngestIsOverlay(g, items);
    var p := items[..n];
    CustomerWritesKeys(p);
    TicketWritesKeys(p);
  }

  /** The item with the missing email or product is reported, and the graph is exactly as
      the items before it left it. */
  lemma IngestStopsAtFirstNullKey(g: GraphState, items: seq<Record>, k: nat)
    requires k < |items| && !Mergeable(items[k])
    requires forall j :: 0 <= j < k ==> Mergeable(items[j])
    ensures Ingest(g, items) == IngestResult(Ingest(g, items[..k]).graph, Some(Failure(k, ErrorOf(items[k]))))
  {
    IngestOfMergeable(g, items[..k]);
    IngestSnoc(g, items, k);
    IngestAfterFailure(g, items, k + 1);
  }

  /** A list of mergeable items is ingested without failure. */
  lemma IngestOfMergeable(g: GraphState, items: seq<Record>)
    requires forall j :: 0 <= j < |items| ==> Mergeable(items[j])
    ensures Ingest(g, items).failure == None
  {
    assert Processed(items) == |items|;
    IngestIsOverlay(g, items);
  }

  /** The ticket id is `str()` of the stored value: ints with different values give
      different Tickets, a missing id and a None id give the same Ticket "None". */
  lemma TicketIdKeys(a: Record, b: Record)
    ensures (TicketIdColumn in a && TicketIdColumn in b && a[TicketIdColumn].Int? && b[TicketIdColumn].Int? &&
             a[TicketIdColumn] != b[TicketIdColumn]) ==> TicketId(a) != TicketId(b)
    ensures (TicketIdColumn !in a || a[TicketIdColumn] == Null) ==> TicketId(a) == "None"
  {
    if TicketIdColumn in a && TicketIdColumn in b && a[TicketIdColumn].Int? && b[TicketIdColumn].Int? &&
       TicketId(a) == TicketId(b) {
      ShowIntInjective(a[TicketIdColumn].i, b[TicketIdColumn].i);
    }
  }

  /** A missing root cause or sentiment does not fail the item; it renders as `None`. */
  lemma MissingTail()
    ensures RichTextTail(Null, Null) == "Root Cause: None. Sentiment: None."
  {
    assert Show(Null) == "None";
  }

  /** An item whose AI fields are absent, or present as JSON null, ends in the `None` tail. */
  lemma RichTextOfMissingFields(item: Record)
    requires Get(item, RootCauseField) == Null && Get(item, SentimentField) == Null
    ensures var s := RichText(item); var tail := "Root Cause: None. Sentiment: None.";
      |s| >= |tail| && s[|s| - |tail|..] == tail
  {
    var head := RichTextHead(item);
    var tail := RichTextTail(Null, Null);
    MissingTail();
    assert RichText(item) == head + tail;
    assert (head + tail)[|head|..] == tail;
  }

  /** The code does not keep one RAISED edge per Ticket: a ticket id ingested under two
      emails is one Ticket node with two RAISED edges. */
  lemma SameTicketTwoCustomers(g: GraphState, items: seq<Record>, i: nat, j: nat)
    requires i < Processed(items) && j < Processed(items)
    requires TicketId(items[i]) == TicketId(items[j]) && Email(items[i]) != Email(items[j])
    ensures var r := Ingest(g, items).graph; var id := TicketId(items[i]);
      && id in r.tickets
      && (Email(items[i]), id) in r.raised
      && (Email(items[j]), id) in r.raised
      && |set e | e in r.raised && e.1 == id| >= 2
  {
    var r := Ingest(g, items).graph;
    var id := TicketId(items[i]);
    IngestedItemIsLinked(g, items, i);
    IngestedItemIsLinked(g, items, j);
    var both := {(Email(items[i]), id), (Email(items[j]), id)};
    assert |both| == 2;
    SubsetCardinality(both, set e | e in r.raised && e.1 == id);
  }

  lemma SubsetCardinality<T>(a: set<T>, b: set<T>)
    requires a <= b
    ensures |a| <= |b|
  {
    assert b == a + (b - a);
  }

  // ---------------------------------------------------------------------------
  // The manager object: the database's graph held in fields updated statement by statement

  class KnowledgeGraphManager {
    var customers: map<Value, Value>
    var products: set<Value>
    var tickets: map<string, TicketNode>
    var raised: set<(Value, string)>
    var about: set<(string, Value)>
    var affects: set<(string, Value)>

    function Snapshot(): GraphState
      reads this
    {
      GraphState(customers, products, tickets, raised, about, affects)
    }

    /** Connects to a database that already holds `existing`. */
    constructor (existing: GraphState)
      ensures Snapshot() == existing
    {
      customers, products, tickets := existing.customers, existing.products, existing.tickets;
      raised, about, affects := existing.raised, existing.about, existing.affects;
    }

    /** One `session.run` of the MERGE/SET statement for one item, applied atomically: a
        null customer email or product name fails the statement and writes nothing. */
    method RunStatement(item: Record) returns (error: Option<MergeError>)
      modifies this
      ensures match Step(old(Snapshot()), item)
        case Ok(g) => error == None && Snapshot() == g
        case Err(e) => error == Some(e) && Snapshot() == old(Snapshot())
    {
      var tId := TicketId(item);
      var cName := CustomerName(item);
      var pName := ProductName(item);
      var email := Email(item);
      if email == Null {
        return Some(NullPropertyValue("Customer", "email"));
      }
      if pName == Null {
        return Some(NullPropertyValue("Product", "name"));
      }
      ghost var before := Snapshot();
      MergeCustomer(email, cName);
      MergeProduct(pName);
      MergeTicket(tId, FieldsOf(item));
      MergeEdges(email, tId, pName);
      assert Mergeable(item);
      error := None;
    }

    /** `MERGE (c:Customer {email: $email}) SET c.name = $name`. */
    method MergeCustomer(email: Value, name: Value)
      modifies this
      ensures customers == old(customers)[email := name]
      ensures products == old(products) && tickets == old(tickets)
      ensures raised == old(raised) && about == old(about) && affects == old(affects)
    {
      customers := customers[email := name];
    }

    /** `MERGE (p:Product {name: $pname})`. */
    method MergeProduct(name: Value)
      modifies this
      ensures products == old(products) + {name}
      ensures customers == old(customers) && tickets == old(tickets)
      ensures raised == old(raised) && about == old(about) && affects == old(affects)
    {
      if name !in products {
        products := products + {name};
      }
    }

    /** `MERGE (t:Ticket {id: $tid}) SET t.rag_content = ..., t.status = ...,
        t.priority = ..., t.name = $tid`. */
    method MergeTicket(id: string, f: TicketFields)
      modifies this
      ensures tickets == SetTicket(old(tickets), id, f)
      ensures customers == old(customers) && products == old(products)
      ensures raised == old(raised) && about == old(about) && affects == old(affects)
    {
      var others := OthersOf(tickets, id);
      tickets := tickets[id := TicketNode(f.ragContent, f.status, f.priority, id, others)];
    }

    /** `MERGE (c)-[:RAISED]->(t) MERGE (t)-[:ABOUT]->(p)`. */
    method MergeEdges(email: Value, id: string, product: Value)
      modifies this
      ensures raised == old(raised) + {(email, id)} && about == old(about) + {(id, product)}
      ensures customers == old(customers) && products == old(products)
      ensures tickets == old(tickets) && affects == old(affects)
    {
      if (email, id) !in raised {
        raised := raised + {(email, id)};
      }
      if (id, product) !in about {
        about := about + {(id, product)};
      }
    }

    method UploadData(data: seq<Record>) returns (failure: Option<Failure>)
      modifies this
      ensures IngestResult(Snapshot(), failure) == Ingest(old(Snapshot()), data)
    {
      ghost var g0 := Snapshot();
      var i := 0;
      while i < |data|
        invariant 0 <= i <= |data|
        invariant Ingest(g0, data[..i]) == IngestResult(Snapshot(), None)
      {
        IngestSnoc(g0, data, i);
        var error := RunStatement(data[i]);
        if error.Some? {
          failure := Some(Failure(i, error.value));
          IngestAfterFailure(g0, data, i + 1);
          return;
        }
        i := i + 1;
      }
      failure := None;
      assert data[..i] == data;
    }
  }

  /** One more item is one more statement, unless a statement has already failed. */
  lemma IngestSnoc(g: GraphState, items: seq<Record>, k: nat)
    requires k < |items|
    ensures var prev := Ingest(g, items[..k]);
      Ingest(g, items[..k + 1]) ==
        if prev.failure.Some? then prev
        else match Step(prev.graph, items[k])
          case Ok(g') => IngestResult(g', None)
          case Err(e) => IngestResult(prev.graph, Some(Failure(k, e)))
  {
    assert items[..k + 1][..k] == items[..k];
  }

  /** Once a statement has failed, the items after it change nothing. */
  lemma {:induction false} IngestAfterFailure(g: GraphState, items: seq<Record>, m: nat)
    requires m <= |items| && Ingest(g, items[..m]).failure.Some?
    ensures Ingest(g, items) == Ingest(g, items[..m])
    decreases |items| - m
  {
    if m < |items| {
      var longer := items[..m + 1];
      assert longer[..m] == items[..m];
      IngestAfterFailure(g, items, m + 1);
    } else {
      assert items[..m] == items;
    }
  }
}
