/** The read side of the dashboard: the aggregates `fetch_live_insights` asks the graph
    for, the critical-share figure of the KPI row, and the context text the question
    chain builds from retrieved documents. */
module Dashboard {
  import opened Values
  import opened Columns
  import opened GraphManager
  import Preprocessor

  // ---------------------------------------------------------------------------
  // KPI 1 and 2

  /** `MATCH (n:Ticket) RETURN count(n)`. */
  function TotalTickets(g: GraphState): nat {
    |g.tickets|
  }

  /** `t.priority = 'High' OR t.priority = 'Critical'`: an exact, case-sensitive match; a
      missing priority is null and matches neither. */
  predicate IsCritical(priority: Value) {
    priority == Str("High") || priority == Str("Critical")
  }

  function CriticalIds(g: GraphState): set<string> {
    set id | id in g.tickets && IsCritical(g.tickets[id].priority)
  }

  function CriticalTickets(g: GraphState): nat {
    |CriticalIds(g)|
  }

  lemma CriticalAtMostTotal(g: GraphState)
    ensures CriticalTickets(g) <= TotalTickets(g)
  {
    assert CriticalIds(g) <= g.tickets.Keys;
    SubsetCardinality(CriticalIds(g), g.tickets.Keys);
  }

  /** The KPI delta `int((critical / total) * 100 if total > 0 else 0)`, computed exactly:
      the integer percentage, 0 on an empty graph. */
  function CriticalShare(critical: nat, total: nat): (r: nat)
    requires critical <= total
    ensures total == 0 ==> r == 0
    ensures total > 0 ==> r * total <= 100 * critical < (r + 1) * total
    ensures r <= 100
  {
    if total > 0 then 100 * critical / total else 0
  }

  // ---------------------------------------------------------------------------
  // Chart 1: tickets per status

  function Statuses(g: GraphState): set<Value> {
    set id | id in g.tickets :: g.tickets[id].status
  }

  function WithStatus(g: GraphState, status: Value): set<string> {
    set id | id in g.tickets && g.tickets[id].status == status
  }

  /** `MATCH (t:Ticket) RETURN t.status, count(t)`: one row per distinct status, a
      missing status (null) being a group of its own. */
  function StatusDistribution(g: GraphState): (r: map<Value, nat>)
    ensures r.Keys == Statuses(g)
    ensures forall s :: s in r ==> r[s] == |WithStatus(g, s)| && r[s] > 0
  {
    assert forall s :: s in Statuses(g) ==> |WithStatus(g, s)| > 0 by {
      forall s | s in Statuses(g) ensures |WithStatus(g, s)| > 0 {
        var id :| id in g.tickets && g.tickets[id].status == s;
        assert id in WithStatus(g, s);
      }
    }
    map s | s in Statuses(g) :: |WithStatus(g, s)|
  }

  ghost function SumCounts<K>(d: map<K, nat>): nat
    decreases |d|
  {
    if d == map[] then 0
    else
      var s :| s in d;
      d[s] + SumCounts(d - {s})
  }

  /** Removing any one group takes exactly its count off the sum. */
  lemma {:induction false} SumCountsRemove<K>(d: map<K, nat>, s: K)
    requires s in d
    ensures SumCounts(d) == d[s] + SumCounts(d - {s})
    decreases |d|
  {
    var t :| t in d && SumCounts(d) == d[t] + SumCounts(d - {t});
    if t != s {
      var dt := d - {t};
      var ds := d - {s};
      assert s in dt && dt[s] == d[s];
      assert t in ds && ds[t] == d[t];
      SumCountsRemove(dt, s);
      SumCountsRemove(ds, t);
      var both := dt - {s};
      assert both == ds - {t};
      assert SumCounts(dt) == d[s] + SumCounts(both);
      assert SumCounts(ds) == d[t] + SumCounts(both);
    }
  }

  /** Tickets whose status lies in `statuses`. */
  function InStatuses(g: GraphState, statuses: set<Value>): set<string> {
    set id | id in g.tickets && g.tickets[id].status in statuses
  }

  lemma {:induction false} SumOverStatuses(g: GraphState, statuses: set<Value>)
    requires statuses <= Statuses(g)
    ensures SumCounts(map s | s in statuses :: |WithStatus(g, s)|) == |InStatuses(g, statuses)|
    decreases |statuses|
  {
    var d := map s | s in statuses :: |WithStatus(g, s)|;
    if statuses == {} {
      assert d == map[];
      assert InStatuses(g, statuses) == {};
    } else {
      var s :| s in statuses;
      var rest := statuses - {s};
      SumCountsRemove(d, s);
      assert d - {s} == map t | t in rest :: |WithStatus(g, t)|;
      SumOverStatuses(g, rest);
      assert InStatuses(g, statuses) == WithStatus(g, s) + InStatuses(g, rest);
      assert WithStatus(g, s) !! InStatuses(g, rest);
    }
  }

  /** The status counts add up to the ticket total. */
  lemma StatusCountsSumToTotal(g: GraphState)
    ensures SumCounts(StatusDistribution(g)) == TotalTickets(g)
  {
    SumOverStatuses(g, Statuses(g));
    assert InStatuses(g, Statuses(g)) == g.tickets.Keys;
  }

  // ---------------------------------------------------------------------------
  // Chart 2: top products by AFFECTS edges

  /** Tickets with an AFFECTS edge to product `p`: `MATCH (p:Product)<-[:AFFECTS]-(t:Ticket)`
      needs both nodes. Relationships are a set of pairs here, so a ticket counts once per
      product. */
  function AffectsCount(g: GraphState, p: Value): nat {
    if p in g.products then |set id | id in g.tickets && (id, p) in g.affects| else 0
  }

  function AffectedProducts(g: GraphState): set<Value> {
    set p | p in g.products && AffectsCount(g, p) > 0
  }

  /** The result of `... RETURN p.name, count(t) ORDER BY Count DESC LIMIT 10`: at most ten
      distinct products with their counts, non-increasing; if a product is left out, ten
      rows are there and none of them counts less. Rows of equal count may come in any
      order. */
  predicate IsProductRanking(g: GraphState, rows: seq<(Value, nat)>) {
    && |rows| <= 10
    && (forall i :: 0 <= i < |rows| ==> rows[i].0 in AffectedProducts(g) && rows[i].1 == AffectsCount(g, rows[i].0))
    && (forall i, j :: 0 <= i < j < |rows| ==> rows[i].0 != rows[j].0 && rows[i].1 >= rows[j].1)
    && (forall p :: p in AffectedProducts(g) && (forall i :: 0 <= i < |rows| ==> rows[i].0 != p) ==>
          |rows| == 10 && AffectsCount(g, p) <= rows[9].1)
  }

  lemma {:induction false} MostAffectedExists(g: GraphState, candidates: set<Value>)
    requires candidates != {}
    ensures exists p :: p in candidates && forall q :: q in candidates ==> AffectsCount(g, q) <= AffectsCount(g, p)
    decreases |candidates|
  {
    var p :| p in candidates;
    var rest := candidates - {p};
    if rest != {} {
      MostAffectedExists(g, rest);
      var m :| m in rest && forall q :: q in rest ==> AffectsCount(g, q) <= AffectsCount(g, m);
      if AffectsCount(g, m) < AffectsCount(g, p) {
        assert forall q :: q in candidates ==> AffectsCount(g, q) <= AffectsCount(g, p);
      } else {
        assert forall q :: q in candidates ==> AffectsCount(g, q) <= AffectsCount(g, m);
      }
    } else {
      assert candidates == rest + {p};
    }
  }

  /** The first `k` rows of the descending order on `candidates`, ties broken arbitrarily. */
  ghost function TopRows(g: GraphState, candidates: set<Value>, k: nat): seq<(Value, nat)>
    decreases k
  {
    if k == 0 || candidates == {} then []
    else
      MostAffectedExists(g, candidates);
      var p :| p in candidates && forall q :: q in candidates ==> AffectsCount(g, q) <= AffectsCount(g, p);
      [(p, AffectsCount(g, p))] + TopRows(g, candidates - {p}, k - 1)
  }

  /** The first row is a most affected candidate; the others rank the remaining ones. */
  lemma TopRowsUnfold(g: GraphState, candidates: set<Value>, k: nat)
    requires k > 0 && candidates != {}
    ensures var rows := TopRows(g, candidates, k);
      && |rows| > 0
      && rows[0].0 in candidates
      && rows[0].1 == AffectsCount(g, rows[0].0)
      && (forall q :: q in candidates ==> AffectsCount(g, q) <= rows[0].1)
      && rows[1..] == TopRows(g, candidates - {rows[0].0}, k - 1)
  {
  }

  /** Each row is a candidate with its count, and there are at most `k` rows. */
  lemma {:induction false} TopRowsCounts(g: GraphState, candidates: set<Value>, k: nat)
    ensures var rows := TopRows(g, candidates, k);
      && |rows| <= k
      && forall i :: 0 <= i < |rows| ==> rows[i].0 in candidates && rows[i].1 == AffectsCount(g, rows[i].0)
    decreases k
  {
    if k > 0 && candidates != {} {
      var rows := TopRows(g, candidates, k);
      TopRowsUnfold(g, candidates, k);
      TopRowsCounts(g, candidates - {rows[0].0}, k - 1);
      assert forall i :: 0 < i < |rows| ==> rows[i] == rows[1..][i - 1];
    }
  }

  /** The rows name distinct products, in non-increasing count order. */
  lemma {:induction false} TopRowsOrdered(g: GraphState, candidates: set<Value>, k: nat)
    ensures var rows := TopRows(g, candidates, k);
      forall i, j :: 0 <= i < j < |rows| ==> rows[i].0 != rows[j].0 && rows[i].1 >= rows[j].1
    decreases k
  {
    if k > 0 && candidates != {} {
      var rows := TopRows(g, candidates, k);
      TopRowsUnfold(g, candidates, k);
      var rest := candidates - {rows[0].0};
      TopRowsOrdered(g, rest, k - 1);
      TopRowsCounts(g, rest, k - 1);
      assert forall i :: 0 < i < |rows| ==> rows[i] == rows[1..][i - 1];
      assert forall i :: 0 < i < |rows| ==> rows[i].0 in rest;
    }
  }

  /** A candidate without a row is only left out when all `k` rows are taken, by products
      counting at least as much. */
  lemma {:induction false} TopRowsComplete(g: GraphState, candidates: set<Value>, k: nat, p: Value)
    requires p in candidates
    requires var rows := TopRows(g, candidates, k); forall i :: 0 <= i < |rows| ==> rows[i].0 != p
    ensures var rows := TopRows(g, candidates, k);
      |rows| == k && (k > 0 ==> AffectsCount(g, p) <= rows[k - 1].1)
    decreases k
  {
    if k > 0 {
      var rows := TopRows(g, candidates, k);
      TopRowsUnfold(g, candidates, k);
      var rest := candidates - {rows[0].0};
      var tail := rows[1..];
      assert forall i :: 0 <= i < |tail| ==> tail[i] == rows[i + 1];
      TopRowsComplete(g, rest, k - 1, p);
      if k == 1 {
        assert |tail| == 0;
      } else {
        assert rows[k - 1] == tail[k - 2];
      }
    }
  }

  lemma TopRowsProperties(g: GraphState, candidates: set<Value>, k: nat)
    ensures var rows := TopRows(g, candidates, k);
      && |rows| <= k
      && (forall i :: 0 <= i < |rows| ==> rows[i].0 in candidates && rows[i].1 == AffectsCount(g, rows[i].0))
      && (forall i, j :: 0 <= i < j < |rows| ==> rows[i].0 != rows[j].0 && rows[i].1 >= rows[j].1)
      && (forall p :: p in candidates && (forall i :: 0 <= i < |rows| ==> rows[i].0 != p) ==>
            |rows| == k && (k > 0 ==> AffectsCount(g, p) <= rows[k - 1].1))
  {
    TopRowsCounts(g, candidates, k);
    TopRowsOrdered(g, candidates, k);
    var rows := TopRows(g, candidates, k);
    forall p | p in candidates && (forall i :: 0 <= i < |rows| ==> rows[i].0 != p)
      ensures |rows| == k && (k > 0 ==> AffectsCount(g, p) <= rows[k - 1].1)
    {
      TopRowsComplete(g, candidates, k, p);
    }
  }

  /** One ranking the query can return. */
  ghost function ProductRanking(g: GraphState): seq<(Value, nat)> {
    TopRows(g, AffectedProducts(g), 10)
  }

  lemma ProductRankingIsRanking(g: GraphState)
    ensures IsProductRanking(g, ProductRanking(g))
  {
    TopRowsProperties(g, AffectedProducts(g), 10);
  }

  /** Without AFFECTS edges every ranking the query can return is empty. */
  lemma RankingWithoutAffects(g: GraphState, rows: seq<(Value, nat)>)
    requires g.affects == {}
    ensures IsProductRanking(g, rows) <==> rows == []
  {
    assert AffectedProducts(g) == {} by {
      forall p | p in g.products ensures AffectsCount(g, p) == 0 {
        assert (set id | id in g.tickets && (id, p) in g.affects) == {};
      }
    }
    if rows != [] {
      assert rows[0].0 !in AffectedProducts(g);
    }
  }

  /** The upload creates ABOUT edges only, so on every graph it builds from an empty
      database the product chart is empty. */
  lemma RankingEmptyAfterUpload(items: seq<Record>, rows: seq<(Value, nat)>)
    ensures IsProductRanking(Ingest(EmptyGraph, items).graph, rows) <==> rows == []
  {
    IngestMonotone(EmptyGraph, items);
    RankingWithoutAffects(Ingest(EmptyGraph, items).graph, rows);
  }

  // ---------------------------------------------------------------------------
  // Critical count against the preprocessed priorities

  /** A lower-cased priority is never 'High' or 'Critical'. */
  lemma LowerCasedNeverCritical(v: Value)
    ensures !IsCritical(Preprocessor.LowerPriority(v))
  {
    Preprocessor.LowerPriorityProperties(v);
    var r := Preprocessor.LowerPriority(v);
    if r.Str? && |r.s| > 0 {
      assert !('A' <= r.s[0] <= 'Z');
    }
  }

  predicate NoCriticalWrites(items: seq<Record>) {
    forall i :: 0 <= i < |items| ==> !IsCritical(Get(items[i], PriorityColumn))
  }

  lemma {:induction false} TicketWritesNotCritical(items: seq<Record>)
    requires NoCriticalWrites(items)
    ensures forall id :: id in TicketWrites(items) ==> !IsCritical(TicketWrites(items)[id].priority)
    decreases |items|
  {
    if items != [] {
      var init := items[..|items| - 1];
      assert NoCriticalWrites(init) by {
        forall i | 0 <= i < |init| ensures init[i] == items[i] { }
      }
      TicketWritesNotCritical(init);
    }
  }

  /** Items whose priorities went through the preprocessor's lower-casing never raise the
      critical count: on a graph without critical tickets it stays 0. */
  lemma CriticalStaysZero(g: GraphState, items: seq<Record>)
    requires CriticalTickets(g) == 0
    requires forall i :: 0 <= i < |items| ==>
      Get(items[i], PriorityColumn) == Preprocessor.LowerPriority(Get(items[i], PriorityColumn))
    ensures CriticalTickets(Ingest(g, items).graph) == 0
  {
    var n := Processed(items);
    var p := items[..n];
    assert NoCriticalWrites(p) by {
      forall i | 0 <= i < |p| ensures !IsCritical(Get(p[i], PriorityColumn)) {
        assert p[i] == items[i];
        LowerCasedNeverCritical(Get(items[i], PriorityColumn));
      }
    }
    TicketWritesNotCritical(p);
    IngestIsOverlay(g, items);
    var r := Ingest(g, items).graph;
    assert CriticalIds(g) == {};
    forall id | id in r.tickets ensures !IsCritical(r.tickets[id].priority) {
      if id !in TicketWrites(p) {
        assert id !in CriticalIds(g);
      }
    }
    assert CriticalIds(r) == {};
  }

  // ---------------------------------------------------------------------------
  // The context join

  /** `"\n\n".join(d.page_content for d in docs)`. */
  function JoinContents(contents: seq<string>): string
    decreases |contents|
  {
    if contents == [] then ""
    else if |contents| == 1 then contents[0]
    else JoinContents(contents[..|contents| - 1]) + "\n\n" + contents[|contents| - 1]
  }

  /** Where content `i` starts in the joined text. */
  function Offset(contents: seq<string>, i: nat): nat
    requires i <= |contents|
    decreases i
  {
    if i == 0 then 0 else Offset(contents, i - 1) + |contents[i - 1]| + 2
  }

  lemma OffsetPrefix(contents: seq<string>, n: nat, i: nat)
    requires i <= n <= |contents|
    ensures Offset(contents[..n], i) == Offset(contents, i)
    decreases i
  {
    if i > 0 {
      OffsetPrefix(contents, n, i - 1);
      assert contents[..n][i - 1] == contents[i - 1];
    }
  }

  /** The joined text is as long as the contents plus two characters per separator. */
  lemma {:induction false} JoinContentsLength(contents: seq<string>)
    requires contents != []
    ensures |JoinContents(contents)| + 2 == Offset(contents, |contents|)
    decreases |contents|
  {
    var n := |contents|;
    if n > 1 {
      var init := contents[..n - 1];
      JoinContentsLength(init);
      OffsetPrefix(contents, n - 1, n - 1);
    }
  }

  /** Joining one more content extends the text: the earlier text is a prefix. */
  lemma JoinContentsSnoc(contents: seq<string>)
    requires |contents| > 1
    ensures var n := |contents|; var t := JoinContents(contents[..n - 1]);
      && JoinContents(contents)[..|t|] == t
      && JoinContents(contents)[|t|..|t| + 2] == "\n\n"
      && JoinContents(contents)[|t| + 2..] == contents[n - 1]
  {
  }

  /** Content `i` sits intact at `Offset(contents, i)`: the contents come in retrieval
      order. */
  lemma {:induction false} JoinContentsAt(contents: seq<string>, i: nat)
    requires i < |contents|
    ensures Offset(contents, i) + |contents[i]| <= |JoinContents(contents)|
    ensures JoinContents(contents)[Offset(contents, i)..Offset(contents, i) + |contents[i]|] == contents[i]
    decreases |contents|
  {
    var n := |contents|;
    JoinContentsLength(contents);
    if n > 1 {
      var init := contents[..n - 1];
      var s, t := JoinContents(contents), JoinContents(init);
      JoinContentsSnoc(contents);
      JoinContentsLength(init);
      OffsetPrefix(contents, n - 1, n - 1);
      if i < n - 1 {
        JoinContentsAt(init, i);
        OffsetPrefix(contents, n - 1, i);
        assert init[i] == contents[i];
        var a, b := Offset(contents, i), Offset(contents, i) + |contents[i]|;
        assert s[a..b] == s[..|t|][a..b];
      }
    }
  }

  /** Between content `i` and the next one there are exactly two newline characters. */
  lemma {:induction false} JoinContentsSeparator(contents: seq<string>, i: nat)
    requires i + 1 < |contents|
    ensures Offset(contents, i + 1) <= |JoinContents(contents)|
    ensures JoinContents(contents)[Offset(contents, i) + |contents[i]|..Offset(contents, i + 1)] == "\n\n"
    decreases |contents|
  {
    var n := |contents|;
    var init := contents[..n - 1];
    var s, t := JoinContents(contents), JoinContents(init);
    JoinContentsSnoc(contents);
    JoinContentsLength(init);
    JoinContentsLength(contents);
    OffsetPrefix(contents, n - 1, n - 1);
    if i + 1 < n - 1 {
      JoinContentsSeparator(init, i);
      OffsetPrefix(contents, n - 1, i);
      OffsetPrefix(contents, n - 1, i + 1);
      assert init[i] == contents[i];
      var a, b := Offset(contents, i) + |contents[i]|, Offset(contents, i + 1);
      assert s[a..b] == s[..|t|][a..b];
    } else {
      OffsetPrefix(contents, n - 1, i);
    }
  }
}
