/** Bounded traversal of the stored relationship graph (app/api/v1/graph.py). */
module GraphTraversal {
  import opened Options
  import opened Sequences

  datatype Entity = Entity(kind: string, id: string)

  /** A stored edge. `evidence` maps a key to its rendered value, or to None for JSON null. */
  datatype Relationship = Relationship(
    id: string, tenant: Option<string>, source: Entity, target: Entity, relType: string,
    confidence: Option<real>, evidence: map<string, Option<string>>)

  datatype Query = Query(
    tenant: string, seed: Entity, depth: nat, maxEdges: nat, types: set<string>, minConfidence: real)

  datatype Node = Node(key: string, kind: string, id: string, shown: string, isSeed: bool)

  datatype EdgeView = EdgeView(
    id: string, source: string, target: string, relType: string, confidence: Option<real>,
    evidence: map<string, Option<string>>)

  datatype Traversal = Traversal(
    nodes: map<string, Node>, edges: map<string, EdgeView>, depthReached: nat, truncated: bool)

  // ---------------------------------------------------------------- keys and labels

  function NodeKey(e: Entity): string {
    e.kind + ":" + e.id
  }

  function LabelFromEvidence(evidence: map<string, Option<string>>, side: string, entityId: string): string {
    var key := side + "_label";
    if key in evidence && evidence[key].Some? && evidence[key].value != "" then evidence[key].value else entityId
  }

  /** Where a kind holds no colon, the key determines the entity. */
  lemma NodeKeyInjective(a: Entity, b: Entity)
    requires ':' !in a.kind && ':' !in b.kind
    requires NodeKey(a) == NodeKey(b)
    ensures a == b
  {
    SplitAtFirst(a.kind, a.id, b.kind, b.id, ':');
  }

  ghost predicate KeyIsUnambiguous(a: Entity) {
    forall b :: NodeKey(b) == NodeKey(a) ==> b == a
  }

  /** The key promised to be unambiguous is so exactly for the entities written without a colon. */
  lemma NodeKeyUnambiguousExactly(a: Entity)
    ensures KeyIsUnambiguous(a) <==> ':' !in a.kind && ':' !in a.id
  {
    if ':' in a.kind {
      var i :| 0 <= i < |a.kind| && a.kind[i] == ':';
      var b := Entity(a.kind[..i], a.kind[i + 1..] + ":" + a.id);
      assert NodeKey(b) == NodeKey(a);
      assert |b.kind| < |a.kind|;
    } else if ':' in a.id {
      var i :| 0 <= i < |a.id| && a.id[i] == ':';
      var b := Entity(a.kind + ":" + a.id[..i], a.id[i + 1..]);
      assert NodeKey(b) == NodeKey(a);
      assert |b.kind| > |a.kind|;
    } else {
      forall b | NodeKey(b) == NodeKey(a) ensures b == a {
        var k := NodeKey(a);
        assert forall i :: 0 <= i < |a.kind| ==> k[i] == a.kind[i];
        assert forall i :: |a.kind| < i < |k| ==> k[i] == a.id[i - |a.kind| - 1];
        assert k[|b.kind|] == ':';
        assert a.kind == k[..|a.kind|] == b.kind;
        assert a.id == k[|a.kind| + 1..] == b.id;
      }
    }
  }

  // ---------------------------------------------------------------- the graph a caller may see

  predicate Visible(q: Query, r: Relationship) {
    && (r.tenant.None? || r.tenant.value == q.tenant)
    && (q.types == {} || r.relType in q.types)
    && (q.minConfidence > 0.0 ==> r.confidence.Some? && r.confidence.value >= q.minConfidence)
  }

  predicate Touches(r: Relationship, f: set<Entity>) {
    r.source in f || r.target in f
  }

  function VisibleEdges(db: seq<Relationship>, q: Query): set<Relationship> {
    set r | r in db && Visible(q, r)
  }

  function Ends(edges: set<Relationship>): set<Entity> {
    (set r | r in edges :: r.source) + (set r | r in edges :: r.target)
  }

  /** The edges with an end in `f`. */
  function Incident(edges: set<Relationship>, f: set<Entity>): set<Relationship> {
    set r | r in edges && Touches(r, f)
  }

  /** The entities at most `d` hops from `seed`. */
  function Ball(edges: set<Relationship>, seed: Entity, d: nat): set<Entity> {
    if d == 0 then {seed} else
      var b := Ball(edges, seed, d - 1);
      b + Ends(Incident(edges, b))
  }

  /** The edges reached within `d` hops: those with an end at most `d - 1` hops away. */
  function InRange(edges: set<Relationship>, seed: Entity, d: nat): set<Relationship> {
    if d == 0 then {} else Incident(edges, Ball(edges, seed, d - 1))
  }

  ghost predicate Joined(edges: set<Relationship>, a: Entity, b: Entity) {
    exists r :: r in edges && ((r.source == a && r.target == b) || (r.source == b && r.target == a))
  }

  ghost predicate IsWalk(edges: set<Relationship>, p: seq<Entity>) {
    p != [] && forall i {:trigger p[i]} :: 0 < i < |p| ==> Joined(edges, p[i - 1], p[i])
  }

  ghost predicate WalkTo(edges: set<Relationship>, seed: Entity, v: Entity, p: seq<Entity>) {
    IsWalk(edges, p) && p[0] == seed && p[|p| - 1] == v
  }

  /** Declarative distance: some walk of at most `d` edges joins the two. */
  ghost predicate Within(edges: set<Relationship>, seed: Entity, v: Entity, d: nat) {
    exists p :: WalkTo(edges, seed, v, p) && |p| <= d + 1
  }

  lemma {:induction false} WalkStaysInBall(edges: set<Relationship>, seed: Entity, v: Entity, p: seq<Entity>, d: nat)
    requires WalkTo(edges, seed, v, p) && |p| <= d + 1
    ensures v in Ball(edges, seed, d)
    decreases d
  {
    if d > 0 {
      if |p| == 1 {
        WalkStaysInBall(edges, seed, v, p, d - 1);
      } else {
        var front := p[..|p| - 1];
        var u := p[|p| - 2];
        assert WalkTo(edges, seed, u, front) by {
          forall i {:trigger front[i]} | 0 < i < |front| ensures Joined(edges, front[i - 1], front[i]) {
            assert front[i] == p[i] && front[i - 1] == p[i - 1];
          }
        }
        WalkStaysInBall(edges, seed, u, front, d - 1);
        assert p[|p| - 1] == v;
        assert Joined(edges, u, v);
      }
    }
  }

  lemma WalkLonger(edges: set<Relationship>, seed: Entity, u: Entity, v: Entity, p: seq<Entity>)
    requires WalkTo(edges, seed, u, p) && Joined(edges, u, v)
    ensures WalkTo(edges, seed, v, p + [v])
  {
    hide Joined;
    var longer := p + [v];
    forall i {:trigger longer[i]} | 0 < i < |longer| ensures Joined(edges, longer[i - 1], longer[i]) {
      assert longer[i - 1] == p[i - 1];
      if i < |p| {
        assert longer[i] == p[i];
      }
    }
  }

  lemma SeedWalk(edges: set<Relationship>, seed: Entity)
    ensures WalkTo(edges, seed, seed, [seed])
  {
  }

  /** Whatever the last hop adds is joined to what was there before. */
  lemma LastHop(edges: set<Relationship>, seed: Entity, v: Entity, d: nat) returns (u: Entity)
    requires d > 0 && v in Ball(edges, seed, d) && v !in Ball(edges, seed, d - 1)
    ensures u in Ball(edges, seed, d - 1) && Joined(edges, u, v)
  {
    var b := Ball(edges, seed, d - 1);
    var r :| r in Incident(edges, b) && (r.source == v || r.target == v);
    u := if r.source == v then r.target else r.source;
  }

  lemma {:induction false} BallHasWalks(edges: set<Relationship>, seed: Entity, v: Entity, d: nat)
    requires v in Ball(edges, seed, d)
    ensures Within(edges, seed, v, d)
    decreases d
  {
    hide WalkTo, Joined, Ends, Incident;
    if d == 0 {
      SeedWalk(edges, seed);
    } else if v in Ball(edges, seed, d - 1) {
      BallHasWalks(edges, seed, v, d - 1);
    } else {
      hide Ball;
      var u := LastHop(edges, seed, v, d);
      BallHasWalks(edges, seed, u, d - 1);
      var p :| WalkTo(edges, seed, u, p) && |p| <= d;
      WalkLonger(edges, seed, u, v, p);
    }
  }

  /** The ball is the set of entities at graph distance at most `d`. */
  lemma BallIsDistance(edges: set<Relationship>, seed: Entity, v: Entity, d: nat)
    ensures v in Ball(edges, seed, d) <==> Within(edges, seed, v, d)
  {
    if v in Ball(edges, seed, d) {
      BallHasWalks(edges, seed, v, d);
    } else if Within(edges, seed, v, d) {
      var p :| WalkTo(edges, seed, v, p) && |p| <= d + 1;
      WalkStaysInBall(edges, seed, v, p, d);
    }
  }

  lemma {:induction false} BallGrows(edges: set<Relationship>, seed: Entity, c: nat, d: nat)
    requires c <= d
    ensures Ball(edges, seed, c) <= Ball(edges, seed, d)
    ensures InRange(edges, seed, c) <= InRange(edges, seed, d)
    decreases d
  {
    if c < d {
      BallGrows(edges, seed, c, d - 1);
    }
  }

  lemma NothingInRange(edges: set<Relationship>, seed: Entity)
    ensures InRange(edges, seed, 0) == {} && Ends({}) == {}
  {
  }

  lemma EndsGrow(a: set<Relationship>, b: set<Relationship>)
    requires a <= b
    ensures Ends(a) <= Ends(b)
  {
  }

  lemma BallNext(edges: set<Relationship>, seed: Entity, d: nat)
    ensures Ball(edges, seed, 0) == {seed}
    ensures d > 0 ==>
      && InRange(edges, seed, d) == Incident(edges, Ball(edges, seed, d - 1))
      && Ball(edges, seed, d) == Ball(edges, seed, d - 1) + Ends(InRange(edges, seed, d))
  {
  }

  /** The ball of radius d is the seed and the ends of the edges in range. */
  lemma {:induction false} BallIsEnds(edges: set<Relationship>, seed: Entity, d: nat)
    ensures Ball(edges, seed, d) == {seed} + Ends(InRange(edges, seed, d))
  {
    hide Incident, Ends, Ball, InRange;
    BallNext(edges, seed, d);
    if d == 0 {
      NothingInRange(edges, seed);
    } else {
      BallIsEnds(edges, seed, d - 1);
      BallGrows(edges, seed, d - 1, d);
      EndsGrow(InRange(edges, seed, d - 1), InRange(edges, seed, d));
    }
  }

  // ---------------------------------------------------------------- what a traversal returns

  ghost predicate UniqueIds(db: seq<Relationship>) {
    forall i, j :: 0 <= i < j < |db| ==> db[i].id != db[j].id
  }

  /** The edges first reached at hop `k`, in table order (creation time, then id). */
  function Layer(db: seq<Relationship>, q: Query, k: nat): seq<Relationship>
    requires k > 0
  {
    var edges := VisibleEdges(db, q);
    var upTo, before := InRange(edges, q.seed, k), InRange(edges, q.seed, k - 1);
    Filter((r: Relationship) => r in upTo && r !in before, db)
  }

  /** All edges within `k` hops, nearest hop first. */
  function Ordered(db: seq<Relationship>, q: Query, k: nat): seq<Relationship> {
    if k == 0 then [] else Ordered(db, q, k - 1) + Layer(db, q, k)
  }

  function Take<T>(s: seq<T>, n: nat): seq<T> {
    if |s| <= n then s else s[..n]
  }

  lemma TakeSize<T>(s: seq<T>, n: nat)
    ensures |Take(s, n)| == if |s| <= n then |s| else n
  {
  }

  lemma TakePrefix<T>(a: seq<T>, b: seq<T>, n: nat)
    ensures forall x :: x in Take(a, n) ==> x in Take(a + b, n)
  {
    forall x | x in Take(a, n) ensures x in Take(a + b, n) {
      var i :| 0 <= i < |Take(a, n)| && Take(a, n)[i] == x;
      assert Take(a + b, n)[i] == x;
    }
  }

  lemma TakeFacts<T>(s: seq<T>, n: nat)
    ensures forall x :: x in Take(s, n) ==> x in s
    ensures Distinct(s) ==> Distinct(Take(s, n))
  {
  }

  /** The last hop within `k` that still had room for a new edge and found one. */
  function Reached(db: seq<Relationship>, q: Query, k: nat): (h: nat)
    ensures h <= k
  {
    if k == 0 then 0
    else if Layer(db, q, k) != [] && |Ordered(db, q, k - 1)| < q.maxEdges then k
    else Reached(db, q, k - 1)
  }

  /** The edge cap falls strictly inside the edges of some hop up to `k`. */
  predicate CutInside(db: seq<Relationship>, q: Query, k: nat) {
    k > 0 && (CutInside(db, q, k - 1) || |Ordered(db, q, k - 1)| < q.maxEdges < |Ordered(db, q, k)|)
  }

  function UpsertNode(nodes: map<string, Node>, e: Entity, seed: Entity, shown: string): map<string, Node> {
    var key := NodeKey(e);
    if key !in nodes then nodes[key := Node(key, e.kind, e.id, shown, e == seed)]
    else if nodes[key].shown == nodes[key].id && shown != e.id then nodes[key := nodes[key].(shown := shown)]
    else nodes
  }

  function SeedNode(seed: Entity): map<string, Node> {
    map[NodeKey(seed) := Node(NodeKey(seed), seed.kind, seed.id, seed.id, true)]
  }

  function AddEnds(nodes: map<string, Node>, r: Relationship, seed: Entity): map<string, Node> {
    var withSource := UpsertNode(nodes, r.source, seed, LabelFromEvidence(r.evidence, "source", r.source.id));
    UpsertNode(withSource, r.target, seed, LabelFromEvidence(r.evidence, "target", r.target.id))
  }

  /** The node table after the ends of `rows` were entered from first to last. */
  function NodesAfter(nodes: map<string, Node>, rows: seq<Relationship>, seed: Entity): map<string, Node>
    decreases |rows|
  {
    if rows == [] then nodes else NodesAfter(AddEnds(nodes, rows[0], seed), rows[1..], seed)
  }

  function View(r: Relationship): EdgeView {
    EdgeView(r.id, NodeKey(r.source), NodeKey(r.target), r.relType, r.confidence, r.evidence)
  }

  function EdgesAfter(edges: map<string, EdgeView>, rows: seq<Relationship>): map<string, EdgeView>
    decreases |rows|
  {
    if rows == [] then edges else EdgesAfter(edges[rows[0].id := View(rows[0])], rows[1..])
  }

  function NodesOf(seed: Entity, order: seq<Relationship>): map<string, Node> {
    NodesAfter(SeedNode(seed), order, seed)
  }

  function EdgesOf(order: seq<Relationship>): map<string, EdgeView> {
    EdgesAfter(map[], order)
  }

  /** The edges returned: the first `maxEdges` of all edges in range, nearest hop first. */
  function Returned(db: seq<Relationship>, q: Query): seq<Relationship> {
    Take(Ordered(db, q, q.depth), q.maxEdges)
  }

  function Expected(db: seq<Relationship>, q: Query): Traversal {
    Traversal(NodesOf(q.seed, Returned(db, q)), EdgesOf(Returned(db, q)),
              Reached(db, q, q.depth), CutInside(db, q, q.depth))
  }

  // ---------------------------------------------------------------- facts about the layers

  lemma LayerElements(db: seq<Relationship>, q: Query, k: nat)
    requires k > 0
    ensures forall r :: r in Layer(db, q, k) <==>
      r in InRange(VisibleEdges(db, q), q.seed, k) && r !in InRange(VisibleEdges(db, q), q.seed, k - 1)
    ensures Distinct(db) ==> Distinct(Layer(db, q, k))
  {
    var edges := VisibleEdges(db, q);
    var upTo, before := InRange(edges, q.seed, k), InRange(edges, q.seed, k - 1);
    FilterElements((r: Relationship) => r in upTo && r !in before, db);
    if Distinct(db) {
      FilterDistinct((r: Relationship) => r in upTo && r !in before, db);
    }
  }

  lemma {:induction false} OrderedIsInRange(db: seq<Relationship>, q: Query, k: nat)
    requires Distinct(db)
    ensures forall r :: r in Ordered(db, q, k) <==> r in InRange(VisibleEdges(db, q), q.seed, k)
    ensures Distinct(Ordered(db, q, k))
  {
    if k > 0 {
      OrderedIsInRange(db, q, k - 1);
      LayerElements(db, q, k);
      BallGrows(VisibleEdges(db, q), q.seed, k - 1, k);
      var front, layer := Ordered(db, q, k - 1), Layer(db, q, k);
      assert Ordered(db, q, k) == front + layer;
      DistinctConcat(front, layer);
    }
  }

  lemma InRangeVisible(db: seq<Relationship>, q: Query, k: nat)
    ensures forall r :: r in InRange(VisibleEdges(db, q), q.seed, k) ==> Visible(q, r)
  {
  }

  lemma InRangeInTable(db: seq<Relationship>, q: Query, k: nat)
    ensures forall r :: r in InRange(VisibleEdges(db, q), q.seed, k) ==> r in db
  {
  }

  lemma {:induction false} AfterConcat(
    nodes: map<string, Node>, edges: map<string, EdgeView>, a: seq<Relationship>, b: seq<Relationship>, seed: Entity)
    ensures NodesAfter(nodes, a + b, seed) == NodesAfter(NodesAfter(nodes, a, seed), b, seed)
    ensures EdgesAfter(edges, a + b) == EdgesAfter(EdgesAfter(edges, a), b)
    decreases |a|
  {
    if a == [] {
      assert a + b == b;
    } else {
      assert (a + b)[1..] == a[1..] + b;
      AfterConcat(AddEnds(nodes, a[0], seed), edges[a[0].id := View(a[0])], a[1..], b, seed);
    }
  }

  lemma OneRowPerId(db: seq<Relationship>, a: Relationship, b: Relationship)
    requires UniqueIds(db) && a in db && b in db && a.id == b.id
    ensures a == b
  {
  }

  lemma NoEdges()
    ensures EdgesOf([]) == map[]
  {
  }

  lemma OneMoreEdge(front: seq<Relationship>, last: Relationship)
    ensures EdgesOf(front + [last]) == EdgesOf(front)[last.id := View(last)]
  {
    hide View;
    AfterConcat(map[], map[], front, [last], last.source);
    assert [last][0] == last && [last][1..] == [];
  }

  lemma {:induction false} EdgesOfKeys(db: seq<Relationship>, order: seq<Relationship>)
    requires UniqueIds(db) && Distinct(order) && forall r :: r in order ==> r in db
    ensures |EdgesOf(order)| == |order|
    ensures forall r :: r in db ==> (r.id in EdgesOf(order) <==> r in order)
    ensures forall r :: r in order ==> r.id in EdgesOf(order) && EdgesOf(order)[r.id] == View(r)
    ensures forall i :: i in EdgesOf(order) ==> exists r :: r in order && r.id == i
  {
    hide EdgesOf, View;
    if order == [] {
      NoEdges();
    } else {
      var front, last := order[..|order| - 1], order[|order| - 1];
      OneMoreEdge(front, last);
      assert order == front + [last];
      EdgesOfKeys(db, front);
      assert last !in front;
      assert last.id !in EdgesOf(front);
      assert forall r :: r in order <==> r in front || r == last;
      forall r | r in db && r.id == last.id ensures r == last {
        OneRowPerId(db, r, last);
      }
    }
  }

  /** Where a hop brings in no new entity, no later hop does. */
  lemma {:induction false} BallStays(edges: set<Relationship>, seed: Entity, h: nat, k: nat)
    requires 0 < h <= k
    requires Ball(edges, seed, h) == Ball(edges, seed, h - 1)
    ensures Ball(edges, seed, k) == Ball(edges, seed, h)
    ensures Ball(edges, seed, k - 1) == Ball(edges, seed, h)
    decreases k
  {
    if h < k {
      BallStays(edges, seed, h, k - 1);
    }
  }

  lemma NoNewLayer(db: seq<Relationship>, q: Query, h: nat, k: nat)
    requires 0 < h < k
    requires Ball(VisibleEdges(db, q), q.seed, h) == Ball(VisibleEdges(db, q), q.seed, h - 1)
    ensures Layer(db, q, k) == []
  {
    hide Ball, InRange, Incident, Layer, VisibleEdges;
    var edges := VisibleEdges(db, q);
    BallStays(edges, q.seed, h, k - 1);
    BallNext(edges, q.seed, k);
    BallNext(edges, q.seed, k - 1);
    assert InRange(edges, q.seed, k) == InRange(edges, q.seed, k - 1);
    LayerElements(db, q, k);
    EmptyOrElement(Layer(db, q, k));
  }

  lemma HopAddsNothing(db: seq<Relationship>, q: Query, k: nat)
    requires k > 0
    requires |Ordered(db, q, k - 1)| >= q.maxEdges || Layer(db, q, k) == []
    ensures Take(Ordered(db, q, k), q.maxEdges) == Take(Ordered(db, q, k - 1), q.maxEdges)
    ensures Reached(db, q, k) == Reached(db, q, k - 1)
    ensures CutInside(db, q, k) == CutInside(db, q, k - 1)
    ensures |Ordered(db, q, k)| >= |Ordered(db, q, k - 1)|
  {
    var front, layer := Ordered(db, q, k - 1), Layer(db, q, k);
    assert Ordered(db, q, k) == front + layer;
  }

  /** Once the cap is met, or no new entity turned up, later hops change nothing. */
  lemma {:induction false} Settled(db: seq<Relationship>, q: Query, h: nat, k: nat)
    requires h <= k
    requires |Ordered(db, q, h)| >= q.maxEdges || forall j :: h < j <= k ==> Layer(db, q, j) == []
    ensures Take(Ordered(db, q, k), q.maxEdges) == Take(Ordered(db, q, h), q.maxEdges)
    ensures Reached(db, q, k) == Reached(db, q, h)
    ensures CutInside(db, q, k) == CutInside(db, q, h)
    ensures |Ordered(db, q, k)| >= |Ordered(db, q, h)|
    decreases k
  {
    hide Take, Reached, CutInside, Ordered, Layer;
    if h < k {
      Settled(db, q, h, k - 1);
      HopAddsNothing(db, q, k);
    }
  }

  // ---------------------------------------------------------------- the traversal itself

  /** One query: the visible rows at the frontier that were not returned before, in table order, cut at `limit`. */
  function Discover(db: seq<Relationship>, q: Query, frontier: set<Entity>, known: set<string>, limit: nat)
    : seq<Relationship>
  {
    Take(Filter((r: Relationship) => Visible(q, r) && Touches(r, frontier) && r.id !in known, db), limit)
  }

  /** The entities at distance exactly `h`. */
  ghost predicate IsFrontier(db: seq<Relationship>, q: Query, h: nat, frontier: set<Entity>) {
    frontier == Ball(VisibleEdges(db, q), q.seed, h)
      - (if h == 0 then {} else Ball(VisibleEdges(db, q), q.seed, h - 1))
  }

  lemma DiscoverIsLayer(db: seq<Relationship>, q: Query, frontier: set<Entity>, known: set<string>, limit: nat, h: nat)
    requires IsFrontier(db, q, h, frontier)
    requires forall r :: r in db ==> (r.id in known <==> r in InRange(VisibleEdges(db, q), q.seed, h))
    ensures Discover(db, q, frontier, known, limit) == Take(Layer(db, q, h + 1), limit)
  {
    var edges := VisibleEdges(db, q);
    var upTo, before := InRange(edges, q.seed, h + 1), InRange(edges, q.seed, h);
    var wanted := (r: Relationship) => Visible(q, r) && Touches(r, frontier) && r.id !in known;
    var inLayer := (r: Relationship) => r in upTo && r !in before;
    FilterSame(wanted, inLayer, db);
  }

  lemma LayerExtendsBall(db: seq<Relationship>, q: Query, h: nat)
    requires h > 0
    ensures Ball(VisibleEdges(db, q), q.seed, h)
      == Ball(VisibleEdges(db, q), q.seed, h - 1) + Ends(Elems(Layer(db, q, h)))
  {
    var edges := VisibleEdges(db, q);
    BallIsEnds(edges, q.seed, h - 1);
    BallIsEnds(edges, q.seed, h);
    BallGrows(edges, q.seed, h - 1, h);
    LayerElements(db, q, h);
    var added := Elems(Layer(db, q, h));
    assert InRange(edges, q.seed, h) == InRange(edges, q.seed, h - 1) + added;
  }

  lemma KnownEdges(db: seq<Relationship>, q: Query, h: nat)
    requires UniqueIds(db)
    ensures |EdgesOf(Ordered(db, q, h))| == |Ordered(db, q, h)|
    ensures forall r :: r in db ==>
      (r.id in EdgesOf(Ordered(db, q, h)).Keys <==> r in InRange(VisibleEdges(db, q), q.seed, h))
  {
    OrderedIsInRange(db, q, h);
    InRangeInTable(db, q, h);
    EdgesOfKeys(db, Ordered(db, q, h));
  }

  /** An empty frontier after `h` hops means that every later hop is empty. */
  lemma NothingBeyond(db: seq<Relationship>, q: Query, h: nat)
    requires IsFrontier(db, q, h, {})
    ensures forall j :: h < j ==> Layer(db, q, j) == []
  {
    var edges := VisibleEdges(db, q);
    var before := if h == 0 then {} else Ball(edges, q.seed, h - 1);
    forall x | x in Ball(edges, q.seed, h) ensures x in before {
      assert x in Ball(edges, q.seed, h) - before <==> x !in before;
    }
    assert h == 0 ==> q.seed in Ball(edges, q.seed, h);
    BallGrows(edges, q.seed, h - 1, h);
    forall j | h < j ensures Layer(db, q, j) == [] {
      NoNewLayer(db, q, h, j);
    }
  }

  function EndsOf(rs: seq<Relationship>): set<Entity> {
    if rs == [] then {} else {rs[0].source, rs[0].target} + EndsOf(rs[1..])
  }

  lemma {:induction false} EndsOfElems(rs: seq<Relationship>)
    ensures EndsOf(rs) == Ends(Elems(rs))
  {
    if rs != [] {
      EndsOfElems(rs[1..]);
      assert rs == [rs[0]] + rs[1..];
      assert Elems(rs) == {rs[0]} + Elems(rs[1..]);
    }
  }

  /** Enters one hop's rows in the node and edge tables and collects the entities not seen before. */
  method Record(discovered: seq<Relationship>, seed: Entity, visited: set<Entity>,
                nodes0: map<string, Node>, edges0: map<string, EdgeView>)
    returns (nodes: map<string, Node>, edges: map<string, EdgeView>, nextFrontier: set<Entity>)
    ensures nodes == NodesAfter(nodes0, discovered, seed)
    ensures edges == EdgesAfter(edges0, discovered)
    ensures nextFrontier == EndsOf(discovered) - visited
  {
    nodes, edges, nextFrontier := nodes0, edges0, {};
    var i := 0;
    while i < |discovered|
      invariant 0 <= i <= |discovered|
      invariant NodesAfter(nodes, discovered[i..], seed) == NodesAfter(nodes0, discovered, seed)
      invariant EdgesAfter(edges, discovered[i..]) == EdgesAfter(edges0, discovered)
      invariant nextFrontier + (EndsOf(discovered[i..]) - visited) == EndsOf(discovered) - visited
    {
      var r := discovered[i];
      assert discovered[i..][1..] == discovered[i + 1..];
      nodes := AddEnds(nodes, r, seed);
      edges := edges[r.id := View(r)];
      if r.source !in visited {
        nextFrontier := nextFrontier + {r.source};
      }
      if r.target !in visited {
        nextFrontier := nextFrontier + {r.target};
      }
      i := i + 1;
    }
  }

  /** Before hop `h + 1`: when the loop stops here it has the answer, otherwise its query returns the next layer. */
  lemma BeforeHop(db: seq<Relationship>, q: Query, h: nat, frontier: set<Entity>, limit: nat)
    requires UniqueIds(db) && h <= q.depth && IsFrontier(db, q, h, frontier)
    requires !CutInside(db, q, h) && |Ordered(db, q, h)| <= q.maxEdges
    ensures |EdgesOf(Ordered(db, q, h))| == |Ordered(db, q, h)|
    ensures frontier == {} || |Ordered(db, q, h)| >= q.maxEdges ==>
      Returned(db, q) == Ordered(db, q, h) && Reached(db, q, q.depth) == Reached(db, q, h) && !CutInside(db, q, q.depth)
    ensures Discover(db, q, frontier, EdgesOf(Ordered(db, q, h)).Keys, limit) == Take(Layer(db, q, h + 1), limit)
  {
    hide Layer, Ordered, Reached, NodesAfter, EdgesAfter, Ball, InRange, IsFrontier, Discover;
    KnownEdges(db, q, h);
    if frontier == {} {
      NothingBeyond(db, q, h);
    }
    if frontier == {} || |Ordered(db, q, h)| >= q.maxEdges {
      Settled(db, q, h, q.depth);
    }
    DiscoverIsLayer(db, q, frontier, EdgesOf(Ordered(db, q, h)).Keys, limit, h);
  }

  /** After hop `h + 1`, which kept the first `remaining` rows of its layer. */
  lemma AfterHop(db: seq<Relationship>, q: Query, h: nat, remaining: nat, kept: seq<Relationship>)
    requires h < q.depth && remaining > 0 && !CutInside(db, q, h)
    requires |Ordered(db, q, h)| + remaining == q.maxEdges
    requires kept == Take(Layer(db, q, h + 1), remaining)
    ensures NodesAfter(NodesOf(q.seed, Ordered(db, q, h)), kept, q.seed) == NodesOf(q.seed, Ordered(db, q, h) + kept)
    ensures EdgesAfter(EdgesOf(Ordered(db, q, h)), kept) == EdgesOf(Ordered(db, q, h) + kept)
    ensures CutInside(db, q, h + 1) <==> |Layer(db, q, h + 1)| > remaining
    ensures Reached(db, q, h + 1) == if kept != [] then h + 1 else Reached(db, q, h)
    ensures |Layer(db, q, h + 1)| > remaining ==>
      && Returned(db, q) == Ordered(db, q, h) + kept
      && Reached(db, q, q.depth) == h + 1 && CutInside(db, q, q.depth)
    ensures |Layer(db, q, h + 1)| <= remaining ==>
      && Ordered(db, q, h) + kept == Ordered(db, q, h + 1)
      && Ball(VisibleEdges(db, q), q.seed, h + 1) == Ball(VisibleEdges(db, q), q.seed, h) + EndsOf(kept)
  {
    hide Layer, Ordered, Reached, CutInside, NodesAfter, EdgesAfter, Ball, EndsOf, Ends, VisibleEdges, Take;
    AfterConcat(SeedNode(q.seed), map[], Ordered(db, q, h), kept, q.seed);
    HopCounts(db, q, h, remaining);
    TakeLayer(db, q, h, remaining);
    if |Layer(db, q, h + 1)| > remaining {
      Settled(db, q, h + 1, q.depth);
    } else {
      LayerExtendsBall(db, q, h + 1);
      EndsOfElems(kept);
    }
  }

  lemma OrderedNext(db: seq<Relationship>, q: Query, h: nat)
    ensures Ordered(db, q, h + 1) == Ordered(db, q, h) + Layer(db, q, h + 1)
  {
  }

  lemma TakeLayer(db: seq<Relationship>, q: Query, h: nat, remaining: nat)
    requires |Ordered(db, q, h)| + remaining == q.maxEdges
    ensures Take(Ordered(db, q, h + 1), q.maxEdges) == Ordered(db, q, h) + Take(Layer(db, q, h + 1), remaining)
    ensures |Layer(db, q, h + 1)| <= remaining ==>
      Ordered(db, q, h + 1) == Ordered(db, q, h) + Take(Layer(db, q, h + 1), remaining)
      && Take(Layer(db, q, h + 1), remaining) == Layer(db, q, h + 1)
    ensures remaining > 0 ==> (Take(Layer(db, q, h + 1), remaining) == [] <==> Layer(db, q, h + 1) == [])
  {
    hide Ordered, Layer;
    OrderedNext(db, q, h);
  }

  lemma HopCounts(db: seq<Relationship>, q: Query, h: nat, remaining: nat)
    requires remaining > 0 && !CutInside(db, q, h) && |Ordered(db, q, h)| + remaining == q.maxEdges
    ensures CutInside(db, q, h + 1) <==> |Layer(db, q, h + 1)| > remaining
    ensures Reached(db, q, h + 1) == if Layer(db, q, h + 1) != [] then h + 1 else Reached(db, q, h)
    ensures |Ordered(db, q, h + 1)| == |Ordered(db, q, h)| + |Layer(db, q, h + 1)|
  {
    hide Ordered, Layer;
    OrderedNext(db, q, h);
  }

  lemma AtStart(db: seq<Relationship>, q: Query)
    ensures Ordered(db, q, 0) == [] && Reached(db, q, 0) == 0
    ensures NodesOf(q.seed, []) == SeedNode(q.seed) && EdgesOf([]) == map[]
    ensures Ball(VisibleEdges(db, q), q.seed, 0) == {q.seed}
    ensures IsFrontier(db, q, 0, {q.seed})
  {
  }

  /** The traversal returns the first `maxEdges` edges of the hop order, and nothing else. */
  method Traverse(db: seq<Relationship>, q: Query) returns (t: Traversal)
    requires UniqueIds(db)
    ensures t == Expected(db, q)
  {
    hide Layer, Ordered, Reached, NodesAfter, EdgesAfter, Ball, Discover;
    AtStart(db, q);
    var frontier, visited := {q.seed}, {q.seed};
    var nodes := SeedNode(q.seed);
    var edges: map<string, EdgeView> := map[];
    var depthReached, truncated := 0, false;
    var hop := 1;
    while hop <= q.depth
      invariant 1 <= hop <= q.depth + 1
      invariant !truncated && !CutInside(db, q, hop - 1)
      invariant |Ordered(db, q, hop - 1)| <= q.maxEdges
      invariant nodes == NodesOf(q.seed, Ordered(db, q, hop - 1))
      invariant edges == EdgesOf(Ordered(db, q, hop - 1))
      invariant depthReached == Reached(db, q, hop - 1)
      invariant visited == Ball(VisibleEdges(db, q), q.seed, hop - 1)
      invariant IsFrontier(db, q, hop - 1, frontier)
    {
      BeforeHop(db, q, hop - 1, frontier, q.maxEdges - |Ordered(db, q, hop - 1)| + 1);
      if frontier == {} || |edges| >= q.maxEdges {
        break;
      }
      var remaining := q.maxEdges - |edges|;
      var discovered := Discover(db, q, frontier, edges.Keys, remaining + 1);
      if |discovered| > remaining {
        truncated := true;
        discovered := discovered[..remaining];
      }
      AfterHop(db, q, hop - 1, remaining, discovered);
      var nextFrontier: set<Entity>;
      nodes, edges, nextFrontier := Record(discovered, q.seed, visited, nodes, edges);
      visited := visited + nextFrontier;
      frontier := nextFrontier;
      if discovered != [] {
        depthReached := hop;
      }
      if truncated {
        break;
      }
      hop := hop + 1;
    }
    t := Traversal(nodes, edges, depthReached, truncated);
  }

  // ---------------------------------------------------------------- what the answer means

  /** The edge is shown from its source to its target, with what is stored of it. */
  predicate ShownAs(v: EdgeView, r: Relationship) {
    && v.id == r.id && v.relType == r.relType && v.confidence == r.confidence && v.evidence == r.evidence
    && v.source == r.source.kind + ":" + r.source.id && v.target == r.target.kind + ":" + r.target.id
  }

  ghost predicate HoldsAllInRange(db: seq<Relationship>, q: Query, t: Traversal) {
    forall r :: r in InRange(VisibleEdges(db, q), q.seed, q.depth) ==> r.id in t.edges && ShownAs(t.edges[r.id], r)
  }

  lemma ReturnedFacts(db: seq<Relationship>, q: Query)
    requires UniqueIds(db)
    ensures forall r :: r in Returned(db, q) ==>
      r in db && Visible(q, r) && r in InRange(VisibleEdges(db, q), q.seed, q.depth)
    ensures Distinct(Returned(db, q)) && |Expected(db, q).edges| == |Returned(db, q)| <= q.maxEdges
    ensures forall r :: r in db ==> (r.id in Expected(db, q).edges <==> r in Returned(db, q))
    ensures forall r :: r in Returned(db, q) ==> r.id in Expected(db, q).edges && Expected(db, q).edges[r.id] == View(r)
    ensures forall i :: i in Expected(db, q).edges ==> exists r :: r in Returned(db, q) && r.id == i
    ensures |InRange(VisibleEdges(db, q), q.seed, q.depth)| == |Ordered(db, q, q.depth)|
  {
    hide Layer, Ordered, Reached, NodesAfter, EdgesAfter, Ball, CutInside, InRange, Take;
    OrderedIsInRange(db, q, q.depth);
    InRangeInTable(db, q, q.depth);
    InRangeVisible(db, q, q.depth);
    TakeFacts(Ordered(db, q, q.depth), q.maxEdges);
    TakeSize(Ordered(db, q, q.depth), q.maxEdges);
    assert Elems(Ordered(db, q, q.depth)) == InRange(VisibleEdges(db, q), q.seed, q.depth);
    DistinctSize(Ordered(db, q, q.depth));
    EdgesOfKeys(db, Returned(db, q));
  }

  /** A traversal misses no edge in range exactly when there are no more of them than the cap allows. */
  lemma EdgesCompleteExactly(db: seq<Relationship>, q: Query)
    requires UniqueIds(db)
    ensures HoldsAllInRange(db, q, Expected(db, q))
      <==> |InRange(VisibleEdges(db, q), q.seed, q.depth)| <= q.maxEdges
  {
    hide Layer, Ordered, Reached, NodesAfter, EdgesAfter, Ball, CutInside;
    ReturnedFacts(db, q);
    OrderedIsInRange(db, q, q.depth);
    var all, kept := Ordered(db, q, q.depth), Returned(db, q);
    InRangeInTable(db, q, q.depth);
    if |all| > q.maxEdges {
      var missed := all[q.maxEdges];
      assert missed in all && missed in db;
      assert missed !in kept;
    }
  }

  lemma {:induction false} NodesAfterKeys(nodes: map<string, Node>, rows: seq<Relationship>, seed: Entity)
    ensures NodesAfter(nodes, rows, seed).Keys == nodes.Keys + (set e | e in EndsOf(rows) :: NodeKey(e))
    decreases |rows|
  {
    if rows != [] {
      var r := rows[0];
      NodesAfterKeys(AddEnds(nodes, r, seed), rows[1..], seed);
      assert AddEnds(nodes, r, seed).Keys == nodes.Keys + {NodeKey(r.source), NodeKey(r.target)};
      assert EndsOf(rows) == {r.source, r.target} + EndsOf(rows[1..]);
    }
  }

  /** An edge of the tenant or of none, of a type asked for and with enough confidence, with an end at distance at most
      depth - 1. */
  ghost predicate NearEnough(db: seq<Relationship>, q: Query, r: Relationship) {
    && (r.tenant == None || r.tenant == Some(q.tenant))
    && (q.types != {} ==> r.relType in q.types)
    && (q.minConfidence > 0.0 ==> r.confidence != None && r.confidence.value >= q.minConfidence)
    && q.depth > 0
    && (Within(VisibleEdges(db, q), q.seed, r.source, q.depth - 1)
        || Within(VisibleEdges(db, q), q.seed, r.target, q.depth - 1))
  }

  lemma NearEnoughIsInRange(db: seq<Relationship>, q: Query, r: Relationship)
    requires r in db
    ensures NearEnough(db, q, r) <==> r in InRange(VisibleEdges(db, q), q.seed, q.depth)
  {
    hide Ball, Within;
    if q.depth > 0 {
      BallIsDistance(VisibleEdges(db, q), q.seed, r.source, q.depth - 1);
      BallIsDistance(VisibleEdges(db, q), q.seed, r.target, q.depth - 1);
    }
  }

  lemma NodeKeysAre(db: seq<Relationship>, q: Query)
    ensures Expected(db, q).nodes.Keys == set e | e in EndsOf(Returned(db, q)) + {q.seed} :: NodeKey(e)
  {
    hide Ordered, Reached, NodesAfter, EdgesAfter, CutInside, EndsOf, NodeKey;
    NodesAfterKeys(SeedNode(q.seed), Returned(db, q), q.seed);
  }

  /** An untruncated answer below the cap is the whole neighbourhood: every visible edge with an end at distance
      at most depth - 1, and every entity at distance at most depth. */
  lemma TraversalComplete(db: seq<Relationship>, q: Query, t: Traversal)
    requires UniqueIds(db) && t == Expected(db, q)
    requires !t.truncated && |t.edges| < q.maxEdges
    ensures forall r :: r in db ==> (r.id in t.edges <==> NearEnough(db, q, r))
    ensures t.nodes.Keys == set e | e in Ball(VisibleEdges(db, q), q.seed, q.depth) :: NodeKey(e)
    ensures forall e :: e in Ball(VisibleEdges(db, q), q.seed, q.depth) <==>
              Within(VisibleEdges(db, q), q.seed, e, q.depth)
  {
    hide Ordered, Reached, NodesAfter, EdgesAfter, Ball, CutInside, Within, NearEnough, InRange, NodeKey, EndsOf;
    var edges, kept := VisibleEdges(db, q), Returned(db, q);
    ReturnedFacts(db, q);
    OrderedIsInRange(db, q, q.depth);
    forall r | r in db ensures r.id in t.edges <==> NearEnough(db, q, r) {
      NearEnoughIsInRange(db, q, r);
    }
    NodeKeysAre(db, q);
    EndsOfElems(kept);
    BallIsEnds(edges, q.seed, q.depth);
    assert Elems(kept) == InRange(edges, q.seed, q.depth);
    forall e ensures e in Ball(edges, q.seed, q.depth) <==> Within(edges, q.seed, e, q.depth) {
      BallIsDistance(edges, q.seed, e, q.depth);
    }
  }

  lemma {:induction false} OrderedGrows(db: seq<Relationship>, q: Query, j: nat, k: nat)
    requires j <= k
    ensures |Ordered(db, q, j)| <= |Ordered(db, q, k)|
    decreases k
  {
    hide Layer;
    if j < k {
      OrderedGrows(db, q, j, k - 1);
    }
  }

  /** The cap is met exactly at the end of some hop before `k`, and there is more within `k` hops. */
  ghost predicate CutBetween(db: seq<Relationship>, q: Query, k: nat) {
    exists j :: 0 <= j < k && |Ordered(db, q, j)| == q.maxEdges < |Ordered(db, q, k)|
  }

  lemma {:induction false} CutInsideOrBetween(db: seq<Relationship>, q: Query, k: nat)
    ensures CutInside(db, q, k) ==> |Ordered(db, q, k)| > q.maxEdges
    ensures |Ordered(db, q, k)| > q.maxEdges ==> (CutInside(db, q, k) <==> !CutBetween(db, q, k))
  {
    hide Layer;
    if k > 0 {
      CutInsideOrBetween(db, q, k - 1);
      OrderedGrows(db, q, k - 1, k);
      if |Ordered(db, q, k - 1)| == q.maxEdges < |Ordered(db, q, k)| {
        assert CutBetween(db, q, k);
      } else if |Ordered(db, q, k - 1)| < q.maxEdges {
        forall j | 0 <= j < k ensures |Ordered(db, q, j)| < q.maxEdges {
          OrderedGrows(db, q, j, k - 1);
        }
      } else if CutBetween(db, q, k - 1) {
        var j :| 0 <= j < k - 1 && |Ordered(db, q, j)| == q.maxEdges;
        assert CutBetween(db, q, k) by {
          assert |Ordered(db, q, j)| == q.maxEdges < |Ordered(db, q, k)|;
        }
      }
    }
  }

  /** `truncated` always means that the cap was met and an edge in range is missing. */
  lemma TruncatedIsHonest(db: seq<Relationship>, q: Query, t: Traversal)
    requires UniqueIds(db) && t == Expected(db, q) && t.truncated
    ensures |t.edges| == q.maxEdges
    ensures !HoldsAllInRange(db, q, t)
  {
    hide Layer, Ordered, Reached, NodesAfter, EdgesAfter, Ball;
    ReturnedFacts(db, q);
    EdgesCompleteExactly(db, q);
    CutInsideOrBetween(db, q, q.depth);
  }

  /** An edge is missing without the flag exactly when the cap was met at the end of a hop before the last one. */
  lemma SilentCutExactly(db: seq<Relationship>, q: Query, t: Traversal)
    requires UniqueIds(db) && t == Expected(db, q)
    ensures !HoldsAllInRange(db, q, t) && !t.truncated <==> CutBetween(db, q, q.depth)
  {
    hide Layer, Ordered, Reached, NodesAfter, EdgesAfter, Ball;
    ReturnedFacts(db, q);
    EdgesCompleteExactly(db, q);
    CutInsideOrBetween(db, q, q.depth);
  }

  /** A chain a - b - c asked for with two hops and one edge: the second edge is dropped and nothing says so. */
  lemma SilentCutHappens(a: Entity, b: Entity, c: Entity, ab: Relationship, bc: Relationship)
    requires a != b && b != c && a != c
    requires ab == Relationship("1", None, a, b, "links", None, map[])
    requires bc == Relationship("2", None, b, c, "links", None, map[])
    ensures
      var q := Query("tenant", a, 2, 1, {}, 0.0);
      var t := Expected([ab, bc], q);
      !t.truncated && !HoldsAllInRange([ab, bc], q, t)
  {
    var db, q := [ab, bc], Query("tenant", a, 2, 1, {}, 0.0);
    var edges := VisibleEdges(db, q);
    hide Ordered, NodesAfter, EdgesAfter, Reached, HoldsAllInRange, Returned, Expected, CutInside, Layer;
    assert ab.id[0] != bc.id[0];
    assert Incident(edges, {a}) == {ab};
    assert Ball(edges, a, 0) == {a};
    assert Ball(edges, a, 1) == {a, b};
    assert InRange(edges, a, 1) == {ab};
    assert InRange(edges, a, 2) == {ab, bc};
    OrderedIsInRange(db, q, 1);
    OrderedIsInRange(db, q, 2);
    assert Elems(Ordered(db, q, 1)) == {ab} && Elems(Ordered(db, q, 2)) == {ab, bc};
    DistinctSize(Ordered(db, q, 1));
    DistinctSize(Ordered(db, q, 2));
    assert CutBetween(db, q, 2);
    SilentCutExactly(db, q, Expected(db, q));
  }

  /** Every returned edge belongs to a hop that was still open when it was reached. */
  lemma {:induction false} ReturnedByLayer(db: seq<Relationship>, q: Query, k: nat, r: Relationship) returns (j: nat)
    requires r in Take(Ordered(db, q, k), q.maxEdges)
    ensures 0 < j <= Reached(db, q, k) && r in Layer(db, q, j) && |Ordered(db, q, j - 1)| < q.maxEdges
  {
    hide Layer;
    var front, layer := Ordered(db, q, k - 1), Layer(db, q, k);
    assert Ordered(db, q, k) == front + layer;
    if r in Take(front, q.maxEdges) {
      j := ReturnedByLayer(db, q, k - 1, r);
    } else {
      assert r in layer && |front| < q.maxEdges;
      j := k;
    }
  }

  /** Keeping every edge within `d` hops keeps the ball of radius `d`. */
  lemma {:induction false} BallOfKept(edges: set<Relationship>, kept: set<Relationship>, seed: Entity, d: nat)
    requires kept <= edges && InRange(edges, seed, d) <= kept
    ensures Ball(kept, seed, d) == Ball(edges, seed, d)
  {
    hide Ball, InRange, Incident, Ends;
    BallNext(edges, seed, d);
    BallNext(kept, seed, d);
    if d > 0 {
      BallGrows(edges, seed, d - 1, d);
      BallOfKept(edges, kept, seed, d - 1);
      SameIncident(edges, kept, Ball(edges, seed, d - 1));
    }
  }

  lemma SameIncident(edges: set<Relationship>, kept: set<Relationship>, f: set<Entity>)
    requires kept <= edges && Incident(edges, f) <= kept
    ensures Incident(kept, f) == Incident(edges, f)
  {
  }

  lemma {:induction false} PrefixKept(db: seq<Relationship>, q: Query, j: nat, k: nat)
    requires j <= k && |Ordered(db, q, j)| <= q.maxEdges
    ensures forall r :: r in Ordered(db, q, j) ==> r in Take(Ordered(db, q, k), q.maxEdges)
    decreases k
  {
    if j < k {
      PrefixKept(db, q, j, k - 1);
      var front := Ordered(db, q, k - 1);
      assert Ordered(db, q, k) == front + Layer(db, q, k);
      TakePrefix(front, Layer(db, q, k), q.maxEdges);
    } else {
      assert Take(Ordered(db, q, j), q.maxEdges) == Ordered(db, q, j);
    }
  }

  lemma ReturnedEndsNear(db: seq<Relationship>, q: Query, r: Relationship)
    requires UniqueIds(db) && r in Returned(db, q)
    ensures {r.source, r.target} <= Ball(Elems(Returned(db, q)), q.seed, Reached(db, q, q.depth))
  {
    hide Ordered, Reached, NodesAfter, EdgesAfter, CutInside, Layer, Ball, Visible;
    var edges, kept := VisibleEdges(db, q), Elems(Returned(db, q));
    var j := ReturnedByLayer(db, q, q.depth, r);
    LayerElements(db, q, j);
    OrderedIsInRange(db, q, j - 1);
    PrefixKept(db, q, j - 1, q.depth);
    ReturnedFacts(db, q);
    BallOfKept(edges, kept, q.seed, j - 1);
    assert r in InRange(kept, q.seed, j);
    BallIsEnds(kept, q.seed, j);
    BallGrows(kept, q.seed, j, Reached(db, q, q.depth));
  }

  /** Cut or not: at most `maxEdges` distinct visible edges, and every node is joined to the seed by a walk of
      returned edges no longer than `depthReached`, itself at most `depth`. */
  lemma TraversalSound(db: seq<Relationship>, q: Query, t: Traversal)
    requires UniqueIds(db) && t == Expected(db, q)
    ensures |t.edges| <= q.maxEdges && t.depthReached <= q.depth
    ensures forall i :: i in t.edges ==> exists r :: r in Returned(db, q) && r.id == i && r in db && Visible(q, r)
    ensures t.nodes.Keys == set e | e in EndsOf(Returned(db, q)) + {q.seed} :: NodeKey(e)
    ensures forall e :: e in EndsOf(Returned(db, q)) + {q.seed} ==>
      Within(Elems(Returned(db, q)), q.seed, e, t.depthReached)
  {
    hide Ordered, NodesAfter, EdgesAfter, CutInside, Within, Reached, Ball, InRange, NodeKey, EndsOf, Returned, Visible;
    ReturnedFacts(db, q);
    NodeKeysAre(db, q);
    var kept := Elems(Returned(db, q));
    EndsOfElems(Returned(db, q));
    forall e | e in EndsOf(Returned(db, q)) + {q.seed} ensures Within(kept, q.seed, e, t.depthReached) {
      if e == q.seed {
        SeedInBall(kept, q.seed, t.depthReached);
      } else {
        var r :| r in kept && (r.source == e || r.target == e);
        ReturnedEndsNear(db, q, r);
      }
      BallIsDistance(kept, q.seed, e, t.depthReached);
    }
  }

  lemma SeedInBall(edges: set<Relationship>, seed: Entity, d: nat)
    ensures seed in Ball(edges, seed, d)
  {
    BallGrows(edges, seed, 0, d);
  }

  /** `depthReached` is the least number of hops that accounts for every returned edge. */
  lemma {:induction false} DepthReachedIsLeast(db: seq<Relationship>, q: Query, k: nat)
    requires UniqueIds(db)
    ensures forall r :: r in Take(Ordered(db, q, k), q.maxEdges) ==>
      r in InRange(VisibleEdges(db, q), q.seed, Reached(db, q, k))
    ensures Reached(db, q, k) > 0 ==>
      (exists r :: r in Take(Ordered(db, q, k), q.maxEdges)
        && r !in InRange(VisibleEdges(db, q), q.seed, Reached(db, q, k) - 1))
  {
    hide Layer, InRange;
    if k > 0 {
      var front, layer := Ordered(db, q, k - 1), Layer(db, q, k);
      assert Ordered(db, q, k) == front + layer;
      if layer != [] && |front| < q.maxEdges {
        LayerElements(db, q, k);
        OrderedIsInRange(db, q, k);
        var kept := Take(Ordered(db, q, k), q.maxEdges);
        assert kept[|front|] == layer[0] && layer[0] in layer;
        TakeFacts(Ordered(db, q, k), q.maxEdges);
        assert layer[0] in kept && layer[0] !in InRange(VisibleEdges(db, q), q.seed, k - 1);
      } else {
        DepthReachedIsLeast(db, q, k - 1);
        HopAddsNothing(db, q, k);
      }
    } else {
      assert Ordered(db, q, 0) == [];
    }
  }

  // ---------------------------------------------------------------- labels

  // Where kinds hold colons several entities may share a key. The first to come gives the node its kind and id.

  /** The first end in `rows` with a key. */
  function Owner(key: string, rows: seq<Relationship>): Option<Entity>
    decreases |rows|
  {
    if rows == [] then None
    else if NodeKey(rows[0].source) == key then Some(rows[0].source)
    else if NodeKey(rows[0].target) == key then Some(rows[0].target)
    else Owner(key, rows[1..])
  }

  /** A label counts if it says more than the id of its entity and than the id the node shows. */
  predicate Counts(key: string, id: string, e: Entity, shown: string) {
    NodeKey(e) == key && shown != e.id && shown != id
  }

  function FirstLabelOf(key: string, id: string, rows: seq<Relationship>): string
    decreases |rows|
  {
    if rows == [] then id else
      var r := rows[0];
      var source := LabelFromEvidence(r.evidence, "source", r.source.id);
      var target := LabelFromEvidence(r.evidence, "target", r.target.id);
      if Counts(key, id, r.source, source) then source
      else if Counts(key, id, r.target, target) then target
      else FirstLabelOf(key, id, rows[1..])
  }

  lemma UpsertAt(nodes: map<string, Node>, x: Entity, seed: Entity, shown: string, key: string)
    ensures key in nodes ==>
      key in UpsertNode(nodes, x, seed, shown)
      && UpsertNode(nodes, x, seed, shown)[key] ==
         if nodes[key].shown == nodes[key].id && Counts(key, nodes[key].id, x, shown)
         then nodes[key].(shown := shown) else nodes[key]
    ensures key !in nodes && NodeKey(x) != key ==> key !in UpsertNode(nodes, x, seed, shown)
    ensures key !in nodes && NodeKey(x) == key ==>
      key in UpsertNode(nodes, x, seed, shown)
      && UpsertNode(nodes, x, seed, shown)[key] == Node(key, x.kind, x.id, shown, x == seed)
  {
    hide NodeKey;
  }

  lemma {:induction false} KnownNodeAfter(nodes: map<string, Node>, rows: seq<Relationship>, seed: Entity, key: string)
    requires key in nodes
    ensures key in NodesAfter(nodes, rows, seed)
    ensures
      var n := nodes[key];
      NodesAfter(nodes, rows, seed)[key] == if n.shown != n.id then n else n.(shown := FirstLabelOf(key, n.id, rows))
    decreases |rows|
  {
    hide NodeKey, LabelFromEvidence, UpsertNode, Counts;
    if rows != [] {
      var r := rows[0];
      var source := LabelFromEvidence(r.evidence, "source", r.source.id);
      var target := LabelFromEvidence(r.evidence, "target", r.target.id);
      UpsertAt(nodes, r.source, seed, source, key);
      UpsertAt(UpsertNode(nodes, r.source, seed, source), r.target, seed, target, key);
      CountsSaysMore(key, nodes[key].id, r.source, source);
      CountsSaysMore(key, nodes[key].id, r.target, target);
      KnownNodeAfter(AddEnds(nodes, r, seed), rows[1..], seed, key);
    }
  }

  lemma CountsSaysMore(key: string, id: string, e: Entity, shown: string)
    ensures Counts(key, id, e, shown) ==> shown != id && NodeKey(e) == key
    ensures NodeKey(e) == key && e.id == id ==> (Counts(key, id, e, shown) <==> shown != id)
  {
  }

  lemma {:induction false} NewNodeAfter(nodes: map<string, Node>, rows: seq<Relationship>, seed: Entity, key: string)
    requires key !in nodes
    ensures key in NodesAfter(nodes, rows, seed) <==> Owner(key, rows).Some?
    ensures Owner(key, rows).Some? ==>
      var e := Owner(key, rows).value;
      NodesAfter(nodes, rows, seed)[key] == Node(key, e.kind, e.id, FirstLabelOf(key, e.id, rows), e == seed)
    decreases |rows|
  {
    hide NodeKey, LabelFromEvidence, UpsertNode, Counts;
    if rows != [] {
      var r := rows[0];
      var source := LabelFromEvidence(r.evidence, "source", r.source.id);
      var target := LabelFromEvidence(r.evidence, "target", r.target.id);
      var one := UpsertNode(nodes, r.source, seed, source);
      var two := UpsertNode(one, r.target, seed, target);
      UpsertAt(nodes, r.source, seed, source, key);
      UpsertAt(one, r.target, seed, target, key);
      assert AddEnds(nodes, r, seed) == two;
      if NodeKey(r.source) == key || NodeKey(r.target) == key {
        var e := if NodeKey(r.source) == key then r.source else r.target;
        CountsSaysMore(key, e.id, r.source, source);
        CountsSaysMore(key, e.id, r.target, target);
        KnownNodeAfter(two, rows[1..], seed, key);
      } else {
        NewNodeAfter(two, rows[1..], seed, key);
        NeverCounts(key, r.source, source);
        NeverCounts(key, r.target, target);
      }
    }
  }

  lemma NeverCounts(key: string, e: Entity, shown: string)
    requires NodeKey(e) != key
    ensures forall id :: !Counts(key, id, e, shown)
  {
  }

  /** Every node of every answer, kinds with colons included, shows the first entity with its key and the first label
      that counts for it among the returned edges. */
  lemma NodesShowFirstLabels(db: seq<Relationship>, q: Query, t: Traversal, key: string)
    requires t == Expected(db, q) && key in t.nodes
    ensures
      var rows, seed := Returned(db, q), q.seed;
      && (NodeKey(seed) == key || Owner(key, rows).Some?)
      && var e := if NodeKey(seed) == key then seed else Owner(key, rows).value;
      t.nodes[key] == Node(key, e.kind, e.id, FirstLabelOf(key, e.id, rows), e == seed)
  {
    hide Ordered, Reached, NodesAfter, EdgesAfter, CutInside, Returned, FirstLabelOf, NodeKey, Owner;
    if NodeKey(q.seed) == key {
      KnownNodeAfter(SeedNode(q.seed), Returned(db, q), q.seed, key);
    } else {
      NewNodeAfter(SeedNode(q.seed), Returned(db, q), q.seed, key);
    }
  }

  /** Further edges never change a label that already says more than the id. */
  lemma {:induction false} EnrichedLabelStays(
      nodes: map<string, Node>, rows: seq<Relationship>, seed: Entity, key: string)
    requires key in nodes && nodes[key].shown != nodes[key].id
    ensures key in NodesAfter(nodes, rows, seed) && NodesAfter(nodes, rows, seed)[key] == nodes[key]
    decreases |rows|
  {
    hide LabelFromEvidence, NodeKey;
    if rows != [] {
      EnrichedLabelStays(AddEnds(nodes, rows[0], seed), rows[1..], seed, key);
    }
  }
}
