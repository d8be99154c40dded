/** What a caller reads off the answer of a traversal: the edges, which of them a cap keeps, and the labels. */
module GraphAnswers {
  import opened Options
  import opened Sequences
  import opened GraphTraversal

  // ---------------------------------------------------------------- edges

  /** Every returned edge is shown from its source to its target, and both are among the nodes. */
  lemma EdgesShowRelationships(db: seq<Relationship>, q: Query, t: Traversal, r: Relationship)
    requires UniqueIds(db) && t == Expected(db, q) && r in Returned(db, q)
    ensures r in db && (r.tenant == None || r.tenant == Some(q.tenant))
    ensures r.id in t.edges
    ensures
      var v := t.edges[r.id];
      && v.source == r.source.kind + ":" + r.source.id && v.target == r.target.kind + ":" + r.target.id
      && v.id == r.id && v.relType == r.relType && v.confidence == r.confidence && v.evidence == r.evidence
      && v.source in t.nodes && v.target in t.nodes
  {
    hide Returned, Expected, EndsOf, Ends;
    ReturnedFacts(db, q);
    NodeKeysAre(db, q);
    EndsOfElems(Returned(db, q));
    EndsOfOne(Elems(Returned(db, q)), r);
    assert NodeKey(r.source) in t.nodes && NodeKey(r.target) in t.nodes;
  }

  lemma EndsOfOne(edges: set<Relationship>, r: Relationship)
    requires r in edges
    ensures r.source in Ends(edges) && r.target in Ends(edges)
  {
  }

  // ---------------------------------------------------------------- which edges a cap keeps

  /** The one is reached in fewer hops, or in as many and stands before the other in the table. */
  ghost predicate ComesFirst(db: seq<Relationship>, q: Query, r: Relationship, s: Relationship) {
    && (forall k :: s in InRange(VisibleEdges(db, q), q.seed, k) ==> r in InRange(VisibleEdges(db, q), q.seed, k))
    && ((forall k :: r in InRange(VisibleEdges(db, q), q.seed, k) ==> s in InRange(VisibleEdges(db, q), q.seed, k)) ==>
          StandsBefore(db, r, s))
  }

  ghost predicate StandsBefore(db: seq<Relationship>, r: Relationship, s: Relationship) {
    exists i, j :: 0 <= i < j < |db| && db[i] == r && db[j] == s
  }

  lemma {:induction false} FilterKeepsOrder(
      keep: Relationship -> bool, db: seq<Relationship>, a: nat, b: nat)
    requires a < b < |Filter(keep, db)|
    ensures StandsBefore(db, Filter(keep, db)[a], Filter(keep, db)[b])
  {
    var n := |db| - 1;
    var front := db[..n];
    if b < |Filter(keep, front)| {
      FilterKeepsOrder(keep, front, a, b);
      var i, j :| 0 <= i < j < n && front[i] == Filter(keep, front)[a] && front[j] == Filter(keep, front)[b];
      assert db[i] == front[i] && db[j] == front[j];
    } else {
      FilterElements(keep, front);
      assert Filter(keep, front)[a] in front;
      var i :| 0 <= i < n && front[i] == Filter(keep, front)[a];
      assert db[i] == front[i] && db[n] == Filter(keep, db)[b];
    }
  }

  lemma LayerKeepsOrder(db: seq<Relationship>, q: Query, k: nat, a: nat, b: nat)
    requires k > 0 && a < b < |Layer(db, q, k)|
    ensures StandsBefore(db, Layer(db, q, k)[a], Layer(db, q, k)[b])
  {
    hide StandsBefore, InRange, VisibleEdges;
    var edges := VisibleEdges(db, q);
    var upTo, before := InRange(edges, q.seed, k), InRange(edges, q.seed, k - 1);
    FilterKeepsOrder((r: Relationship) => r in upTo && r !in before, db, a, b);
  }

  lemma FirstLayerHop(db: seq<Relationship>, q: Query, k: nat, r: Relationship, j: nat)
    requires k > 0 && r in Layer(db, q, k)
    ensures r in InRange(VisibleEdges(db, q), q.seed, j) <==> j >= k
  {
    hide Layer, InRange, VisibleEdges;
    LayerElements(db, q, k);
    if j >= k {
      BallGrows(VisibleEdges(db, q), q.seed, k, j);
    } else {
      BallGrows(VisibleEdges(db, q), q.seed, j, k - 1);
    }
  }

  lemma SameLayerInOrder(db: seq<Relationship>, q: Query, k: nat, a: nat, b: nat)
    requires k > 0 && a < b < |Layer(db, q, k)|
    ensures ComesFirst(db, q, Layer(db, q, k)[a], Layer(db, q, k)[b])
  {
    hide Layer, InRange, VisibleEdges;
    var r, s := Layer(db, q, k)[a], Layer(db, q, k)[b];
    assert r in Layer(db, q, k) && s in Layer(db, q, k);
    forall j: nat
      ensures r in InRange(VisibleEdges(db, q), q.seed, j) <==> s in InRange(VisibleEdges(db, q), q.seed, j)
    {
      FirstLayerHop(db, q, k, r, j);
      FirstLayerHop(db, q, k, s, j);
    }
    LayerKeepsOrder(db, q, k, a, b);
  }

  lemma LowerHopFirst(db: seq<Relationship>, q: Query, k: nat, r: Relationship, s: Relationship)
    requires UniqueIds(db) && k > 0 && r in Ordered(db, q, k - 1) && s in Layer(db, q, k)
    ensures ComesFirst(db, q, r, s)
  {
    hide Layer, InRange, VisibleEdges, Ordered;
    OrderedIsInRange(db, q, k - 1);
    forall j: nat | s in InRange(VisibleEdges(db, q), q.seed, j) ensures r in InRange(VisibleEdges(db, q), q.seed, j) {
      FirstLayerHop(db, q, k, s, j);
      BallGrows(VisibleEdges(db, q), q.seed, k - 1, j);
    }
    FirstLayerHop(db, q, k, s, k - 1);
  }

  lemma {:induction false} OrderedComesFirst(db: seq<Relationship>, q: Query, k: nat, a: nat, b: nat)
    requires UniqueIds(db) && a < b < |Ordered(db, q, k)|
    ensures ComesFirst(db, q, Ordered(db, q, k)[a], Ordered(db, q, k)[b])
  {
    hide Layer, ComesFirst;
    var front, layer := Ordered(db, q, k - 1), Layer(db, q, k);
    assert Ordered(db, q, k) == front + layer;
    if b < |front| {
      OrderedComesFirst(db, q, k - 1, a, b);
    } else if a < |front| {
      assert front[a] in front && layer[b - |front|] in layer;
      LowerHopFirst(db, q, k, front[a], layer[b - |front|]);
    } else {
      SameLayerInOrder(db, q, k, a - |front|, b - |front|);
    }
  }

  /** A cap drops no edge in favour of one that is reached later, or as late and stands behind it in the table. */
  lemma CapKeepsFirst(db: seq<Relationship>, q: Query, r: Relationship, s: Relationship)
    requires UniqueIds(db) && r in Returned(db, q) && s !in Returned(db, q)
    requires s in InRange(VisibleEdges(db, q), q.seed, q.depth)
    ensures ComesFirst(db, q, r, s)
  {
    hide Ordered, InRange, VisibleEdges, ComesFirst;
    OrderedIsInRange(db, q, q.depth);
    var all, kept := Ordered(db, q, q.depth), Returned(db, q);
    var a: nat :| a < |kept| && kept[a] == r;
    var b: nat :| b < |all| && all[b] == s;
    assert forall i :: 0 <= i < |kept| ==> all[i] in kept;
    OrderedComesFirst(db, q, q.depth, a, b);
  }

  // ---------------------------------------------------------------- labels

  /** The edge's evidence gives an end with this key the label. */
  predicate Gives(r: Relationship, key: string, shown: string) {
    || (r.source.kind + ":" + r.source.id == key && GivesFor(r, "source_label", r.source.id, shown))
    || (r.target.kind + ":" + r.target.id == key && GivesFor(r, "target_label", r.target.id, shown))
  }

  predicate GivesFor(r: Relationship, column: string, id: string, shown: string) {
    column in r.evidence && r.evidence[column] == Some(shown) && shown != "" && shown != id
  }

  lemma LabelIsGiven(r: Relationship, shown: string)
    ensures shown != r.source.id ==>
      (LabelFromEvidence(r.evidence, "source", r.source.id) == shown <==>
        GivesFor(r, "source_label", r.source.id, shown))
    ensures shown != r.target.id ==>
      (LabelFromEvidence(r.evidence, "target", r.target.id) == shown <==>
        GivesFor(r, "target_label", r.target.id, shown))
  {
    assert "source" + "_label" == "source_label" && "target" + "_label" == "target_label";
  }

  lemma FirstGiven(r: Relationship, key: string, id: string)
    ensures
      var source := LabelFromEvidence(r.evidence, "source", r.source.id);
      var target := LabelFromEvidence(r.evidence, "target", r.target.id);
      && (Counts(key, id, r.source, source) ==> source != id && Gives(r, key, source))
      && (Counts(key, id, r.target, target) ==> target != id && Gives(r, key, target))
      && (!Counts(key, id, r.source, source) && !Counts(key, id, r.target, target) ==>
            forall shown :: Gives(r, key, shown) ==> shown == id)
  {
    hide LabelFromEvidence, GivesFor;
    LabelIsGiven(r, LabelFromEvidence(r.evidence, "source", r.source.id));
    LabelIsGiven(r, LabelFromEvidence(r.evidence, "target", r.target.id));
    forall shown | Gives(r, key, shown)
      ensures shown == id || Counts(key, id, r.source, LabelFromEvidence(r.evidence, "source", r.source.id))
        || Counts(key, id, r.target, LabelFromEvidence(r.evidence, "target", r.target.id))
    {
      LabelIsGiven(r, shown);
      GivenIsNews(r, shown);
    }
  }

  lemma GivenIsNews(r: Relationship, shown: string)
    ensures GivesFor(r, "source_label", r.source.id, shown) ==> shown != r.source.id
    ensures GivesFor(r, "target_label", r.target.id, shown) ==> shown != r.target.id
  {
  }

  lemma {:induction false} FirstLabelIsGiven(key: string, id: string, rows: seq<Relationship>)
    ensures FirstLabelOf(key, id, rows) != id ==>
      exists r :: r in rows && Gives(r, key, FirstLabelOf(key, id, rows))
    ensures FirstLabelOf(key, id, rows) == id ==>
      forall r, shown :: r in rows && Gives(r, key, shown) ==> shown == id
    decreases |rows|
  {
    hide LabelFromEvidence, Gives, Counts;
    if rows != [] {
      assert rows[0] in rows && forall r :: r in rows <==> r == rows[0] || r in rows[1..];
      FirstGiven(rows[0], key, id);
      FirstLabelIsGiven(key, id, rows[1..]);
    }
  }

  /** A node shows its id only if no returned edge gives it another label, and otherwise a label that one of them
      gives it. */
  lemma LabelsComeFromEvidence(db: seq<Relationship>, q: Query, t: Traversal, key: string)
    requires UniqueIds(db) && t == Expected(db, q) && key in t.nodes
    ensures t.nodes[key].shown != t.nodes[key].id ==>
      exists r :: r in Returned(db, q) && Gives(r, key, t.nodes[key].shown)
    ensures t.nodes[key].shown == t.nodes[key].id ==>
      forall r, shown :: r in Returned(db, q) && Gives(r, key, shown) ==> shown == t.nodes[key].id
  {
    hide Returned, Gives, FirstLabelOf, Owner, Expected, NodeKey;
    NodesShowFirstLabels(db, q, t, key);
    FirstLabelIsGiven(key, t.nodes[key].id, Returned(db, q));
  }
}
