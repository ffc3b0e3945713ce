/** The minimal code property graph: a list of nodes with lookup ids and a list
    of typed edges. */
module Cpgs {
  import opened ByteStrings
  import opened Graphs

  datatype Node = Node(id: nat, fields: Label, path: Bytes)
  datatype Cpg = Cpg(nodes: seq<Node>, edges: seq<Edge>)

  function Ids(g: Cpg): (r: set<nat>) {
    set n | n in g.nodes :: n.id
  }

  predicate UniqueIds(ns: seq<Node>) {
    forall i, j :: 0 <= i < j < |ns| ==> ns[i].id != ns[j].id
  }

  predicate FitsNode(n: Node) {
    n.id < TWO_64 && FitsLabel(n.fields) && |n.path| < TWO_64
  }

  predicate FitsEdge(g: Cpg, e: Edge) {
    e.src in Ids(g) && e.dst in Ids(g) && e.kind != [] && |e.kind| < TWO_64
  }

  /** `validate_cpg`, together with the two counts `encode_graph` frames. */
  predicate Valid(g: Cpg) {
    && |g.nodes| < TWO_64 && |g.edges| < TWO_64 && UniqueIds(g.nodes)
    && (forall n :: n in g.nodes ==> FitsNode(n))
    && (forall e :: e in g.edges ==> FitsEdge(g, e))
  }

  function NodeOf(ns: seq<Node>, v: nat): (n: Node)
    requires exists n :: n in ns && n.id == v
    ensures n in ns && n.id == v
  {
    if ns[0].id == v then ns[0] else NodeOf(ns[1..], v)
  }

  lemma NodeOfNode(ns: seq<Node>, n: Node)
    requires UniqueIds(ns) && n in ns
    ensures NodeOf(ns, n.id) == n
  {
    var m := NodeOf(ns, n.id);
    var i :| 0 <= i < |ns| && ns[i] == n;
    var j :| 0 <= j < |ns| && ns[j] == m;
  }

  function Find(g: Cpg, v: nat): (n: Node)
    requires v in Ids(g)
    ensures n in g.nodes && n.id == v
  {
    NodeOf(g.nodes, v)
  }

  /** The part of a graph that its identity may depend on. */
  function Content(g: Cpg): (r: Graph)
    ensures r.labels.Keys == Ids(g) && r.edges == g.edges
  {
    Graph(map v | v in Ids(g) :: NodeOf(g.nodes, v).fields, g.edges)
  }

  lemma ContentLabel(g: Cpg, n: Node)
    requires UniqueIds(g.nodes) && n in g.nodes
    ensures n.id in Content(g).labels && Content(g).labels[n.id] == n.fields
  {
    NodeOfNode(g.nodes, n);
    assert n.id in Ids(g);
  }

  function IdList(g: Cpg): (r: seq<nat>) {
    seq(|g.nodes|, i requires 0 <= i < |g.nodes| => g.nodes[i].id)
  }

  lemma IdListComplete(g: Cpg)
    ensures forall v :: v in IdList(g) <==> v in Ids(g)
  {
    var nodes := IdList(g);
    forall v ensures v in nodes <==> v in Ids(g) {
      if v in nodes {
        var i :| 0 <= i < |nodes| && nodes[i] == v;
        assert g.nodes[i] in g.nodes;
      }
      if v in Ids(g) {
        var n :| n in g.nodes && n.id == v;
        var i :| 0 <= i < |g.nodes| && g.nodes[i] == n;
        assert nodes[i] == v;
      }
    }
  }

  lemma {:induction false} IdsSize(ns: seq<Node>)
    ensures |set n | n in ns :: n.id| <= |ns|
  {
    var all := set n | n in ns :: n.id;
    if ns == [] {
      assert all == {};
    } else {
      var rest := set n | n in ns[1..] :: n.id;
      forall v | v in all ensures v in rest + {ns[0].id} {
        var n :| n in ns && n.id == v;
        assert n == ns[0] || n in ns[1..];
      }
      forall v | v in rest + {ns[0].id} ensures v in all {
        if v == ns[0].id {
          assert ns[0] in ns;
        } else {
          var n :| n in ns[1..] && n.id == v;
          assert n in ns;
        }
      }
      assert all == rest + {ns[0].id};
      IdsSize(ns[1..]);
    }
  }

  lemma ContentWellFormed(g: Cpg)
    requires Valid(g)
    ensures WellFormed(Content(g))
  {
    var c := Content(g);
    IdsSize(g.nodes);
    assert c.labels.Keys == (set n | n in g.nodes :: n.id);
    assert |c.labels| == |c.labels.Keys|;
    forall v | v in c.labels ensures FitsLabel(c.labels[v]) {
      var n :| n in g.nodes && n.id == v;
      ContentLabel(g, n);
    }
    forall e | e in c.edges ensures e.src in c.labels && e.dst in c.labels && |e.kind| < TWO_64 {
      assert FitsEdge(g, e);
    }
  }
}
