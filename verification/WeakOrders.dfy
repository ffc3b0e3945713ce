/** `_stable_order_fallback`: the order used when the state budget runs out. It
    reads the untouched input only, and none of its list orders. */
module WeakOrders {
  import opened ByteStrings
  import opened Graphs
  import opened Arcs
  import opened Encoding
  import opened Cpgs

  /** The sort key of a node; the digest of the declaration name is a parameter. */
  datatype Key = Key(digest: Bytes, path: Bytes, incident: seq<Arc>, fields: Bytes, id: nat)

  predicate ArcsLess(s: seq<Arc>, t: seq<Arc>) {
    t != [] && (s == [] || ArcLess(s[0], t[0]) || (s[0] == t[0] && ArcsLess(s[1..], t[1..])))
  }

  lemma {:induction false} ArcsLessTotal(s: seq<Arc>, t: seq<Arc>)
    ensures ArcsLess(s, t) || s == t || ArcsLess(t, s)
    ensures !(ArcsLess(s, t) && ArcsLess(t, s)) && !ArcsLess(s, s)
  {
    if s != [] && t != [] {
      ArcLessTotal(s[0], t[0]);
      ArcsLessTotal(s[1..], t[1..]);
      ArcLessTotal(s[0], s[0]);
      ArcsLessTotal(s[1..], s[1..]);
      assert s == [s[0]] + s[1..] && t == [t[0]] + t[1..];
    } else if s != [] {
      ArcLessTotal(s[0], s[0]);
      ArcsLessTotal(s[1..], s[1..]);
    }
  }

  lemma {:induction false} ArcsLessTransitive(s: seq<Arc>, t: seq<Arc>, u: seq<Arc>)
    requires ArcsLess(s, t) && ArcsLess(t, u)
    ensures ArcsLess(s, u)
  {
    if s != [] {
      ArcLessTotal(s[0], t[0]);
      ArcLessTotal(t[0], u[0]);
      ArcLessTotal(s[0], u[0]);
      ArcLessTransitive(s[0], t[0], u[0]);
      if s[0] == u[0] {
        if ArcLess(s[0], t[0]) { assert false; }
        ArcsLessTransitive(s[1..], t[1..], u[1..]);
      }
    }
  }

  predicate KeyLess(k: Key, l: Key) {
    || Less(k.digest, l.digest)
    || (k.digest == l.digest
        && (|| Less(k.path, l.path)
            || (k.path == l.path
                && (|| ArcsLess(k.incident, l.incident)
                    || (k.incident == l.incident
                        && (|| Less(k.fields, l.fields)
                            || (k.fields == l.fields && k.id < l.id)))))))
  }

  lemma LessAsymmetric(a: seq<int>, b: seq<int>)
    ensures !(Less(a, b) && Less(b, a)) && !Less(a, a)
  {
    LessIrreflexive(a);
    if Less(a, b) && Less(b, a) { LessTransitive(a, b, a); }
  }

  lemma KeyLessTotal(k: Key, l: Key)
    ensures KeyLess(k, l) || k == l || KeyLess(l, k)
    ensures !(KeyLess(k, l) && KeyLess(l, k))
  {
    LessTotal(k.digest, l.digest);
    LessTotal(k.path, l.path);
    LessTotal(k.fields, l.fields);
    ArcsLessTotal(k.incident, l.incident);
    LessAsymmetric(k.digest, l.digest);
    LessAsymmetric(k.path, l.path);
    LessAsymmetric(k.fields, l.fields);
  }

  lemma KeyLessTransitive(k: Key, l: Key, m: Key)
    requires KeyLess(k, l) && KeyLess(l, m)
    ensures KeyLess(k, m)
  {
    if Less(k.digest, l.digest) && Less(l.digest, m.digest) { LessTransitive(k.digest, l.digest, m.digest); }
    if Less(k.path, l.path) && Less(l.path, m.path) { LessTransitive(k.path, l.path, m.path); }
    if Less(k.fields, l.fields) && Less(l.fields, m.fields) { LessTransitive(k.fields, l.fields, m.fields); }
    if ArcsLess(k.incident, l.incident) && ArcsLess(l.incident, m.incident) {
      ArcsLessTransitive(k.incident, l.incident, m.incident);
    }
  }

  // ----- keys

  function FromNode(v: nat): (f: Edge -> Choice) {
    (e: Edge) => if e.src == v then Keep(Arc(e.kind, 0, 0)) else Skip
  }

  function ToNode(v: nat): (f: Edge -> Choice) {
    (e: Edge) => if e.dst == v then Keep(Arc(e.kind, 0, 0)) else Skip
  }

  /** The kinds at both ends, a self-loop counting twice, in sorted order. */
  function Incident(es: seq<Edge>, v: nat): (r: seq<Arc>) {
    Sort(Collect(es, FromNode(v)) + Collect(es, ToNode(v)))
  }

  function KeyOf(n: Node, es: seq<Edge>, sha: Bytes -> Bytes): (k: Key) {
    Key(sha(n.fields.decl), n.path, Incident(es, n.id), LabelBytes(n.fields), n.id)
  }

  lemma KeyOfPermuted(n: Node, es: seq<Edge>, fs: seq<Edge>, sha: Bytes -> Bytes)
    requires multiset(es) == multiset(fs)
    ensures KeyOf(n, es, sha) == KeyOf(n, fs, sha)
  {
    hide Collect, Sort, LabelBytes;
    CollectPermuted(es, fs, FromNode(n.id));
    CollectPermuted(es, fs, ToNode(n.id));
    SortCanonical(Collect(es, FromNode(n.id)) + Collect(es, ToNode(n.id)),
                  Collect(fs, FromNode(n.id)) + Collect(fs, ToNode(n.id)));
  }

  // ----- sorting

  predicate KeysRise(ns: seq<Node>, es: seq<Edge>, sha: Bytes -> Bytes) {
    forall i, j :: 0 <= i < j < |ns| ==> KeyLess(KeyOf(ns[i], es, sha), KeyOf(ns[j], es, sha))
  }

  function InsertNode(n: Node, ns: seq<Node>, es: seq<Edge>, sha: Bytes -> Bytes): (r: seq<Node>)
    ensures multiset(r) == multiset(ns) + multiset{n}
  {
    if ns == [] || KeyLess(KeyOf(n, es, sha), KeyOf(ns[0], es, sha)) then [n] + ns
    else
      assert ns == [ns[0]] + ns[1..];
      [ns[0]] + InsertNode(n, ns[1..], es, sha)
  }

  function SortNodes(ns: seq<Node>, es: seq<Edge>, sha: Bytes -> Bytes): (r: seq<Node>)
    ensures multiset(r) == multiset(ns)
  {
    if ns == [] then []
    else
      assert ns == [ns[0]] + ns[1..];
      InsertNode(ns[0], SortNodes(ns[1..], es, sha), es, sha)
  }

  /** A node below every node of a rising list goes in front. */
  lemma PrependRises(n: Node, ns: seq<Node>, es: seq<Edge>, sha: Bytes -> Bytes)
    requires KeysRise(ns, es, sha) && forall m :: m in ns ==> KeyLess(KeyOf(n, es, sha), KeyOf(m, es, sha))
    ensures KeysRise([n] + ns, es, sha)
  {
    hide KeyLess, KeyOf;
    var r := [n] + ns;
    forall i, j | 0 <= i < j < |r| ensures KeyLess(KeyOf(r[i], es, sha), KeyOf(r[j], es, sha)) {
      assert r[j] == ns[j - 1] && ns[j - 1] in ns;
      if i > 0 { assert r[i] == ns[i - 1]; }
    }
  }

  lemma HeadRises(ns: seq<Node>, m: Node, es: seq<Edge>, sha: Bytes -> Bytes)
    requires KeysRise(ns, es, sha) && m in ns
    ensures m == ns[0] || KeyLess(KeyOf(ns[0], es, sha), KeyOf(m, es, sha))
  {
    hide KeyLess, KeyOf;
  }

  lemma InsertedIs(n: Node, ns: seq<Node>, es: seq<Edge>, sha: Bytes -> Bytes, m: Node)
    requires m in InsertNode(n, ns, es, sha)
    ensures m == n || m in ns
  {
    hide InsertNode;
    assert m in multiset(InsertNode(n, ns, es, sha));
  }

  lemma KeysOfDiffer(n: Node, m: Node, es: seq<Edge>, sha: Bytes -> Bytes)
    requires n.id != m.id
    ensures KeyOf(n, es, sha) != KeyOf(m, es, sha)
  {
    hide Incident;
  }

  lemma {:induction false} InsertAscends(n: Node, ns: seq<Node>, es: seq<Edge>, sha: Bytes -> Bytes)
    requires KeysRise(ns, es, sha) && forall m :: m in ns ==> m.id != n.id
    ensures KeysRise(InsertNode(n, ns, es, sha), es, sha)
  {
    hide KeyLess, KeyOf, KeysRise;
    if ns == [] {
      assert [n] + ns == [n];
      LoneRises(n, es, sha);
    } else {
      var k, head := KeyOf(n, es, sha), KeyOf(ns[0], es, sha);
      if KeyLess(k, head) {
        forall m | m in ns ensures KeyLess(k, KeyOf(m, es, sha)) {
          HeadRises(ns, m, es, sha);
          if m != ns[0] { KeyLessTransitive(k, head, KeyOf(m, es, sha)); }
        }
        PrependRises(n, ns, es, sha);
      } else {
        assert ns[0] in ns;
        KeysOfDiffer(n, ns[0], es, sha);
        KeyLessTotal(k, head);
        AscendsTail(ns, es, sha);
        InsertAscends(n, ns[1..], es, sha);
        forall m | m in InsertNode(n, ns[1..], es, sha) ensures KeyLess(head, KeyOf(m, es, sha)) {
          InsertedIs(n, ns[1..], es, sha, m);
          if m != n { TailAbove(ns, m, es, sha); }
        }
        PrependRises(ns[0], InsertNode(n, ns[1..], es, sha), es, sha);
      }
    }
  }

  lemma LoneRises(n: Node, es: seq<Edge>, sha: Bytes -> Bytes)
    ensures KeysRise([n], es, sha)
  {
  }

  lemma TailAbove(ns: seq<Node>, m: Node, es: seq<Edge>, sha: Bytes -> Bytes)
    requires KeysRise(ns, es, sha) && ns != [] && m in ns[1..]
    ensures KeyLess(KeyOf(ns[0], es, sha), KeyOf(m, es, sha))
  {
    hide KeyLess, KeyOf;
    var i :| 0 <= i < |ns[1..]| && ns[1..][i] == m;
    assert ns[i + 1] == m;
  }

  lemma {:induction false} SortNodesAscends(ns: seq<Node>, es: seq<Edge>, sha: Bytes -> Bytes)
    requires UniqueIds(ns)
    ensures KeysRise(SortNodes(ns, es, sha), es, sha)
  {
    if ns != [] {
      SortNodesAscends(ns[1..], es, sha);
      var t := SortNodes(ns[1..], es, sha);
      forall m | m in t ensures m.id != ns[0].id {
        assert m in multiset(t) && m in multiset(ns[1..]);
        var k :| 0 <= k < |ns[1..]| && ns[1..][k] == m;
        assert ns[k + 1] == m;
      }
      InsertAscends(ns[0], t, es, sha);
    }
  }

  lemma AscendsHead(ns: seq<Node>, ms: seq<Node>, es: seq<Edge>, sha: Bytes -> Bytes)
    requires KeysRise(ns, es, sha) && KeysRise(ms, es, sha) && multiset(ns) == multiset(ms) && ns != [] && ms != []
    ensures ns[0] == ms[0]
  {
    hide KeyLess, KeyOf;
    assert ns[0] in multiset(ms) && ms[0] in multiset(ns);
    var i :| 0 <= i < |ms| && ms[i] == ns[0];
    var j :| 0 <= j < |ns| && ns[j] == ms[0];
    KeyLessTotal(KeyOf(ns[0], es, sha), KeyOf(ms[0], es, sha));
  }

  lemma AscendsTail(ns: seq<Node>, es: seq<Edge>, sha: Bytes -> Bytes)
    requires KeysRise(ns, es, sha) && ns != []
    ensures KeysRise(ns[1..], es, sha)
  {
    hide KeyLess, KeyOf;
  }

  lemma {:induction false} AscendsUnique(ns: seq<Node>, ms: seq<Node>, es: seq<Edge>, sha: Bytes -> Bytes)
    requires KeysRise(ns, es, sha) && KeysRise(ms, es, sha) && multiset(ns) == multiset(ms)
    ensures ns == ms
  {
    hide KeysRise;
    assert |ns| == |multiset(ns)| == |multiset(ms)| == |ms|;
    if ns != [] {
      AscendsHead(ns, ms, es, sha);
      AscendsTail(ns, es, sha);
      AscendsTail(ms, es, sha);
      RemoveAt(ns, 0);
      RemoveAt(ms, 0);
      assert ns[..0] + ns[1..] == ns[1..] && ms[..0] + ms[1..] == ms[1..];
      AscendsUnique(ns[1..], ms[1..], es, sha);
    }
  }

  function WeakOrder(g: Cpg, sha: Bytes -> Bytes): (r: seq<nat>) {
    IdList(Cpg(SortNodes(g.nodes, g.edges, sha), g.edges))
  }

  /** The fallback is a complete order of the nodes. */
  lemma WeakOrderComplete(g: Cpg, sha: Bytes -> Bytes)
    requires UniqueIds(g.nodes)
    ensures CompleteOrder(Content(g), WeakOrder(g, sha))
  {
    var ns := SortNodes(g.nodes, g.edges, sha);
    SortNodesAscends(g.nodes, g.edges, sha);
    IdListComplete(Cpg(ns, g.edges));
    forall v ensures v in Ids(Cpg(ns, g.edges)) <==> v in Ids(g) {
      if n :| n in ns && n.id == v { assert n in multiset(g.nodes); }
      if n :| n in g.nodes && n.id == v { assert n in multiset(ns); }
    }
    SortedIdsDistinct(g, ns);
  }

  lemma SortedIdsDistinct(g: Cpg, ns: seq<Node>)
    requires UniqueIds(g.nodes) && multiset(ns) == multiset(g.nodes)
    ensures UniqueIds(ns)
  {
    forall i, j | 0 <= i < j < |ns| ensures ns[i].id != ns[j].id {
      if ns[i].id == ns[j].id {
        assert ns[i] in multiset(g.nodes) && ns[j] in multiset(g.nodes);
        var p :| 0 <= p < |g.nodes| && g.nodes[p] == ns[i];
        var q :| 0 <= q < |g.nodes| && g.nodes[q] == ns[j];
        assert p == q;
        TwiceIn(ns, i, j);
        OnceIn(g.nodes, p);
      }
    }
  }

  lemma TwiceIn(ns: seq<Node>, i: nat, j: nat)
    requires i < j < |ns| && ns[i] == ns[j]
    ensures multiset(ns)[ns[i]] >= 2
  {
    assert ns == ns[..j] + [ns[j]] + ns[j + 1..];
    assert ns[..j][i] == ns[i];
    assert ns[i] in multiset(ns[..j]);
  }

  lemma {:induction false} OnceIn(ns: seq<Node>, p: nat)
    requires UniqueIds(ns) && p < |ns|
    ensures multiset(ns)[ns[p]] == 1
  {
    assert ns == ns[..p] + [ns[p]] + ns[p + 1..];
    assert ns[p] !in ns[..p] && ns[p] !in ns[p + 1..];
  }

  /** The weak order does not depend on how the node and edge lists are ordered. */
  lemma WeakOrderPermuted(g: Cpg, h: Cpg, sha: Bytes -> Bytes)
    requires UniqueIds(g.nodes) && UniqueIds(h.nodes)
    requires multiset(g.nodes) == multiset(h.nodes) && multiset(g.edges) == multiset(h.edges)
    ensures WeakOrder(g, sha) == WeakOrder(h, sha)
  {
    hide KeyLess, KeyOf;
    var a, b := SortNodes(g.nodes, g.edges, sha), SortNodes(h.nodes, h.edges, sha);
    SortNodesAscends(g.nodes, g.edges, sha);
    SortNodesAscends(h.nodes, h.edges, sha);
    forall i | 0 <= i < |b| ensures KeyOf(b[i], h.edges, sha) == KeyOf(b[i], g.edges, sha) {
      KeyOfPermuted(b[i], g.edges, h.edges, sha);
    }
    assert KeysRise(b, g.edges, sha);
    AscendsUnique(a, b, g.edges, sha);
  }

  // ----- the order, read off the graph

  function Leaving(es: seq<Edge>, v: nat): (m: multiset<Bytes>) {
    if es == [] then multiset{} else
    Leaving(es[1..], v) + if es[0].src == v then multiset{es[0].kind} else multiset{}
  }

  function Entering(es: seq<Edge>, v: nat): (m: multiset<Bytes>) {
    if es == [] then multiset{} else
    Entering(es[1..], v) + if es[0].dst == v then multiset{es[0].kind} else multiset{}
  }

  /** The kinds of the edges at a node, once for each end that meets it. */
  function Touching(es: seq<Edge>, v: nat): (m: multiset<Bytes>) {
    Leaving(es, v) + Entering(es, v)
  }

  ghost predicate KindsRise(s: seq<Bytes>) {
    forall i, j :: 0 <= i < j < |s| ==> !Less(s[j], s[i])
  }

  /** Lexicographic order of lists of kinds. */
  predicate KindsLess(s: seq<Bytes>, t: seq<Bytes>) {
    t != [] && (s == [] || Less(s[0], t[0]) || (s[0] == t[0] && KindsLess(s[1..], t[1..])))
  }

  function Plain(s: seq<Bytes>): (r: seq<Arc>) {
    if s == [] then [] else [Arc(s[0], 0, 0)] + Plain(s[1..])
  }

  lemma {:induction false} PlainLess(s: seq<Bytes>, t: seq<Bytes>)
    ensures ArcsLess(Plain(s), Plain(t)) <==> KindsLess(s, t)
  {
    if s != [] && t != [] {
      PlainLess(s[1..], t[1..]);
      assert Plain(s)[1..] == Plain(s[1..]) && Plain(t)[1..] == Plain(t[1..]);
    }
  }

  lemma {:induction false} PlainAt(s: seq<Bytes>, i: nat)
    requires i < |s|
    ensures |Plain(s)| == |s| && Plain(s)[i] == Arc(s[i], 0, 0)
  {
    if |s| > 1 { PlainAt(s[1..], if i > 0 then i - 1 else 0); }
  }

  lemma {:induction false} PlainCounts(s: seq<Bytes>, x: Arc)
    ensures multiset(Plain(s))[x] == if x.a == 0 && x.b == 0 then multiset(s)[x.kind] else 0
  {
    if s != [] {
      PlainCounts(s[1..], x);
      assert s == [s[0]] + s[1..];
    }
  }

  lemma {:induction false} LeavingCount(es: seq<Edge>, v: nat, x: Arc)
    ensures multiset(Collect(es, FromNode(v)))[x] == if x.a == 0 && x.b == 0 then Leaving(es, v)[x.kind] else 0
  {
    if es != [] { LeavingCount(es[1..], v, x); }
  }

  lemma {:induction false} EnteringCount(es: seq<Edge>, v: nat, x: Arc)
    ensures multiset(Collect(es, ToNode(v)))[x] == if x.a == 0 && x.b == 0 then Entering(es, v)[x.kind] else 0
  {
    if es != [] { EnteringCount(es[1..], v, x); }
  }

  /** The third component of the key is the ascending list of those kinds. */
  lemma IncidentIs(es: seq<Edge>, v: nat, s: seq<Bytes>)
    requires KindsRise(s) && multiset(s) == Touching(es, v)
    ensures Incident(es, v) == Plain(s)
  {
    var c := Collect(es, FromNode(v)) + Collect(es, ToNode(v));
    forall x ensures multiset(c)[x] == multiset(Plain(s))[x] {
      LeavingCount(es, v, x);
      EnteringCount(es, v, x);
      PlainCounts(s, x);
    }
    SortOrdered(c);
    forall i, j | 0 <= i < j < |Plain(s)| ensures !ArcLess(Plain(s)[j], Plain(s)[i]) { PlainRises(s, i, j); }
    assert multiset(c) == multiset(Plain(s));
    OrderedUnique(Sort(c), Plain(s));
  }

  lemma PlainRises(s: seq<Bytes>, i: nat, j: nat)
    requires KindsRise(s) && i < j < |Plain(s)|
    ensures !ArcLess(Plain(s)[j], Plain(s)[i])
  {
    PlainLength(s);
    PlainAt(s, i);
    PlainAt(s, j);
  }

  lemma {:induction false} PlainLength(s: seq<Bytes>)
    ensures |Plain(s)| == |s|
  {
    if s != [] { PlainLength(s[1..]); }
  }

  /** The digest of the declaration decides first, then the path, then the kinds of the
      edges at the node in ascending order, then the framed label, and at last the id. */
  ghost predicate ComesFirst(a: Node, s: seq<Bytes>, b: Node, t: seq<Bytes>, sha: Bytes -> Bytes) {
    var x, y := sha(a.fields.decl), sha(b.fields.decl);
    && !Less(y, x)
    && (x == y ==> !Less(b.path, a.path))
    && (x == y && a.path == b.path ==> !KindsLess(t, s))
    && (x == y && a.path == b.path && s == t ==> !Less(LabelBytes(b.fields), LabelBytes(a.fields)))
    && (x == y && a.path == b.path && s == t && a.fields == b.fields ==> a.id < b.id)
  }

  lemma LessComesFirst(a: Node, s: seq<Bytes>, b: Node, t: seq<Bytes>, es: seq<Edge>, sha: Bytes -> Bytes)
    requires KindsRise(s) && multiset(s) == Touching(es, a.id) && KindsRise(t) && multiset(t) == Touching(es, b.id)
    requires KeyLess(KeyOf(a, es, sha), KeyOf(b, es, sha))
    ensures ComesFirst(a, s, b, t, sha)
  {
    hide Incident, Touching, KindsRise, LabelBytes, Less;
    IncidentIs(es, a.id, s);
    IncidentIs(es, b.id, t);
    PlainLess(s, t);
    PlainLess(t, s);
    KeyLessTotal(KeyOf(a, es, sha), KeyOf(b, es, sha));
    ArcsLessTotal(Plain(s), Plain(t));
    LessAsymmetric(sha(a.fields.decl), sha(b.fields.decl));
    LessAsymmetric(a.path, b.path);
    LessAsymmetric(LabelBytes(a.fields), LabelBytes(b.fields));
  }

  lemma WeakOrderAscends(g: Cpg, sha: Bytes -> Bytes, i: nat, j: nat, s: seq<Bytes>, t: seq<Bytes>)
    requires UniqueIds(g.nodes) && i < j < |WeakOrder(g, sha)|
    requires KindsRise(s) && multiset(s) == Touching(g.edges, WeakOrder(g, sha)[i])
    requires KindsRise(t) && multiset(t) == Touching(g.edges, WeakOrder(g, sha)[j])
    ensures WeakOrder(g, sha)[i] in Ids(g) && WeakOrder(g, sha)[j] in Ids(g)
    ensures ComesFirst(Find(g, WeakOrder(g, sha)[i]), s, Find(g, WeakOrder(g, sha)[j]), t, sha)
  {
    hide ComesFirst, KeyOf, KeyLess, KindsRise, Touching, UniqueIds;
    var ns := SortNodes(g.nodes, g.edges, sha);
    SortNodesAscends(g.nodes, g.edges, sha);
    SortedFound(g, ns, i);
    SortedFound(g, ns, j);
    LessComesFirst(ns[i], s, ns[j], t, g.edges, sha);
  }

  lemma SortedFound(g: Cpg, ns: seq<Node>, i: nat)
    requires UniqueIds(g.nodes) && multiset(ns) == multiset(g.nodes) && i < |ns|
    ensures ns[i].id in Ids(g) && Find(g, ns[i].id) == ns[i]
  {
    assert ns[i] in multiset(g.nodes);
    NodeOfNode(g.nodes, ns[i]);
  }
}
