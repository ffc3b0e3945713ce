/** What numbering the locals along an order, and then collapsing package
    prefixes, leaves of a graph and of the same graph after a package move. */
module LocalNumbers {
  import opened ByteStrings
  import opened FiniteSets
  import opened Graphs
  import opened Encoding
  import opened SliceLaws
  import opened Normalisation
  import opened JoinedTexts
  import opened OrderTwins
  import opened PackageMoves

  /** The same nodes and edges, with moved labels. */
  ghost predicate MovedGraph(c: Graph, d: Graph) {
    && c.labels.Keys == d.labels.Keys && c.edges == d.edges
    && forall v :: v in c.labels ==> MovedLabel(c.labels[v], d.labels[v])
  }

  predicate LocalIn(c: Graph, v: nat) {
    v in c.labels && IsLocal(c.labels[v])
  }

  /** How many locals come before a node. */
  function LocalNumber(c: Graph, o: seq<nat>, v: nat): (n: nat) {
    if v in o then CountLocals(c, o[..Position(o, v)]) else 0
  }

  /** The numbered graph with its prefixes collapsed. */
  ghost function Counted(c: Graph, o: seq<nat>): (r: Graph) {
    MapLabels(Renamed(c, o), Collapse())
  }

  /** What is left when names and prefixes are both gone. */
  ghost function Bare(c: Graph): (r: Graph) {
    MapLabels(Nameless(c), Collapse())
  }

  lemma LocalNameInjective(m: nat, n: nat)
    ensures LocalName(m) == LocalName(n) <==> m == n
  {
    if LocalName(m) == LocalName(n) {
      PrefixCancel(Ascii("%local"), Decimal(m), Decimal(n));
      DecimalInjective(m, n);
    }
  }

  lemma BareMoved(c: Graph, d: Graph)
    requires MovedGraph(c, d)
    ensures Bare(c) == Bare(d)
  {
    forall v | v in c.labels ensures CollapseLabel(Blind(c.labels[v])) == CollapseLabel(Blind(d.labels[v])) {
      CollapseMoved(Blind(c.labels[v]), Blind(d.labels[v]));
    }
  }

  /** Two numbered labels agree exactly when the bare ones do and, for locals, the numbers. */
  lemma NumberedLabels(l: Label, m: Label, i: nat, j: nat)
    ensures var a := if IsLocal(l) then l.(text := LocalName(i)) else l;
            var b := if IsLocal(m) then m.(text := LocalName(j)) else m;
            CollapseLabel(a) == CollapseLabel(b) <==>
              CollapseLabel(Blind(l)) == CollapseLabel(Blind(m)) && (IsLocal(l) ==> i == j)
  {
    hide LocalName, NormaliseFqn;
    LocalNameInjective(i, j);
  }

  lemma NumberedAt(c: Graph, d: Graph, o: seq<nat>, p: seq<nat>, v: nat, w: nat)
    requires MovedGraph(c, d) && CompleteOrder(c, o) && CompleteOrder(d, p) && v in c.labels && w in c.labels
    ensures SameLabel(Counted(c, o), v, Counted(d, p), w) <==>
              SameLabel(Bare(c), v, Bare(c), w) && (LocalIn(c, v) ==> LocalNumber(c, o, v) == LocalNumber(d, p, w))
  {
    hide LocalName, CollapseLabel, Position, CountLocals, MovedLabel;
    BareMoved(c, d);
    NumberedLabels(c.labels[v], d.labels[w], LocalNumber(c, o, v), LocalNumber(d, p, w));
    assert Bare(d).labels[w] == CollapseLabel(Blind(d.labels[w]));
  }

  /** The bijections that keep the bare graph and carry every local's number. */
  ghost predicate CarriesNumbers(c: Graph, o: seq<nat>, d: Graph, p: seq<nat>, f: map<nat, nat>)
  {
    && Isomorphism(Bare(c), Bare(c), f)
    && forall v {:trigger LocalIn(c, v)} :: LocalIn(c, v) ==> v in f && LocalNumber(c, o, v) == LocalNumber(d, p, f[v])
  }

  lemma SameEdgesPreserve(a: Graph, b: Graph, c: Graph, f: map<nat, nat>)
    requires a.edges == b.edges == c.edges
    ensures PreservesEdges(a, b, f) <==> PreservesEdges(c, c, f)
  {
    hide PreservesEdges;
    if PreservesEdges(a, b, f) { SameEdgesCarried(a, b, c, c, f); }
    if PreservesEdges(c, c, f) { SameEdgesCarried(c, c, a, b, f); }
  }

  lemma NumberedShape(c: Graph, o: seq<nat>)
    ensures Counted(c, o).labels.Keys == Bare(c).labels.Keys == c.labels.Keys
    ensures Counted(c, o).edges == Bare(c).edges == c.edges
  {
  }

  lemma LabelKept(g: Graph, h: Graph, f: map<nat, nat>, v: nat)
    requires Isomorphism(g, h, f) && v in g.labels
    ensures v in f && f[v] in h.labels && SameLabel(g, v, h, f[v])
  {
    hide PreservesEdges;
    BijectionLands(f, g.labels.Keys, h.labels.Keys);
  }

  lemma CarriedAt(c: Graph, o: seq<nat>, d: Graph, p: seq<nat>, f: map<nat, nat>, v: nat)
    requires MovedGraph(c, d) && CompleteOrder(c, o) && CompleteOrder(d, p)
    requires Isomorphism(Counted(c, o), Counted(d, p), f)
    requires v in c.labels
    ensures v in f && f[v] in p && SameLabel(Bare(c), v, Bare(c), f[v])
    ensures LocalIn(c, v) ==> LocalNumber(c, o, v) == LocalNumber(d, p, f[v])
  {
    hide Counted, Bare, LocalNumber, Isomorphism, MovedLabel, IsLocal, Distinct;
    NumberedShape(c, o);
    NumberedShape(d, p);
    LabelKept(Counted(c, o), Counted(d, p), f, v);
    NumberedAt(c, d, o, p, v, f[v]);
  }

  lemma NumberedForward(c: Graph, o: seq<nat>, d: Graph, p: seq<nat>, f: map<nat, nat>)
    requires MovedGraph(c, d) && CompleteOrder(c, o) && CompleteOrder(d, p)
    requires Isomorphism(Counted(c, o), Counted(d, p), f)
    ensures CarriesNumbers(c, o, d, p, f)
  {
    hide Counted, Bare, LocalNumber, PreservesEdges, LocalIn, SameLabel, Bijection, CompleteOrder, MovedGraph;
    NumberedShape(c, o);
    NumberedShape(d, p);
    MovedKeys(c, d);
    MovedSameEdges(c, d);
    SameEdgesPreserve(Counted(c, o), Counted(d, p), Bare(c), f);
    forall v | v in f ensures SameLabel(Bare(c), v, Bare(c), f[v]) {
      BijectionKeys(f, c.labels.Keys, c.labels.Keys);
      CarriedAt(c, o, d, p, f, v);
    }
    forall v {:trigger LocalIn(c, v)} | LocalIn(c, v)
      ensures v in f && LocalNumber(c, o, v) == LocalNumber(d, p, f[v])
    {
      LocalIsNode(c, v);
      CarriedAt(c, o, d, p, f, v);
    }
  }

  lemma MovedSameEdges(c: Graph, d: Graph)
    requires MovedGraph(c, d)
    ensures c.edges == d.edges
  {
  }

  lemma BijectionKeys(f: map<nat, nat>, a: set<nat>, b: set<nat>)
    requires Bijection(f, a, b)
    ensures f.Keys == a
  {
  }

  lemma NumberedBack(c: Graph, o: seq<nat>, d: Graph, p: seq<nat>, f: map<nat, nat>)
    requires MovedGraph(c, d) && CompleteOrder(c, o) && CompleteOrder(d, p) && CarriesNumbers(c, o, d, p, f)
    ensures Isomorphism(Counted(c, o), Counted(d, p), f)
  {
    hide Counted, Bare, LocalNumber, PreservesEdges, IsLocal, SameLabel, Bijection, CompleteOrder;
    NumberedShape(c, o);
    NumberedShape(d, p);
    SameEdgesPreserve(Counted(c, o), Counted(d, p), Bare(c), f);
    forall v | v in f ensures SameLabel(Counted(c, o), v, Counted(d, p), f[v]) {
      BijectionKeys(f, c.labels.Keys, c.labels.Keys);
      LabelKept(Bare(c), Bare(c), f, v);
      NumberedAt(c, d, o, p, v, f[v]);
    }
  }

  /** The numbered graphs match exactly along the automorphisms that carry the numbers. */
  lemma NumberedExact(c: Graph, o: seq<nat>, d: Graph, p: seq<nat>)
    requires MovedGraph(c, d) && CompleteOrder(c, o) && CompleteOrder(d, p)
    ensures Isomorphic(Counted(c, o), Counted(d, p)) <==> exists f :: CarriesNumbers(c, o, d, p, f)
  {
    hide Counted, CarriesNumbers, Isomorphism, MovedGraph, CompleteOrder;
    if f :| Isomorphism(Counted(c, o), Counted(d, p), f) { NumberedForward(c, o, d, p, f); }
    if f :| CarriesNumbers(c, o, d, p, f) { NumberedBack(c, o, d, p, f); }
  }

  // ----- locals that stay apart without names and prefixes

  ghost predicate LocalsApart(c: Graph) {
    forall u, v {:trigger LocalIn(c, u), LocalIn(c, v)} ::
      LocalIn(c, u) && LocalIn(c, v) && Bare(c).labels[u] == Bare(c).labels[v] ==> u == v
  }

  ghost predicate SameNumbers(c: Graph, o: seq<nat>, d: Graph, p: seq<nat>)
  {
    forall v {:trigger LocalIn(c, v)} :: LocalIn(c, v) ==> LocalNumber(c, o, v) == LocalNumber(d, p, v)
  }

  lemma BareLocal(c: Graph, v: nat, w: nat)
    requires v in c.labels && w in c.labels && Bare(c).labels[v] == Bare(c).labels[w]
    ensures LocalIn(c, v) <==> LocalIn(c, w)
  {
    hide NormaliseFqn;
  }

  lemma ApartNumbers(c: Graph, o: seq<nat>, d: Graph, p: seq<nat>)
    requires MovedGraph(c, d) && CompleteOrder(c, o) && CompleteOrder(d, p) && LocalsApart(c)
    ensures (exists f :: CarriesNumbers(c, o, d, p, f)) <==> SameNumbers(c, o, d, p)
  {
    hide Bare, LocalNumber, MovedGraph, IsLocal, Isomorphism, LocalIn, LocalsApart, CompleteOrder;
    NumberedShape(c, o);
    assert c.labels.Keys == d.labels.Keys by { MovedKeys(c, d); }
    if f :| CarriesNumbers(c, o, d, p, f) {
      forall v | LocalIn(c, v) ensures LocalNumber(c, o, v) == LocalNumber(d, p, v) {
        ApartFixes(c, f, v);
      }
    }
    if SameNumbers(c, o, d, p) {
      var f := Identity(c.labels.Keys);
      IsomorphismIdentity(Bare(c));
      forall v | LocalIn(c, v) ensures v in f && LocalNumber(c, o, v) == LocalNumber(d, p, f[v]) { LocalIsNode(c, v); }
      assert CarriesNumbers(c, o, d, p, f);
    }
  }

  lemma ApartFixes(c: Graph, f: map<nat, nat>, v: nat)
    requires Isomorphism(Bare(c), Bare(c), f) && LocalsApart(c) && LocalIn(c, v)
    ensures v in f && f[v] == v
  {
    hide Bare, Isomorphism, IsLocal;
    NumberedShape(c, []);
    LabelKept(Bare(c), Bare(c), f, v);
    BareLocal(c, v, f[v]);
  }

  lemma MovedKeys(c: Graph, d: Graph)
    requires MovedGraph(c, d)
    ensures c.labels.Keys == d.labels.Keys
  {
  }

  lemma LocalIsNode(c: Graph, v: nat)
    ensures LocalIn(c, v) ==> v in c.labels
  {
  }

  // ----- the number of a local is the number of locals with a smaller plain label

  ghost function LocalsAmong(c: Graph, s: set<nat>): (r: set<nat>) {
    set v | v in s && LocalIn(c, v)
  }

  lemma {:induction false} CountIsSize(c: Graph, o: seq<nat>)
    requires Distinct(o)
    ensures CountLocals(c, o) == |LocalsAmong(c, Elements(o))|
  {
    hide IsLocal;
    if o != [] {
      var v, front := o[|o| - 1], o[..|o| - 1];
      CountIsSize(c, front);
      assert o == front + [v] && v !in front;
      assert LocalsAmong(c, Elements(o)) == LocalsAmong(c, Elements(front)) + if LocalIn(c, v) then {v} else {};
    }
  }

  ghost function LocalsBefore(c: Graph, v: nat): (r: set<nat>)
    requires v in c.labels
  {
    set u | u in c.labels && IsLocal(c.labels[u]) && PlainBefore(c.labels[u], c.labels[v])
  }

  /** In an ascending order, locals with different plain labels stand as their labels compare. */
  lemma AscendingPlaces(c: Graph, o: seq<nat>, u: nat, v: nat)
    requires WellFormed(Nameless(c)) && LabelsAscend(Nameless(c), o) && LocalsApart(c) && LocalIn(c, u) && LocalIn(c, v)
    ensures u in o && v in o && (Position(o, u) < Position(o, v) <==> PlainBefore(c.labels[u], c.labels[v]))
  {
    hide WellFormed, Distinct, LabelBytes, Less, CollapseLabel;
    var n := Nameless(c);
    LabelBytesExact(n, u, v);
    var i, j := Position(o, u), Position(o, v);
    if i < j {
      assert !LabelBefore(n, o[j], o[i]);
      SameBare(c, u, v);
    } else if j < i {
      assert !LabelBefore(n, o[i], o[j]);
    } else {
      assert u == v;
    }
  }

  lemma SameBare(c: Graph, u: nat, v: nat)
    requires u in c.labels && v in c.labels
    ensures Nameless(c).labels[u] == Nameless(c).labels[v] ==> Bare(c).labels[u] == Bare(c).labels[v]
  {
  }

  lemma PositionInside(o: seq<nat>, v: nat, u: nat)
    requires Distinct(o) && v in o
    ensures u in Elements(o[..Position(o, v)]) <==> u in o && Position(o, u) < Position(o, v)
  {
    var i := Position(o, v);
    if u in Elements(o[..i]) {
      var k :| 0 <= k < i && o[..i][k] == u;
      assert o[k] == u && o[Position(o, u)] == u;
    }
    if u in o && Position(o, u) < i { assert o[..i][Position(o, u)] == u; }
  }

  lemma NumberCounts(c: Graph, o: seq<nat>, v: nat)
    requires WellFormed(Nameless(c)) && LabelsAscend(Nameless(c), o) && LocalsApart(c) && LocalIn(c, v)
    ensures v in o && LocalNumber(c, o, v) == |LocalsBefore(c, v)|
  {
    hide WellFormed, PlainBefore, Bare, LocalsApart, IsLocal, CountLocals, Distinct;
    assert v in Nameless(c).labels;
    var front := o[..Position(o, v)];
    FrontDistinct(o, Position(o, v));
    CountIsSize(c, front);
    forall u ensures u in LocalsAmong(c, Elements(front)) <==> u in LocalsBefore(c, v) {
      PositionInside(o, v, u);
      if LocalIn(c, u) { AscendingPlaces(c, o, u, v); }
    }
    assert LocalsAmong(c, Elements(front)) == LocalsBefore(c, v);
  }

  lemma FrontDistinct(o: seq<nat>, i: nat)
    requires Distinct(o) && i <= |o|
    ensures Distinct(o[..i])
  {
  }

  lemma {:induction false} CountMonotone(c: Graph, o: seq<nat>, i: nat, j: nat)
    requires i <= j <= |o|
    ensures CountLocals(c, o[..i]) <= CountLocals(c, o[..j])
  {
    if i < j {
      CountMonotone(c, o, i, j - 1);
      assert o[..j][..j - 1] == o[..j - 1];
    }
  }

  lemma NumbersFollowPlaces(c: Graph, o: seq<nat>, u: nat, v: nat)
    requires u in o && v in o && LocalIn(c, u) && LocalIn(c, v)
    ensures LocalNumber(c, o, u) < LocalNumber(c, o, v) <==> Position(o, u) < Position(o, v)
  {
    hide IsLocal, Position;
    var i, j := Position(o, u), Position(o, v);
    if i < j {
      assert o[..i + 1][..i] == o[..i] && o[..i + 1][i] == u;
      assert CountLocals(c, o[..i + 1]) == CountLocals(c, o[..i]) + 1;
      CountMonotone(c, o, i + 1, j);
    } else {
      CountMonotone(c, o, j, i);
    }
  }

  // ----- so the numbers agree exactly when the plain labels of the locals compare alike

  ghost predicate LocalsOrderKept(c: Graph, d: Graph)
    requires c.labels.Keys == d.labels.Keys
  {
    forall u, v {:trigger LocalIn(c, u), LocalIn(c, v)} :: LocalIn(c, u) && LocalIn(c, v) ==> KeptPair(c, d, u, v)
  }

  lemma MovedApart(c: Graph, d: Graph)
    requires MovedGraph(c, d)
    ensures forall v :: LocalIn(c, v) <==> LocalIn(d, v)
    ensures LocalsApart(c) ==> LocalsApart(d)
  {
    BareMoved(c, d);
    hide Bare;
  }

  lemma KeptBefore(c: Graph, d: Graph, v: nat)
    requires MovedGraph(c, d) && LocalsOrderKept(c, d) && LocalIn(c, v)
    ensures v in d.labels && LocalsBefore(c, v) == LocalsBefore(d, v)
  {
    hide PlainBefore, MovedName;
    MovedApart(c, d);
    forall u | LocalIn(c, u) ensures PlainBefore(c.labels[u], c.labels[v]) <==> PlainBefore(d.labels[u], d.labels[v]) {
      assert KeptPair(c, d, u, v);
    }
    forall u ensures u in LocalsBefore(c, v) <==> u in LocalsBefore(d, v) { assert LocalIn(c, u) <==> LocalIn(d, u); }
  }

  lemma NumbersKept(c: Graph, o: seq<nat>, d: Graph, p: seq<nat>)
    requires MovedGraph(c, d) && LocalsApart(c) && WellFormed(Nameless(c)) && WellFormed(Nameless(d))
    requires LabelsAscend(Nameless(c), o) && LabelsAscend(Nameless(d), p)
    ensures CompleteOrder(c, o) && CompleteOrder(d, p)
    ensures SameNumbers(c, o, d, p) <==> LocalsOrderKept(c, d)
  {
    hide WellFormed, LocalNumber, Bare, LocalsApart, LocalIn, MovedLabel, PlainBefore, LabelBefore, Distinct,
      LocalsBefore, Position;
    MovedApart(c, d);
    forall v | LocalIn(c, v) ensures v in c.labels { LocalIsNode(c, v); }
    if LocalsOrderKept(c, d) {
      forall v | LocalIn(c, v) ensures LocalNumber(c, o, v) == LocalNumber(d, p, v) {
        NumberCounts(c, o, v);
        NumberCounts(d, p, v);
        KeptBefore(c, d, v);
      }
    }
    if SameNumbers(c, o, d, p) {
      forall u, v | LocalIn(c, u) && LocalIn(c, v) ensures KeptPair(c, d, u, v) {
        AscendingPlaces(c, o, u, v);
        AscendingPlaces(d, p, u, v);
        NumbersFollowPlaces(c, o, u, v);
        NumbersFollowPlaces(d, p, u, v);
      }
    }
  }
}
