/** What a strong slice fingerprint keeps of the slice before normalisation: edges, kinds,
    the text of everything but locals, and the last segments of qualified names. */
module SliceMeanings {
  import opened ByteStrings
  import opened FiniteSets
  import opened Graphs
  import opened Encoding
  import opened Cpgs
  import opened Slices
  import opened Normalisation
  import opened Canonicality
  import opened Fingerprints
  import opened LocalNumbers
  import opened MoveExactness

  // ----- one name

  /** `t` is the last segment of `s`: no dot in it, and everything or what follows a dot. */
  ghost predicate EndsIn(s: Bytes, t: Bytes) {
    46 !in t && (s == t || exists p: Bytes :: s == p + [46] + t)
  }

  /** Both empty, or both present with one last segment. */
  ghost predicate SameEnding(a: Bytes, b: Bytes) {
    (a == [] <==> b == []) && exists t :: EndsIn(a, t) && EndsIn(b, t)
  }

  lemma {:induction false} TerminalEnds(s: Bytes)
    ensures EndsIn(s, Terminal(s))
  {
    if DOT in s {
      TerminalEnds(s[1..]);
      var t := Terminal(s[1..]);
      if s[1..] == t {
        assert s == [] + [46] + t;
      } else {
        var p: Bytes :| s[1..] == p + [46] + t;
        assert s == ([s[0]] + p) + [46] + t;
      }
    }
  }

  lemma EndsOnce(s: Bytes, t: Bytes)
    ensures EndsIn(s, t) <==> t == Terminal(s)
  {
    hide Terminal;
    TerminalEnds(s);
    if EndsIn(s, t) {
      if s == t { TerminalSuffix([], t); } else {
        var p: Bytes :| s == p + [46] + t;
        TerminalSuffix(p, t);
      }
    }
  }

  /** Collapsed names agree exactly when both are missing or the last segments agree. */
  lemma CollapsedNames(a: Bytes, b: Bytes)
    ensures NormaliseFqn(a) == NormaliseFqn(b) <==> SameEnding(a, b)
  {
    hide Terminal, EndsIn;
    EndsOnce(a, Terminal(a));
    EndsOnce(b, Terminal(b));
    if t :| EndsIn(a, t) && EndsIn(b, t) {
      EndsOnce(a, t);
      EndsOnce(b, t);
    }
    if NormaliseFqn(a) == NormaliseFqn(b) && a != [] && b != [] {
      PrefixCancel(Ascii("%pkg."), Terminal(a), Terminal(b));
    }
  }

  // ----- one label

  /** Collapsing keeps kind, text, and the last segments of both names, and nothing else. */
  lemma CollapseExact(l: Label, m: Label)
    ensures CollapseLabel(l) == CollapseLabel(m) <==>
              l.kind == m.kind && l.text == m.text && SameEnding(l.fqn, m.fqn) && SameEnding(l.decl, m.decl)
  {
    hide NormaliseFqn, SameEnding;
    CollapsedNames(l.fqn, m.fqn);
    CollapsedNames(l.decl, m.decl);
  }

  const LOCAL_KIND: Bytes := [73, 68, 69, 78, 84, 73, 70, 73, 69, 82]

  lemma LocalKind(l: Label)
    ensures IsLocal(l) <==> l.kind == LOCAL_KIND
  {
    assert IDENTIFIER == LOCAL_KIND;
  }

  /** What two labels numbered `i` and `j` must share. */
  ghost predicate LabelsMatch(l: Label, i: nat, m: Label, j: nat) {
    && l.kind == m.kind && (if l.kind == LOCAL_KIND then i == j else l.text == m.text)
    && SameEnding(l.fqn, m.fqn) && SameEnding(l.decl, m.decl)
  }

  lemma NumberedMatch(l: Label, i: nat, m: Label, j: nat)
    ensures var a := if IsLocal(l) then l.(text := LocalName(i)) else l;
            var b := if IsLocal(m) then m.(text := LocalName(j)) else m;
            CollapseLabel(a) == CollapseLabel(b) <==> LabelsMatch(l, i, m, j)
  {
    hide LocalName, SameEnding, CollapseLabel, IsLocal;
    LocalKind(l);
    LocalKind(m);
    LocalNameInjective(i, j);
    var a := if IsLocal(l) then l.(text := LocalName(i)) else l;
    var b := if IsLocal(m) then m.(text := LocalName(j)) else m;
    CollapseExact(a, b);
  }

  // ----- the whole slice

  ghost predicate NodesMatch(c: Graph, o: seq<nat>, v: nat, d: Graph, p: seq<nat>, w: nat) {
    && v in c.labels && w in d.labels
    && LabelsMatch(c.labels[v], LocalNumber(c, o, v), d.labels[w], LocalNumber(d, p, w))
  }

  /** A bijection that keeps edges with their kinds and multiplicities, and matches labels. */
  ghost predicate KeepsMeaning(c: Graph, o: seq<nat>, d: Graph, p: seq<nat>, f: map<nat, nat>) {
    && Bijection(f, c.labels.Keys, d.labels.Keys) && PreservesEdges(c, d, f)
    && forall v {:trigger f[v]} :: v in f ==> NodesMatch(c, o, v, d, p, f[v])
  }

  lemma CountedLabel(c: Graph, o: seq<nat>, v: nat)
    requires CompleteOrder(c, o) && v in c.labels
    ensures v in Counted(c, o).labels
    ensures var l := c.labels[v];
            Counted(c, o).labels[v] ==
            CollapseLabel(if IsLocal(l) then l.(text := LocalName(LocalNumber(c, o, v))) else l)
  {
    hide LocalName, CollapseLabel, Position, CountLocals, IsLocal;
  }

  lemma CountedMatch(c: Graph, o: seq<nat>, v: nat, d: Graph, p: seq<nat>, w: nat)
    requires CompleteOrder(c, o) && CompleteOrder(d, p) && v in c.labels && w in d.labels
    ensures SameLabel(Counted(c, o), v, Counted(d, p), w) <==> NodesMatch(c, o, v, d, p, w)
  {
    hide Counted, LabelsMatch, LocalNumber, CollapseLabel, IsLocal, LocalName, CompleteOrder;
    CountedLabel(c, o, v);
    CountedLabel(d, p, w);
    NumberedMatch(c.labels[v], LocalNumber(c, o, v), d.labels[w], LocalNumber(d, p, w));
  }

  lemma CountedMeaning(c: Graph, o: seq<nat>, d: Graph, p: seq<nat>, f: map<nat, nat>)
    requires CompleteOrder(c, o) && CompleteOrder(d, p)
    ensures Isomorphism(Counted(c, o), Counted(d, p), f) <==> KeepsMeaning(c, o, d, p, f)
  {
    hide Counted, NodesMatch, PreservesEdges, CompleteOrder, SameLabel, Bare;
    NumberedShape(c, o);
    NumberedShape(d, p);
    var a, b := Counted(c, o), Counted(d, p);
    if Bijection(f, c.labels.Keys, d.labels.Keys) {
      BijectionLands(f, c.labels.Keys, d.labels.Keys);
      forall v | v in f ensures SameLabel(a, v, b, f[v]) <==> NodesMatch(c, o, v, d, p, f[v]) {
        CountedMatch(c, o, v, d, p, f[v]);
      }
      if PreservesEdges(a, b, f) { SameEdgesCarried(a, b, c, d, f); }
      if PreservesEdges(c, d, f) { SameEdgesCarried(c, d, a, b, f); }
    }
  }

  /** Two strong fingerprints are equal exactly when a bijection of the two slices, as they
      were before normalisation, keeps their meaning. */
  lemma StrongMeans(g: Cpg, w: seq<nat>, b: nat, h: Cpg, x: seq<nat>, l: nat, sha: Bytes -> Bytes)
    requires FingerprintOf(g, w, b, sha).StrongSlice? && FingerprintOf(h, x, l, sha).StrongSlice?
    ensures SliceOf(g, w).Sliced? && Valid(SliceOf(g, w).cpg) && SliceOf(h, x).Sliced? && Valid(SliceOf(h, x).cpg)
    ensures var s, t := SliceOf(g, w).cpg, SliceOf(h, x).cpg;
            FingerprintOf(g, w, b, sha).code == FingerprintOf(h, x, l, sha).code <==>
              exists f :: KeepsMeaning(Content(s), LocalOrder(s), Content(t), LocalOrder(t), f)
  {
    hide FingerprintOf, Valid, SliceOf, Content, Winner, WellFormed, Isomorphism, Counted, KeepsMeaning, CompleteOrder;
    var c, d := StrongSliceGraph(g, w, b, sha);
    var y, z := StrongSliceGraph(h, x, l, sha);
    var s, t := SliceOf(g, w).cpg, SliceOf(h, x).cpg;
    CanonicalExact(c, y);
    Sandwich(Counted(Content(s), LocalOrder(s)), Counted(Content(t), LocalOrder(t)), c, d, y, z);
    OrdersComplete(s);
    OrdersComplete(t);
    forall f ensures Isomorphism(Counted(Content(s), LocalOrder(s)), Counted(Content(t), LocalOrder(t)), f) <==>
                     KeepsMeaning(Content(s), LocalOrder(s), Content(t), LocalOrder(t), f)
    {
      CountedMeaning(Content(s), LocalOrder(s), Content(t), LocalOrder(t), f);
    }
  }
}
