/** Triple and quad patterns, the plain meaning of a deletion (parser/src/rdf/triple.rs). */
module Patterns {
  import opened Common
  import opened Rdf

  datatype TriplePattern = TriplePattern(subj: Option<Subject>, pred: Option<string>, obj: Option<Term>) {
    predicate Matches(t: Triple) {
      && (subj.Some? ==> subj.value == t.subj)
      && (pred.Some? ==> pred.value == t.pred)
      && (obj.Some? ==> obj.value == t.obj)
    }

    predicate IsAllWildcard() {
      subj.None? && pred.None? && obj.None?
    }
  }

  function FromTriple(t: Triple): TriplePattern {
    TriplePattern(Some(t.subj), Some(t.pred), Some(t.obj))
  }

  lemma FromTripleExact(t: Triple, t': Triple)
    ensures FromTriple(t).Matches(t') <==> t' == t
  {
  }

  datatype GraphScope = Default | Named(graph: Subject) | All

  /** No graph: the default graph only; Some(None): any graph; Some(Some(g)): that graph. */
  datatype QuadPattern = QuadPattern(pattern: TriplePattern, graph: Option<Option<Subject>>) {
    function Scope(): GraphScope {
      if graph.None? then Default else if graph.value.None? then All else Named(graph.value.value)
    }

    predicate Matches(q: Quad) {
      pattern.Matches(q.triple) &&
      match graph
      case None => q.graph.None?
      case Some(None) => true
      case Some(Some(g)) => q.graph == Some(g)
    }
  }

  /** The scope says all that the pattern's graph says. */
  lemma ScopeDecides(p: QuadPattern, q: Quad)
    ensures p.Matches(q) <==> p.pattern.Matches(q.triple) && InScope(p.Scope(), q)
  {
  }

  predicate InScope(s: GraphScope, q: Quad) {
    match s
    case Default => q.graph.None?
    case Named(g) => q.graph == Some(g)
    case All => true
  }

  function FromQuad(q: Quad): QuadPattern {
    QuadPattern(FromTriple(q.triple), Some(q.graph))
  }

  /** A pattern made from a quad is meant to match that quad only. It does exactly for quads in
      named graphs: for one in the default graph it matches the triple in every graph. */
  lemma FromQuadExact(q: Quad)
    ensures (forall q' :: FromQuad(q).Matches(q') <==> q' == q) <==> q.graph.Some?
    ensures q.graph.None? ==> forall q' :: FromQuad(q).Matches(q') <==> q'.triple == q.triple
  {
    if q.graph.None? {
      var other := Quad(q.triple, Some(Iri("")));
      assert FromQuad(q).Matches(other) && other != q;
    }
  }
}
