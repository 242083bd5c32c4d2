/** The data that the nodes of the cluster graph carry. */
module Graph {

  datatype Option<+T> = None | Some(value: T)

  datatype EdgeType =
    | Temporal | IsA | HasA | CanDo | Causes | Sequence | AstChild | NextWord
    | PhraseHead | PhraseChild | Related | AstDef | AstArg | AstBody
    | ImplementedBy | Requires | Analogy | VisualChild | Antonym
    | EpisodicLink | Directive | EnsembleLink

  datatype Provenance = Unknown | User | Wikipedia | ConceptNet | Inferred | Visual

  datatype Edge = Edge(target: int, weight: real, coOccur: int, etype: EdgeType, provenance: Provenance)
}
