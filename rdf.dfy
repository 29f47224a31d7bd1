/**
 * The values the Jena wrappers pass around: RDF nodes and triples, graphs as
 * sets of triples, and the outcomes of the Jena calls that the model treats as
 * oracles (reading a source into a graph, executing a SELECT query).
 */
module Rdf {
  import opened Options

  /** An RDF term; equality is by identifier or value, never by address. */
  datatype Node =
    | Resource(uri: string)
    | Literal(lexical: string)
    | Blank(id: string)

  /** The text `toString()` gives for a node (the URI of a resource, the
      lexical form of a literal, the identifier of a blank node). */
  function NodeText(n: Node): string
  {
    match n
    case Resource(uri) => uri
    case Literal(lexical) => lexical
    case Blank(id) => id
  }

  datatype Triple = Triple(subj: Node, pred: Node, obj: Node)

  /** A Jena model's content: a set of triples, so adding a triple twice is a no-op. */
  type Graph = set<Triple>

  /** What one `Model.read` call contributes to its graph. The parser merges
      triples as it goes, so a read that throws may leave some of them behind. */
  datatype ReadOutcome =
    | Completed(triples: Graph)
    | Aborted(partial: Graph)
  {
    function Added(): Graph
    {
      match this
      case Completed(triples) => triples
      case Aborted(partial) => partial
    }
  }

  /** An inferred model: a reasoner bound to a schema graph, wrapped around a
      base graph. The closure itself is the reasoner's business. */
  datatype InfView = InfView(schema: Graph, base: Graph)

  /** The model a query execution is bound to. */
  datatype Target = Plain(graph: Graph) | Inferred(view: InfView)

  /** One step of a Jena `ResultSet`: the next solution, as the bound variables
      in the order `varNames()` yields them with their nodes, or an exception. */
  datatype Step =
    | Solution(bindings: seq<(string, Node)>)
    | Raised

  /** What `execSelect` does for one execution: throw at once, or hand out a
      result set whose steps are consumed in order. */
  datatype ExecOutcome =
    | SelectRaised
    | Rows(steps: seq<Step>)

  /** A Jena `QueryExecution`: the full query text, the model it runs against,
      and whether it has been closed. */
  class QueryExecution {
    const query: string
    const target: Target
    var closed: bool

    constructor (query: string, target: Target)
      ensures this.query == query && this.target == target && !closed
    {
      this.query := query;
      this.target := target;
      closed := false;
    }
  }
}
