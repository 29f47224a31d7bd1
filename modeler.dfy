/**
 * `Modeler`: a FOAF friends model, an alignment model holding the statements
 * that map a second person ontology onto FOAF, and an inferred model built by
 * binding an OWL reasoner to the alignment model over the friends model.
 */
module FriendsAlignment {
  import opened Options
  import opened Rdf

  const DefaultNameSpace := "http://org.nonexistant.default/whatever#"
  const ExternalNameSpace := "http://www.semanticweb.org/josephcarson/ontologies/2015/6/untitled-ontology-16#"
  const OwlNs := "http://www.w3.org/2002/07/owl#"
  const RdfsNs := "http://www.w3.org/2000/01/rdf-schema#"
  const RdfNs := "http://www.w3.org/1999/02/22-rdf-syntax-ns#"
  const FoafNs := "http://xmlns.com/foaf/0.1/"

  /** One clause of the preamble, as `prepQuery` appends it (lines 204-208). */
  function PrefixDecl(name: string, ns: string): string
  {
    "PREFIX " + name + ": <" + ns + "> "
  }

  /** The clauses of a list of declarations, in list order. */
  function Decls(ps: seq<(string, string)>): string
  {
    if ps == [] then "" else PrefixDecl(ps[0].0, ps[0].1) + Decls(ps[1..])
  }

  /** The five prefixes of `prepQuery`, in the order they are declared. */
  const FixedPrefixes: seq<(string, string)> := [
    ("default", DefaultNameSpace),
    ("untitled-ontology-16", ExternalNameSpace),
    ("rdfs", RdfsNs),
    ("rdf", RdfNs),
    ("foaf", FoafNs)]

  /** A query ready to run: its text and the model it runs against. */
  datatype PreparedQuery = PreparedQuery(query: string, target: Target)

  /** `prepQuery` (lines 199-217): the fixed preamble, then the request. */
  function PrepQuery(queryRequest: string, model: Target): (qe: PreparedQuery)
    ensures qe.target == model
    ensures Decls(FixedPrefixes) <= qe.query
    ensures qe.query[|Decls(FixedPrefixes)|..] == queryRequest
  {
    var queryStr :=
      PrefixDecl("default", DefaultNameSpace)
      + PrefixDecl("untitled-ontology-16", ExternalNameSpace)
      + PrefixDecl("rdfs", "http://www.w3.org/2000/01/rdf-schema#")
      + PrefixDecl("rdf", "http://www.w3.org/1999/02/22-rdf-syntax-ns#")
      + PrefixDecl("foaf", "http://xmlns.com/foaf/0.1/");
    PreambleIsFixedPrefixes();
    PreparedQuery(queryStr + queryRequest, model)
  }

  /** The clauses of five declarations are their clauses one after another. */
  lemma DeclsOfFive(p0: (string, string), p1: (string, string), p2: (string, string),
                    p3: (string, string), p4: (string, string))
    ensures Decls([p0, p1, p2, p3, p4]) ==
      PrefixDecl(p0.0, p0.1) + PrefixDecl(p1.0, p1.1) + PrefixDecl(p2.0, p2.1)
      + PrefixDecl(p3.0, p3.1) + PrefixDecl(p4.0, p4.1)
  {
    var d0, d1, d2, d3, d4 := PrefixDecl(p0.0, p0.1), PrefixDecl(p1.0, p1.1), PrefixDecl(p2.0, p2.1),
                              PrefixDecl(p3.0, p3.1), PrefixDecl(p4.0, p4.1);
    assert [p4][1..] == [];
    assert Decls([p4]) == d4;
    assert [p3, p4][1..] == [p4];
    assert Decls([p3, p4]) == d3 + d4;
    assert [p2, p3, p4][1..] == [p3, p4];
    assert Decls([p2, p3, p4]) == d2 + (d3 + d4) == d2 + d3 + d4;
    assert [p1, p2, p3, p4][1..] == [p2, p3, p4];
    assert Decls([p1, p2, p3, p4]) == d1 + (d2 + d3 + d4) == d1 + d2 + d3 + d4;
    assert [p0, p1, p2, p3, p4][1..] == [p1, p2, p3, p4];
    assert Decls([p0, p1, p2, p3, p4]) == d0 + (d1 + d2 + d3 + d4) == d0 + d1 + d2 + d3 + d4;
  }

  /** The literal preamble is the five fixed declarations, in order. */
  lemma PreambleIsFixedPrefixes()
    ensures Decls(FixedPrefixes) ==
      PrefixDecl("default", DefaultNameSpace)
      + PrefixDecl("untitled-ontology-16", ExternalNameSpace)
      + PrefixDecl("rdfs", "http://www.w3.org/2000/01/rdf-schema#")
      + PrefixDecl("rdf", "http://www.w3.org/1999/02/22-rdf-syntax-ns#")
      + PrefixDecl("foaf", "http://xmlns.com/foaf/0.1/")
  {
    DeclsOfFive(("default", DefaultNameSpace), ("untitled-ontology-16", ExternalNameSpace),
                ("rdfs", RdfsNs), ("rdf", RdfNs), ("foaf", FoafNs));
  }

  /** The preamble does not depend on the request or on the model: two
      prepared queries agree up to the end of the preamble, and differ only
      in what follows it. */
  lemma PreambleIndependent(q1: string, m1: Target, q2: string, m2: Target)
    ensures
      var n := |Decls(FixedPrefixes)|;
      PrepQuery(q1, m1).query[..n] == PrepQuery(q2, m2).query[..n]
    ensures PrepQuery(q1, m1).query == PrepQuery(q2, m2).query <==> q1 == q2
  {
    var n := |Decls(FixedPrefixes)|;
    var a := PrepQuery(q1, m1).query;
    var b := PrepQuery(q2, m2).query;
    assert a[..n] == Decls(FixedPrefixes) == b[..n];
    if a == b {
      assert q1 == a[n..] == b[n..] == q2;
    }
  }

  function Uri(ns: string, local: string): Node
  {
    Resource(ns + local)
  }

  /** The six statements `alignModels` asserts (lines 107-151). */
  function AlignmentAssertions(): set<Triple>
  {
    {
      Triple(Uri(ExternalNameSpace, "Individual"), Uri(OwlNs, "equivalentClass"), Uri(FoafNs, "Person")),
      Triple(Uri(ExternalNameSpace, "hasName"), Uri(OwlNs, "equivalentProperty"), Uri(FoafNs, "name")),
      Triple(Uri(ExternalNameSpace, "hasFriend"), Uri(RdfsNs, "subPropertyOf"), Uri(FoafNs, "knows")),
      Triple(Uri(DefaultNameSpace, "me"), Uri(OwlNs, "sameAs"), Uri(ExternalNameSpace, "PersonMe")),
      Triple(Uri(DefaultNameSpace, "RichardO"), Uri(OwlNs, "sameAs"), Uri(ExternalNameSpace, "PersonDickie")),
      Triple(Uri(DefaultNameSpace, "SamB"), Uri(OwlNs, "sameAs"), Uri(ExternalNameSpace, "PersonShamir"))
    }
  }

  /** The six statements are six different triples. */
  lemma SixAssertions()
    ensures |AlignmentAssertions()| == 6
  {
    var e := ExternalNameSpace;
    var d := DefaultNameSpace;
    assert (e + "Individual")[|e|] == 'I' && (e + "hasName")[|e| + 3] == 'N' && (e + "hasFriend")[|e| + 3] == 'F';
    assert (d + "me")[|d|] == 'm' && (d + "RichardO")[|d|] == 'R' && (d + "SamB")[|d|] == 'S';
    assert (OwlNs + "sameAs")[|OwlNs|] == 's' && (OwlNs + "equivalentClass")[|OwlNs|] == 'e';
    assert (OwlNs + "equivalentProperty")[|OwlNs| + 10] == 'P' && (OwlNs + "equivalentClass")[|OwlNs| + 10] == 'C';
    assert |RdfsNs + "subPropertyOf"| != |OwlNs + "equivalentClass"|;
    assert |RdfsNs + "subPropertyOf"| != |OwlNs + "equivalentProperty"|;
  }

  /** Every `sameAs` statement links a resource of the default namespace to
      one of the person ontology, and there are three of them. */
  lemma SameAsLinksDefaultToExternal()
    ensures forall t :: t in AlignmentAssertions() && t.pred == Uri(OwlNs, "sameAs") ==>
      && t.subj.Resource? && DefaultNameSpace <= t.subj.uri
      && t.obj.Resource? && ExternalNameSpace <= t.obj.uri
    ensures |set t | t in AlignmentAssertions() && t.pred == Uri(OwlNs, "sameAs")| == 3
  {
    var sameAs := Uri(OwlNs, "sameAs");
    assert (OwlNs + "sameAs")[|OwlNs|] == 's' && (OwlNs + "equivalentClass")[|OwlNs|] == 'e';
    assert (OwlNs + "equivalentProperty")[|OwlNs|] == 'e';
    assert |RdfsNs + "subPropertyOf"| != |OwlNs + "sameAs"|;
    var d := DefaultNameSpace;
    assert (d + "me")[|d|] == 'm' && (d + "RichardO")[|d|] == 'R' && (d + "SamB")[|d|] == 'S';
    var links := {
      Triple(Uri(d, "me"), sameAs, Uri(ExternalNameSpace, "PersonMe")),
      Triple(Uri(d, "RichardO"), sameAs, Uri(ExternalNameSpace, "PersonDickie")),
      Triple(Uri(d, "SamB"), sameAs, Uri(ExternalNameSpace, "PersonShamir"))};
    assert (set t | t in AlignmentAssertions() && t.pred == sameAs) == links;
  }

  class Modeler {
    var friendsModel: Graph
    var alignmentModel: Graph
    /** Null until `bindReasoner` runs. */
    var inferredModel: Option<InfView>

    /** Two empty ontology models and no inferred model (lines 29-33). */
    constructor ()
      ensures friendsModel == {} && alignmentModel == {} && inferredModel == None
    {
      friendsModel := {};
      alignmentModel := {};
      inferredModel := None;
    }

    /** `alignModels` (lines 107-151): add the six alignment statements to the
        alignment model, one `add` at a time; the friends model and the
        inferred model are untouched. */
    method AlignModels()
      modifies this`alignmentModel
      ensures alignmentModel == old(alignmentModel) + AlignmentAssertions()
    {
      var resource := Uri(ExternalNameSpace, "Individual");
      var prop := Uri(OwlNs, "equivalentClass");
      var obj := Uri(FoafNs, "Person");
      alignmentModel := alignmentModel + {Triple(resource, prop, obj)};

      resource := Uri(ExternalNameSpace, "hasName");
      prop := Uri(OwlNs, "equivalentProperty");
      obj := Uri(FoafNs, "name");
      alignmentModel := alignmentModel + {Triple(resource, prop, obj)};

      resource := Uri(ExternalNameSpace, "hasFriend");
      prop := Uri(RdfsNs, "subPropertyOf");
      obj := Uri(FoafNs, "knows");
      alignmentModel := alignmentModel + {Triple(resource, prop, obj)};

      resource := Uri(DefaultNameSpace, "me");
      prop := Uri(OwlNs, "sameAs");
      obj := Uri(ExternalNameSpace, "PersonMe");
      alignmentModel := alignmentModel + {Triple(resource, prop, obj)};

      resource := Uri(DefaultNameSpace, "RichardO");
      prop := Uri(OwlNs, "sameAs");
      obj := Uri(ExternalNameSpace, "PersonDickie");
      alignmentModel := alignmentModel + {Triple(resource, prop, obj)};

      resource := Uri(DefaultNameSpace, "SamB");
      prop := Uri(OwlNs, "sameAs");
      obj := Uri(ExternalNameSpace, "PersonShamir");
      alignmentModel := alignmentModel + {Triple(resource, prop, obj)};
    }

    /** `bindReasoner` (lines 153-158): a new inferred model, the alignment
        model as the reasoner's schema over the friends model; both models
        are untouched. */
    method BindReasoner()
      modifies this`inferredModel
      ensures inferredModel == Some(InfView(alignmentModel, friendsModel))
    {
      inferredModel := Some(InfView(alignmentModel, friendsModel));
    }
  }

  /** The order of `main`: aligning, then binding, gives an inferred model
      whose schema holds all six statements over the unchanged friends. */
  method AlignThenBind(m: Modeler) returns (view: InfView)
    modifies m
    ensures AlignmentAssertions() <= view.schema && view.base == m.friendsModel
    ensures m.inferredModel == Some(view)
    ensures m.friendsModel == old(m.friendsModel)
  {
    m.AlignModels();
    m.BindReasoner();
    view := m.inferredModel.value;
  }
}
