/**
 * `DCATModel`: a DCAT catalog loaded into one Jena model, the distributions it
 * lists loaded into a second, ontologies kept in a third, and an inferred model
 * built lazily over the second and third. Queries are prefixed with a
 * preamble generated from a prefix map and cached until the map changes.
 */
module Dcat {
  import opened Options
  import opened Rdf
  import opened Enumerations
  import opened LangAdapters
  import opened JenaUtil

  const DcatUriBase := "http://www.w3.org/ns/dcat#"
  const DctUriBase := "http://purl.org/dc/terms/"
  const DctypeUriBase := "http://purl.org/dc/dcmitype/"
  const SkosUriBase := "http://www.w3.org/2004/02/skos/core#"
  /** The namespaces of Jena's `FOAF`, `RDF`, `RDFS`, `VCARD` and `XSD` vocabularies. */
  const FoafUri := "http://xmlns.com/foaf/0.1/"
  const RdfUri := "http://www.w3.org/1999/02/22-rdf-syntax-ns#"
  const RdfsUri := "http://www.w3.org/2000/01/rdf-schema#"
  const VcardUri := "http://www.w3.org/2001/vcard-rdf/3.0#"
  const XsdUri := "http://www.w3.org/2001/XMLSchema#"

  /** `prefixNamespaces`: prefix to namespace, where a namespace may be null.
      A null prefix never gets in (see `NsUpdate`). */
  type PrefixMap = map<string, Option<string>>

  /** The nine prefixes the constructor installs. */
  function DefaultPrefixes(): PrefixMap
  {
    map[
      "dcat" := Some(DcatUriBase), "dct" := Some(DctUriBase), "dctype" := Some(DctypeUriBase),
      "foaf" := Some(FoafUri), "rdf" := Some(RdfUri), "rdfs" := Some(RdfsUri),
      "skos" := Some(SkosUriBase), "vcard" := Some(VcardUri), "xsd" := Some(XsdUri)]
  }

  /** What `setNsPrefix(prefix, namespaceURI)` does to the map (lines 174-180). */
  function NsUpdate(m: PrefixMap, prefix: Option<string>, ns: Option<string>): PrefixMap
  {
    if ns.None? && prefix.Some? && prefix.value in m then m - {prefix.value}
    else if prefix.Some? then m[prefix.value := ns]
    else m
  }

  /** `setNsPrefix` touches only its own prefix: a null namespace removes a
      present prefix but stores a null entry for an absent one, any other
      namespace is stored, and a null prefix changes nothing. */
  lemma SetNsPrefixEffect(m: PrefixMap, prefix: Option<string>, ns: Option<string>)
    ensures forall q :: prefix != Some(q) ==>
      (q in NsUpdate(m, prefix, ns) <==> q in m) && (q in m ==> NsUpdate(m, prefix, ns)[q] == m[q])
    ensures prefix.None? ==> NsUpdate(m, prefix, ns) == m
    ensures prefix.Some? && ns.Some? ==>
      prefix.value in NsUpdate(m, prefix, ns) && NsUpdate(m, prefix, ns)[prefix.value] == ns
    ensures prefix.Some? && ns.None? && prefix.value in m ==> prefix.value !in NsUpdate(m, prefix, ns)
    ensures prefix.Some? && ns.None? && prefix.value !in m ==>
      prefix.value in NsUpdate(m, prefix, ns) && NsUpdate(m, prefix, ns)[prefix.value] == None
  {
  }

  /** Setting a non-null namespace is last-write-wins. */
  lemma LastWriteWins(m: PrefixMap, p: string, first: Option<string>, second: string)
    ensures NsUpdate(NsUpdate(m, Some(p), first), Some(p), Some(second)) == NsUpdate(m, Some(p), Some(second))
  {
  }

  /** A null namespace is not last-write-wins: on an absent prefix the first
      call stores a null entry and the second removes it again. */
  lemma NullNamespaceToggles(m: PrefixMap, p: string)
    requires p !in m
    ensures NsUpdate(m, Some(p), None) == m[p := None]
    ensures NsUpdate(NsUpdate(m, Some(p), None), Some(p), None) == m
  {
  }

  /** The text `StringBuffer.append` adds for a namespace: "null" for null. */
  function NsText(ns: Option<string>): string
  {
    match ns
    case Some(s) => s
    case None => "null"
  }

  /** The clause `prepQuery` writes for one entry (line 309). */
  function Clause(prefix: string, ns: Option<string>): string
  {
    "PREFIX " + prefix + ": <" + NsText(ns) + "> \n"
  }

  /** The preamble for the map's keys taken in the order `ks`. */
  function Preamble(m: PrefixMap, ks: seq<string>): (p: string)
    requires forall i :: 0 <= i < |ks| ==> ks[i] in m
    ensures p == "" <==> ks == []
  {
    if ks == [] then ""
    else Preamble(m, ks[..|ks| - 1]) + Clause(ks[|ks| - 1], m[ks[|ks| - 1]])
  }

  /** The preamble of a prefix of the key order is a prefix of the preamble. */
  lemma {:induction false} PreambleGrows(m: PrefixMap, ks: seq<string>, j: nat)
    requires forall i :: 0 <= i < |ks| ==> ks[i] in m
    requires j <= |ks|
    ensures Preamble(m, ks[..j]) <= Preamble(m, ks)
  {
    if j < |ks| {
      PreambleGrows(m, ks[..|ks| - 1], j);
      assert ks[..|ks| - 1][..j] == ks[..j];
    } else {
      assert ks[..j] == ks;
    }
  }

  /** The preamble is one clause per key, each entry's clause standing right
      after the clauses of the keys before it. */
  lemma {:induction false} ClauseAt(m: PrefixMap, ks: seq<string>, i: nat)
    requires forall j :: 0 <= j < |ks| ==> ks[j] in m
    requires i < |ks|
    ensures
      var at := |Preamble(m, ks[..i])|;
      var c := Clause(ks[i], m[ks[i]]);
      at + |c| <= |Preamble(m, ks)| && Preamble(m, ks)[at..at + |c|] == c
  {
    var pre := Preamble(m, ks[..i]);
    var c := Clause(ks[i], m[ks[i]]);
    var whole := Preamble(m, ks);
    assert ks[..i + 1][..i] == ks[..i];
    assert Preamble(m, ks[..i + 1]) == pre + c;
    PreambleGrows(m, ks, i + 1);
    assert whole[..|pre| + |c|] == pre + c;
    assert whole[|pre|..|pre| + |c|] == (pre + c)[|pre|..] == c;
  }

  /** The row `runQuery` builds from one solution (lines 348-358): every
      variable of the solution, with its node, and nothing else. */
  function RowOf(bs: seq<(string, Node)>): (row: map<string, Node>)
    ensures forall i :: 0 <= i < |bs| ==> bs[i].0 in row
    ensures forall v :: v in row ==> exists i :: 0 <= i < |bs| && bs[i].0 == v
  {
    if bs == [] then map[]
    else
      var init := bs[..|bs| - 1];
      assert forall i :: 0 <= i < |init| ==> init[i] == bs[i];
      RowOf(init)[bs[|bs| - 1].0 := bs[|bs| - 1].1]
  }

  /** `put` lets a later binding of the same name win: a variable holds the
      node of its last binding in the solution. */
  lemma {:induction false} LastBindingWins(bs: seq<(string, Node)>, i: nat)
    requires i < |bs|
    requires forall j :: i < j < |bs| ==> bs[j].0 != bs[i].0
    ensures RowOf(bs)[bs[i].0] == bs[i].1
  {
    if i < |bs| - 1 {
      var init := bs[..|bs| - 1];
      LastBindingWins(init, i);
    }
  }

  /** The rows `runQuery` gathers from a result set: one per solution in
      order, up to the first exception. */
  function ExtractRows(steps: seq<Step>): (rows: seq<map<string, Node>>)
    ensures |rows| <= |steps|
    ensures forall i :: 0 <= i < |rows| ==> steps[i].Solution? && rows[i] == RowOf(steps[i].bindings)
    ensures |rows| < |steps| ==> steps[|rows|].Raised?
  {
    if steps == [] || steps[0].Raised? then []
    else [RowOf(steps[0].bindings)] + ExtractRows(steps[1..])
  }

  /** The result of `runQuery` for an execution: nothing when `execSelect`
      itself throws. */
  function QueryRows(outcome: ExecOutcome): seq<map<string, Node>>
  {
    match outcome
    case SelectRaised => []
    case Rows(steps) => ExtractRows(steps)
  }

  /** The distribution query `load` runs against the catalog (lines 212-218). */
  const DistQuery :=
    "SELECT DISTINCT ?dist ?url ?format \n"
    + "where { \n"
    + "\t?subj dcat:distribution ?dist.\n"
    + "\tOPTIONAL { ?dist dct:format ?f. ?f rdf:value ?format. } \n"
    + "\tOPTIONAL { ?dist dcat:downloadURL ?url. } \n"
    + "\tOPTIONAL { ?dist dcat:accessURL ?url. } \n"
    + "}"

  /** The `url` of a row, as `toString()` gives it. */
  function RowUrl(row: map<string, Node>): Option<string>
  {
    if "url" in row then Some(NodeText(row["url"])) else None
  }

  /** A row whose URL has a language and reads without an exception. */
  predicate Loads(row: map<string, Node>, baseUri: string,
                  resolve: string -> Option<Lang>, read: (string, string, string) -> ReadOutcome)
  {
    && RowUrl(row).Some?
    && resolve(RowUrl(row).value).Some?
    && read(RowUrl(row).value, baseUri, resolve(RowUrl(row).value).value.name).Completed?
  }

  /** What one row adds to the list `load` returns. */
  function RowLoaded(row: map<string, Node>, baseUri: string,
                     resolve: string -> Option<Lang>, read: (string, string, string) -> ReadOutcome): seq<string>
  {
    if Loads(row, baseUri, resolve, read) then [RowUrl(row).value] else []
  }

  /** What one row adds to the dataset model: all of a completed read, and
      whatever a failing read merged before it threw. */
  function RowTriples(row: map<string, Node>, baseUri: string,
                      resolve: string -> Option<Lang>, read: (string, string, string) -> ReadOutcome): Graph
  {
    match RowUrl(row)
    case None => {}
    case Some(url) =>
      match resolve(url)
      case None => {}
      case Some(lang) => read(url, baseUri, lang.name).Added()
  }

  /** The URLs `load` returns for the rows of the distribution query. */
  function LoadedUrls(rows: seq<map<string, Node>>, baseUri: string,
                      resolve: string -> Option<Lang>, read: (string, string, string) -> ReadOutcome): seq<string>
  {
    if rows == [] then []
    else LoadedUrls(rows[..|rows| - 1], baseUri, resolve, read) + RowLoaded(rows[|rows| - 1], baseUri, resolve, read)
  }

  /** The dataset model `load` leaves behind. */
  function LoadedTriples(rows: seq<map<string, Node>>, baseUri: string,
                         resolve: string -> Option<Lang>, read: (string, string, string) -> ReadOutcome): Graph
  {
    if rows == [] then {}
    else LoadedTriples(rows[..|rows| - 1], baseUri, resolve, read) + RowTriples(rows[|rows| - 1], baseUri, resolve, read)
  }

  /** Appending a row appends what that row contributes. */
  lemma LoadedUrlsSnoc(rows: seq<map<string, Node>>, row: map<string, Node>, baseUri: string,
                       resolve: string -> Option<Lang>, read: (string, string, string) -> ReadOutcome)
    ensures LoadedUrls(rows + [row], baseUri, resolve, read)
         == LoadedUrls(rows, baseUri, resolve, read) + RowLoaded(row, baseUri, resolve, read)
  {
    assert (rows + [row])[..|rows|] == rows;
  }

  /** The batch is the rows one after another: what a row contributes does
      not depend on the rows before or after it. */
  lemma {:induction false} LoadedUrlsAppend(a: seq<map<string, Node>>, b: seq<map<string, Node>>, baseUri: string,
                                           resolve: string -> Option<Lang>, read: (string, string, string) -> ReadOutcome)
    ensures LoadedUrls(a + b, baseUri, resolve, read) == LoadedUrls(a, baseUri, resolve, read) + LoadedUrls(b, baseUri, resolve, read)
  {
    if b == [] {
      assert a + b == a;
    } else {
      var init := b[..|b| - 1];
      var row := b[|b| - 1];
      assert b == init + [row];
      assert a + b == (a + init) + [row];
      LoadedUrlsAppend(a, init, baseUri, resolve, read);
      LoadedUrlsSnoc(a + init, row, baseUri, resolve, read);
      LoadedUrlsSnoc(init, row, baseUri, resolve, read);
    }
  }

  /** One bad distribution never aborts the batch: the rows around a row that
      does not load give the same URLs as if it were not there. */
  lemma FailedRowSkipped(a: seq<map<string, Node>>, row: map<string, Node>, b: seq<map<string, Node>>, baseUri: string,
                         resolve: string -> Option<Lang>, read: (string, string, string) -> ReadOutcome)
    requires !Loads(row, baseUri, resolve, read)
    ensures LoadedUrls(a + [row] + b, baseUri, resolve, read) == LoadedUrls(a + b, baseUri, resolve, read)
  {
    LoadedUrlsAppend(a + [row], b, baseUri, resolve, read);
    LoadedUrlsAppend(a, b, baseUri, resolve, read);
    assert (a + [row])[..|a|] == a;
  }

  /** `load` returns exactly the URLs of the rows that load: a URL is listed
      iff some row that loads carries it, and no row gives more than one. */
  lemma {:induction false} LoadedUrlsExactly(rows: seq<map<string, Node>>, baseUri: string,
                                            resolve: string -> Option<Lang>, read: (string, string, string) -> ReadOutcome, u: string)
    ensures |LoadedUrls(rows, baseUri, resolve, read)| <= |rows|
    ensures u in LoadedUrls(rows, baseUri, resolve, read) <==>
      exists i :: 0 <= i < |rows| && Loads(rows[i], baseUri, resolve, read) && RowUrl(rows[i]) == Some(u)
  {
    if rows != [] {
      var init := rows[..|rows| - 1];
      LoadedUrlsExactly(init, baseUri, resolve, read, u);
      if exists i :: 0 <= i < |rows| && Loads(rows[i], baseUri, resolve, read) && RowUrl(rows[i]) == Some(u) {
        var i :| 0 <= i < |rows| && Loads(rows[i], baseUri, resolve, read) && RowUrl(rows[i]) == Some(u);
        if i < |init| {
          assert init[i] == rows[i];
        }
      }
      if exists i :: 0 <= i < |init| && Loads(init[i], baseUri, resolve, read) && RowUrl(init[i]) == Some(u) {
        var i :| 0 <= i < |init| && Loads(init[i], baseUri, resolve, read) && RowUrl(init[i]) == Some(u);
        assert rows[i] == init[i];
      }
    }
  }

  lemma PreambleSnoc(m: PrefixMap, ks: seq<string>, p: string)
    requires forall i :: 0 <= i < |ks| ==> ks[i] in m
    requires p in m
    ensures Preamble(m, ks + [p]) == Preamble(m, ks) + Clause(p, m[p])
  {
    assert (ks + [p])[..|ks|] == ks;
  }

  /** The loop of `prepQuery` that builds the preamble (lines 305-311): one
      clause per key, keys taken in whatever order the map yields them, which
      is returned alongside the text. */
  method BuildPreamble(m: PrefixMap) returns (text: string, order: seq<string>)
    ensures Enumerates(order, m.Keys)
    ensures text == Preamble(m, order)
  {
    text := "";
    order := [];
    var keys := m.Keys;
    while keys != {}
      invariant keys <= m.Keys
      invariant Distinct(order)
      invariant forall i :: 0 <= i < |order| ==> order[i] in m && order[i] !in keys
      invariant forall k :: k in m ==> k in keys || k in order
      invariant text == Preamble(m, order)
      decreases keys
    {
      var prefix :| prefix in keys;
      var clause := "PREFIX " + prefix + ": <" + NsText(m[prefix]) + "> \n";
      PreambleSnoc(m, order, prefix);
      text := text + clause;
      order := order + [prefix];
      keys := keys - {prefix};
    }
  }

  /** The inner loop of `runQuery` (lines 348-356): put every binding of one
      solution into a fresh map. */
  method RowFromBindings(bindings: seq<(string, Node)>) returns (resultMap: map<string, Node>)
    ensures resultMap == RowOf(bindings)
  {
    resultMap := map[];
    var k := 0;
    while k < |bindings|
      invariant 0 <= k <= |bindings|
      invariant resultMap == RowOf(bindings[..k])
    {
      var (varName, node) := bindings[k];
      resultMap := resultMap[varName := node];
      assert bindings[..k + 1][..k] == bindings[..k];
      k := k + 1;
    }
    assert bindings[..k] == bindings;
  }

  /** The loop of `runQuery` over the result set (lines 345-360): a row per
      solution until the result set is exhausted or throws. */
  method CollectRows(steps: seq<Step>) returns (results: seq<map<string, Node>>)
    ensures results == ExtractRows(steps)
  {
    results := [];
    var i := 0;
    while i < |steps| && steps[i].Solution?
      invariant 0 <= i <= |steps|
      invariant results + ExtractRows(steps[i..]) == ExtractRows(steps)
    {
      assert steps[i..][1..] == steps[i + 1..];
      var resultMap := RowFromBindings(steps[i].bindings);
      results := results + [resultMap];
      i := i + 1;
    }
  }

  /** The loop of `load` over the distribution rows (lines 232-254): read
      every row whose `url` has a language into the dataset model, keep the
      URLs whose read completed, and go on after every failure. */
  method ReadDistributions(dcatResults: seq<map<string, Node>>, baseUri: string,
                           resolve: string -> Option<Lang>, read: (string, string, string) -> ReadOutcome)
    returns (distributionUrls: seq<string>, dataset: Graph)
    ensures distributionUrls == LoadedUrls(dcatResults, baseUri, resolve, read)
    ensures dataset == LoadedTriples(dcatResults, baseUri, resolve, read)
  {
    distributionUrls := [];
    dataset := {};
    for i := 0 to |dcatResults|
      invariant distributionUrls == LoadedUrls(dcatResults[..i], baseUri, resolve, read)
      invariant dataset == LoadedTriples(dcatResults[..i], baseUri, resolve, read)
    {
      var r := dcatResults[i];
      assert dcatResults[..i + 1][..i] == dcatResults[..i];
      if "url" in r {
        var url := NodeText(r["url"]);
        var urlLang := resolve(url);
        if urlLang.Some? {
          var outcome := read(url, baseUri, urlLang.value.name);
          dataset := dataset + outcome.Added();
          if outcome.Completed? {
            distributionUrls := distributionUrls + [url];
          }
        }
      }
    }
    assert dcatResults[..|dcatResults|] == dcatResults;
  }

  /** The static block (lines 154-161): install the default reader's language
      unless a language of that name is already installed. Installing only
      adds to the registries: every other registration stays. */
  method InstallDefaultLanguages(reg: Registries, langName: string, adapter: JenaLangAdapter)
    modifies reg
    ensures old(IsLanguageInstalled(reg.languages, reg.parsers, langName)) ==>
      reg.languages == old(reg.languages) && reg.parsers == old(reg.parsers) && reg.modelReaders == old(reg.modelReaders)
    ensures !old(IsLanguageInstalled(reg.languages, reg.parsers, langName)) ==>
      var lang := BuildLang(adapter.name, adapter.contentType, adapter.FileExtensions()[..]);
      && reg.languages == Register(old(reg.languages), lang)
      && reg.parsers == old(reg.parsers)[lang := adapter.readerFactory]
      && reg.modelReaders == old(reg.modelReaders)[adapter.name := adapter.rdfReaderClass]
      && IsLanguageInstalled(reg.languages, reg.parsers, adapter.name)
    ensures adapter.name == langName ==> IsLanguageInstalled(reg.languages, reg.parsers, langName)
  {
    if !IsLanguageInstalled(reg.languages, reg.parsers, langName) {
      InstallLanguage(reg, adapter);
    }
  }

  class DcatModel {
    var prefixNamespaces: PrefixMap
    /** The cached preamble; null after every change to the map. */
    var prefixStr: Option<string>
    /** The order the map's keys were visited in when the cached preamble was built. */
    ghost var preambleOrder: seq<string>
    var dcatModel: Option<Graph>
    var datasetModel: Option<Graph>
    var ontologiesModel: Graph
    var inferredModel: Option<InfView>

    /** The cache is either empty or the preamble of the current map, and an
        inferred model always wraps the current dataset model. */
    ghost predicate Valid()
      reads this
    {
      && (prefixStr.Some? ==>
            && Enumerates(preambleOrder, prefixNamespaces.Keys)
            && prefixStr.value == Preamble(prefixNamespaces, preambleOrder))
      && (inferredModel.Some? ==> datasetModel.Some? && inferredModel.value.base == datasetModel.value)
    }

    /** The inferred model, if any, was bound to the ontologies as they are now. */
    ghost predicate ViewCurrent()
      reads this
    {
      inferredModel.Some? ==> inferredModel.value.schema == ontologiesModel
    }

    /** The constructor (lines 122-137): the nine DCAT prefixes, each through
        `setNsPrefix`; no catalog, dataset or inferred model yet. */
    constructor ()
      ensures Valid() && ViewCurrent()
      ensures prefixNamespaces == DefaultPrefixes() && prefixStr == None
      ensures dcatModel == None && datasetModel == None && ontologiesModel == {} && inferredModel == None
    {
      prefixNamespaces := map[];
      prefixStr := None;
      preambleOrder := [];
      dcatModel := None;
      datasetModel := None;
      ontologiesModel := {};
      inferredModel := None;
      new;
      SetNsPrefix(Some("dcat"), Some(DcatUriBase));
      SetNsPrefix(Some("dct"), Some(DctUriBase));
      SetNsPrefix(Some("dctype"), Some(DctypeUriBase));
      SetNsPrefix(Some("foaf"), Some(FoafUri));
      SetNsPrefix(Some("rdf"), Some(RdfUri));
      SetNsPrefix(Some("rdfs"), Some(RdfsUri));
      SetNsPrefix(Some("skos"), Some(SkosUriBase));
      SetNsPrefix(Some("vcard"), Some(VcardUri));
      SetNsPrefix(Some("xsd"), Some(XsdUri));
    }

    /** `setNsPrefix` (lines 172-185): update the map and drop the cached preamble. */
    method SetNsPrefix(prefix: Option<string>, namespaceUri: Option<string>)
      requires Valid()
      modifies this`prefixNamespaces, this`prefixStr
      ensures Valid()
      ensures prefixNamespaces == NsUpdate(old(prefixNamespaces), prefix, namespaceUri)
      ensures prefixStr == None
    {
      if namespaceUri.None? && prefix.Some? && prefix.value in prefixNamespaces {
        prefixNamespaces := prefixNamespaces - {prefix.value};
      } else if prefix.Some? {
        prefixNamespaces := prefixNamespaces[prefix.value := namespaceUri];
      }
      prefixStr := None;
    }

    /** `loadOnotology` (lines 143-146): read into the ontologies model; an
        exception (`false`) leaves what was merged before it. The inferred
        model is left as it is. */
    method LoadOntology(outcome: ReadOutcome) returns (ok: bool)
      requires Valid()
      modifies this`ontologiesModel
      ensures Valid()
      ensures ontologiesModel == old(ontologiesModel) + outcome.Added()
      ensures ok <==> outcome.Completed?
    {
      ontologiesModel := ontologiesModel + outcome.Added();
      ok := outcome.Completed?;
    }

    /** `clearOnotologies` (lines 148-152): empty the ontologies and drop the
        inferred model. */
    method ClearOntologies()
      requires Valid()
      modifies this`ontologiesModel, this`inferredModel
      ensures Valid() && ViewCurrent()
      ensures ontologiesModel == {} && inferredModel == None
    {
      ontologiesModel := {};
      inferredModel := None;
    }

    /** `addOntologyAssertion` (lines 259-261): add one triple to the
        ontologies. The inferred model is left as it is, so a model built
        before no longer reflects the ontologies. */
    method AddOntologyAssertion(s: Node, p: Node, o: Node)
      requires Valid()
      modifies this`ontologiesModel
      ensures Valid()
      ensures ontologiesModel == old(ontologiesModel) + {Triple(s, p, o)}
      ensures old(ViewCurrent()) && inferredModel.Some? && Triple(s, p, o) !in old(ontologiesModel) ==> !ViewCurrent()
    {
      ontologiesModel := ontologiesModel + {Triple(s, p, o)};
    }

    /** `addOntologyAssertion` as evidently intended: also drop the inferred
        model, so that the next inferred query binds the reasoner again. */
    method AddOntologyAssertionInvalidating(s: Node, p: Node, o: Node)
      requires Valid()
      modifies this`ontologiesModel, this`inferredModel
      ensures Valid() && ViewCurrent()
      ensures ontologiesModel == old(ontologiesModel) + {Triple(s, p, o)} && inferredModel == None
    {
      ontologiesModel := ontologiesModel + {Triple(s, p, o)};
      inferredModel := None;
    }

    /** `prepQuery` (lines 300-329): build and cache the preamble if there is
        none, visiting the map's keys in the map's own order, then append the
        query. The text is the preamble of the current map followed by the
        query, whether the cache was used or rebuilt. */
    method PrepQuery(queryRequest: string, target: Target) returns (qe: QueryExecution)
      requires Valid()
      modifies this`prefixStr, this`preambleOrder
      ensures Valid() && fresh(qe) && !qe.closed
      ensures prefixStr.Some? && Enumerates(preambleOrder, prefixNamespaces.Keys)
      ensures qe.query == Preamble(prefixNamespaces, preambleOrder) + queryRequest
      ensures qe.target == target
      ensures old(prefixStr).Some? ==> prefixStr == old(prefixStr) && preambleOrder == old(preambleOrder)
    {
      var queryStr: string;
      if prefixStr.None? {
        var order;
        queryStr, order := BuildPreamble(prefixNamespaces);
        prefixStr := Some(queryStr);
        preambleOrder := order;
      } else {
        queryStr := prefixStr.value;
      }
      queryStr := queryStr + queryRequest;
      qe := new QueryExecution(queryStr, target);
    }

    /** `runQuery` (lines 336-373): one row per solution in order; an exception
        ends the extraction with the rows gathered so far; the execution is
        closed on every path. */
    method RunQuery(qe: QueryExecution, outcome: ExecOutcome) returns (results: seq<map<string, Node>>)
      modifies qe
      ensures qe.closed
      ensures results == QueryRows(outcome)
    {
      results := [];
      if outcome.Rows? {
        results := CollectRows(outcome.steps);
      }
      qe.closed := true;
    }

    /** `prepDcatQuery` (lines 268-271): null until a catalog is loaded. */
    method PrepDcatQuery(queryRequest: string) returns (qe: QueryExecution?)
      requires Valid()
      modifies this`prefixStr, this`preambleOrder
      ensures Valid()
      ensures dcatModel.None? ==> qe == null && prefixStr == old(prefixStr)
      ensures dcatModel.Some? ==>
        && qe != null && fresh(qe) && qe.target == Plain(dcatModel.value)
        && prefixStr.Some?
        && Enumerates(preambleOrder, prefixNamespaces.Keys)
        && qe.query == Preamble(prefixNamespaces, preambleOrder) + queryRequest
      ensures old(prefixStr).Some? ==> prefixStr == old(prefixStr) && preambleOrder == old(preambleOrder)
    {
      if dcatModel.Some? {
        qe := PrepQuery(queryRequest, Plain(dcatModel.value));
      } else {
        qe := null;
      }
    }

    /** `prepDataQuery` (lines 278-281): null until distributions are loaded. */
    method PrepDataQuery(queryRequest: string) returns (qe: QueryExecution?)
      requires Valid()
      modifies this`prefixStr, this`preambleOrder
      ensures Valid()
      ensures datasetModel.None? ==> qe == null && prefixStr == old(prefixStr)
      ensures datasetModel.Some? ==>
        && qe != null && fresh(qe) && qe.target == Plain(datasetModel.value)
        && prefixStr.Some?
        && Enumerates(preambleOrder, prefixNamespaces.Keys)
        && qe.query == Preamble(prefixNamespaces, preambleOrder) + queryRequest
      ensures old(prefixStr).Some? ==> prefixStr == old(prefixStr) && preambleOrder == old(preambleOrder)
    {
      if datasetModel.Some? {
        qe := PrepQuery(queryRequest, Plain(datasetModel.value));
      } else {
        qe := null;
      }
    }

    /** `prepInferredQuery` (lines 283-295): null without a dataset model;
        otherwise bind the reasoner to the ontologies over the dataset model
        if no inferred model exists yet, and query the inferred model. */
    method PrepInferredQuery(queryRequest: string) returns (qe: QueryExecution?)
      requires Valid()
      modifies this`prefixStr, this`preambleOrder, this`inferredModel
      ensures Valid()
      ensures datasetModel.None? ==> qe == null && prefixStr == old(prefixStr) && inferredModel == old(inferredModel)
      ensures datasetModel.Some? ==>
        && inferredModel == (if old(inferredModel).Some? then old(inferredModel)
                             else Some(InfView(ontologiesModel, datasetModel.value)))
        && qe != null && fresh(qe) && qe.target == Inferred(inferredModel.value)
        && prefixStr.Some?
        && Enumerates(preambleOrder, prefixNamespaces.Keys)
        && qe.query == Preamble(prefixNamespaces, preambleOrder) + queryRequest
      ensures old(ViewCurrent()) ==> ViewCurrent()
      ensures old(prefixStr).Some? ==> prefixStr == old(prefixStr) && preambleOrder == old(preambleOrder)
    {
      if datasetModel.None? {
        return null;
      }
      if inferredModel.None? {
        inferredModel := Some(InfView(ontologiesModel, datasetModel.value));
      }
      qe := PrepQuery(queryRequest, Inferred(inferredModel.value));
    }

    /** `load` (lines 202-257). The catalog is read into a fresh model; if
        that read throws, so does `load` (`None`). Otherwise the distribution
        query runs against it, a fresh dataset model replaces the old one and
        the inferred model is dropped, and every row with a `url` whose
        language resolves is read into the dataset model; the URLs whose read
        completed are returned in row order, and no failure stops the loop.
        `catalog` is what reading the catalog yields, `distribution` what the
        distribution query yields, `resolve` stands for `JenaUtil.resolveLang`
        and `read` for reading a URL with a base URI and a language name. */
    method Load(catalog: ReadOutcome, distribution: ExecOutcome, baseUri: string,
                resolve: string -> Option<Lang>, read: (string, string, string) -> ReadOutcome)
      returns (result: Option<seq<string>>)
      requires Valid()
      modifies this`dcatModel, this`datasetModel, this`inferredModel, this`prefixStr, this`preambleOrder
      ensures Valid()
      ensures dcatModel == Some(catalog.Added())
      ensures catalog.Aborted? ==>
        && result == None
        && datasetModel == old(datasetModel) && inferredModel == old(inferredModel)
        && prefixStr == old(prefixStr)
      ensures catalog.Completed? ==>
        var rows := QueryRows(distribution);
        && result == Some(LoadedUrls(rows, baseUri, resolve, read))
        && datasetModel == Some(LoadedTriples(rows, baseUri, resolve, read))
        && inferredModel == None
        && prefixStr.Some?
      ensures old(prefixStr).Some? ==> prefixStr == old(prefixStr) && preambleOrder == old(preambleOrder)
    {
      dcatModel := Some(catalog.Added());
      if catalog.Aborted? {
        return None;
      }
      var qe := PrepQuery(DistQuery, Plain(dcatModel.value));
      var dcatResults := RunQuery(qe, distribution);
      inferredModel := None;
      var distributionUrls, dataset := ReadDistributions(dcatResults, baseUri, resolve, read);
      datasetModel := Some(dataset);
      result := Some(distributionUrls);
    }
  }

  /** Two catalog queries prepared one after the other from the same request
      get the same text: the second reuses the preamble the first cached,
      whatever order the map's keys were visited in. */
  method PreambleReused(m: DcatModel, queryRequest: string) returns (qe1: QueryExecution?, qe2: QueryExecution?)
    requires m.Valid() && m.dcatModel.Some?
    modifies m`prefixStr, m`preambleOrder
    ensures qe1 != null && qe2 != null && qe1.query == qe2.query
  {
    qe1 := m.PrepDcatQuery(queryRequest);
    qe2 := m.PrepDcatQuery(queryRequest);
  }

  /** The stale inferred model: after an inferred query, an assertion added
      to the ontologies is missing from the schema the next inferred query
      runs against. */
  method StaleInferredModel(s: Node, p: Node, o: Node) returns (qe: QueryExecution?)
    ensures qe != null && qe.target.Inferred?
    ensures Triple(s, p, o) !in qe.target.view.schema
  {
    var m := new DcatModel();
    var urls := m.Load(Completed({}), Rows([]), "http://dcat.query.defaultns#", _ => None, (_, _, _) => Completed({}));
    var first := m.PrepInferredQuery("SELECT ?s WHERE { ?s ?p ?o }");
    m.AddOntologyAssertion(s, p, o);
    qe := m.PrepInferredQuery("SELECT ?s WHERE { ?s ?p ?o }");
  }

  /** With the invalidating assertion, the next inferred query runs against
      a model bound to the ontologies including the new assertion. */
  method FreshInferredModel(s: Node, p: Node, o: Node) returns (qe: QueryExecution?)
    ensures qe != null && qe.target.Inferred?
    ensures Triple(s, p, o) in qe.target.view.schema
  {
    var m := new DcatModel();
    var urls := m.Load(Completed({}), Rows([]), "http://dcat.query.defaultns#", _ => None, (_, _, _) => Completed({}));
    var first := m.PrepInferredQuery("SELECT ?s WHERE { ?s ?p ?o }");
    m.AddOntologyAssertionInvalidating(s, p, o);
    qe := m.PrepInferredQuery("SELECT ?s WHERE { ?s ?p ?o }");
  }
}
