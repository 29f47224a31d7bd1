# DCAT catalog loader, Jena format registry, FOAF alignment and step-count aggregation — a Dafny model

This project models the bookkeeping of three programs written around Apache Jena, plus one Python script.

- **`DCATModel`** (module `Dcat`, file `dcat_model.dfy`) loads a DCAT catalog into one model. A distribution query lists the catalog's distributions, and every distribution whose format can be resolved is read into a dataset model. Ontologies live in a third model. An OWL inferred model is built lazily over the dataset model with the ontologies as its schema. Queries get a `PREFIX` preamble generated from a prefix map; the preamble is cached and dropped on every change to the map. `runQuery` turns a result set into a list of variable-to-node maps.
- **`JenaUtil`** (module `JenaUtil`, file `jena_util.dfy`) answers whether a language is installed, installs a language into Jena's three registries, and resolves the language of a URL. It tries the media type the server reports first and falls back to the file name.
- **`JenaLangAdapter`** (module `LangAdapters`, file `jena_lang_adapter.dfy`) is an immutable five-field record built by `create`.
- **`Modeler`** (module `FriendsAlignment`, file `modeler.dfy`) prefixes queries with five fixed `PREFIX` clauses. It asserts six alignment statements between FOAF and a person ontology, and binds a reasoner over the friends model.
- **`assignment3.py`** (module `StepCounts`, file `step_counts.dfy`, with `lex_order.dfy`) groups step-count samples by day. It then visits the days in ascending order and adds each sample's count to one of 24 hourly slots.

Jena stays outside the model:
- A graph is a set of triples (`Rdf.Graph`).
- A read is given as its outcome (`Rdf.ReadOutcome`). It either completes or throws after merging part of the document.
- A SPARQL execution is given as its result set (`Rdf.ExecOutcome`): a sequence of solutions that may end in an exception, or an exception from `execSelect` itself.
- An inferred model is recorded as the schema and base it was bound over (`Rdf.InfView`).
- The HTTP probe of `resolveLang` is given as its outcome (`JenaUtil.ProbeOutcome`).

`java.util.HashMap` iteration order is left open. The preamble loop picks each next key arbitrarily, and a ghost field records the order it took.

## Model

| member | source | states |
|---|---|---|
| Dcat.DcatModel.constructor | final_project/SemanticWebProjectTest/src/semanticweb/dcat/DCATModel.java:122-137 | the prefix map holds exactly the nine prefixes dcat, dct, dctype, foaf, rdf, rdfs, skos, vcard, xsd with their namespaces; no preamble is cached; no catalog, dataset or inferred model exists; the cache invariant holds |
| Dcat.DcatModel.SetNsPrefix | final_project/SemanticWebProjectTest/src/semanticweb/dcat/DCATModel.java:172-185 | the map becomes `NsUpdate` of the old map, the cached preamble is cleared, and the cache invariant is kept |
| Dcat.NsUpdate | final_project/SemanticWebProjectTest/src/semanticweb/dcat/DCATModel.java:174-180 | a null prefix changes nothing. A non-null prefix ends up present unless a null namespace removed it, and when present it holds the namespace given |
| Dcat.SetNsPrefixEffect | final_project/SemanticWebProjectTest/src/semanticweb/dcat/DCATModel.java:174-180 | other prefixes keep their entries. A null prefix changes nothing. A non-null namespace is stored. A null namespace removes a present prefix but stores a null entry for an absent one |
| Dcat.LastWriteWins | final_project/SemanticWebProjectTest/src/semanticweb/dcat/DCATModel.java:177-180 | a second non-null namespace for a prefix overrides the first, whatever the first was |
| Dcat.NullNamespaceToggles | final_project/SemanticWebProjectTest/src/semanticweb/dcat/DCATModel.java:174-180 | for an absent prefix, a null namespace stores a null entry, and a second null namespace removes it again |
| Dcat.Clause | final_project/SemanticWebProjectTest/src/semanticweb/dcat/DCATModel.java:309 | one `PREFIX p: <ns> \n` clause, with a null namespace written `null` |
| Dcat.Preamble | final_project/SemanticWebProjectTest/src/semanticweb/dcat/DCATModel.java:308-310 | the clauses of the keys in the order visited; the preamble is empty only when there are no keys |
| Dcat.PreambleGrows | final_project/SemanticWebProjectTest/src/semanticweb/dcat/DCATModel.java:308-310 | the preamble of the first keys visited is a prefix of the whole preamble |
| Dcat.ClauseAt | final_project/SemanticWebProjectTest/src/semanticweb/dcat/DCATModel.java:308-310 | the preamble holds one `PREFIX p: <ns> \n` clause per key visited. The clause for the i-th key stands right after those of the keys before it, and a null namespace is written `null` |
| Dcat.BuildPreamble | final_project/SemanticWebProjectTest/src/semanticweb/dcat/DCATModel.java:305-311 | the loop visits every key of the map exactly once, and its text is the preamble of the map in the order visited |
| Dcat.DcatModel.PrepQuery | final_project/SemanticWebProjectTest/src/semanticweb/dcat/DCATModel.java:300-329 | the query text is the preamble of the current map followed by the request, whether the cache was hit or rebuilt. The query runs against the given model. A cached preamble is reused unchanged, and the cache invariant is kept |
| Dcat.DcatModel.PrepDcatQuery | final_project/SemanticWebProjectTest/src/semanticweb/dcat/DCATModel.java:268-271 | null, with the cache untouched, until a catalog model exists; otherwise a query on the catalog model. A preamble already cached is kept, with its key order, and after a query is built a preamble is cached |
| Dcat.PreambleReused | final_project/SemanticWebProjectTest/src/semanticweb/dcat/DCATModel.java:300-318 | two catalog queries prepared one after the other from the same request have the same text, whatever key order the first preamble used |
| Dcat.DcatModel.PrepDataQuery | final_project/SemanticWebProjectTest/src/semanticweb/dcat/DCATModel.java:278-281 | null, with the cache untouched, until a dataset model exists; otherwise a query on the dataset model. A preamble already cached is kept, with its key order, and after a query is built a preamble is cached |
| Dcat.DcatModel.PrepInferredQuery | final_project/SemanticWebProjectTest/src/semanticweb/dcat/DCATModel.java:283-295 | null when there is no dataset model. An existing inferred model is reused. Otherwise one is bound to the current ontologies over the dataset model. The query runs against the inferred model, and a model consistent with the ontologies stays so. A preamble already cached is kept, with its key order, and after a query is built a preamble is cached |
| Dcat.RowOf | final_project/SemanticWebProjectTest/src/semanticweb/dcat/DCATModel.java:349-358 | a row holds every variable of its solution and nothing else |
| Dcat.LastBindingWins | final_project/SemanticWebProjectTest/src/semanticweb/dcat/DCATModel.java:355-358 | `put` lets a later binding win: a variable holds the node of its last binding in the solution |
| Dcat.RowFromBindings | final_project/SemanticWebProjectTest/src/semanticweb/dcat/DCATModel.java:349-358 | the inner loop builds exactly the row of its solution |
| Dcat.ExtractRows | final_project/SemanticWebProjectTest/src/semanticweb/dcat/DCATModel.java:343-365 | one row per solution, in solution order, each the row of its solution; when fewer rows than steps come back, the next step is an exception |
| Dcat.QueryRows | final_project/SemanticWebProjectTest/src/semanticweb/dcat/DCATModel.java:342-368 | the rows of a result set; no rows when `execSelect` throws |
| Dcat.CollectRows | final_project/SemanticWebProjectTest/src/semanticweb/dcat/DCATModel.java:345-365 | the extraction loop returns exactly the rows gathered before the result set ends or throws |
| Dcat.DcatModel.RunQuery | final_project/SemanticWebProjectTest/src/semanticweb/dcat/DCATModel.java:336-373 | the execution is closed on every path; the result is the extracted rows, and empty when `execSelect` throws |
| Dcat.ReadDistributions | final_project/SemanticWebProjectTest/src/semanticweb/dcat/DCATModel.java:230-255 | the loop returns the URLs of the rows that load, in row order. The dataset model gets everything every resolved read merged, including reads that threw |
| Dcat.DcatModel.Load | final_project/SemanticWebProjectTest/src/semanticweb/dcat/DCATModel.java:202-257 | the catalog model is replaced by what the catalog read merged; a catalog read that throws propagates, and the dataset and inferred models are untouched. Otherwise the inferred model is dropped, the dataset model is rebuilt from the distributions, and the URLs returned are `LoadedUrls` of the distribution rows. The prefix map and ontologies are untouched, and a preamble already cached is kept |
| Dcat.DistQuery | final_project/SemanticWebProjectTest/src/semanticweb/dcat/DCATModel.java:212-218 | the distribution query: each distribution with its optional format and its download or access URL |
| Dcat.Loads | final_project/SemanticWebProjectTest/src/semanticweb/dcat/DCATModel.java:235-249 | a row loads when it has a `url`, that URL resolves to a language, and the read in that language completes |
| Dcat.LoadedUrls | final_project/SemanticWebProjectTest/src/semanticweb/dcat/DCATModel.java:230-256 | the list `load` returns: the URL of each row that loads, in row order |
| Dcat.LoadedUrlsExactly | final_project/SemanticWebProjectTest/src/semanticweb/dcat/DCATModel.java:235-249 | a URL is returned iff some row has it as `url`, its language resolves and its read does not throw; at most one URL per row |
| Dcat.LoadedUrlsAppend | final_project/SemanticWebProjectTest/src/semanticweb/dcat/DCATModel.java:231-255 | the URLs of a batch are those of its first part followed by those of the rest |
| Dcat.FailedRowSkipped | final_project/SemanticWebProjectTest/src/semanticweb/dcat/DCATModel.java:243-252 | a row that does not load is skipped without disturbing the rows around it: the batch never aborts |
| Dcat.DcatModel.LoadOntology | final_project/SemanticWebProjectTest/src/semanticweb/dcat/DCATModel.java:143-146 | the ontologies gain what the read merged; the result says whether the read completed; the inferred model is left unchanged |
| Dcat.DcatModel.ClearOntologies | final_project/SemanticWebProjectTest/src/semanticweb/dcat/DCATModel.java:148-152 | the ontologies are emptied and the inferred model is dropped |
| Dcat.DcatModel.AddOntologyAssertion | final_project/SemanticWebProjectTest/src/semanticweb/dcat/DCATModel.java:259-261 | the ontologies gain the triple and the inferred model is left unchanged, so an inferred model consistent with the ontologies stops being so when the triple is new |
| Dcat.StaleInferredModel | final_project/SemanticWebProjectTest/src/semanticweb/dcat/DCATModel.java:259-261 | load, run an inferred query, add an assertion, and run it again: the second query's schema lacks the assertion |
| Dcat.DcatModel.AddOntologyAssertionInvalidating | final_project/SemanticWebProjectTest/src/semanticweb/dcat/DCATModel.java:259-261 | the ontologies gain the triple and the inferred model is dropped, so it is consistent with the ontologies |
| Dcat.FreshInferredModel | final_project/SemanticWebProjectTest/src/semanticweb/dcat/DCATModel.java:283-295 | with the invalidating assertion, the next inferred query's schema holds the assertion |
| Dcat.InstallDefaultLanguages | final_project/SemanticWebProjectTest/src/semanticweb/dcat/DCATModel.java:154-161 | the registries are untouched when the language is already installed. Otherwise each registry becomes its old contents with the adapter's language, parser factory and reader class entered, and nothing else changed; afterwards the adapter's name is installed |
| JenaUtil.IsLangInstalled | final_project/SemanticWebProjectTest/src/semanticweb/jena/JenaUtil.java:33-36 | a language is installed when it is non-null, registered under its name, and has a parser factory |
| JenaUtil.IsLanguageInstalled | final_project/SemanticWebProjectTest/src/semanticweb/jena/JenaUtil.java:27-31 | a name is installed when the language filed under it is installed |
| JenaUtil.InstalledByName | final_project/SemanticWebProjectTest/src/semanticweb/jena/JenaUtil.java:27-36 | a name is installed iff it names a registered language that has a parser factory |
| JenaUtil.AddExtensions | final_project/SemanticWebProjectTest/src/semanticweb/jena/JenaUtil.java:56-59 | every listed extension is filed, in lower case, under the language; the keys are the old ones plus the lower-cased extensions, and other keys keep their language |
| JenaUtil.Register | final_project/SemanticWebProjectTest/src/semanticweb/jena/JenaUtil.java:59 | registration keeps every language filed under its own name |
| JenaUtil.BuildLangIgnoresCharset | final_project/SemanticWebProjectTest/src/semanticweb/jena/JenaUtil.java:44-48 | two adapters whose content types differ only in charset build the same language, whose media type is the content type without the charset |
| JenaUtil.InstallLanguage | final_project/SemanticWebProjectTest/src/semanticweb/jena/JenaUtil.java:54-63 | the language is registered, its parser factory is the adapter's, and its name reads with the adapter's reader class. Each of its extensions, lower-cased, leads to it. Afterwards the language is installed by name |
| JenaUtil.FilenameExt | final_project/SemanticWebProjectTest/src/semanticweb/jena/JenaUtil.java:106 | the extension is empty or the lower-cased text after a final dot, holding no dot and no path separator |
| JenaUtil.ExtensionOfName | final_project/SemanticWebProjectTest/src/semanticweb/jena/JenaUtil.java:106 | a name ending in `.ext` has extension `ext` in lower case, so `data.TTL` has extension `ttl` |
| JenaUtil.FilenameToLang | final_project/SemanticWebProjectTest/src/semanticweb/jena/JenaUtil.java:106 | the language of a name is the one filed under its lower-cased extension, or null; a trailing `.gz` is dropped first |
| JenaUtil.GzipSuffixDropped | final_project/SemanticWebProjectTest/src/semanticweb/jena/JenaUtil.java:106 | a name with `.gz` appended resolves as the name itself |
| JenaUtil.GzippedOnlyByGz | final_project/SemanticWebProjectTest/src/semanticweb/jena/JenaUtil.java:106 | a name ending in `.ext` counts as compressed exactly when `ext` is `gz` |
| JenaUtil.RegisteredExtensionResolves | final_project/SemanticWebProjectTest/src/semanticweb/jena/JenaUtil.java:56-59 | after a language is registered, a name ending in any of its extensions, in any case, resolves to it by file name, unless that extension is exactly `gz`; the same name with `.gz` appended resolves to it too |
| JenaUtil.ResolveLang | final_project/SemanticWebProjectTest/src/semanticweb/jena/JenaUtil.java:71-122 | a failed probe or a missing header yields null. Any answer is filed under the media type or the file extension. The language filed under the media type wins whenever it has a parser factory, whether or not it is registered under its name |
| JenaUtil.FallbackIgnoresParsers | final_project/SemanticWebProjectTest/src/semanticweb/jena/JenaUtil.java:104-112 | when the media type gives no language with a parser, the answer is the file-name language, whether or not it has a parser |
| JenaUtil.ParserlessLanguageReturned | final_project/SemanticWebProjectTest/src/semanticweb/jena/JenaUtil.java:104-112 | a `.TTL` URL served as text/html resolves to a Turtle language that has no parser factory and is therefore not installed |
| JenaUtil.NoHeaderNoFallback | final_project/SemanticWebProjectTest/src/semanticweb/jena/JenaUtil.java:92-94 | without a Content-Type header the answer is null, even for a URL whose extension is registered |
| LangAdapters.Create | final_project/SemanticWebProjectTest/src/semanticweb/jena/JenaLangAdapter.java:45-59 | each accessor gives back its argument, and `fileExtensions()` is the very array passed in |
| LangAdapters.CreateFromAccessors | final_project/SemanticWebProjectTest/src/semanticweb/jena/JenaLangAdapter.java:29-34 | an adapter is nothing but its five accessors: `create` applied to them rebuilds it |
| FriendsAlignment.PrepQuery | assignment_5/SemanticWebAssignment5/src/web/semantic/Modeler.java:199-217 | the query text starts with the five fixed declarations, and stripping them gives the request back; the query runs against the given model |
| FriendsAlignment.PreambleIsFixedPrefixes | assignment_5/SemanticWebAssignment5/src/web/semantic/Modeler.java:204-208 | the preamble is the `PREFIX name: <ns> ` clauses of default, untitled-ontology-16, rdfs, rdf, foaf, in that order |
| FriendsAlignment.PreambleIndependent | assignment_5/SemanticWebAssignment5/src/web/semantic/Modeler.java:199-211 | the preamble does not depend on the request or the model; two queries have equal texts iff their requests are equal |
| FriendsAlignment.SixAssertions | assignment_5/SemanticWebAssignment5/src/web/semantic/Modeler.java:107-151 | the six alignment statements are six different triples |
| FriendsAlignment.SameAsLinksDefaultToExternal | assignment_5/SemanticWebAssignment5/src/web/semantic/Modeler.java:127-150 | there are three `owl:sameAs` statements, each from the default namespace to the person ontology's |
| FriendsAlignment.Modeler.constructor | assignment_5/SemanticWebAssignment5/src/web/semantic/Modeler.java:29-33 | both models start empty and the inferred model is null |
| FriendsAlignment.Modeler.AlignModels | assignment_5/SemanticWebAssignment5/src/web/semantic/Modeler.java:107-151 | the alignment model gains exactly the six statements; the friends model and the inferred model are untouched |
| FriendsAlignment.Modeler.BindReasoner | assignment_5/SemanticWebAssignment5/src/web/semantic/Modeler.java:153-158 | the inferred model becomes the alignment model as schema over the friends model; both models are untouched |
| FriendsAlignment.AlignThenBind | assignment_5/SemanticWebAssignment5/src/web/semantic/Modeler.java:56-61 | aligning and then binding gives an inferred model whose schema holds all six statements over the friends model, which is left unchanged |
| StepCounts.TruncateDateStr | assignment_3/py/assignment3.py:17-21 | 19 characters: the first ten characters of the timestamp, then `T00:00:00` |
| StepCounts.TruncateReadsDateOnly | assignment_3/py/assignment3.py:20 | timestamps that agree on their first ten characters truncate alike |
| StepCounts.TruncateIdempotent | assignment_3/py/assignment3.py:17-21 | a truncated date is a well-formed timestamp at hour 0, and truncating it again changes nothing |
| StepCounts.Dated | assignment_3/py/assignment3.py:57-58 | only samples with a `startDate` are kept, in input order |
| StepCounts.OnDay | assignment_3/py/assignment3.py:60-66 | a day's group holds only samples of the input with that day's key, in input order; a non-empty group's key is one of the days |
| StepCounts.GroupByDate | assignment_3/py/assignment3.py:55-66 | the dictionary has exactly one key per day some sample starts on, and each key's list is that day's samples in input order |
| StepCounts.GroupingConserves | assignment_3/py/assignment3.py:55-66 | over any repetition-free list of keys covering every day, the groups together hold each dated sample exactly once, for any weight |
| StepCounts.DatedOnes | assignment_3/py/assignment3.py:55-66 | counting one per dated sample gives the number of samples that have a `startDate` |
| StepCounts.HourlyTotals | assignment_3/py/assignment3.py:79-85 | 24 slots; slot h holds the counts of the group's samples starting in hour h; the slots sum to the group's total count |
| StepCounts.SlotsSum | assignment_3/py/assignment3.py:83-85 | slots holding the per-hour counts sum, up to any hour, to the counts of the hours below it |
| StepCounts.DayConserves | assignment_3/py/assignment3.py:83-85 | every sample lands in one of the 24 hours, so the hours together hold the group's whole count |
| StepCounts.DailyTotals | assignment_3/py/assignment3.py:71-85 | the days are every key of the dictionary, once each, in strictly ascending order. Each day gets the hourly totals of its list |
| StepCounts.SeriesMatchesGroups | assignment_3/py/assignment3.py:77-85 | the totals of all days add up to the groups' total count |
| StepCounts.StepCountSeries | assignment_3/py/assignment3.py:55-85 | the days are the days of the input in ascending order. Day i, hour h holds the counts of that day's samples starting in hour h. The whole series holds the count of every dated sample, and the groups hold every dated sample once |
| LexOrder.SortedKeys | assignment_3/py/assignment3.py:71 | `sorted` of the keys: every key exactly once, in strictly ascending order |
| LexOrder.Least | assignment_3/py/assignment3.py:71 | the least key of a non-empty set is in the set and at most every key |
| LexOrder.LexLeTotal | assignment_3/py/assignment3.py:71 | any two keys are comparable |
| LexOrder.LexLeTransitive | assignment_3/py/assignment3.py:71 | string order is transitive |
| LexOrder.LexLeAntisymmetric | assignment_3/py/assignment3.py:71 | keys ordered both ways are equal |
| Enumerations.EnumerationLength | assignment_3/py/assignment3.py:71 | a repetition-free list of exactly a set's elements is as long as the set has elements |

## Left out

- Jena itself is not modelled: graph storage, RDF parsing, SPARQL parsing and evaluation, and the OWL reasoner. Reads, query executions and inferred models are given as outcomes (`ReadOutcome`, `ExecOutcome`, `InfView`). What the reasoner infers is not modelled.
- `Dcat.DcatModel.PrepQuery` does not model `QueryFactory.create` throwing on a query text that does not parse. In the source that exception propagates out of `prepQuery`, and out of `load` after the catalog model has been replaced.
- `Dcat.DcatModel.Load` takes the resolver and the reader as parameters. The resolver stands for `JenaUtil.resolveLang` and needs the network. The dataset loop is written over a graph value that replaces `datasetModel` once the loop ends; Jena reads into the model in place. No code runs in between, so the final state is the same.
- `Dcat.DcatModel.RunQuery` takes a non-null execution. It does not model an exception from `close()` itself, nor a null execution (what `prepDcatQuery`, `prepDataQuery` and `prepInferredQuery` return before a load), on which the `finally`'s `qe.close()` at line 369 of DCATModel.java throws NullPointerException out of `runQuery`.
- `Rdf.NodeText` gives a resource's URI and a literal's lexical form. Jena's `toString` additions for typed or language-tagged literals are not modelled.
- The HTTP `HEAD` request, the `Accept` header and `ContentType.create` in `resolveLang` are network I/O and Jena parsing. They are summarised as a `ProbeOutcome`: an exception anywhere up to parsing the header, no header, or the header's media type.
- `JenaUtil.Register` does not model Jena's case-insensitive name and media-type keys, or its rejection of a registration that conflicts with an existing one. Extension keys are lower-cased.
- Jena's `RDFLanguages` and `FileUtils` are not part of this model. `JenaUtil.FilenameExt` and `JenaUtil.FilenameToLang` follow Jena's definitions of `getFilenameExt` and `filenameToLang`: the extension is lower-cased, and a case-sensitive trailing `.gz` is dropped first.
- `JenaUtil.Lower` lower-cases ASCII letters only. Java's `toLowerCase` also folds other letters, so `FilenameExt` and `AddExtensions` agree with Jena only on extensions whose letters are ASCII.
- `JenaUtil.InstallLanguage` installs unconditionally: `LangBuilder.build()` never returns null, so the `lang != null` test at line 57 of JenaUtil.java is always true.
- `FriendsAlignment.PrepQuery` does not model `QueryFactory.create` throwing on a query text that does not parse (Modeler.java line 213).
- `LangAdapters.Create`: a Dafny datatype constructor cannot be made private. `Create` is the only constructor the model's own code uses, and nothing can reassign a datatype's fields.
- `BlahReader.LangName`, `BlahReader.LangAdapter` and `BlahReaderFactory` are not part of this model. The static block takes the name and adapter as parameters.
- The demo drivers are left out: `Modeler.main`, `echoFriends`, `loadModel`, `loadFoafamaticModel`, `loadExternalFriends` and `loadFOAFSchema` (file I/O and printing), and `Test.java`. `AlignThenBind` follows the order of `main`.
- `StepCounts.TruncateDateStr` assumes a zero-padded ISO date in the first ten characters and requires that layout. `strptime` also accepts unpadded or space-padded fields such as `2015-7-4` and normalises them; that is not modelled, and neither is its calendar check (month 1-12, a real day of that month).
- `StepCounts.GroupByDate`, `StepCounts.HourlyTotals` and `StepCounts.StepCountSeries` require every dated sample to have a well-formed timestamp with an hour below 24. The script crashes otherwise. `int(count)` is taken to be an integer already.
- The Python script's JSON loading, `sys.argv` handling, matplotlib plotting and the unused `showTable` are not modelled.
- All `System.out`/`System.err` logging is left out.

Behaviour of the code a reader might not expect:

- The `vcard` prefix is bound to `VCARD.getURI()` of Jena, `http://www.w3.org/2001/vcard-rdf/3.0#`, not to `http://www.w3.org/2006/vcard/ns#` as the comment above the constructor says.
- `resolveLang` returns null when the server sends no Content-Type header. The file-name fallback happens only when a header came back (JenaUtil.java lines 94-114).
- The file-name fallback returns the language even when no parser factory is registered for it.
- A read that throws may leave the triples it parsed before the error in the model. Reads are not all-or-nothing, so `ReadOutcome.Aborted` carries the triples merged so far.

## Findings

| source | as written | input that shows it | evidently intended | confidence | as-written member | corrected member |
|---|---|---|---|---|---|---|
| final_project/SemanticWebProjectTest/src/semanticweb/dcat/DCATModel.java:259-261 | `addOntologyAssertion` adds to the ontologies but keeps the inferred model, whose schema was bound before the addition; `prepInferredQuery` then reuses that model | `load`, `prepInferredQuery(q)`, `addOntologyAssertion(s, p, o)`, `prepInferredQuery(q)`: the second query's schema lacks `(s, p, o)`. Test.java lines 31-39 runs this sequence expecting the new alignment to show | adding an assertion drops the inferred model, as `clearOnotologies` does, so the next inferred query binds the reasoner to the current ontologies | medium; not executed (depends on the reasoner processing its schema when bound) | Dcat.StaleInferredModel | Dcat.DcatModel.AddOntologyAssertionInvalidating, Dcat.FreshInferredModel |
