/**
 * `JenaUtil`: whether a language is installed in Jena, installing one from a
 * `JenaLangAdapter`, and deciding which language can read a URL. Jena's three
 * process-wide registries (`RDFLanguages`, `RDFParserRegistry`, `IO_Jena`)
 * are the fields of one `Registries` object passed by reference.
 */
module JenaUtil {
  import opened Options
  import opened LangAdapters

  /** A Jena `Lang` as `LangBuilder` builds it: label, main content type and
      file extensions. */
  datatype Lang = Lang(name: string, contentType: string, extensions: seq<string>)

  /** The lookup tables of `RDFLanguages`. */
  datatype LanguageTable = LanguageTable(
    byName: map<string, Lang>,
    byContentType: map<string, Lang>,
    byExtension: map<string, Lang>)

  function Lookup<K, V>(m: map<K, V>, k: K): (r: Option<V>)
    ensures r.Some? <==> k in m
    ensures r.Some? ==> r.value == m[k]
  {
    if k in m then Some(m[k]) else None
  }

  /** Every language is filed under its own name. */
  ghost predicate WellKeyed(t: LanguageTable)
  {
    forall n :: n in t.byName ==> t.byName[n].name == n
  }

  /** ASCII lower case of one character. */
  function LowerChar(c: char): char
  {
    if 'A' <= c <= 'Z' then (c as int - 'A' as int + 'a' as int) as char else c
  }

  /** `toLowerCase`, restricted to ASCII letters: Jena files and looks up
      extensions in lower case. */
  function Lower(s: string): (r: string)
    ensures |r| == |s|
    ensures forall i :: 0 <= i < |s| ==> r[i] == LowerChar(s[i])
  {
    if s == [] then [] else Lower(s[..|s| - 1]) + [LowerChar(s[|s| - 1])]
  }

  /** The keys under which `RDFLanguages` files a list of extensions. */
  function ExtensionKeys(exts: seq<string>): (keys: set<string>)
    ensures forall e :: e in exts ==> Lower(e) in keys
  {
    if exts == [] then {}
    else
      var n := |exts| - 1;
      assert forall e :: e in exts ==> e in exts[..n] || e == exts[n];
      ExtensionKeys(exts[..n]) + {Lower(exts[n])}
  }

  /** The table with every extension in `exts`, lower-cased, filed under
      `lang`; other keys keep their language. */
  function AddExtensions(m: map<string, Lang>, exts: seq<string>, lang: Lang): (r: map<string, Lang>)
    ensures r.Keys == m.Keys + ExtensionKeys(exts)
    ensures forall k :: k in ExtensionKeys(exts) ==> r[k] == lang
    ensures forall k :: k in m && k !in ExtensionKeys(exts) ==> r[k] == m[k]
  {
    if exts == [] then m
    else
      var n := |exts| - 1;
      AddExtensions(m, exts[..n], lang)[Lower(exts[n]) := lang]
  }

  /** `RDFLanguages.register`: the language under its name, its content type
      and each of its extensions, a later registration replacing an earlier. */
  function Register(t: LanguageTable, lang: Lang): (r: LanguageTable)
    ensures WellKeyed(t) ==> WellKeyed(r)
  {
    LanguageTable(
      t.byName[lang.name := lang],
      t.byContentType[lang.contentType := lang],
      AddExtensions(t.byExtension, lang.extensions, lang))
  }

  /** `RDFLanguages.isRegistered`: the language is the one filed under its name. */
  predicate IsRegistered(t: LanguageTable, lang: Lang)
  {
    lang.name in t.byName && t.byName[lang.name] == lang
  }

  /** `isLanguageInstalled(Lang)` (lines 33-36): non-null, registered, and with
      a parser factory. */
  predicate IsLangInstalled(t: LanguageTable, parsers: map<Lang, ReaderFactory>, lang: Option<Lang>)
  {
    lang.Some? && IsRegistered(t, lang.value) && lang.value in parsers
  }

  /** `isLanguageInstalled(String)` (lines 27-31): look the name up first. */
  predicate IsLanguageInstalled(t: LanguageTable, parsers: map<Lang, ReaderFactory>, langName: string)
  {
    IsLangInstalled(t, parsers, Lookup(t.byName, langName))
  }

  /** In a table that files every language under its own name, a name is
      installed exactly when a language is filed under it and that language
      has a parser factory. */
  lemma InstalledByName(t: LanguageTable, parsers: map<Lang, ReaderFactory>, langName: string)
    requires WellKeyed(t)
    ensures IsLanguageInstalled(t, parsers, langName) <==>
      langName in t.byName && t.byName[langName] in parsers
  {
  }

  /** Jena's three registries. */
  class Registries {
    /** `RDFLanguages` */
    var languages: LanguageTable
    /** `RDFParserRegistry`: the triples parser factory of each language */
    var parsers: map<Lang, ReaderFactory>
    /** `IO_Jena`: the `Model.read` reader class of each language name */
    var modelReaders: map<string, ReaderClass>

    constructor (languages: LanguageTable, parsers: map<Lang, ReaderFactory>, modelReaders: map<string, ReaderClass>)
      ensures this.languages == languages && this.parsers == parsers && this.modelReaders == modelReaders
    {
      this.languages := languages;
      this.parsers := parsers;
      this.modelReaders := modelReaders;
    }
  }

  /** The `Lang` that `LangBuilder` makes from an adapter (line 56). */
  function BuildLang(name: string, contentType: ContentType, extensions: seq<string>): Lang
  {
    Lang(name, contentType.contentType, extensions)
  }

  /** The charset is left out of the language (lines 44-48): two adapters
      whose content types differ only in charset build the same language. */
  lemma BuildLangIgnoresCharset(name: string, ct1: ContentType, ct2: ContentType, extensions: seq<string>)
    requires ct1.contentType == ct2.contentType
    ensures BuildLang(name, ct1, extensions) == BuildLang(name, ct2, extensions)
    ensures BuildLang(name, ct1, extensions).contentType == ct1.contentType
  {
  }

  /** `installLanguage` (lines 54-63): build the language from the adapter,
      with the extensions the array holds at this moment, and enter it in all
      three registries; afterwards the adapter's name is installed. */
  method InstallLanguage(reg: Registries, a: JenaLangAdapter)
    modifies reg
    ensures
      var lang := BuildLang(a.name, a.contentType, a.FileExtensions()[..]);
      && reg.languages == Register(old(reg.languages), lang)
      && reg.parsers == old(reg.parsers)[lang := a.readerFactory]
      && reg.modelReaders == old(reg.modelReaders)[a.name := a.rdfReaderClass]
      && Lookup(reg.languages.byName, a.name) == Some(lang)
      && Lookup(reg.parsers, lang) == Some(a.readerFactory)
      && (forall e :: e in a.FileExtensions()[..] ==> Lookup(reg.languages.byExtension, Lower(e)) == Some(lang))
    ensures IsLanguageInstalled(reg.languages, reg.parsers, a.name)
  {
    var lang := BuildLang(a.name, a.contentType, a.FileExtensions()[..]);
    reg.languages := Register(reg.languages, lang);
    reg.parsers := reg.parsers[lang := a.readerFactory];
    reg.modelReaders := reg.modelReaders[a.name := a.rdfReaderClass];
  }

  /** Position of the last `c` in `s`, or -1 when there is none. */
  function LastIndexOf(s: string, c: char): (r: int)
    ensures -1 <= r < |s|
    ensures r >= 0 ==> s[r] == c
    ensures forall i :: r < i < |s| ==> s[i] != c
  {
    if s == [] then -1
    else if s[|s| - 1] == c then |s| - 1
    else LastIndexOf(s[..|s| - 1], c)
  }

  /** The extension Jena reads off a file name or URL: the text after the last
      '.', lower-cased, provided no '/' or '\' follows that dot; otherwise empty. */
  function FilenameExt(s: string): (e: string)
    ensures e == "" || (|e| < |s| && s[|s| - |e| - 1] == '.' && e == Lower(s[|s| - |e|..]))
    ensures forall i :: 0 <= i < |e| ==> e[i] != '.' && e[i] != '/' && e[i] != '\\'
  {
    var slash := LastIndexOf(s, '/');
    var back := LastIndexOf(s, '\\');
    var sep := if back > slash then back else slash;
    var dot := LastIndexOf(s, '.');
    if dot > sep then Lower(s[dot + 1..]) else ""
  }

  /** A name ending in ".ext" has extension `ext` in lower case. */
  lemma {:induction false} ExtensionOfName(stem: string, ext: string)
    requires forall i :: 0 <= i < |ext| ==> ext[i] != '.' && ext[i] != '/' && ext[i] != '\\'
    ensures FilenameExt(stem + "." + ext) == Lower(ext)
  {
    var s := stem + "." + ext;
    var dot := |stem|;
    assert s[dot] == '.';
    assert forall i :: dot < i < |s| ==> s[i] == ext[i - dot - 1];
    var d := LastIndexOf(s, '.');
    assert d == dot;
    assert LastIndexOf(s, '/') < dot && LastIndexOf(s, '\\') < dot;
    assert s[dot + 1..] == ext;
  }

  /** Whether a name ends in ".gz", compared case-sensitively. */
  predicate Gzipped(url: string)
  {
    |url| >= 3 && url[|url| - 3..] == ".gz"
  }

  /** `RDFLanguages.filenameToLang`: a trailing ".gz" is dropped before the
      extension is taken. */
  function FilenameToLang(t: LanguageTable, url: string): Option<Lang>
  {
    var name := if Gzipped(url) then url[..|url| - 3] else url;
    Lookup(t.byExtension, FilenameExt(name))
  }

  /** A compressed name resolves as the name without its ".gz". */
  lemma GzipSuffixDropped(t: LanguageTable, name: string)
    ensures FilenameToLang(t, name + ".gz") == Lookup(t.byExtension, FilenameExt(name))
  {
    var url := name + ".gz";
    assert url[..|url| - 3] == name;
    assert url[|url| - 3..] == ".gz";
  }

  /** A name ending in ".ext" is compressed only when `ext` is "gz" itself. */
  lemma {:induction false} GzippedOnlyByGz(stem: string, ext: string)
    requires forall i :: 0 <= i < |ext| ==> ext[i] != '.' && ext[i] != '/' && ext[i] != '\\'
    ensures Gzipped(stem + "." + ext) <==> ext == "gz"
  {
    var s := stem + "." + ext;
    assert s[|s| - |ext|..] == ext;
    if |ext| >= 3 {
      assert s[|s| - 3] == ext[|ext| - 3];
    } else if |ext| == 2 {
      assert s[|s| - 3..] == ['.'] + ext;
    } else if |ext| == 1 && |s| >= 3 {
      assert s[|s| - 2] == '.';
    } else if |s| >= 3 {
      assert s[|s| - 1] == '.';
    }
  }

  /** Once a language is registered, a name ending in any of its extensions,
      in any mix of upper and lower case, resolves to it by file name, and so
      does that name compressed. A name whose extension is exactly "gz" is
      read as compressed instead. */
  lemma RegisteredExtensionResolves(t: LanguageTable, lang: Lang, stem: string, ext: string, e: string)
    requires e in lang.extensions && Lower(ext) == Lower(e)
    requires forall i :: 0 <= i < |ext| ==> ext[i] != '.' && ext[i] != '/' && ext[i] != '\\'
    ensures ext != "gz" ==> FilenameToLang(Register(t, lang), stem + "." + ext) == Some(lang)
    ensures FilenameToLang(Register(t, lang), stem + "." + ext + ".gz") == Some(lang)
  {
    ExtensionOfName(stem, ext);
    GzippedOnlyByGz(stem, ext);
    GzipSuffixDropped(Register(t, lang), stem + "." + ext);
  }

  /** What the HEAD probe of `resolveLang` comes back with (lines 75-97): an
      exception anywhere from opening the URL to parsing the header, no
      Content-Type header, or the header's media type. */
  datatype ProbeOutcome =
    | ProbeFailed
    | NoContentType
    | MediaType(contentType: string)

  /** `resolveLang` (lines 71-122). Without a Content-Type header there is no
      answer at all, not even from the file name. With one, the language
      filed under that media type wins when it has a parser factory;
      otherwise the answer is whatever the file name gives, with or without
      a parser factory. */
  function ResolveLang(t: LanguageTable, parsers: map<Lang, ReaderFactory>, url: string, probe: ProbeOutcome): (r: Option<Lang>)
    ensures !probe.MediaType? ==> r == None
    ensures r.Some? ==>
      || Lookup(t.byContentType, probe.contentType) == r
      || FilenameToLang(t, url) == r
    ensures probe.MediaType? && probe.contentType in t.byContentType && t.byContentType[probe.contentType] in parsers
      ==> r == Some(t.byContentType[probe.contentType])
  {
    match probe
    case ProbeFailed => None
    case NoContentType => None
    case MediaType(ct) =>
      var byType := Lookup(t.byContentType, ct);
      if byType.Some? && byType.value in parsers then byType
      else FilenameToLang(t, url)
  }

  /** When the media type gives no parsable language the answer is the file
      name's language, and whether that one has a parser factory plays no part. */
  lemma FallbackIgnoresParsers(t: LanguageTable, parsers: map<Lang, ReaderFactory>, url: string, ct: string)
    requires !(ct in t.byContentType && t.byContentType[ct] in parsers)
    ensures ResolveLang(t, parsers, url, MediaType(ct)) == FilenameToLang(t, url)
  {
  }

  /** A URL the server answers as "text/html" but that ends in ".TTL" resolves
      to the Turtle language registered for "ttl" even when no parser factory
      is registered for it. */
  lemma ParserlessLanguageReturned()
    ensures
      var ttl := Lang("Turtle", "text/turtle", ["ttl"]);
      var t := LanguageTable(map["Turtle" := ttl], map["text/turtle" := ttl], map["ttl" := ttl]);
      && ResolveLang(t, map[], "http://example.org/data.TTL", MediaType("text/html")) == Some(ttl)
      && !IsLangInstalled(t, map[], Some(ttl))
  {
    ExtensionOfName("http://example.org/data", "TTL");
    assert "http://example.org/data" + "." + "TTL" == "http://example.org/data.TTL";
    assert Lower("TTL") == "ttl";
  }

  /** Without a header, a URL whose extension is registered still resolves to nothing. */
  lemma NoHeaderNoFallback(t: LanguageTable, parsers: map<Lang, ReaderFactory>, url: string)
    requires FilenameToLang(t, url).Some?
    ensures ResolveLang(t, parsers, url, NoContentType) == None
  {
  }
}
