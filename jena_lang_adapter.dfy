/**
 * `JenaLangAdapter`: the five things Jena needs to know about a language,
 * grouped in one record that is built by `create` and only read afterwards.
 */
module LangAdapters {
  import opened Options

  /** A Jena `ContentType`: the media type proper, and the charset if any. */
  datatype ContentType = ContentType(contentType: string, charset: Option<string>)

  /** A `ReaderRIOTFactory`, known here only by its identity. */
  datatype ReaderFactory = ReaderFactory(id: string)

  /** A `Class<? extends RDFReaderRIOT>`, known here only by its identity. */
  datatype ReaderClass = ReaderClass(id: string)

  /** The record. The extensions are the caller's own Java array, shared and
      not copied, so they are kept as a reference. */
  datatype JenaLangAdapter = JenaLangAdapter(
    name: string,
    contentType: ContentType,
    readerFactory: ReaderFactory,
    rdfReaderClass: ReaderClass,
    extensions: array<string>)
  {
    /** `fileExtensions()`: the array given to `create`, the same object. */
    function FileExtensions(): array<string>
    {
      extensions
    }
  }

  /** `create`: an adapter whose accessors give back the five arguments, the
      extension array by reference. */
  function Create(
    name: string,
    contentType: ContentType,
    readerFactory: ReaderFactory,
    rdfReaderClass: ReaderClass,
    extensions: array<string>): (a: JenaLangAdapter)
    ensures a.name == name && a.contentType == contentType
    ensures a.readerFactory == readerFactory && a.rdfReaderClass == rdfReaderClass
    ensures a.FileExtensions() == extensions
  {
    JenaLangAdapter(name, contentType, readerFactory, rdfReaderClass, extensions)
  }

  /** Nothing but the five arguments goes into an adapter: rebuilding one from
      its own accessors gives the same adapter. */
  lemma CreateFromAccessors(a: JenaLangAdapter)
    ensures Create(a.name, a.contentType, a.readerFactory, a.rdfReaderClass, a.FileExtensions()) == a
  {
  }
}
