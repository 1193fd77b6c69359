/** The `namespace` declaration of an ACS file: the first declaration sets
    the file's namespace name and its strict flag; a file without one is left
    as it is. The parser never fails. */
module NamespaceParser {
  import opened Common
  import opened AcsContext

  /** One match of `(strict )?namespace( name)? {`: the `isStrict` group
      takes part when `strict ` precedes the keyword, and `name` when a
      name is given. */
  datatype NamespaceMatch = NamespaceMatch(isStrict: Group, name: Group)

  /** The namespace name a match declares: the capture, or none when no name is given. */
  function DeclaredName(m: NamespaceMatch): (n: Option<string>)
    ensures n.Some? <==> m.name.Success()
    ensures n.Some? ==> n.value == m.name.text
  {
    if m.name.Success() then Some(m.name.Value()) else None
  }

  /** `ParseAsync`, given the matches in document order: only the first is
      read; with none, nothing changes; otherwise exactly the namespace name
      and the strict flag are written. */
  function NamespaceParsed(file: AcsFile, matches: seq<NamespaceMatch>): (s: Step<AcsFile>)
    ensures s.err.None?
    ensures matches == [] ==> s.doc == file
    ensures matches != [] ==>
      && s.doc == file.(namespace := s.doc.namespace, isStrictNamespace := s.doc.isStrictNamespace)
      && s.doc.namespace == DeclaredName(matches[0])
      && (s.doc.isStrictNamespace <==> matches[0].isStrict.Success())
  {
    if matches == [] then Step(file, None)
    else Step(file.(namespace := DeclaredName(matches[0]), isStrictNamespace := matches[0].isStrict.Success()), None)
  }

  /** Declarations after the first have no effect. */
  lemma OnlyFirstDeclarationCounts(file: AcsFile, first: NamespaceMatch, later: seq<NamespaceMatch>)
    ensures NamespaceParsed(file, [first] + later) == NamespaceParsed(file, [first])
  {
  }

  /** Running the parser again on its own result changes nothing. */
  lemma NamespaceParsedIdempotent(file: AcsFile, matches: seq<NamespaceMatch>)
    ensures NamespaceParsed(NamespaceParsed(file, matches).doc, matches) == NamespaceParsed(file, matches)
  {
  }
}
