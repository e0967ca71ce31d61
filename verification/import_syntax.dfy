/**
  The parts of an import statement the transform looks at, as a tagged-variant
  tree, and the errors it raises.
*/
module ImportSyntax {
  import opened Wrappers

  /** The attribute kind that selects a statement for inlining. */
  const InlineText: string := "inline/text"

  /**
    The key of an import attribute, or the imported name of a named specifier:
    a bare identifier (`type`) or a quoted string (`"type"`). `OtherKeyNode`
    stands for a node of any other kind, which the parser never puts there.
  */
  datatype Key = Ident(name: string) | Str(value: string) | OtherKeyNode(nodeType: string)

  /** One `key: "value"` entry of the `with { ... }` clause. */
  datatype Attribute = Attribute(key: Key, value: string)

  /** The three specifier forms: `{ imported as local }`, `* as local`, and `local`. */
  datatype Specifier =
    | Named(imported: Key, local: string)
    | Namespace(local: string)
    | Default(local: string)

  /** `import <specifiers> from "<source>" with { <attributes> }` */
  datatype ImportDecl = ImportDecl(source: string, attributes: seq<Attribute>, specifiers: seq<Specifier>)

  /** The kinds of failure the transform raises; `Unreachable` marks a broken internal invariant. */
  datatype ErrorKind =
    | UnsupportedSpecifier
    | ResolutionFailure
    | UnsupportedScheme
    | FileLoadFailure
    | Unreachable

  datatype Error = Error(kind: ErrorKind, message: string)

  const UnreachableError: Error := Error(Unreachable, "unreachable")

  /** The text of a key: the identifier's name or the string's value; any other node is an internal error. */
  function GetValue(key: Key): (r: Result<string, Error>)
    ensures r.Failure? <==> key.OtherKeyNode?
    ensures r.Failure? ==> r.error == UnreachableError
    ensures key.Ident? ==> r == Success(key.name)
    ensures key.Str? ==> r == Success(key.value)
  {
    match key
    case Ident(name) => Success(name)
    case Str(value) => Success(value)
    case OtherKeyNode(_) => Failure(UnreachableError)
  }

  /** An identifier key and a string key with the same text name the same key. */
  lemma SpellingsOfAKeyAgree(text: string)
    ensures GetValue(Ident(text)) == GetValue(Str(text)) == Success(text)
  {
  }
}
