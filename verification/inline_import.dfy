/**
  The `ImportDeclaration` visitor: the decision taken once per import statement.

  The statement is left alone unless its `type` attribute is `inline/text`; a
  named specifier is an error; a statement that binds nothing is removed;
  otherwise the module is resolved against the file URL of the file being
  transformed, must resolve to a `file://` URL, is read, and the statement is
  replaced by the declaration `CreateDeclaration` builds from the text.

  Module resolution, file reading and the URL and path helpers are foreign code:
  they are parameters (`Host`), each total, with `None` for the `null` the
  source's `try/catch` wrappers return when the foreign call throws.
*/
module InlineImport {
  import opened Wrappers
  import opened ImportSyntax
  import opened Inspector
  import opened Declaration
  import JsonString

  /** The foreign functions the visitor calls. */
  datatype Host = Host(
    resolve: (string, string) -> Option<string>,  // resolve(specifier, parentUrl), null on any throw
    readFile: string -> Option<string>,           // UTF-8 text of the file at a file URL, null on any throw
    pathToFileUrl: string -> string,              // pathToFileURL(path).href
    join: (string, string) -> string)             // path.join

  /** What the host pipeline passes for the file being transformed. */
  datatype Pass = Pass(filename: Option<string>, cwd: string)

  /** The visitor's effect on the statement. */
  datatype Outcome =
    | Unchanged
    | Removed
    | Failed(error: Error)
    | Replaced(declaration: VariableDeclaration)

  const FileScheme: string := "file://"

  predicate StartsWith(s: string, prefix: string) {
    |prefix| <= |s| && s[..|prefix|] == prefix
  }

  /** The URL modules are resolved against: the file being transformed, or `index.js` in the working directory. */
  function BaseUrl(host: Host, pass: Pass): (url: string)
    ensures pass.filename.Some? ==> url == host.pathToFileUrl(pass.filename.value)
    ensures pass.filename.None? ==> url == host.pathToFileUrl(host.join(pass.cwd, "index.js"))
  {
    host.pathToFileUrl(pass.filename.GetOr(host.join(pass.cwd, "index.js")))
  }

  function CannotFindPackage(moduleSpecifier: string, parent: string): Error {
    Error(ResolutionFailure, "Cannot find package '" + moduleSpecifier + "' imported from " + parent)
  }

  function NotOfType(url: string, attributeType: string): Error {
    Error(UnsupportedScheme, "Module '" + url + "' is not of type '" + attributeType + "'")
  }

  function CannotFindModule(url: string, parent: string): Error {
    Error(FileLoadFailure, "Cannot find module '" + url + "' imported from " + parent)
  }

  /** The statement is eligible: its attributes can be read and the last `type` among them is `inline/text`. */
  predicate Eligible(decl: ImportDecl) {
    ScanAttributes(decl.attributes, None) == Success(Some(InlineText))
  }

  /** Resolution, the scheme check, the read and the synthesis, for a statement that binds something. */
  function Load(host: Host, pass: Pass, moduleSpecifier: string, bindings: Bindings): Outcome {
    var parent := BaseUrl(host, pass);
    match host.resolve(moduleSpecifier, parent)
    case None => Failed(CannotFindPackage(moduleSpecifier, parent))
    case Some(url) =>
      if !StartsWith(url, FileScheme) then Failed(NotOfType(url, InlineText))
      else match host.readFile(url)
        case None => Failed(CannotFindModule(url, parent))
        case Some(text) =>
          match CreateDeclaration(bindings.namespaceName, bindings.defaultName, text)
          case Success(declaration) => Replaced(declaration)
          case Failure(e) => Failed(e)
  }

  /** The visitor's decision for one statement, as a function of the statement and its collaborators. */
  function Transform(host: Host, pass: Pass, decl: ImportDecl): Outcome {
    match ScanAttributes(decl.attributes, None)
    case Failure(e) => Failed(e)
    case Success(attributeType) =>
      if attributeType != Some(InlineText) then Unchanged
      else match ScanSpecifiers(decl.source, decl.specifiers, Bindings(None, None))
        case Failure(e) => Failed(e)
        case Success(bindings) =>
          if bindings.defaultName.None? && bindings.namespaceName.None? then Removed
          else Load(host, pass, decl.source, bindings)
  }

  /**
    The visitor: allocates the context record, lets the two walks fill it in,
    and then removes, rejects or replaces the statement.
  */
  method ImportDeclaration(host: Host, pass: Pass, decl: ImportDecl) returns (outcome: Outcome)
    ensures outcome == Transform(host, pass, decl)
  {
    var context := new ImportContext(decl.source);
    var thrown := context.InspectAttributes(decl.attributes);
    if thrown.Some? {
      return Failed(thrown.value);
    }
    if context.attributeType != Some(InlineText) {
      return Unchanged;
    }
    thrown := context.InspectSpecifiers(decl.specifiers);
    if thrown.Some? {
      return Failed(thrown.value);
    }
    if context.defaultIdentifier.None? && context.namespaceIdentifier.None? {
      return Removed;
    }
    var parent := BaseUrl(host, pass);
    var url := host.resolve(context.moduleSpecifier, parent);
    if url.None? {
      return Failed(CannotFindPackage(context.moduleSpecifier, parent));
    }
    if !StartsWith(url.value, FileScheme) {
      return Failed(NotOfType(url.value, context.attributeType.value));
    }
    var text := host.readFile(url.value);
    if text.None? {
      return Failed(CannotFindModule(url.value, parent));
    }
    var declaration := CreateDeclaration(context.namespaceIdentifier, context.defaultIdentifier, text.value);
    match declaration {
      case Success(d) => outcome := Replaced(d);
      case Failure(e) => outcome := Failed(e);
    }
  }

  // Properties of the decision.

  /**
    A statement whose `type` attribute is missing or is not `inline/text` is left
    unchanged, and the outcome is the same whatever the resolver and the reader do.
  */
  lemma IneligibleIsUnchanged(host: Host, pass: Pass, decl: ImportDecl)
    requires ScanAttributes(decl.attributes, None).Success?
    requires ScanAttributes(decl.attributes, None).value != Some(InlineText)
    ensures Transform(host, pass, decl) == Unchanged
  {
  }

  /** The statement is unchanged exactly when its attributes are readable and do not select inlining. */
  lemma UnchangedIff(host: Host, pass: Pass, decl: ImportDecl)
    ensures Transform(host, pass, decl) == Unchanged
        <==> ScanAttributes(decl.attributes, None).Success? && !Eligible(decl)
  {
  }

  /** With readable keys and no `type` key at all, the statement is left unchanged. */
  lemma NoTypeAttributeIsUnchanged(host: Host, pass: Pass, decl: ImportDecl)
    requires KeysReadable(decl.attributes)
    requires forall i | 0 <= i < |decl.attributes| :: !IsTypeAttribute(decl.attributes[i])
    ensures Transform(host, pass, decl) == Unchanged
  {
    NoTypeAttributeKeepsCurrent(decl.attributes, None);
  }

  /** With readable keys, the last `type` attribute alone decides whether the statement is inlined. */
  lemma LastTypeAttributeDecides(decl: ImportDecl, j: nat)
    requires KeysReadable(decl.attributes)
    requires j < |decl.attributes| && IsTypeAttribute(decl.attributes[j])
    requires forall k | j < k < |decl.attributes| :: !IsTypeAttribute(decl.attributes[k])
    ensures Eligible(decl) <==> decl.attributes[j].value == InlineText
  {
    LastTypeAttributeWins(decl.attributes, j, None);
  }

  /**
    In an eligible statement the first named specifier is an error naming its
    imported name, even beside default or namespace specifiers; such a statement
    is never removed and nothing is resolved or read for it.
  */
  lemma NamedSpecifierIsError(host: Host, pass: Pass, decl: ImportDecl, j: nat)
    requires Eligible(decl)
    requires j < |decl.specifiers| && decl.specifiers[j].Named?
    requires forall k | 0 <= k < j :: !decl.specifiers[k].Named?
    ensures Transform(host, pass, decl) == Failed(NamedSpecifierError(decl.source, decl.specifiers[j].imported))
    ensures !decl.specifiers[j].imported.OtherKeyNode? ==>
      Transform(host, pass, decl) == Failed(Error(UnsupportedSpecifier,
        NoSuchExportMessage(decl.source, GetValue(decl.specifiers[j].imported).value)))
  {
    FirstNamedSpecifierThrows(decl.source, decl.specifiers, j, Bindings(None, None));
  }

  /**
    A statement is removed exactly when it is eligible and has no specifiers;
    the outcome is the same for every resolver and reader.
  */
  lemma RemovedIff(host: Host, pass: Pass, decl: ImportDecl)
    ensures Transform(host, pass, decl) == Removed <==> Eligible(decl) && decl.specifiers == []
  {
    if Eligible(decl) {
      var specs := ScanSpecifiers(decl.source, decl.specifiers, Bindings(None, None));
      if specs.Success? {
        ScanSpecifiersBinds(decl.source, decl.specifiers, Bindings(None, None));
        if !(specs.value.defaultName.None? && specs.value.namespaceName.None?) {
          LoadNeverRemoves(host, pass, decl.source, specs.value);
        }
      }
    }
  }

  lemma LoadNeverRemoves(host: Host, pass: Pass, moduleSpecifier: string, bindings: Bindings)
    requires bindings.namespaceName.Some? || bindings.defaultName.Some?
    ensures !Load(host, pass, moduleSpecifier, bindings).Removed?
    ensures !Load(host, pass, moduleSpecifier, bindings).Unchanged?
  {
  }

  /**
    The checks after the specifier walk come in a fixed order: the resolver's
    null first, then a URL outside the `file://` scheme, then the reader's null;
    only when all three pass is the statement replaced, by the declaration built
    from the text read.
  */
  lemma LoadErrorOrder(host: Host, pass: Pass, decl: ImportDecl, bindings: Bindings)
    requires Eligible(decl)
    requires ScanSpecifiers(decl.source, decl.specifiers, Bindings(None, None)) == Success(bindings)
    requires bindings.namespaceName.Some? || bindings.defaultName.Some?
    ensures var parent := BaseUrl(host, pass);
      var url := host.resolve(decl.source, parent);
      var outcome := Transform(host, pass, decl);
      && (url.None? ==> outcome == Failed(CannotFindPackage(decl.source, parent)))
      && (url.Some? && !StartsWith(url.value, FileScheme) ==> outcome == Failed(NotOfType(url.value, InlineText)))
      && (url.Some? && StartsWith(url.value, FileScheme) && host.readFile(url.value).None? ==>
            outcome == Failed(CannotFindModule(url.value, parent)))
      && (outcome.Replaced? <==>
            url.Some? && StartsWith(url.value, FileScheme) && host.readFile(url.value).Some?)
      && (outcome.Replaced? ==>
            Success(outcome.declaration) ==
              CreateDeclaration(bindings.namespaceName, bindings.defaultName, host.readFile(url.value).value))
  {
  }

  /**
    A replaced statement binds each requested name: the namespace name to the
    synthetic module holding the escaped text, the default name to the escaped
    text; decoding that value as the body of a JSON string gives the file's text.
  */
  lemma ReplacedBindsText(host: Host, pass: Pass, decl: ImportDecl, bindings: Bindings, url: string, text: string)
    requires Eligible(decl)
    requires ScanSpecifiers(decl.source, decl.specifiers, Bindings(None, None)) == Success(bindings)
    requires bindings.namespaceName.Some? || bindings.defaultName.Some?
    requires bindings.namespaceName.None? || bindings.defaultName != bindings.namespaceName
    requires host.resolve(decl.source, BaseUrl(host, pass)) == Some(url)
    requires StartsWith(url, FileScheme) && host.readFile(url) == Some(text)
    ensures Transform(host, pass, decl).Replaced?
    ensures var after := Evaluate(Transform(host, pass, decl).declaration.declarators, map[]);
      && after.Some?
      && (bindings.namespaceName.Some? ==>
            bindings.namespaceName.value in after.value &&
            IsSyntheticModule(after.value[bindings.namespaceName.value], JsonString.LiteralValue(text)))
      && (bindings.defaultName.Some? ==>
            bindings.defaultName.value in after.value &&
            after.value[bindings.defaultName.value] == StringValue(JsonString.LiteralValue(text)))
    ensures JsonString.ParseString("\"" + JsonString.LiteralValue(text) + "\"") == Some(text)
  {
    if bindings.namespaceName.Some? {
      NamespaceDeclarationBinds(bindings.namespaceName.value, bindings.defaultName, text, map[]);
    } else {
      DefaultDeclarationBinds(bindings.defaultName.value, text, map[]);
    }
    JsonString.LiteralValueRoundTrip(text);
  }
}
