# Inline text imports: a Dafny model

This project models the core of a Babel plugin that inlines text files at build
time. It rewrites an import statement such as

    import * as ns from "./notes.txt" with { type: "inline/text" }

into a `const` declaration that holds the file's text, escaped (see below). The
plugin runs once per import statement and goes through these steps:

1. It reads the statement's attributes. The last attribute whose key is `type`
   decides. The key may be written as an identifier or as a quoted string. The
   statement is left alone unless that value is exactly `inline/text`.
2. It reads the specifiers. A named specifier (`{ x }`) is an error that names
   the imported name. A namespace (`* as ns`) or default (`d`) specifier records
   its local name.
3. A statement that binds nothing is removed.
4. Otherwise the module specifier is resolved against the file URL of the file
   being transformed. When the file name is unknown, `index.js` in the working
   directory is used instead. The resolved URL must be a `file://` URL. The file
   is read as UTF-8 text.
5. The statement is replaced by a `const` declaration. A namespace name is bound
   to `Object.create(null, { default: …, [Symbol.toStringTag]: … })`. A default
   name is bound to `ns.default`, or, when there is no namespace name, directly
   to the escaped text.

The text is embedded as `JSON.stringify(text).slice(1, -1)`. This is the
QuoteJSONString operation of ECMA-262 (section 25.5.2.3) with its two
delimiting quotes removed. The model calls it `Escape`. Its partner is
`Unescape`, a decoder for the string grammar of section 7 of RFC 8259.

Modules, one per component:

- `Wrappers` (wrappers.dfy): `Option` and `Result`.
- `JsonString` (json_string.dfy): the escape, `slice(1, -1)`, the decoder and
  the round trip.
- `ImportSyntax` (import_syntax.dfy): the import statement as a tagged-variant
  tree, the errors, and `getValue`.
- `Inspector` (inspector.dfy): the two visitors. They are the class
  `ImportContext`, whose methods walk the attribute and specifier lists and
  update the context record's fields. The folds `ScanAttributes` and
  `ScanSpecifiers` specify the walks.
- `Declaration` (declaration.dfy): `createDeclaration`, plus a small evaluator
  that says what the emitted declaration binds when it runs.
- `InlineImport` (inline_import.dfy): the visitor `ImportDeclaration` (a
  method), the function `Transform` that specifies it, and the lemmas about the
  decision.

Resolution, file reading, `pathToFileURL(…).href` and `path.join` are foreign
calls. They are fields of the parameter `Host`. The resolver and the reader
return `None` where the source's `try/catch` wrappers return `null`.

Three details of the code are easy to misread, and the model follows the code in each:

- The "Cannot find package" and "Cannot find module" messages do not put the
  base URL in quotes.
- The named-specifier error is raised during the specifier walk. That walk comes
  before the removal check, so an eligible statement with a named specifier is
  never removed.
- The scheme error names the recorded attribute value. That value is always
  `inline/text` at that point.

The value handed to the string-literal builder is the escaped body, not the text
itself. Decoding it as the body of a JSON string gives back the text
(`JsonString.LiteralValueRoundTrip`). It equals the text exactly when the text
has no `"`, no `\` and no character below U+0020 (`JsonString.EscapeIsIdentityIff`).

## Model

| member | source | states |
|---|---|---|
| `ImportSyntax.GetValue` | src/index.js:172-178 | an identifier key yields its name and a string key its value; any other node kind is the internal "unreachable" error, and only then |
| `ImportSyntax.SpellingsOfAKeyAgree` | src/index.js:172-175 | an identifier and a quoted string with the same text read as the same key |
| `Inspector.ImportContext.constructor` | src/index.js:19 | a new context record holds the module specifier and no type, default or namespace name |
| `Inspector.ImportContext.InspectAttributes` | src/index.js:50-54 | walking the attributes updates only the recorded type, to what the fold `ScanAttributes` computes from the old value, or returns the error the fold throws |
| `Inspector.ImportContext.InspectSpecifiers` | src/index.js:37-47 | walking the specifiers updates only the namespace and default names, to what the fold `ScanSpecifiers` computes, or returns the error thrown on a named specifier |
| `Inspector.NoTypeAttributeKeepsCurrent` | src/index.js:52 | with readable keys and no `type` key, the recorded type stays as it was |
| `Inspector.LastTypeAttributeWins` | src/index.js:52 | with readable keys, the value of the last `type` attribute is recorded, whatever came before it |
| `Inspector.UnreadableKeyThrows` | src/index.js:52 | a key that is neither identifier nor string, anywhere in the list, makes the walk throw the internal error |
| `Inspector.KeySpellingIrrelevant` | src/index.js:52 | two attribute lists whose keys read the same and whose values agree record the same type |
| `Inspector.FirstNamedSpecifierThrows` | src/index.js:38-40 | the first named specifier makes the walk throw the error built from its imported name, whatever specifiers precede it |
| `Inspector.NamedSpecifierMessage` | src/index.js:39 | that error is "does not provide an export named" with the module specifier and the imported name, not the local alias |
| `Inspector.ScanSpecifiersBinds` | src/index.js:41-46 | a walk that does not throw never loses a recorded name, and a non-empty list always records at least one |
| `Inspector.ScanSpecifiersRecordsLast` | src/index.js:41-46 | without named specifiers the walk succeeds; each name is the local name of the last specifier of its form, or is unchanged if there is none |
| `Declaration.CreateDeclaration` | src/index.js:62-144 | with a namespace name: a `const` whose first declarator binds it to the module object holding the escaped text, plus a second declarator `default = ns.default` exactly when a default name is given; with only a default name: one declarator binding it to the escaped text; with neither: the "unreachable" error |
| `Declaration.NamespaceDeclarationBinds` | src/index.js:63-134 | running the namespace shape binds exactly the namespace name (and the default name, if any); the namespace holds an object with exactly `default` (escaped text, read-only, fixed, enumerable) and `Symbol.toStringTag` ("Module", read-only, fixed, hidden), so that only `default` is enumerable; the default name holds the escaped text |
| `Declaration.DefaultDeclarationBinds` | src/index.js:135-141 | running the default-only shape binds the default name directly to the escaped text and nothing else |
| `Declaration.DefaultBindingAgreesAcrossShapes` | src/index.js:127-141 | the default name holds the same value whether or not a namespace object is built |
| `JsonString.EscapeChar` | src/index.js:81 | a character is copied unchanged exactly when it is not `"`, `\` or below U+0020; otherwise it becomes an escape sequence led by `\`; no output character is below U+0020 |
| `JsonString.LiteralValue` | src/index.js:81 | `JSON.stringify(text).slice(1, -1)` is exactly the escaped body: the slice removes only the two quotes |
| `JsonString.UnescapeEscapeChar` | src/index.js:81 | decoding the escape of one character, followed by anything, gives that character followed by the decoding of the rest |
| `JsonString.EscapeAppend` | src/index.js:81 | escaping a concatenation is the concatenation of the escapes |
| `JsonString.UnescapeEscape` | src/index.js:81 | decoding the escaped body gives back the text, for every text |
| `JsonString.EscapeHasNoControlCharacter` | src/index.js:81 | no character below U+0020 remains in the escaped body |
| `JsonString.EscapedQuotesAreEscaped` | src/index.js:81 | every `"` in the escaped body is the second character of the escape `\"` of a `"` of the text, placed right after the escape of the text before it |
| `JsonString.EscapedBackslashesAreEscaped` | src/index.js:81 | every `\` in the escaped body is the first character of the escape of a character that needs escaping, or the second character of the escape `\\` of a `\` of the text |
| `JsonString.EscapeIsIdentityIff` | src/index.js:139 | the escaped body equals the text exactly when no character of the text needs escaping |
| `JsonString.LiteralValueRoundTrip` | src/index.js:139 | the literal's value, put back between quotes and parsed as a JSON string, is the text |
| `InlineImport.BaseUrl` | src/index.js:24 | the base is the file URL of the file name, or of `join(cwd, "index.js")` when there is no file name |
| `InlineImport.ImportDeclaration` | src/index.js:17-31 | the visitor, with its context record and the two walks, returns exactly the outcome `Transform` specifies |
| `InlineImport.IneligibleIsUnchanged` | src/index.js:20-21 | readable attributes whose recorded type is not `inline/text` leave the statement unchanged, for every resolver and reader |
| `InlineImport.UnchangedIff` | src/index.js:20-21 | the statement is unchanged if and only if its attributes are readable and do not select inlining |
| `InlineImport.NoTypeAttributeIsUnchanged` | src/index.js:20-21 | a statement with readable keys and no `type` attribute is unchanged |
| `InlineImport.LastTypeAttributeDecides` | src/index.js:52 | with readable keys, the statement is eligible if and only if its last `type` attribute is `inline/text` |
| `InlineImport.NamedSpecifierIsError` | src/index.js:22-23 | an eligible statement with a named specifier fails with the error for the first one, naming its imported name, even beside default or namespace specifiers, and is never removed |
| `InlineImport.RemovedIff` | src/index.js:23 | the statement is removed if and only if it is eligible and has no specifiers, for every resolver and reader |
| `InlineImport.LoadErrorOrder` | src/index.js:24-30 | after the walks: a null from the resolver gives "Cannot find package", then a non-`file://` URL gives "is not of type", then a null from the reader gives "Cannot find module"; the statement is replaced if and only if all three checks pass, by the declaration built from the text read |
| `InlineImport.ReplacedBindsText` | src/index.js:28-30 | a replaced statement binds the namespace name to the synthetic module and the default name to the escaped text, and that value decodes back to the file's text |

## Left out

- Babel plumbing is not modelled: `path.traverse`, `path.remove`, `path.replaceWith`, `path.get("source")`, the unused `options` argument and the `api.types` node builders. Their effect is the `Outcome` value. The emitted tree is the small `Declaration` datatype.
- Error locations are not modelled. `buildCodeFrameError` attaches a source location to each error; the model keeps only the error's kind and message.
- Module resolution (`import-meta-resolve`) is a foreign algorithm and is a parameter of `Host`. So are `readFileSync` with `fileURLToPath`, `pathToFileURL(…).href` and `path.join`. A call that throws is modelled as `None`, which is what the `try/catch` wrappers return.
- Unpaired surrogates are not modelled. Characters are Unicode scalar values. The text is decoded from UTF-8, so it never holds an unpaired surrogate, which is the one case where QuoteJSONString writes a `\uXXXX` escape for a character of U+0020 or above.
- `JsonString.Unescape` rejects an escaped unpaired surrogate, which `JSON.parse` would accept as a lone code unit. `Escape` never produces one, so the round trip is not affected.
- How the code generator later prints the string literal is not part of this model. That includes any re-escaping of its value. The model stops at the value handed to the builder.
- `Declaration.Evaluate` covers only the three initialiser forms the plugin emits. A member access whose object or property is missing is `None`; the model does not distinguish a thrown error from `undefined`.
- `Declaration.NamespaceDeclarationBinds`, `Declaration.DefaultBindingAgreesAcrossShapes` and `InlineImport.ReplacedBindsText` require the default and namespace names to differ. The parser rejects `import d, * as d` before the plugin runs.
