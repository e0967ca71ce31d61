/**
  The import inspector: the two visitors (`importAttributeInspector` and
  `importSpecifierInspector`) that walk an import statement and fill in its
  per-statement context record.

  `ScanAttributes` and `ScanSpecifiers` say, as folds over the lists, what a walk
  computes; the methods of `ImportContext` perform the walks, updating the
  record's fields in place, and are proved against the folds.
*/
module Inspector {
  import opened Wrappers
  import opened ImportSyntax

  /** The bindings an import statement asks for. */
  datatype Bindings = Bindings(namespaceName: Option<string>, defaultName: Option<string>)

  /** Is this attribute the `type` attribute? (Its key must have a text for this to be asked.) */
  predicate IsTypeAttribute(a: Attribute) {
    GetValue(a.key) == Success("type")
  }

  /** Every key can be read: none is a node other than an identifier or a string. */
  predicate KeysReadable(attributes: seq<Attribute>) {
    forall i | 0 <= i < |attributes| :: !attributes[i].key.OtherKeyNode?
  }

  /**
    The attribute walk from a current `type`: each attribute whose key reads
    `type` overwrites it, other keys are skipped, and an unreadable key throws.
  */
  function ScanAttributes(attributes: seq<Attribute>, current: Option<string>): Result<Option<string>, Error> {
    if attributes == [] then Success(current)
    else match GetValue(attributes[0].key)
      case Failure(e) => Failure(e)
      case Success(name) =>
        ScanAttributes(attributes[1..], if name == "type" then Some(attributes[0].value) else current)
  }

  /** The message of the error a named specifier raises. */
  function NoSuchExportMessage(moduleSpecifier: string, exportName: string): string {
    "The requested module '" + moduleSpecifier + "' does not provide an export named '" + exportName + "'"
  }

  /** The error a named specifier raises: it names the imported name, read through `GetValue`. */
  function NamedSpecifierError(moduleSpecifier: string, imported: Key): Error {
    match GetValue(imported)
    case Failure(e) => e
    case Success(name) => Error(UnsupportedSpecifier, NoSuchExportMessage(moduleSpecifier, name))
  }

  /**
    The specifier walk: a named specifier throws at once, a namespace or default
    specifier records its local name.
  */
  function ScanSpecifiers(moduleSpecifier: string, specifiers: seq<Specifier>, current: Bindings)
    : Result<Bindings, Error>
  {
    if specifiers == [] then Success(current)
    else match specifiers[0]
      case Named(imported, _) => Failure(NamedSpecifierError(moduleSpecifier, imported))
      case Namespace(local) =>
        ScanSpecifiers(moduleSpecifier, specifiers[1..], current.(namespaceName := Some(local)))
      case Default(local) =>
        ScanSpecifiers(moduleSpecifier, specifiers[1..], current.(defaultName := Some(local)))
  }

  /** The context record the visitor allocates for one import statement. */
  class ImportContext {
    var attributeType: Option<string>
    const moduleSpecifier: string
    var defaultIdentifier: Option<string>
    var namespaceIdentifier: Option<string>

    constructor (moduleSpecifier: string)
      ensures this.moduleSpecifier == moduleSpecifier
      ensures attributeType == None && defaultIdentifier == None && namespaceIdentifier == None
    {
      this.moduleSpecifier := moduleSpecifier;
      attributeType := None;
      defaultIdentifier := None;
      namespaceIdentifier := None;
    }

    function CurrentBindings(): Bindings
      reads this
    {
      Bindings(namespaceIdentifier, defaultIdentifier)
    }

    /**
      Visits the attributes in order, recording the value of each `type`
      attribute; returns the error thrown on an unreadable key, if any.
    */
    method InspectAttributes(attributes: seq<Attribute>) returns (thrown: Option<Error>)
      modifies this`attributeType
      ensures var expected := ScanAttributes(attributes, old(attributeType));
        && (thrown.None? <==> expected.Success?)
        && (expected.Success? ==> attributeType == expected.value)
        && (expected.Failure? ==> thrown == Some(expected.error))
    {
      var i := 0;
      while i < |attributes|
        invariant 0 <= i <= |attributes|
        invariant ScanAttributes(attributes, old(attributeType)) == ScanAttributes(attributes[i..], attributeType)
      {
        var key := GetValue(attributes[i].key);
        if key.Failure? {
          return Some(key.error);
        }
        if key.value == "type" {
          attributeType := Some(attributes[i].value);
        }
        assert attributes[i..][1..] == attributes[i + 1..];
        i := i + 1;
      }
      return None;
    }

    /**
      Visits the specifiers in order: throws on the first named specifier and
      records the local names of namespace and default specifiers.
    */
    method InspectSpecifiers(specifiers: seq<Specifier>) returns (thrown: Option<Error>)
      modifies this`namespaceIdentifier, this`defaultIdentifier
      ensures var expected := ScanSpecifiers(moduleSpecifier, specifiers, old(CurrentBindings()));
        && (thrown.None? <==> expected.Success?)
        && (expected.Success? ==> CurrentBindings() == expected.value)
        && (expected.Failure? ==> thrown == Some(expected.error))
    {
      var i := 0;
      while i < |specifiers|
        invariant 0 <= i <= |specifiers|
        invariant ScanSpecifiers(moduleSpecifier, specifiers, old(CurrentBindings()))
               == ScanSpecifiers(moduleSpecifier, specifiers[i..], CurrentBindings())
      {
        assert specifiers[i..][1..] == specifiers[i + 1..];
        match specifiers[i] {
          case Named(imported, _) =>
            return Some(NamedSpecifierError(moduleSpecifier, imported));
          case Namespace(local) =>
            namespaceIdentifier := Some(local);
          case Default(local) =>
            defaultIdentifier := Some(local);
        }
        i := i + 1;
      }
      return None;
    }
  }

  // Properties of the attribute walk.

  /** With readable keys and no `type` key, the walk keeps the current value. */
  lemma {:induction false} NoTypeAttributeKeepsCurrent(attributes: seq<Attribute>, current: Option<string>)
    requires KeysReadable(attributes)
    requires forall i | 0 <= i < |attributes| :: !IsTypeAttribute(attributes[i])
    ensures ScanAttributes(attributes, current) == Success(current)
  {
    if attributes != [] {
      assert !attributes[0].key.OtherKeyNode? && !IsTypeAttribute(attributes[0]);
      NoTypeAttributeKeepsCurrent(attributes[1..], current);
    }
  }

  /** With readable keys, the last `type` attribute decides, whatever came before it. */
  lemma {:induction false} LastTypeAttributeWins(attributes: seq<Attribute>, j: nat, current: Option<string>)
    requires KeysReadable(attributes)
    requires j < |attributes| && IsTypeAttribute(attributes[j])
    requires forall k | j < k < |attributes| :: !IsTypeAttribute(attributes[k])
    ensures ScanAttributes(attributes, current) == Success(Some(attributes[j].value))
  {
    assert !attributes[0].key.OtherKeyNode?;
    if j == 0 {
      NoTypeAttributeKeepsCurrent(attributes[1..], Some(attributes[0].value));
    } else {
      var name := GetValue(attributes[0].key).value;
      LastTypeAttributeWins(attributes[1..], j - 1, if name == "type" then Some(attributes[0].value) else current);
    }
  }

  /** An unreadable key anywhere makes the walk throw the internal error. */
  lemma {:induction false} UnreadableKeyThrows(attributes: seq<Attribute>, current: Option<string>)
    requires !KeysReadable(attributes)
    ensures ScanAttributes(attributes, current) == Failure(UnreachableError)
  {
    if !attributes[0].key.OtherKeyNode? {
      var name := GetValue(attributes[0].key).value;
      assert !KeysReadable(attributes[1..]) by {
        var i :| 0 <= i < |attributes| && attributes[i].key.OtherKeyNode?;
        assert attributes[1..][i - 1] == attributes[i];
      }
      UnreadableKeyThrows(attributes[1..], if name == "type" then Some(attributes[0].value) else current);
    }
  }

  /**
    Only the text of a key matters: two attribute lists whose keys read the
    same (an identifier and a string with the same text, say) and whose values
    agree give the same walk.
  */
  lemma {:induction false} KeySpellingIrrelevant(a: seq<Attribute>, b: seq<Attribute>, current: Option<string>)
    requires |a| == |b|
    requires forall i | 0 <= i < |a| :: GetValue(a[i].key) == GetValue(b[i].key) && a[i].value == b[i].value
    ensures ScanAttributes(a, current) == ScanAttributes(b, current)
  {
    if a != [] {
      assert GetValue(a[0].key) == GetValue(b[0].key);
      if GetValue(a[0].key).Success? {
        var name := GetValue(a[0].key).value;
        KeySpellingIrrelevant(a[1..], b[1..], if name == "type" then Some(a[0].value) else current);
      }
    }
  }

  // Properties of the specifier walk.

  /** The first named specifier decides the walk: it throws, naming the imported name. */
  lemma {:induction false} FirstNamedSpecifierThrows(moduleSpecifier: string, specifiers: seq<Specifier>,
                                                      j: nat, current: Bindings)
    requires j < |specifiers| && specifiers[j].Named?
    requires forall k | 0 <= k < j :: !specifiers[k].Named?
    ensures ScanSpecifiers(moduleSpecifier, specifiers, current)
         == Failure(NamedSpecifierError(moduleSpecifier, specifiers[j].imported))
  {
    if j > 0 {
      var next := match specifiers[0]
        case Namespace(local) => current.(namespaceName := Some(local))
        case Default(local) => current.(defaultName := Some(local))
        case Named(_, _) => current;
      FirstNamedSpecifierThrows(moduleSpecifier, specifiers[1..], j - 1, next);
    }
  }

  /** A named specifier with a readable imported name throws the "no such export" error for that name. */
  lemma NamedSpecifierMessage(moduleSpecifier: string, imported: Key)
    requires !imported.OtherKeyNode?
    ensures NamedSpecifierError(moduleSpecifier, imported)
         == Error(UnsupportedSpecifier, NoSuchExportMessage(moduleSpecifier, GetValue(imported).value))
  {
  }

  /**
    A walk that does not throw never forgets a binding, and one over a non-empty
    list always ends with at least one binding.
  */
  lemma {:induction false} ScanSpecifiersBinds(moduleSpecifier: string, specifiers: seq<Specifier>,
                                                current: Bindings)
    requires ScanSpecifiers(moduleSpecifier, specifiers, current).Success?
    ensures var b := ScanSpecifiers(moduleSpecifier, specifiers, current).value;
      && (current.namespaceName.Some? ==> b.namespaceName.Some?)
      && (current.defaultName.Some? ==> b.defaultName.Some?)
      && (specifiers != [] ==> b.namespaceName.Some? || b.defaultName.Some?)
  {
    if specifiers != [] {
      match specifiers[0]
      case Namespace(local) =>
        ScanSpecifiersBinds(moduleSpecifier, specifiers[1..], current.(namespaceName := Some(local)));
      case Default(local) =>
        ScanSpecifiersBinds(moduleSpecifier, specifiers[1..], current.(defaultName := Some(local)));
    }
  }

  /**
    Without named specifiers the walk succeeds, and each binding is the local
    name of the last specifier of its form, or stays as it was when there is none.
  */
  lemma {:induction false} ScanSpecifiersRecordsLast(moduleSpecifier: string, specifiers: seq<Specifier>,
                                                      current: Bindings)
    requires forall k | 0 <= k < |specifiers| :: !specifiers[k].Named?
    ensures var r := ScanSpecifiers(moduleSpecifier, specifiers, current);
      && r.Success?
      && (forall k | 0 <= k < |specifiers| && specifiers[k].Namespace?
            && (forall m | k < m < |specifiers| :: !specifiers[m].Namespace?)
            :: r.value.namespaceName == Some(specifiers[k].local))
      && ((forall k | 0 <= k < |specifiers| :: !specifiers[k].Namespace?)
            ==> r.value.namespaceName == current.namespaceName)
      && (forall k | 0 <= k < |specifiers| && specifiers[k].Default?
            && (forall m | k < m < |specifiers| :: !specifiers[m].Default?)
            :: r.value.defaultName == Some(specifiers[k].local))
      && ((forall k | 0 <= k < |specifiers| :: !specifiers[k].Default?)
            ==> r.value.defaultName == current.defaultName)
  {
    if specifiers != [] {
      var rest := specifiers[1..];
      assert forall k | 1 <= k < |specifiers| :: specifiers[k] == rest[k - 1];
      var next := match specifiers[0]
        case Namespace(local) => current.(namespaceName := Some(local))
        case Default(local) => current.(defaultName := Some(local))
        case Named(_, _) => current;
      ScanSpecifiersRecordsLast(moduleSpecifier, rest, next);
    }
  }
}
