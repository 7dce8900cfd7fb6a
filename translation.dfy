/**
 The mapper the service inserts into both XStream instances: on read it turns
 an element name into the class name handed on down the mapper chain, on
 write it turns a class into the element name.
 */
module Translation {
  import opened AliasRegistry

  /** The `Class` argument of `serializedClass`: null, or a class by name. */
  datatype TypeRef = NullType | ClassType(name: string)

  /** `realClass(alias)`: the name passed to the next mapper. The alias is
      looked up and the result is always migrated by `currentName` (the
      historic-name table), since the lookup falls back to the alias itself
      and is never null; so unmapped element names are migrated too. */
  function RealClassName(t: Tables, currentName: string -> string, alias: string): (r: string)
    ensures alias in t.aliasToClass ==> r == currentName(t.aliasToClass[alias])
    ensures alias !in t.aliasToClass ==> r == currentName(alias)
  {
    currentName(Lookup(t.aliasToClass, alias))
  }

  /** `serializedClass(type)`: the element name written for a class. A null
      type goes to the next mapper (`nullName`); for any other type the
      lookup's fallback already yields the class name, so the next mapper
      is never consulted. */
  function SerializedClass(t: Tables, typ: TypeRef, nullName: string): (r: string)
    ensures typ.NullType? ==> r == nullName
    ensures typ.ClassType? && typ.name in t.classToAlias ==> r == t.classToAlias[typ.name]
    ensures typ.ClassType? && typ.name !in t.classToAlias ==> r == typ.name
  {
    match typ
    case NullType => nullName
    case ClassType(name) => Lookup(t.classToAlias, name)
  }

  /** Writing a class and reading the element back yields the class again,
      when its primary alias still leads back to it (or it has no alias and
      its name is not used as an alias) and it is not a renamed class. */
  lemma WriteThenRead(t: Tables, currentName: string -> string, name: string, nullName: string)
    requires name in t.classToAlias ==> Lookup(t.aliasToClass, t.classToAlias[name]) == name
    requires name !in t.classToAlias ==> name !in t.aliasToClass
    requires currentName(name) == name
    ensures RealClassName(t, currentName, SerializedClass(t, ClassType(name), nullName)) == name
  {
  }

  /** Once `makeAlias` has run, every alias of the list reads as the
      (migrated) class and the class is written under its primary alias. */
  lemma TranslateAfterRegister(t: Tables, aliases: seq<string>, clazz: string,
                               currentName: string -> string, nullName: string)
    requires aliases != []
    ensures forall a :: a in aliases ==> RealClassName(AddAliases(t, aliases, clazz), currentName, a) == currentName(clazz)
    ensures SerializedClass(AddAliases(t, aliases, clazz), ClassType(clazz), nullName) == aliases[0]
  {
  }
}
