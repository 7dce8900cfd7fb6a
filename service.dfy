/**
 The save service's process-wide state and the operations that fill and read
 it. The Java class keeps this state in static fields; here it is one object
 whose fields are those statics. The ghost `log` records the diagnostics of
 `ServiceLog` in the order they are written.
 */
module Service {
  import opened Wrappers
  import opened JavaString
  import opened ServiceLog
  import opened AliasRegistry
  import opened AliasDefinitions
  import opened Header

  /** How `initProps` ended: normally, or with the error that aborts the
      static initialisation of the service. */
  datatype InitOutcome =
    | Initialized
      /** The checksum of the definitions file could not be computed. */
    | ChecksumUnavailable
      /** The definitions file could not be loaded. */
    | DefinitionsUnreadable
      /** `makeAlias` met a key whose `split(",")` is empty and threw. */
    | EmptyAliasList(key: string)

  class SaveService {
    var aliasToClass: map<string, string>
    var classToAlias: map<string, string>
    var propertiesVersion: string
    var fileVersion: string
    var fileEncoding: string
    var jmxConverters: seq<Converter>
    var jtlConverters: seq<Converter>
    ghost var log: seq<Event>

    /** The state before the static initialiser runs. */
    constructor ()
      ensures aliasToClass == map[] && classToAlias == map[]
      ensures propertiesVersion == "" && fileVersion == "" && fileEncoding == ""
      ensures jmxConverters == [] && jtlConverters == [] && log == []
    {
      aliasToClass, classToAlias := map[], map[];
      propertiesVersion, fileVersion, fileEncoding := "", "", "";
      jmxConverters, jtlConverters := [], [];
      log := [];
    }

    /** The part of the state that the alias definitions determine. */
    function Current(): Config
      reads this
    {
      Config(Tables(aliasToClass, classToAlias), propertiesVersion, fileEncoding, jmxConverters, jtlConverters)
    }

    /** `aliasToClass(s)`: the class an alias names, or `s` itself. */
    function AliasToClass(s: string): (r: string)
      reads this
      ensures s in aliasToClass ==> r == aliasToClass[s]
      ensures s !in aliasToClass ==> r == s
    {
      Lookup(aliasToClass, s)
    }

    /** `classToAlias(s)`: the primary alias of a class, or `s` itself. */
    function ClassToAlias(s: string): (r: string)
      reads this
      ensures s in classToAlias ==> r == classToAlias[s]
      ensures s !in classToAlias ==> r == s
    {
      Lookup(classToAlias, s)
    }

    /** `makeAlias(aliasList, clazz)`: registers every alias of the list for
        the class and the first one as its primary alias, logging every key
        that already had a value. Returns false, changing nothing, where the
        Java code throws because the split is empty. */
    method MakeAlias(aliasList: string, clazz: string) returns (ok: bool)
      modifies this`aliasToClass, this`classToAlias, this`log
      ensures ok <==> Split(aliasList) != []
      ensures ok ==>
        Tables(aliasToClass, classToAlias) == AddAliases(Tables(old(aliasToClass), old(classToAlias)), Split(aliasList), clazz)
      ensures ok ==> log == old(log) + MakeAliasEvents(Tables(old(aliasToClass), old(classToAlias)), Split(aliasList), clazz)
      ensures ok ==> ClassToAlias(clazz) == Split(aliasList)[0] && AliasToClass(Split(aliasList)[0]) == clazz
      ensures !ok ==> aliasToClass == old(aliasToClass) && classToAlias == old(classToAlias) && log == old(log)
    {
      var aliases := Split(aliasList);
      if aliases == [] {
        return false;
      }
      var alias := aliases[0];
      ghost var t0 := Tables(aliasToClass, classToAlias);
      WriteAliases(aliases, alias, clazz);
      ghost var log1 := log;
      if clazz in classToAlias {
        log := log + [DuplicateAlias(clazz, alias, classToAlias[clazz])];
      }
      classToAlias := classToAlias[clazz := alias];
      assert log == log1 + (if clazz in t0.classToAlias then [DuplicateAlias(clazz, alias, t0.classToAlias[clazz])] else []);
      ok := true;
    }

    /** The loop of `makeAlias`: writes the aliases one by one, logging each
        write that replaces a value. */
    method WriteAliases(aliases: seq<string>, alias: string, clazz: string)
      modifies this`aliasToClass, this`log
      ensures aliasToClass == Written(old(aliasToClass), aliases, clazz)
      ensures log == old(log) + AliasWriteEvents(old(aliasToClass), aliases, alias, clazz)
    {
      var i := 0;
      while i < |aliases|
        invariant 0 <= i <= |aliases|
        invariant aliasToClass == Written(old(aliasToClass), aliases[..i], clazz)
        invariant log + AliasWriteEvents(aliasToClass, aliases[i..], alias, clazz)
               == old(log) + AliasWriteEvents(old(aliasToClass), aliases, alias, clazz)
      {
        var a := aliases[i];
        AliasWriteEventsStep(aliasToClass, aliases, i, alias, clazz, log);
        WrittenStep(old(aliasToClass), aliases, i, clazz);
        log := log + if a in aliasToClass then [DuplicateClass(alias, clazz, aliasToClass[a])] else [];
        aliasToClass := aliasToClass[a := clazz];
        i := i + 1;
      }
      assert aliases[..i] == aliases && aliases[i..] == [];
    }

    /** `initProps`: computes the checksum of the definitions, loads them and
        interprets every entry in turn. The checksum and the loaded entries
        are given (None where the Java code meets an I/O error), and
        `canRegister` stands for converter construction by reflection. */
    method InitProps(checksum: Option<string>, source: Option<seq<(string, string)>>, canRegister: Registrar)
      returns (outcome: InitOutcome)
      modifies this
      ensures checksum.None? ==> outcome == ChecksumUnavailable && unchanged(this)
      ensures checksum.Some? ==> fileVersion == checksum.value
      ensures checksum.Some? && source.None? ==>
        outcome == DefinitionsUnreadable && Current() == old(Current()) && log == old(log)
      ensures checksum.Some? && source.Some? ==>
        var run := Process(old(Current()), source.value, canRegister);
        && Current() == run.config
        && log == old(log) + run.events
        && outcome == (if run.failedKey.Some? then EmptyAliasList(run.failedKey.value) else Initialized)
    {
      if checksum.None? {
        return ChecksumUnavailable;
      }
      fileVersion := checksum.value;
      if source.None? {
        return DefinitionsUnreadable;
      }
      var failed := ApplyEntries(source.value, canRegister);
      outcome := if failed.Some? then EmptyAliasList(failed.value) else Initialized;
    }

    /** The loop of `initProps`: interprets the entries in order, stopping
        at the first one on which `makeAlias` throws (its key is returned). */
    method ApplyEntries(entries: seq<(string, string)>, canRegister: Registrar) returns (failed: Option<string>)
      modifies this`aliasToClass, this`classToAlias, this`propertiesVersion, this`fileEncoding
      modifies this`jmxConverters, this`jtlConverters, this`log
      ensures Current() == Process(old(Current()), entries, canRegister).config
      ensures log == old(log) + Process(old(Current()), entries, canRegister).events
      ensures failed == Process(old(Current()), entries, canRegister).failedKey
    {
      ghost var cfg := Current();
      ghost var all := Process(cfg, entries, canRegister);
      var i := 0;
      while i < |entries|
        invariant 0 <= i <= |entries|
        invariant Current() == cfg
        invariant Process(cfg, entries[i..], canRegister).config == all.config
        invariant log + Process(cfg, entries[i..], canRegister).events == old(log) + all.events
        invariant Process(cfg, entries[i..], canRegister).failedKey == all.failedKey
      {
        ghost var step := Dispatch(cfg, entries[i].0, entries[i].1, canRegister);
        ghost var done := log;
        var ok := ApplyEntry(entries[i].0, entries[i].1, canRegister);
        if !ok {
          ProcessAbort(cfg, entries, i, canRegister);
          assert log + [] == log;
          return Some(entries[i].0);
        }
        ProcessAdvance(cfg, entries, i, canRegister, done);
        cfg := step.config;
        i := i + 1;
      }
      assert entries[i..] == [] && log + [] == log;
      return None;
    }

    /** The body of the loop of `initProps`: interprets one entry of the
        definitions. Returns false, changing nothing, where `makeAlias`
        throws. */
    method ApplyEntry(key: string, value: string, canRegister: Registrar) returns (ok: bool)
      modifies this`aliasToClass, this`classToAlias, this`propertiesVersion, this`fileEncoding
      modifies this`jmxConverters, this`jtlConverters, this`log
      ensures ok <==> Dispatch(old(Current()), key, value, canRegister).Next?
      ensures ok ==> Current() == Dispatch(old(Current()), key, value, canRegister).config
      ensures ok ==> log == old(log) + Dispatch(old(Current()), key, value, canRegister).events
      ensures !ok ==> Current() == old(Current()) && log == old(log)
    {
      if !(|key| > 0 && key[0] == '_') {
        ok := MakeAlias(key, value);
      } else if EqualsIgnoreCase(key, "_version") {
        propertiesVersion := value;
        ok := true;
      } else if EqualsIgnoreCase(key, "_file_version") {
        // obsolete: the file version is now the checksum
        ok := true;
      } else if EqualsIgnoreCase(key, "_file_encoding") {
        fileEncoding := value;
        ok := true;
      } else {
        var name := key[1..];
        var useMapper := UseMapper(value);
        if canRegister(Jmx, name, useMapper) {
          jmxConverters := jmxConverters + [Converter(name, useMapper)];
          if canRegister(Jtl, name, useMapper) {
            jtlConverters := jtlConverters + [Converter(name, useMapper)];
          } else {
            log := log + [ConverterNotRegistered(name)];
          }
        } else {
          log := log + [ConverterNotRegistered(name)];
        }
        ok := true;
      }
    }

    /** `checkVersions`: logs a warning, and nothing else, when the declared
        version is not the expected one. */
    method CheckVersions()
      modifies this`log
      ensures log == old(log) + (if VersionMismatch(propertiesVersion)
                                 then [BadVersion(PropVersion, propertiesVersion)] else [])
    {
      if !EqualsIgnoreCase(PropVersion, propertiesVersion) {
        log := log + [BadVersion(PropVersion, propertiesVersion)];
      }
    }

    /** The static initialiser: `initProps`, then `checkVersions` if the
        former did not throw. */
    method StaticInit(checksum: Option<string>, source: Option<seq<(string, string)>>, canRegister: Registrar)
      returns (outcome: InitOutcome)
      modifies this
      ensures checksum.Some? ==> fileVersion == checksum.value
      ensures checksum.Some? && source.Some? ==>
        var run := Process(old(Current()), source.value, canRegister);
        && Current() == run.config
        && outcome == (if run.failedKey.Some? then EmptyAliasList(run.failedKey.value) else Initialized)
        && log == old(log) + run.events
                  + (if outcome == Initialized && VersionMismatch(run.config.propertiesVersion)
                     then [BadVersion(PropVersion, run.config.propertiesVersion)] else [])
      ensures checksum.None? ==> outcome == ChecksumUnavailable && unchanged(this)
      ensures checksum.Some? && source.None? ==>
        outcome == DefinitionsUnreadable && Current() == old(Current()) && log == old(log)
    {
      outcome := InitProps(checksum, source, canRegister);
      if outcome == Initialized {
        CheckVersions();
      }
    }

    /** `checkClasses`: the registered classes that are neither scheduled
        for renaming (`isMapped`) nor loadable (`resolves`), each once. */
    method CheckClasses(isMapped: string -> bool, resolves: string -> bool) returns (missing: seq<string>)
      ensures forall name :: name in missing <==> name in classToAlias && !isMapped(name) && !resolves(name)
      ensures forall i, j :: 0 <= i < j < |missing| ==> missing[i] != missing[j]
    {
      missing := [];
      var todo := classToAlias.Keys;
      while todo != {}
        invariant todo <= classToAlias.Keys
        invariant forall name :: name in missing <==>
          name in classToAlias && name !in todo && !isMapped(name) && !resolves(name)
        invariant forall i, j :: 0 <= i < j < |missing| ==> missing[i] != missing[j]
        decreases |todo|
      {
        var name :| name in todo;
        if !isMapped(name) && !resolves(name) {
          missing := missing + [name];
        }
        todo := todo - {name};
      }
    }

    /** `getFileEncoding(dflt)`: the configured encoding, or the default
        when none was configured. */
    function GetFileEncoding(dflt: string): (r: string)
      reads this
      ensures fileEncoding != [] ==> r == fileEncoding
      ensures fileEncoding == [] ==> r == dflt
    {
      if |fileEncoding| > 0 then fileEncoding else dflt
    }

    /** The canonical name of the charset files are written in: the
        configured encoding looked up by `forName` (None where
        `Charset.forName` throws), or the platform default. */
    function FileEncodingCharset(forName: string -> Option<string>, defaultCharset: string): (r: Option<string>)
      reads this
      ensures fileEncoding != [] ==> r == forName(fileEncoding)
      ensures fileEncoding == [] ==> r == Some(defaultCharset)
    {
      if |fileEncoding| > 0 then forName(fileEncoding) else Some(defaultCharset)
    }

    /** `writeXmlHeader`: the XML declaration naming the charset, then a
        newline; None where the charset lookup throws. */
    function WriteXmlHeader(forName: string -> Option<string>, defaultCharset: string): (r: Option<string>)
      reads this
      ensures fileEncoding == [] ==>
        r == Some("<" + DeclOpen + defaultCharset + DeclClose + "\n")
      ensures fileEncoding != [] && forName(fileEncoding).None? ==> r.None?
      ensures fileEncoding != [] && forName(fileEncoding).Some? ==>
        r == Some("<" + DeclOpen + forName(fileEncoding).value + DeclClose + "\n")
    {
      match FileEncodingCharset(forName, defaultCharset)
      case None => None
      case Some(name) => Some(XmlHeader(name))
    }
  }
}
