/**
 The interpretation of the alias definition source (`saveservice.properties`)
 by `initProps`: every key/value entry is an alias list for a class, the
 `_version` or `_file_encoding` setting, the obsolete `_file_version`, or a
 converter registration. `Process` specifies the whole loop over the entries,
 taken in the order given; the class in `Service` implements it.
 */
module AliasDefinitions {
  import opened Wrappers
  import opened JavaString
  import opened ServiceLog
  import opened AliasRegistry

  /** The two XStream instances: one for test plans, one for result logs. */
  datatype Saver = Jmx | Jtl

  /** A converter registration: the converter's class name and whether it is
      constructed with access to the saver's mapper. */
  datatype Converter = Converter(name: string, useMapper: bool)

  /** Whether `registerConverter` succeeds for a saver, a converter class and
      a constructor shape (class loading and construction by reflection). */
  type Registrar = (Saver, string, bool) -> bool

  /** Everything `initProps` writes while it reads the entries. */
  datatype Config = Config(
    tables: Tables,
    propertiesVersion: string,
    fileEncoding: string,
    jmxConverters: seq<Converter>,
    jtlConverters: seq<Converter>)

  /** `key.startsWith("_")` */
  predicate IsSpecialKey(key: string)
  {
    |key| > 0 && key[0] == '_'
  }

  predicate IsVersionKey(key: string)
  {
    EqualsIgnoreCase(key, "_version")
  }

  predicate IsFileVersionKey(key: string)
  {
    EqualsIgnoreCase(key, "_file_version")
  }

  predicate IsFileEncodingKey(key: string)
  {
    EqualsIgnoreCase(key, "_file_encoding")
  }

  predicate IsConverterKey(key: string)
  {
    IsSpecialKey(key) && !IsVersionKey(key) && !IsFileVersionKey(key) && !IsFileEncodingKey(key)
  }

  /** A converter is constructed with the mapper exactly when the trimmed
      value is `collection` or `mapping`. */
  function UseMapper(value: string): (r: bool)
    ensures r ==> !Blank(value)
    ensures value == "collection" || value == "mapping" ==> r
  {
    TrimPadded([], "collection", []);
    TrimPadded([], "mapping", []);
    assert [] + "collection" + [] == "collection" && [] + "mapping" + [] == "mapping";
    var v := Trim(value);
    v == "collection" || v == "mapping"
  }

  /** The converter an entry with a converter key registers. */
  function ConverterFor(key: string, value: string): (conv: Converter)
    requires IsSpecialKey(key)
    ensures [key[0]] + conv.name == key
  {
    Converter(key[1..], UseMapper(value))
  }

  /** A registration reaches a saver when `registerConverter` succeeds on
      it and on every saver tried before it (the test-plan saver first). */
  predicate RegistersOn(saver: Saver, conv: Converter, canRegister: Registrar)
  {
    canRegister(Jmx, conv.name, conv.useMapper)
    && (saver == Jmx || canRegister(Jtl, conv.name, conv.useMapper))
  }

  /** One entry: the new configuration and what was logged, or the
      exception that `makeAlias` throws on an empty alias list. */
  datatype Dispatched = Next(config: Config, events: seq<Event>) | AliasListEmpty

  function Dispatch(c: Config, key: string, value: string, canRegister: Registrar): (d: Dispatched)
    ensures d.AliasListEmpty? ==> !IsSpecialKey(key) && Split(key) == []
    ensures d.Next? && IsSpecialKey(key) ==> d.config.tables == c.tables
    ensures d.Next? && !IsSpecialKey(key) ==> d.config.(tables := c.tables) == c
  {
    if !IsSpecialKey(key) then
      var aliases := Split(key);
      if aliases == [] then AliasListEmpty
      else Next(c.(tables := AddAliases(c.tables, aliases, value)), MakeAliasEvents(c.tables, aliases, value))
    else if IsVersionKey(key) then Next(c.(propertiesVersion := value), [])
    else if IsFileVersionKey(key) then Next(c, [])
    else if IsFileEncodingKey(key) then Next(c.(fileEncoding := value), [])
    else
      var conv := ConverterFor(key, value);
      if !canRegister(Jmx, conv.name, conv.useMapper) then
        Next(c, [ConverterNotRegistered(conv.name)])
      else if !canRegister(Jtl, conv.name, conv.useMapper) then
        Next(c.(jmxConverters := c.jmxConverters + [conv]), [ConverterNotRegistered(conv.name)])
      else
        Next(c.(jmxConverters := c.jmxConverters + [conv], jtlConverters := c.jtlConverters + [conv]), [])
  }

  /** The outcome of the loop: the configuration and the log as far as it
      got, and the key of the entry that aborted it, if one did. */
  datatype Run = Run(config: Config, events: seq<Event>, failedKey: Option<string>)

  function Process(c: Config, entries: seq<(string, string)>, canRegister: Registrar): (r: Run)
    ensures r.failedKey.Some? ==> exists i :: 0 <= i < |entries| && entries[i].0 == r.failedKey.value
    ensures |entries| == 0 ==> r == Run(c, [], None)
    decreases |entries|
  {
    if entries == [] then Run(c, [], None)
    else
      match Dispatch(c, entries[0].0, entries[0].1, canRegister)
      case AliasListEmpty => Run(c, [], Some(entries[0].0))
      case Next(c', events) =>
        var r := Process(c', entries[1..], canRegister);
        Run(r.config, events + r.events, r.failedKey)
  }

  /** `Process` from position `i` on: when the entry at `i` does not abort,
      the run from `i` is its step followed by the run from `i + 1`. */
  lemma ProcessAdvance(c: Config, entries: seq<(string, string)>, i: nat, canRegister: Registrar, done: seq<Event>)
    requires i < |entries|
    requires Dispatch(c, entries[i].0, entries[i].1, canRegister).Next?
    ensures
      var step := Dispatch(c, entries[i].0, entries[i].1, canRegister);
      var run, rest := Process(c, entries[i..], canRegister), Process(step.config, entries[i + 1..], canRegister);
      && rest.config == run.config
      && rest.failedKey == run.failedKey
      && (done + step.events) + rest.events == done + run.events
  {
    assert entries[i..][0] == entries[i] && entries[i..][1..] == entries[i + 1..];
  }

  /** `Process` from position `i` on, when the entry at `i` aborts. */
  lemma ProcessAbort(c: Config, entries: seq<(string, string)>, i: nat, canRegister: Registrar)
    requires i < |entries|
    requires Dispatch(c, entries[i].0, entries[i].1, canRegister).AliasListEmpty?
    ensures Process(c, entries[i..], canRegister) == Run(c, [], Some(entries[i].0))
  {
    assert entries[i..][0] == entries[i];
  }

  // ----- Reference definitions of what the loop leaves behind -----

  /** The value of the last entry whose key satisfies `isKey`, or `initial`
      when there is none. */
  function LastSetting(entries: seq<(string, string)>, isKey: string -> bool, initial: string): string
    decreases |entries|
  {
    if entries == [] then initial
    else
      var e := entries[|entries| - 1];
      if isKey(e.0) then e.1 else LastSetting(entries[..|entries| - 1], isKey, initial)
  }

  /** The converters of the converter entries that reach `saver`, in order. */
  function Registered(entries: seq<(string, string)>, saver: Saver, canRegister: Registrar): seq<Converter>
    decreases |entries|
  {
    if entries == [] then []
    else
      var key, value := entries[0].0, entries[0].1;
      (if IsConverterKey(key) && RegistersOn(saver, ConverterFor(key, value), canRegister)
       then [ConverterFor(key, value)] else [])
      + Registered(entries[1..], saver, canRegister)
  }

  /** The entries without the obsolete `_file_version` ones. */
  function WithoutFileVersion(entries: seq<(string, string)>): seq<(string, string)>
    decreases |entries|
  {
    if entries == [] then []
    else if IsFileVersionKey(entries[0].0) then WithoutFileVersion(entries[1..])
    else [entries[0]] + WithoutFileVersion(entries[1..])
  }

  // ----- Properties -----

  /** Trimming makes the mapper flag insensitive to surrounding blanks. */
  lemma UseMapperPadded(left: string, right: string)
    requires Blank(left) && Blank(right)
    ensures UseMapper(left + "collection" + right)
    ensures UseMapper(left + "mapping" + right)
  {
    TrimPadded(left, "collection", right);
    TrimPadded(left, "mapping", right);
  }

  /** The reserved names all start with `_`, whatever their case. */
  lemma ReservedKeysAreSpecial(key: string)
    requires IsVersionKey(key) || IsFileVersionKey(key) || IsFileEncodingKey(key)
    ensures IsSpecialKey(key)
  {
    assert ToLowerAscii(key[0]) == '_';
  }

  lemma {:induction false} LastSettingCons(entries: seq<(string, string)>, isKey: string -> bool, initial: string)
    requires entries != []
    ensures LastSetting(entries, isKey, initial)
         == LastSetting(entries[1..], isKey, if isKey(entries[0].0) then entries[0].1 else initial)
    decreases |entries|
  {
    if |entries| > 1 {
      var front := entries[..|entries| - 1];
      LastSettingCons(front, isKey, initial);
      assert front[1..] == entries[1..][..|entries[1..]| - 1];
    }
  }

  /** `makeAlias` throws on a key exactly when the key is a non-empty run
      of commas (such a key cannot start with `_`). */
  lemma DispatchAbortsIff(c: Config, key: string, value: string, canRegister: Registrar)
    ensures Dispatch(c, key, value, canRegister).AliasListEmpty? <==> key != [] && AllCommas(key)
  {
    SplitEmptyIff(key);
    if key != [] && AllCommas(key) {
      assert key[0] == ',';
    }
  }

  /** A key that `makeAlias` throws on: a non-empty run of commas. */
  predicate CommasOnly(key: string)
  {
    key != [] && AllCommas(key)
  }

  /** The loop completes exactly when no key is a non-empty run of commas. */
  lemma {:induction false} ProcessCompletesIff(c: Config, entries: seq<(string, string)>, canRegister: Registrar)
    ensures Process(c, entries, canRegister).failedKey.None?
        <==> forall i :: 0 <= i < |entries| ==> !CommasOnly(entries[i].0)
    decreases |entries|
  {
    if entries != [] {
      DispatchAbortsIff(c, entries[0].0, entries[0].1, canRegister);
      match Dispatch(c, entries[0].0, entries[0].1, canRegister)
      case AliasListEmpty =>
      case Next(c', _) =>
        ProcessCompletesIff(c', entries[1..], canRegister);
        assert forall i :: 0 < i < |entries| ==> entries[i] == entries[1..][i - 1];
    }
  }

  /** When the loop aborts, it is on the first key that is a non-empty run
      of commas. */
  lemma {:induction false} ProcessFailsOnFirst(c: Config, entries: seq<(string, string)>, canRegister: Registrar)
    requires Process(c, entries, canRegister).failedKey.Some?
    ensures
      exists i :: 0 <= i < |entries| && Process(c, entries, canRegister).failedKey.value == entries[i].0
        && CommasOnly(entries[i].0) && forall j :: 0 <= j < i ==> !CommasOnly(entries[j].0)
    decreases |entries|
  {
    DispatchAbortsIff(c, entries[0].0, entries[0].1, canRegister);
    match Dispatch(c, entries[0].0, entries[0].1, canRegister)
    case AliasListEmpty =>
      assert Process(c, entries, canRegister).failedKey.value == entries[0].0;
    case Next(c', _) =>
      var tail := entries[1..];
      ProcessFailsOnFirst(c', tail, canRegister);
      var i :| 0 <= i < |tail| && Process(c', tail, canRegister).failedKey.value == tail[i].0
        && CommasOnly(tail[i].0) && forall j :: 0 <= j < i ==> !CommasOnly(tail[j].0);
      assert Process(c, entries, canRegister).failedKey == Process(c', tail, canRegister).failedKey;
      forall j | 0 <= j < i + 1
        ensures !CommasOnly(entries[j].0)
      {
        if j > 0 {
          assert entries[j] == tail[j - 1];
        }
      }
      assert entries[i + 1] == tail[i];
  }

  /** After a complete run, `propertiesVersion` holds the value of the last
      `_version` entry (in any case), or its old value if there is none. */
  lemma {:induction false} ProcessVersion(c: Config, entries: seq<(string, string)>, canRegister: Registrar)
    requires Process(c, entries, canRegister).failedKey.None?
    ensures Process(c, entries, canRegister).config.propertiesVersion
         == LastSetting(entries, IsVersionKey, c.propertiesVersion)
    decreases |entries|
  {
    if entries != [] {
      var key := entries[0].0;
      if IsVersionKey(key) {
        ReservedKeysAreSpecial(key);
      }
      var c' := Dispatch(c, key, entries[0].1, canRegister).config;
      assert c'.propertiesVersion == if IsVersionKey(key) then entries[0].1 else c.propertiesVersion;
      ProcessVersion(c', entries[1..], canRegister);
      LastSettingCons(entries, IsVersionKey, c.propertiesVersion);
    }
  }

  /** After a complete run, `fileEncoding` holds the value of the last
      `_file_encoding` entry (in any case), or its old value if there is none. */
  lemma {:induction false} ProcessFileEncoding(c: Config, entries: seq<(string, string)>, canRegister: Registrar)
    requires Process(c, entries, canRegister).failedKey.None?
    ensures Process(c, entries, canRegister).config.fileEncoding
         == LastSetting(entries, IsFileEncodingKey, c.fileEncoding)
    decreases |entries|
  {
    if entries != [] {
      var key := entries[0].0;
      if IsFileEncodingKey(key) {
        ReservedKeysAreSpecial(key);
      }
      var c' := Dispatch(c, key, entries[0].1, canRegister).config;
      assert c'.fileEncoding == if IsFileEncodingKey(key) then entries[0].1 else c.fileEncoding;
      ProcessFileEncoding(c', entries[1..], canRegister);
      LastSettingCons(entries, IsFileEncodingKey, c.fileEncoding);
    }
  }

  /** The converters registered on one saver. */
  function ConvertersOf(c: Config, saver: Saver): seq<Converter>
  {
    match saver
    case Jmx => c.jmxConverters
    case Jtl => c.jtlConverters
  }

  /** After a complete run, each saver has gained the converters of the
      converter entries whose registration reached it, in entry order. */
  lemma {:induction false} ProcessConverters(c: Config, entries: seq<(string, string)>, canRegister: Registrar, saver: Saver)
    requires Process(c, entries, canRegister).failedKey.None?
    ensures ConvertersOf(Process(c, entries, canRegister).config, saver)
         == ConvertersOf(c, saver) + Registered(entries, saver, canRegister)
    decreases |entries|
  {
    if entries != [] {
      var key, value := entries[0].0, entries[0].1;
      var d := Dispatch(c, key, value, canRegister);
      assert d.Next?;
      var c' := d.config;
      assert Process(c, entries, canRegister).config == Process(c', entries[1..], canRegister).config;
      ProcessConverters(c', entries[1..], canRegister, saver);
      var added := if IsConverterKey(key) && RegistersOn(saver, ConverterFor(key, value), canRegister)
                   then [ConverterFor(key, value)] else [];
      DispatchConverters(c, key, value, canRegister, saver);
      assert Registered(entries, saver, canRegister) == added + Registered(entries[1..], saver, canRegister);
    }
  }

  /** One entry adds its own converter to a saver when it is a converter
      entry whose registration reaches that saver, and nothing otherwise. */
  lemma DispatchConverters(c: Config, key: string, value: string, canRegister: Registrar, saver: Saver)
    requires Dispatch(c, key, value, canRegister).Next?
    ensures ConvertersOf(Dispatch(c, key, value, canRegister).config, saver)
         == ConvertersOf(c, saver)
            + if IsConverterKey(key) && RegistersOn(saver, ConverterFor(key, value), canRegister)
              then [ConverterFor(key, value)] else []
  {
  }

  /** Entries whose alias lists do not contain `a` leave its class alone,
      whether or not the run completes. */
  lemma {:induction false} ProcessAliasUnchanged(c: Config, entries: seq<(string, string)>, canRegister: Registrar, a: string)
    requires forall i :: 0 <= i < |entries| && !IsSpecialKey(entries[i].0) ==> a !in Split(entries[i].0)
    ensures Lookup(Process(c, entries, canRegister).config.tables.aliasToClass, a) == Lookup(c.tables.aliasToClass, a)
    decreases |entries|
  {
    if entries != [] {
      match Dispatch(c, entries[0].0, entries[0].1, canRegister)
      case AliasListEmpty =>
      case Next(c', _) =>
        assert Lookup(c'.tables.aliasToClass, a) == Lookup(c.tables.aliasToClass, a);
        forall i | 0 <= i < |entries[1..]| && !IsSpecialKey(entries[1..][i].0)
          ensures a !in Split(entries[1..][i].0)
        {
          assert entries[1..][i] == entries[i + 1];
        }
        ProcessAliasUnchanged(c', entries[1..], canRegister, a);
    }
  }

  /** Last write wins: after a complete run, an alias names the class of the
      last entry that lists it. */
  lemma {:induction false} ProcessLastAliasWins(c: Config, entries: seq<(string, string)>, canRegister: Registrar, i: nat, a: string)
    requires Process(c, entries, canRegister).failedKey.None?
    requires i < |entries| && !IsSpecialKey(entries[i].0) && a in Split(entries[i].0)
    requires forall j :: i < j < |entries| && !IsSpecialKey(entries[j].0) ==> a !in Split(entries[j].0)
    ensures Lookup(Process(c, entries, canRegister).config.tables.aliasToClass, a) == entries[i].1
    decreases i
  {
    var c' := Dispatch(c, entries[0].0, entries[0].1, canRegister).config;
    if i == 0 {
      assert Lookup(c'.tables.aliasToClass, a) == entries[0].1;
      forall j | 0 <= j < |entries[1..]| && !IsSpecialKey(entries[1..][j].0)
        ensures a !in Split(entries[1..][j].0)
      {
        assert entries[1..][j] == entries[j + 1];
      }
      ProcessAliasUnchanged(c', entries[1..], canRegister, a);
    } else {
      assert entries[1..][i - 1] == entries[i];
      forall j | i - 1 < j < |entries[1..]| && !IsSpecialKey(entries[1..][j].0)
        ensures a !in Split(entries[1..][j].0)
      {
        assert entries[1..][j] == entries[j + 1];
      }
      ProcessLastAliasWins(c', entries[1..], canRegister, i - 1, a);
    }
  }

  /** Entries for other classes leave a class's primary alias alone. */
  lemma {:induction false} ProcessPrimaryUnchanged(c: Config, entries: seq<(string, string)>, canRegister: Registrar, clazz: string)
    requires forall i :: 0 <= i < |entries| && !IsSpecialKey(entries[i].0) ==> entries[i].1 != clazz
    ensures Lookup(Process(c, entries, canRegister).config.tables.classToAlias, clazz) == Lookup(c.tables.classToAlias, clazz)
    decreases |entries|
  {
    if entries != [] {
      match Dispatch(c, entries[0].0, entries[0].1, canRegister)
      case AliasListEmpty =>
      case Next(c', _) =>
        assert Lookup(c'.tables.classToAlias, clazz) == Lookup(c.tables.classToAlias, clazz);
        forall i | 0 <= i < |entries[1..]| && !IsSpecialKey(entries[1..][i].0)
          ensures entries[1..][i].1 != clazz
        {
          assert entries[1..][i] == entries[i + 1];
        }
        ProcessPrimaryUnchanged(c', entries[1..], canRegister, clazz);
    }
  }

  /** Last write wins for classes too: after a complete run, a class's
      primary alias is the first alias of the last entry naming the class. */
  lemma {:induction false} ProcessLastPrimaryWins(c: Config, entries: seq<(string, string)>, canRegister: Registrar, i: nat)
    requires Process(c, entries, canRegister).failedKey.None?
    requires i < |entries| && !IsSpecialKey(entries[i].0)
    requires forall j :: i < j < |entries| && !IsSpecialKey(entries[j].0) ==> entries[j].1 != entries[i].1
    ensures Split(entries[i].0) != []
    ensures Lookup(Process(c, entries, canRegister).config.tables.classToAlias, entries[i].1)
         == Split(entries[i].0)[0]
    decreases i
  {
    var c' := Dispatch(c, entries[0].0, entries[0].1, canRegister).config;
    if i == 0 {
      forall j | 0 <= j < |entries[1..]| && !IsSpecialKey(entries[1..][j].0)
        ensures entries[1..][j].1 != entries[0].1
      {
        assert entries[1..][j] == entries[j + 1];
      }
      ProcessPrimaryUnchanged(c', entries[1..], canRegister, entries[0].1);
    } else {
      assert entries[1..][i - 1] == entries[i];
      forall j | i - 1 < j < |entries[1..]| && !IsSpecialKey(entries[1..][j].0)
        ensures entries[1..][j].1 != entries[i].1
      {
        assert entries[1..][j] == entries[j + 1];
      }
      ProcessLastPrimaryWins(c', entries[1..], canRegister, i - 1);
    }
  }

  /** The obsolete `_file_version` entries have no effect at all. */
  lemma {:induction false} ProcessIgnoresFileVersion(c: Config, entries: seq<(string, string)>, canRegister: Registrar)
    ensures Process(c, entries, canRegister) == Process(c, WithoutFileVersion(entries), canRegister)
    decreases |entries|
  {
    if entries != [] {
      var key := entries[0].0;
      if IsFileVersionKey(key) {
        ReservedKeysAreSpecial(key);
        assert Dispatch(c, key, entries[0].1, canRegister) == Next(c, []);
        ProcessIgnoresFileVersion(c, entries[1..], canRegister);
      } else {
        var w := [entries[0]] + WithoutFileVersion(entries[1..]);
        assert w[0] == entries[0] && w[1..] == WithoutFileVersion(entries[1..]);
        match Dispatch(c, key, entries[0].1, canRegister)
        case AliasListEmpty =>
        case Next(c', _) =>
          ProcessIgnoresFileVersion(c', entries[1..], canRegister);
      }
    }
  }
}
