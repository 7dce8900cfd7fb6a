# SaveService alias registry, in Dafny

A model of the configuration core of JMeter's `SaveService`
(`src/core/org/apache/jmeter/save/SaveService.java`): the two alias tables that
map XML element names to Java class names and back, the interpretation of the
alias definitions file (`saveservice.properties`) by `initProps`, the mapper
that translates names while reading and writing, and the small helpers for the
declared version, the file encoding, the XML declaration and the class check.

Modules:

- `Wrappers`: the `Option` type.
- `JavaString`: the `java.lang.String` operations the service relies on, with
  Java's semantics written out: `split(",")` (trailing empty strings dropped,
  so a list made only of commas yields no element at all), `trim()`,
  `equalsIgnoreCase` and `replaceAll` with a literal pattern.
- `ServiceLog`: the diagnostics the service logs, as events (collisions, a
  converter that could not be registered, a bad `_version`).
- `AliasRegistry`: the two tables as values. `AddAliases` and
  `MakeAliasEvents` specify what one `makeAlias` call does to the tables and
  to the log; lemmas count the collisions and characterise when last-write-wins
  breaks the round trip between the tables.
- `AliasDefinitions`: `Dispatch` (one entry of the definitions) and `Process`
  (the whole loop, in entry order), with the lemmas that say what the loop
  leaves behind: the last `_version` and `_file_encoding`, the converters
  registered on each saver, the last class named for each alias, the abort on
  the first alias list that is a run of commas.
- `Translation`: `realClass` and `serializedClass` of the mapper that
  `SaveService` inserts into both XStream instances.
- `Header`: the expected version and the XML declaration template.
- `Service`: the class `SaveService`, whose fields are the static fields of the
  Java class. The loop of `makeAlias` (`WriteAliases`) is proved against
  `AddAliases` and `AliasWriteEvents`, the loop of `initProps`
  (`ApplyEntries`, one entry at a time in `ApplyEntry`) against `Process` and
  `Dispatch`; `CheckClasses` states in its own contract which classes it
  returns. The ghost `log` records the events in order.

`NameUpdater.getCurrentName` and `NameUpdater.isMapped`, converter
construction by reflection, class loading and `Charset.forName` are
parameters of the operations that use them. The SHA-1 checksum of the
definitions file and the loaded entries are given to `InitProps` as options
(`None` where the Java code meets an I/O error).

The code is followed where its behaviour is not what a reader might expect:
`realClass` migrates the element name through `getCurrentName` even when it is
not an alias, because `aliasToClass` never returns null; `serializedClass`
never reaches the next mapper for a non-null class for the same reason; and
an alias list made only of commas makes `makeAlias` throw, which aborts the
loop of `initProps` and with it the static initialisation, keeping the
entries applied before it.

## Model

| member | source | states |
|---|---|---|
| Service.SaveService.constructor | src/core/org/apache/jmeter/save/SaveService.java:136-160 | before the static initialiser runs both tables are empty, the version, checksum and encoding are empty strings and no converter is registered |
| Service.SaveService.MakeAlias | src/core/org/apache/jmeter/save/SaveService.java:169-182 | fails exactly when the split list is empty (nothing changes then); otherwise the tables become `AddAliases` of the old ones, the log grows by `MakeAliasEvents`, and `classToAlias(clazz)` is the primary alias while `aliasToClass(primary)` is `clazz` |
| Service.SaveService.WriteAliases | src/core/org/apache/jmeter/save/SaveService.java:172-177 | the loop leaves every alias of the list mapped to the class over the old table, and logs exactly the collisions `AliasWriteEvents` lists |
| AliasRegistry.AddAliases | src/core/org/apache/jmeter/save/SaveService.java:172-181 | every alias of the list names the class, the class's primary alias is the first one, the key sets grow by exactly those keys and no other key of either table changes |
| AliasRegistry.Lookup | src/core/org/apache/jmeter/save/SaveService.java:285-294 | a key yields its stored value, any other string yields itself |
| Service.SaveService.AliasToClass | src/core/org/apache/jmeter/save/SaveService.java:285-288 | the class stored for an alias, or the argument itself when it is not an alias; reads the state only |
| Service.SaveService.ClassToAlias | src/core/org/apache/jmeter/save/SaveService.java:291-294 | the primary alias stored for a class, or the argument itself; reads the state only |
| AliasRegistry.AliasWriteEventsCount | src/core/org/apache/jmeter/save/SaveService.java:172-177 | the alias loop logs one error per write whose key already had a value, equal values included: all writes but the first writes of keys new to the table |
| AliasRegistry.MakeAliasEventsCount | src/core/org/apache/jmeter/save/SaveService.java:172-181 | a whole call logs those alias collisions plus one error when the class already had a primary alias |
| AliasRegistry.AliasWriteEventsFresh | src/core/org/apache/jmeter/save/SaveService.java:172-177 | distinct aliases that are all new to the table are registered without any error |
| AliasRegistry.AddAliasesConsistentIff | src/core/org/apache/jmeter/save/SaveService.java:172-181 | from tables where every primary alias leads back to its class, registering keeps that property exactly when no alias of the list is another class's primary alias (last write wins, nothing is rejected) |
| JavaString.SplitEmptyIff | src/core/org/apache/jmeter/save/SaveService.java:170-171 | `split(",")` yields no element exactly when the list is non-empty and made only of commas, the case in which `aliases[0]` throws |
| JavaString.SplitJoin | src/core/org/apache/jmeter/save/SaveService.java:170 | joining the split pieces with commas gives back the list, less trailing commas only, and a list with a comma leaves no empty piece at the end |
| JavaString.SplitHasNoComma | src/core/org/apache/jmeter/save/SaveService.java:170 | no alias produced by the split contains a comma |
| JavaString.TrimPadded | src/core/org/apache/jmeter/save/SaveService.java:237 | `trim()` removes any padding of characters up to U+0020 around a word that has none of its own |
| JavaString.EqualsIgnoreCaseNoLetter | src/core/org/apache/jmeter/save/SaveService.java:391 | comparing ignoring case with a string that has no letters is plain equality |
| JavaString.ReplaceAllSkips | src/core/org/apache/jmeter/save/SaveService.java:511 | text in which the pattern cannot start passes through `replaceAll` unchanged |
| AliasDefinitions.UseMapper | src/core/org/apache/jmeter/save/SaveService.java:237-239 | the mapper constructor is chosen only for a value that is not all blanks, and always for `collection` and `mapping` themselves |
| AliasDefinitions.Dispatch | src/core/org/apache/jmeter/save/SaveService.java:219-250 | one entry: it aborts only on a plain key whose split is empty; a key starting with `_` never touches the alias tables, and a plain key touches nothing but them |
| AliasDefinitions.Process | src/core/org/apache/jmeter/save/SaveService.java:218-251 | the loop over the entries in order; no entries change nothing, and an aborted run names the key of one of the entries |
| AliasDefinitions.ConverterFor | src/core/org/apache/jmeter/save/SaveService.java:235-239 | the converter's name is the key without its leading `_` |
| AliasDefinitions.UseMapperPadded | src/core/org/apache/jmeter/save/SaveService.java:237-239 | `collection` and `mapping` select the mapper constructor whatever blanks surround them |
| AliasDefinitions.ReservedKeysAreSpecial | src/core/org/apache/jmeter/save/SaveService.java:221-231 | a key that matches `_version`, `_file_version` or `_file_encoding` ignoring case starts with `_`, so it never reaches `makeAlias` |
| AliasDefinitions.DispatchAbortsIff | src/core/org/apache/jmeter/save/SaveService.java:221-222 | an entry aborts the loop exactly when its key is a non-empty run of commas |
| AliasDefinitions.ProcessAdvance | src/core/org/apache/jmeter/save/SaveService.java:218-251 | the run from an entry that does not abort is that entry's step followed by the run from the next entry |
| AliasDefinitions.ProcessAbort | src/core/org/apache/jmeter/save/SaveService.java:221-222 | the run from an entry that aborts stops there, with that key, adding nothing |
| AliasDefinitions.ProcessCompletesIff | src/core/org/apache/jmeter/save/SaveService.java:218-251 | the loop completes exactly when no key is a non-empty run of commas |
| AliasDefinitions.ProcessFailsOnFirst | src/core/org/apache/jmeter/save/SaveService.java:218-222 | an aborted loop stops on the first key that is a non-empty run of commas |
| AliasDefinitions.ProcessVersion | src/core/org/apache/jmeter/save/SaveService.java:225-227 | after a complete run `propertiesVersion` is the value of the last entry whose key is `_version` ignoring case, or its old value |
| AliasDefinitions.ProcessFileEncoding | src/core/org/apache/jmeter/save/SaveService.java:231-233 | after a complete run `fileEncoding` is the value of the last `_file_encoding` entry ignoring case, or its old value |
| AliasDefinitions.ProcessIgnoresFileVersion | src/core/org/apache/jmeter/save/SaveService.java:228-230 | removing the `_file_version` entries changes nothing in the run: configuration, log and outcome |
| AliasDefinitions.ProcessConverters | src/core/org/apache/jmeter/save/SaveService.java:234-250 | after a complete run each saver has gained, in entry order, the converters of the converter entries whose registration reached it; a failed registration on the test-plan saver skips the result saver and the loop goes on |
| AliasDefinitions.DispatchConverters | src/core/org/apache/jmeter/save/SaveService.java:234-250 | one entry adds to a saver's converters exactly its own converter, when it is a converter entry whose registration reaches that saver, and nothing otherwise |
| AliasDefinitions.LastSettingCons | src/core/org/apache/jmeter/save/SaveService.java:225-233 | the last setting of a key over the entries is the last setting over the rest, starting from the first entry's value when it sets that key |
| AliasDefinitions.ProcessAliasUnchanged | src/core/org/apache/jmeter/save/SaveService.java:218-222 | entries whose alias lists do not contain an alias leave its class alone, complete run or not |
| AliasDefinitions.ProcessLastAliasWins | src/core/org/apache/jmeter/save/SaveService.java:218-222 | after a complete run an alias names the class of the last entry that lists it |
| AliasDefinitions.ProcessPrimaryUnchanged | src/core/org/apache/jmeter/save/SaveService.java:218-222 | entries for other classes leave a class's primary alias alone |
| AliasDefinitions.ProcessLastPrimaryWins | src/core/org/apache/jmeter/save/SaveService.java:218-222 | after a complete run a class's primary alias is the first alias of the last entry for that class |
| Service.SaveService.InitProps | src/core/org/apache/jmeter/save/SaveService.java:207-257 | no checksum: fails and changes nothing; otherwise `fileVersion` is the checksum; unreadable definitions: fails with the rest unchanged; otherwise the state, log and outcome are those of `Process` over the entries |
| Service.SaveService.ApplyEntries | src/core/org/apache/jmeter/save/SaveService.java:218-251 | the loop leaves the configuration, log and failed key that `Process` specifies |
| Service.SaveService.ApplyEntry | src/core/org/apache/jmeter/save/SaveService.java:219-249 | one entry changes the configuration and log as `Dispatch` specifies, or fails changing nothing |
| Service.SaveService.CheckVersions | src/core/org/apache/jmeter/save/SaveService.java:390-394 | adds one warning, and changes nothing else, exactly when the declared version differs from the expected one ignoring case |
| Header.VersionMismatchIff | src/core/org/apache/jmeter/save/SaveService.java:390-394 | the version warning is given exactly when the declared version is not literally `4.0` |
| Service.SaveService.StaticInit | src/core/org/apache/jmeter/save/SaveService.java:162-166 | the static initialiser: the effect of `initProps` (the checksum becomes `fileVersion` even when the definitions cannot be read), then the version warning when it completed |
| Service.SaveService.CheckClasses | src/core/org/apache/jmeter/save/SaveService.java:373-388 | returns exactly the registered classes that are neither scheduled for renaming nor loadable, each once |
| Service.SaveService.GetFileEncoding | src/core/org/apache/jmeter/save/SaveService.java:483-490 | the configured encoding when it is non-empty, the given default otherwise |
| Service.SaveService.FileEncodingCharset | src/core/org/apache/jmeter/save/SaveService.java:493-504 | the charset of the configured encoding when there is one (failing where the lookup fails), the platform default otherwise |
| Header.TemplateFilled | src/core/org/apache/jmeter/save/SaveService.java:511 | the placeholder occurs once in the template: `replaceAll` puts the charset name in its place and keeps the rest |
| Header.XmlHeader | src/core/org/apache/jmeter/save/SaveService.java:506-514 | the header is `<?xml version="1.0" encoding="`, the charset name, `"?>` and a newline |
| Service.SaveService.WriteXmlHeader | src/core/org/apache/jmeter/save/SaveService.java:506-514 | writes the declaration naming the configured charset, or the default one when none is configured, then a newline; fails where the charset lookup fails |
| Translation.RealClassName | src/core/org/apache/jmeter/save/SaveService.java:92-98 | an alias reads as the migrated class it names; any other element name is migrated itself |
| Translation.SerializedClass | src/core/org/apache/jmeter/save/SaveService.java:101-108 | null goes to the next mapper; a class is written under its primary alias, or under its own name when it has none |
| Translation.WriteThenRead | src/core/org/apache/jmeter/save/SaveService.java:92-108 | a class that is not renamed and whose primary alias leads back to it is read back as itself |
| Translation.TranslateAfterRegister | src/core/org/apache/jmeter/save/SaveService.java:92-108 | after `makeAlias`, every alias of the list reads as the migrated class and the class is written under its primary alias |

## Left out

- XStream marshalling (`saveTree`, `saveElement`, `loadElement`, `saveSampleResult`, `loadTestResults`, `loadTree`, `readTree`): thin wrappers over an external library.
- File and stream I/O (`loadProperties`, the reader and writer plumbing): the loaded entries and the written text are values here.
- The SHA-1 checksum of the definitions file: given to `InitProps` as an option, `None` standing for the exception that aborts initialisation.
- The iteration order of `Properties` (hash order): the entries are a sequence taken in the given order; a loaded `Properties` has distinct keys, the model accepts any sequence.
- Converter construction by reflection: `Registrar` says whether `registerConverter` succeeds or fails with one of the caught exceptions; an exception outside the caught list (a class that is not a `Converter`, a linkage error) would escape `initProps` and is not modelled.
- Service.SaveService.CheckClasses: `Class.forName` and `NameUpdater.isMapped` are predicate parameters, the order of the result (hash order of the key set) is left open, and the error logged per missing class is not recorded.
- `Charset.forName` and `Charset.defaultCharset`: a function parameter and a given name.
- JavaString.EqualsIgnoreCase: folds ASCII letters only; Java's Unicode special cases (for example the Kelvin sign) are not modelled. The keys compared are ASCII in practice.
- JavaString.ReplaceAll: the pattern is literal and `$` and `\` in the replacement are not interpreted; charset names cannot contain either.
- Log message wording, `showDebuggingInfo`, `CEtoString`: formatting only; the log is a ghost sequence of events.
- `synchronized` on `saveSampleResult`: concurrency is not modelled.
- The trivial getters (`getPropertyVersion`, `getPropertiesVersion`, `getFileVersion`, `getVERSION`): each returns a field or a constant.
- The content of `NameUpdater`'s renaming table: a function parameter of `RealClassName`.
