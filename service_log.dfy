/**
 The diagnostics of the save service that the model keeps: only the events a
 test can observe (collisions, skipped converters, a version mismatch), not
 the wording of the log lines.
 */
module ServiceLog {

  datatype Event =
      /** An alias that already named a class was overwritten; the message
          names the primary alias of the list, the new class and the old one. */
    | DuplicateClass(alias: string, clazz: string, previous: string)
      /** A class that already had a primary alias was given a new one. */
    | DuplicateAlias(clazz: string, alias: string, previous: string)
      /** Registering the converter of this name failed and was skipped. */
    | ConverterNotRegistered(name: string)
      /** The `_version` of the definitions is not the one the code expects. */
    | BadVersion(expected: string, found: string)
}
