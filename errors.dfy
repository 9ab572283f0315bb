/** The Python exceptions that abort loading a backup or answering a query. */
module Errors {

  datatype Error =
    | AssertionError               // a failed `assert` on a tag or on entry attribute names
    | KeyError(key: string)        // a missing `uid`, `date`, `version` or `name`
    | TypeError                    // a record built from the wrong fields, or `list(None)`
    | ValueError                   // `int()` of a `date` that is not an integer literal
    | NotImplementedError          // an unknown element under the root, or an unknown table
    | AttributeError(name: string) // an entry without the attribute a query reads
}
