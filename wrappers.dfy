/** Failure-carrying results shared by every module of the model.
    Python exceptions raised by the modelled code become `Err` values. */
module Wrappers {

  datatype Option<+T> = None | Some(value: T)

  /** The exceptions the modelled code raises, one constructor per cause. */
  datatype Error =
    | DefinedTwice        // PDBConstructionException("Some of the entities are defined twice")
    | Duplicates          // PDBConstructionException("Some of the entities are duplicates")
    | KeyError            // lookup of an absent key
    | IndexError          // list index out of range
    | ValueError          // id already used by a sibling
    | TypeError           // an operation applied to a value of the wrong type
    | AttributeError      // a missing attribute, such as `lower` on a non-string
    | AssertionFailed     // a failing `assert` statement
    | BioassemblyNotFound // assembly id absent from the mmCIF data
    | NotImplemented      // NotImplementedError
    | Unrecognized        // plain `Exception` raised with a message

  datatype Result<+T> = Ok(value: T) | Err(error: Error)

  /** Outcome of an operation that returns nothing but may raise. */
  datatype Outcome = Pass | Fail(error: Error)
}
