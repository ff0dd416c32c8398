/** Wrappers shared by every module of the model. */
module Wrappers {

  datatype Option<T> = None | Some(value: T)

  datatype Result<T, E> = Ok(value: T) | Err(error: E)

  /** The .NET exceptions the modelled code can raise. An exception is never caught inside the
      edit engine: it ends the directive and everything that follows it in the same batch. */
  datatype Exception =
    | ArgumentOutOfRange   // IList indexer with an index past Count
    | ArgumentNull         // a null key given to Dictionary.TryGetValue
    | Argument             // wrong key type for a dictionary, duplicate key in Add, SetValue of a wrong type
    | MissingMethod        // Activator.CreateInstance on an abstract class or a type without a parameterless constructor
    | NullReference        // a member used through a null reference
    | KeyNotFound          // Dictionary indexer read with an absent key
}
