/** Outcomes of operations that the source lets raise: the exception kind is
    kept so that each error path of the model can be told apart. */
module Results {

  /** The Python exceptions the modelled code raises. */
  datatype Error =
    | ValueError
    | ZeroDivisionError
    | IndexError
    | KeyError
    | TypeError
    | AttributeError

  datatype Result<T> = Ok(value: T) | Err(error: Error)

  /** `None` stands for the `NotImplemented` value some operations return. */
  datatype Option<T> = None | Some(value: T)
}
