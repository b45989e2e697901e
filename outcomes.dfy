/** Results of the embedding layer's operations and the exceptions they raise. */
module Outcomes {

  datatype Option<+T> = None | Some(value: T)

  /** Either a value or the exception the Python code raises instead. */
  datatype Result<+T> = Ok(value: T) | Err(error: Error)

  /** The exceptions of fasttext_embedding.py, one constructor per raise site. */
  datatype Error =
    | InvalidName(name: string)   // ValueError: 'name' is not a key of `urls`
    | InvalidDims(dims: int)      // ValueError: 'dims' is not in `dims`
    | FileNotFound(file: string)  // open() of the decompressed vector file fails
    | MissingFile(file: string)   // AssertionError: a saved file is not in the folder
    | Unpack(got: nat)            // ValueError: not enough values to unpack (expected 2)
    | InhomogeneousRows           // np.array over rows of different lengths
    | MultipleValues              // TypeError: **hyper repeats a positional argument
    | EmptyTable                  // IndexError: a table with no rows has no second axis
    | BadOperand                  // TypeError: 1 - dropout for a null or string dropout
    | IndexOutOfRange             // IndexError: save reads past the end of the vocabulary list
}
