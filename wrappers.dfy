/** Optional values, the exceptions the modelled Python code can raise, and results that
    carry either a value or the exception that stopped the computation. */
module Wrappers {

  datatype Option<+T> = None | Some(value: T)

  /** The Python exceptions the modelled code raises on malformed input. */
  datatype Error =
    | KeyError(key: string)        // missing dict key, missing XML attribute, missing zip entry
    | IndexError                   // pop from an empty list, `s[-1]` on an empty string, `random.choice([])`
    | AttributeError               // attribute access on None
    | ValueError                   // `int()` of a non-number, `list.index` of an absent value
    | TypeError                    // `str + None`, `str += int`
    | FileNotFoundError            // `open("")`
    | ExpatError                   // malformed XML
    | SynthesisError               // the text-to-speech stream raised
    | RuntimeError                 // `run_until_complete` on a closed event loop

  datatype Result<+T> = Ok(value: T) | Err(error: Error)
}
