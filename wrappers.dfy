/** The optional value used for JavaScript's `undefined`/`null` inputs. */
module Wrappers {

  datatype Option<T> = None | Some(value: T)
}
