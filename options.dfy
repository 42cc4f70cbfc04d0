/** A value that may be absent; stands for TypeScript's `T | null` and for `find`'s
    `undefined`. */
module Options {
  datatype Option<+T> = None | Some(value: T)
}
