/** Shared vocabulary of the router model. */
module Base {

  /** The conventional Some/None datatype, used where the Go code returns a value or nil. */
  datatype Option<+T> = None | Some(value: T)

  /** Go strings and []byte values are both byte sequences. The model represents both
      as `string` (one character stands for one byte), so the conversion `[]byte(s)`
      is the identity. */
  type Bytes = string

  /** A header or parameter map, keyed verbatim (no canonicalisation). */
  type StringMap = map<string, string>
}
