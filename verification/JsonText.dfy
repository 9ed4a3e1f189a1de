/** JSON text of a value, both ways.  Serialisation is foreign code: it is a parameter with a stated contract. */
module JsonText {
  import opened Wrappers

  datatype Codec<!T> = Codec(write: T -> Bytes, read: Bytes -> Option<T>)

  /** JSON text is never empty, and reading it returns what was written. */
  ghost predicate Faithful<T(!new)>(c: Codec<T>) {
    forall v :: c.write(v) != [] && c.read(c.write(v)) == Some(v)
  }
}
