/** Small shared vocabulary: JavaScript's `undefined`/`null` become `None`. */
module Common {

  datatype Option<+T> = None | Some(value: T)

  /** A value JavaScript treats as truthy: present and not the empty string. */
  predicate Truthy(s: Option<string>) {
    s.Some? && s.value != ""
  }
}
