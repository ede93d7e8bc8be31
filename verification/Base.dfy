/** Datatypes shared by the modules of the project. */
module Base {

  /** A value that may be absent: a pointer that may be NULL, a field that may be unset. */
  datatype Option<+T> = None | Some(value: T)


  /** The condition b, handed on whole: the verifier does not take it apart where it is required. */
  ghost predicate Fact(b: bool) {
    b == true
  }
}
