/** The optional value used wherever the source may find nothing (`Array.prototype.find`
    returning `undefined`, a list with no head, a payload field that is absent). */
module Options {

  datatype Option<T> = None | Some(value: T)
}
