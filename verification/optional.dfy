/** A value that may be missing. Depending on where it is used it stands for
    a JavaScript object key that is not set, or a lookup that found nothing. */
module Optional {

  datatype Option<+T> = None | Some(value: T)
}
