/** The source's `null`-or-value fields, such as the selected brand and the
    selected rating, and the outcome of a fetch that may fail. */
module Optional {

  datatype Option<T> = None | Some(value: T)
}
