/** A value that may be absent: a DOM element the page lacks, a scroll position
    that is not written, a language that was never stored. */
module Optional {
  datatype Option<T> = None | Some(value: T)
}
