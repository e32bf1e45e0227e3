/** The note record. */
module Notes {

  /** The object built on form submission (index.js:171-176). `date` is the
      ISO timestamp string, supplied by the caller. */
  datatype Note = Note(title: string, content: string, tag: string, date: string)

  datatype Option<T> = None | Some(value: T)
}
