/** The slice of the backend SDK's document model the client logic reads. */
module Models {

  /** Backend document identifiers (`$id`) are plain strings. */
  type Id = string

  /** A document of any collection, reduced to its identifier. */
  datatype Document = Document(id: Id)
}
