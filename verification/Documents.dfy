/** JSON-like values: resource values and rendered target states. */
module Documents {
  datatype Document =
    | Atom(literal: string)
    | Text(text: string)
    | List(items: seq<Document>)
    | Dict(fields: seq<Field>)

  /** A dictionary entry; dictionaries keep insertion order. */
  datatype Field = Field(key: string, value: Document)
}
