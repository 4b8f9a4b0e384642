/** A YAML document as a finite tree.  The key of a map entry is the text of its scalar. */
module Yaml {
  datatype Node =
    | Null
    | Scalar(text: string)
    | Sequence(items: seq<Node>)
    | Map(entries: seq<Entry>)

  datatype Entry = Entry(key: string, value: Node)
}
