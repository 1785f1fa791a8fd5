/** The parsed registry document, reduced to what the inspector reads: the
    `<type>` elements under `<types>`, in document order. */
module Descriptor {

  /** A `<member>` element: the text of its `<type>` child, the text of its
      `<name>` child and its whole concatenated text (`member.Value`), in
      which `*` and `[` reveal pointers and arrays. */
  datatype Member = Member(typeText: string, name: string, text: string)

  /** A `<type>` element: its `category` attribute, its name (the `<name>`
      child for a handle, the `name` attribute for a structure or union), the
      text of its `<type>` child (read for handles only) and its members. */
  datatype TypeEntry = TypeEntry(category: string, name: string, underlying: string, members: seq<Member>)

  const HandleCategory: string := "handle"
  const StructCategory: string := "struct"
  const UnionCategory: string := "union"
}
