/** The node of the type-description tree that the generator renders
    (source-generator/TypeModel.cs). Every property is a nullable reference in
    the source, so every field can be absent here. Nothing mutates a node
    after it is built, so it is a value. */
module Model {
  import opened Wrappers

  datatype TypeModel = TypeModel(
    name: Option<string>,
    classification: Option<string>,
    typeName: Option<string>,
    children: ChildList)

  /** The nullable `List<TypeModel>` of children: absent, or an ordered list in
      which the same node may appear more than once. */
  datatype ChildList = Null | List(items: seq<TypeModel>)
}
