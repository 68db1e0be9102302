# Template renderer of the source generator, in Dafny

This project models the core of a C# source generator. The generator takes a
tree of `TypeModel` nodes (classes and their properties, nested to any depth)
and two template texts, one for classes and one for properties. It renders
every node by filling the template's placeholder tokens and wraps the
renderings of the root nodes in a fixed `using`/`namespace` scaffold.

- `Model.TypeModel` is the tree node of `TypeModel.cs`. Each property of the
  C# class may be null, so `Name`, `Classification` and `Type` are `Option`
  fields. The nullable children list is `ChildList` (`Null` or `List(items)`),
  and the same node may occur more than once in a list.
- `StringReplace.ReplaceAll` is .NET's `String.Replace(oldValue, newValue)`. It
  scans from left to right with ordinal comparison. It replaces
  non-overlapping occurrences and never rescans the text it inserts. Beside it,
  `Split`, `Join` and `IsLeftmostSplit` describe the same operation
  declaratively: cut the text at the leftmost non-overlapping occurrences, then
  glue the pieces back with the replacement. The lemmas prove that this cut
  exists and is unique, and that `ReplaceAll` equals the declarative version.
- `SourceGenerator.Render`, `RenderAll` and `Document` specify the output for
  a node, for a list of siblings and for the whole input.
  `SourceGenerator.GetMatchingType` and `SourceGenerator.Execute` follow the
  C# procedures step by step. They reassign the template text and append to a
  string builder in loops. Each is proved to compute its specification.
- `SourceGeneratorProperties` proves what the renderer promises:
  - dispatch on the classification;
  - the three sequential passes (`{Name}`, then `{Type}` only for a non-empty
    type, then `{Children}`);
  - the in-order concatenation of children and roots;
  - null fields;
  - the scaffold;
  - an example property template and an example class template as worked
    examples. The real template files are not part of this model, so their
    contents stay a parameter.

The two template files are read from disk in the source. Here their contents
are the `Templates` parameter (`classTemplate`, `propertyTemplate`). The
source reads the files again for every node. Their contents do not change
during a run, so one parameter gives the same texts.

The placeholders could be read as substituted independently of each other.
The code does not do that: it runs three replace-all passes in sequence over
the current text. So a name that contains `{Type}` is then type-substituted,
and a name or type that contains `{Children}` is then child-substituted. The
model follows the code
(`NameHoldingTypeTokenGetsTypeSubstituted`,
`NameHoldingChildrenTokenGetsChildrenSubstituted`,
`TypeHoldingChildrenTokenGetsChildrenSubstituted`).

The generator has no depth guard and no "template unavailable" diagnostic,
so the model has neither. Rendering terminates because every recursive call
is on a child of the current node: `Render`, `RenderAll` and `GetMatchingType`
carry `decreases` clauses on the tree, so each is total.

## Model

| member | source | states |
|---|---|---|
| `SourceGenerator.GetMatchingType` | source-generator/Program.cs:52-85 | The procedure picks the template by classification and returns "" for an empty template. It then replaces `{Name}`, and replaces `{Type}` only for a non-null, non-empty type. It appends the children's renderings in list order (none for null or empty children) and replaces `{Children}`. Its result is `Render` of the node. |
| `SourceGenerator.Execute` | source-generator/Program.cs:28-40 | Appending `using System;`, `namespace SourceGenerator` and `{`, then each root's rendering in order, then `}`, gives `Document` of the roots. |
| `SourceGenerator.RenderAllAppend` | source-generator/Program.cs:71-80 | Concatenating renderings respects list order: the text for `a + b` is the text for `a` followed by the text for `b`. |
| `StringReplace.ReplaceAllCharacterised` | source-generator/Program.cs:66-82 | Each `Replace` call replaces every leftmost non-overlapping occurrence. If the text is cut at those occurrences, the result is the pieces glued back with the replacement. |
| `StringReplace.SplitIsLeftmost` | source-generator/Program.cs:66-82 | The pieces between the occurrences that a left-to-right scan finds rebuild the text. No occurrence starts inside a piece, and none is in the last piece. |
| `StringReplace.LeftmostSplitUnique` | source-generator/Program.cs:66-82 | The text can be cut at the leftmost non-overlapping occurrences in only one way. |
| `StringReplace.ReplaceAllJoinsSplit` | source-generator/Program.cs:66-82 | The scan's result is the scan's pieces glued with the replacement. |
| `StringReplace.ReplaceAllAbsent` | source-generator/Program.cs:66-82 | A text without the token is returned unchanged. |
| `StringReplace.ReplaceAllSplitsAtStart` | source-generator/Program.cs:66-82 | If the token's first character appears nowhere else in it, the replace over `a + c`, with `c` starting with that character, is the replace over `a` followed by the replace over `c`. |
| `SourceGeneratorProperties.UnrecognisedClassificationRendersEmpty` | source-generator/Program.cs:54-64 | A classification other than "Class" or "Property", null included, renders to "" whatever the name, type and children. |
| `SourceGeneratorProperties.EmptyTemplateIgnoresChildren` | source-generator/Program.cs:61-64 | An empty template renders to "". Replacing the node's children by any other list, or by null, leaves that unchanged. |
| `SourceGeneratorProperties.RecognisedEmptyTemplateRendersEmpty` | source-generator/Program.cs:54-64 | A "Class" or "Property" node whose template text is empty renders to "". |
| `SourceGeneratorProperties.TokenFreeTemplateRendersVerbatim` | source-generator/Program.cs:66-84 | A template without `{Name}`, `{Type}` and `{Children}` renders to the template text unchanged. |
| `SourceGeneratorProperties.UntypedSkipsTypePass` | source-generator/Program.cs:66-82 | With a null or empty type the `{Type}` pass is skipped: the rendering is the `{Name}` pass followed directly by the `{Children}` pass. |
| `SourceGeneratorProperties.UntypedKeepsTypeTokens` | source-generator/Program.cs:66-82 | With a null or empty type, and no `{Children}` token left after the name pass, the rendering is the name-substituted template, so its `{Type}` tokens stay in place. |
| `SourceGeneratorProperties.TypeTokenSurvivesPass` | source-generator/Program.cs:66-82 | The `{Name}` pass and the `{Children}` pass leave a `{Type}` token in place. The text before it and the text after it are replaced as if they were separate. |
| `SourceGeneratorProperties.UntypedRenderKeepsTypeToken` | source-generator/Program.cs:66-82 | With a null or empty type, every `{Type}` token of the template reaches the output, whatever other tokens the template holds. The text on each side of it goes through the `{Name}` and `{Children}` passes on its own. |
| `SourceGeneratorProperties.TypeTokenPassesThroughWithoutType` | source-generator/Program.cs:68-69 | With a null or empty type, a template whose only tokens are `{Type}` renders unchanged, with its `{Type}` tokens still in place. |
| `SourceGeneratorProperties.NameHoldingTypeTokenGetsTypeSubstituted` | source-generator/Program.cs:66-69 | The passes run in sequence. A name equal to `{Type}` in a `{Name}` template is then replaced by the type. |
| `SourceGeneratorProperties.NameHoldingChildrenTokenGetsChildrenSubstituted` | source-generator/Program.cs:66-82 | A name equal to `{Children}` in a `{Name}` template is then replaced by the children's text. |
| `SourceGeneratorProperties.TypeHoldingChildrenTokenGetsChildrenSubstituted` | source-generator/Program.cs:66-82 | A type equal to `{Children}` in a `{Type}` template is then replaced by the children's text. |
| `SourceGeneratorProperties.ChildrenFillEveryToken` | source-generator/Program.cs:66-82 | Take the text after the name and type passes and cut it at its `{Children}` tokens. The rendering is those pieces glued with the in-order concatenation of the children's renderings. |
| `SourceGeneratorProperties.ChildrenAppearOnceInOrder` | source-generator/Program.cs:71-82 | A template with one `{Children}` token holds the children's renderings exactly once, in list order, between the text around the token. |
| `SourceGeneratorProperties.SilentChildrenRemoveChildrenTokens` | source-generator/Program.cs:73-82 | `{Children}` is replaced even by the empty text. Null children, no children, or children that all render to "" remove every `{Children}` token. |
| `SourceGeneratorProperties.NullChildrenRenderLikeEmpty` | source-generator/Program.cs:73 | A null children list renders exactly like an empty one. |
| `SourceGeneratorProperties.NullNameRendersLikeEmpty` | source-generator/Program.cs:66 | A null name removes every `{Name}` token, like the empty name. |
| `SourceGeneratorProperties.RenderAllAt` | source-generator/Program.cs:75-78 | Each node of a list contributes its rendering at its own position. So a duplicated node is emitted once per occurrence, with no reordering and no de-duplication. |
| `SourceGeneratorProperties.SilentModelsRenderEmpty` | source-generator/Program.cs:75-78 | Nodes that all render to "" contribute nothing. |
| `SourceGeneratorProperties.EmptyDocumentIsScaffold` | source-generator/Program.cs:30-40 | With no roots the document is exactly `using System;namespace SourceGenerator{}`. |
| `SourceGeneratorProperties.SilentRootsGiveScaffold` | source-generator/Program.cs:30-40 | Roots that all render to "" also leave exactly the scaffold. |
| `SourceGeneratorProperties.DocumentOfConcatenatedRoots` | source-generator/Program.cs:30-40 | The document is `using System;namespace SourceGenerator{`, then the roots' renderings in order, then `}`, with no newlines. |
| `SourceGeneratorProperties.PropertyExample` | source-generator/Program.cs:57-69 | The example property template `public {Type} {Name} { get; set; }` with name `Age` and type `int` renders to `public int Age { get; set; }`. |
| `SourceGeneratorProperties.UntypedPropertyExample` | source-generator/Program.cs:57-82 | The same template for `Age` with no type renders to `public {Type} Age { get; set; }`: the name is in and the `{Type}` token is left as it is. |
| `SourceGeneratorProperties.NestedExample` | source-generator/Program.cs:56-82 | The example class template `public class {Name} { {Children} }` for `Person`, holding that property, renders to `public class Person { ` + `public int Age { get; set; }` + ` }`. |

## Left out

- JSON deserialisation of the input (source-generator/Program.cs:20-26), with its case-insensitive property names and trailing commas, is left out. It is a foreign library. `Execute` takes the already-built list of roots.
- Reading the template files from the hard-coded `Root` directory (source-generator/Program.cs:15, 56-57) is left out because it is I/O. The file contents are the `Templates` parameter. Exceptions from a missing file are not modelled.
- The compiler host interfaces are left out: `[Generator]`, `ISourceGenerator`, `Initialize`, and handing the text to `context.AddSource` with `SourceText.From` and UTF-8 (source-generator/Program.cs:11-12, 44, 47-50).
- The `NullReferenceException` that `Execute` throws when the JSON holds `null` instead of a list (source-generator/Program.cs:26, 34) is left out. It is a failure of the host input, and `Execute` takes a list that is always present.
- A null element of the root list or of a `Children` list (JSON `[null]`) is left out. `GetMatchingType` throws a `NullReferenceException` on it when it reads `Classification` (source-generator/Program.cs:54), which fails the whole run. The model's lists hold only present nodes, so it cannot represent that input or that failure.
- The contents of class-template.tmpl and property-template.tmpl are not part of this model. The worked examples use example templates of the same shape, and every other lemma holds for any template text.
- `StringBuilder` is modelled as a local string that the loops extend. The builders are local to one call and never shared, so no object is needed.
- `String.Replace` throws on an empty `oldValue`. The renderer only passes the three fixed non-empty tokens, so `ReplaceAll` requires a non-empty pattern instead of modelling the exception.
- `StringReplace.ReplaceAll` uses Dafny's `char`, not UTF-16 code units. The comparison is ordinal, as in the source, so this makes no difference to the result.
