/** The renderer and the document assembler of the source generator
    (source-generator/Program.cs).

    `Render`, `RenderAll` and `Document` are the specification: what a node, a
    list of sibling nodes and the whole input produce. `GetMatchingType` and
    `Execute` are the source's own procedures, which reassign the template
    text step by step and append to a string builder in loops; each is proved
    to compute its specification. The two template files are read from disk
    in the source; here their contents are the `Templates` parameter. */
module SourceGenerator {
  import opened Wrappers
  import opened Model
  import opened StringReplace

  /** The contents of class-template.tmpl and property-template.tmpl. */
  datatype Templates = Templates(classTemplate: string, propertyTemplate: string)

  const NameToken := "{Name}"
  const TypeToken := "{Type}"
  const ChildrenToken := "{Children}"

  /** The three pieces the assembler appends before the rendered roots, and
      the one it appends after them. */
  const UsingDirective := "using System;"
  const NamespaceHeader := "namespace SourceGenerator"
  const OpenBrace := "{"
  const CloseBrace := "}"

  /** The `switch` on the classification: "Class" and "Property" select their
      template, anything else (null included) selects the empty text. */
  function TemplateFor(templates: Templates, classification: Option<string>): (template: string)
  {
    if classification == Some("Class") then templates.classTemplate
    else if classification == Some("Property") then templates.propertyTemplate
    else ""
  }

  /** `String.Replace` with a null replacement removes the pattern, exactly as
      the empty replacement does. */
  function NameValue(name: Option<string>): (value: string)
  {
    match name
    case None => ""
    case Some(n) => n
  }

  /** The `{Type}` pass runs only for a type that is neither null nor empty. */
  predicate HasType(model: TypeModel)
  {
    model.typeName.Some? && model.typeName.value != ""
  }

  /** The template after the `{Name}` pass and the (possibly skipped) `{Type}`
      pass, ready for the `{Children}` pass. */
  function Typed(template: string, model: TypeModel): (typed: string)
  {
    var named := ReplaceAll(template, NameToken, NameValue(model.name));
    if HasType(model) then ReplaceAll(named, TypeToken, model.typeName.value) else named
  }

  /** The rendering of one node and its whole subtree. */
  function Render(templates: Templates, model: TypeModel): (text: string)
    decreases model, 1
  {
    var template := TemplateFor(templates, model.classification);
    if template == "" then ""
    else ReplaceAll(Typed(template, model), ChildrenToken, ChildContent(templates, model))
  }

  /** The text the children of `model` contribute: null children contribute
      nothing, like an empty list. */
  function ChildContent(templates: Templates, model: TypeModel): (content: string)
    decreases model, 0
  {
    match model.children
    case Null => ""
    case List(children) => RenderAll(templates, children)
  }

  /** The renderings of `models`, in order, with no separator. */
  function RenderAll(templates: Templates, models: seq<TypeModel>): (text: string)
    decreases models, 2
  {
    if models == [] then ""
    else Render(templates, models[0]) + RenderAll(templates, models[1..])
  }

  /** The generated document: the fixed scaffold around the renderings of the
      roots, in order. */
  function Document(templates: Templates, typeModels: seq<TypeModel>): (source: string)
  {
    UsingDirective + NamespaceHeader + OpenBrace + RenderAll(templates, typeModels) + CloseBrace
  }

  lemma {:induction false} RenderAllAppend(templates: Templates, a: seq<TypeModel>, b: seq<TypeModel>)
    ensures RenderAll(templates, a + b) == RenderAll(templates, a) + RenderAll(templates, b)
    decreases |a|
  {
    if a == [] {
      assert a + b == b;
    } else {
      assert (a + b)[1..] == a[1..] + b;
      RenderAllAppend(templates, a[1..], b);
    }
  }

  /** Rendering one more node appends its rendering. */
  lemma RenderAllSnoc(templates: Templates, models: seq<TypeModel>, model: TypeModel)
    ensures RenderAll(templates, models + [model]) == RenderAll(templates, models) + Render(templates, model)
  {
    RenderAllAppend(templates, models, [model]);
    assert RenderAll(templates, [model]) == Render(templates, model) + RenderAll(templates, []);
  }

  /** `GetMatchingType`: pick the template, substitute the name, then the type
      if there is one, render the children in order into a builder, and
      substitute the children's text. */
  method GetMatchingType(templates: Templates, model: TypeModel) returns (result: string)
    ensures result == Render(templates, model)
    decreases model
  {
    var template := TemplateFor(templates, model.classification);
    if template == "" {
      return "";
    }
    template := ReplaceAll(template, NameToken, NameValue(model.name));
    if HasType(model) {
      template := ReplaceAll(template, TypeToken, model.typeName.value);
    }
    var sourceBuilder := "";
    if model.children.List? && |model.children.items| > 0 {
      var children := model.children.items;
      var i := 0;
      while i < |children|
        invariant 0 <= i <= |children|
        invariant sourceBuilder == RenderAll(templates, children[..i])
      {
        var rendered := GetMatchingType(templates, children[i]);
        RenderAllSnoc(templates, children[..i], children[i]);
        assert children[..i + 1] == children[..i] + [children[i]];
        sourceBuilder := sourceBuilder + rendered;
        i := i + 1;
      }
      assert children[..i] == children;
    }
    assert sourceBuilder == ChildContent(templates, model);
    result := ReplaceAll(template, ChildrenToken, sourceBuilder);
  }

  /** One more rendering appended to a builder that holds a fixed opening and
      the renderings of the first `i` models holds the first `i + 1`. */
  lemma AppendStep(templates: Templates, models: seq<TypeModel>, i: nat, opening: string, built: string, data: string)
    requires i < |models|
    requires built == opening + RenderAll(templates, models[..i])
    requires data == Render(templates, models[i])
    ensures built + data == opening + RenderAll(templates, models[..i + 1])
  {
    RenderAllSnoc(templates, models[..i], models[i]);
    assert models[..i + 1] == models[..i] + [models[i]];
  }

  /** The assembling part of `Execute`: append the scaffold's opening, each
      root's rendering in order, and the closing brace. */
  method Execute(templates: Templates, typeModels: seq<TypeModel>) returns (source: string)
    ensures source == Document(templates, typeModels)
  {
    var sourceBuilder := "";
    sourceBuilder := sourceBuilder + UsingDirective;
    sourceBuilder := sourceBuilder + NamespaceHeader;
    sourceBuilder := sourceBuilder + OpenBrace;
    ghost var opening := UsingDirective + NamespaceHeader + OpenBrace;
    assert sourceBuilder == opening by {
      assert "" + UsingDirective == UsingDirective;
    }
    var i := 0;
    while i < |typeModels|
      invariant 0 <= i <= |typeModels|
      invariant sourceBuilder == opening + RenderAll(templates, typeModels[..i])
    {
      var data := GetMatchingType(templates, typeModels[i]);
      AppendStep(templates, typeModels, i, opening, sourceBuilder, data);
      sourceBuilder := sourceBuilder + data;
      i := i + 1;
    }
    assert typeModels[..|typeModels|] == typeModels;
    assert sourceBuilder == opening + RenderAll(templates, typeModels);
    sourceBuilder := sourceBuilder + CloseBrace;
    source := sourceBuilder;
  }
}
