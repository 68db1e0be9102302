/** What the renderer and the assembler of source-generator/Program.cs promise,
    stated over the specification functions that `GetMatchingType` and
    `Execute` are proved to compute. */
module SourceGeneratorProperties {
  import opened Wrappers
  import opened Model
  import opened StringReplace
  import opened SourceGenerator

  // ---------------------------------------------------------------------------
  // Template dispatch

  /** A classification other than "Class" and "Property", null included,
      renders to nothing, whatever the node's name, type and children. */
  lemma UnrecognisedClassificationRendersEmpty(templates: Templates, model: TypeModel)
    requires model.classification != Some("Class") && model.classification != Some("Property")
    ensures Render(templates, model) == ""
  {
  }

  /** A node whose template text is empty renders to nothing, and its children
      have no bearing on that: replacing them by any other list (or by null)
      changes nothing. */
  lemma EmptyTemplateIgnoresChildren(templates: Templates, model: TypeModel, other: ChildList)
    requires TemplateFor(templates, model.classification) == ""
    ensures Render(templates, model) == ""
    ensures Render(templates, model.(children := other)) == ""
  {
  }

  /** A recognised classification, "Class" or "Property", whose template
      file is empty renders to nothing. */
  lemma RecognisedEmptyTemplateRendersEmpty(templates: Templates, model: TypeModel)
    requires model.classification == Some("Class") || model.classification == Some("Property")
    requires TemplateFor(templates, model.classification) == ""
    ensures Render(templates, model) == ""
  {
  }

  // ---------------------------------------------------------------------------
  // The three passes

  /** A template that holds none of the three tokens is emitted unchanged. */
  lemma TokenFreeTemplateRendersVerbatim(templates: Templates, model: TypeModel)
    requires TemplateFor(templates, model.classification) != ""
    requires !Contains(TemplateFor(templates, model.classification), NameToken)
    requires !Contains(TemplateFor(templates, model.classification), TypeToken)
    requires !Contains(TemplateFor(templates, model.classification), ChildrenToken)
    ensures Render(templates, model) == TemplateFor(templates, model.classification)
  {
    var template := TemplateFor(templates, model.classification);
    ReplaceAllAbsent(template, NameToken, NameValue(model.name));
    if HasType(model) {
      ReplaceAllAbsent(template, TypeToken, model.typeName.value);
    }
    ReplaceAllAbsent(template, ChildrenToken, ChildContent(templates, model));
  }

  /** With a null or empty type the `{Type}` pass is skipped: a template whose
      only tokens are `{Type}` tokens is emitted unchanged, those tokens
      included. */
  lemma TypeTokenPassesThroughWithoutType(templates: Templates, model: TypeModel)
    requires !HasType(model)
    requires TemplateFor(templates, model.classification) != ""
    requires !Contains(TemplateFor(templates, model.classification), NameToken)
    requires !Contains(TemplateFor(templates, model.classification), ChildrenToken)
    ensures Render(templates, model) == TemplateFor(templates, model.classification)
  {
    var template := TemplateFor(templates, model.classification);
    ReplaceAllAbsent(template, NameToken, NameValue(model.name));
    ReplaceAllAbsent(template, ChildrenToken, ChildContent(templates, model));
  }

  /** With a null or empty type the rendering is the `{Name}` pass followed
      directly by the `{Children}` pass: no `{Type}` pass runs. */
  lemma UntypedSkipsTypePass(templates: Templates, model: TypeModel)
    requires !HasType(model)
    requires TemplateFor(templates, model.classification) != ""
    ensures Render(templates, model)
         == ReplaceAll(ReplaceAll(TemplateFor(templates, model.classification), NameToken, NameValue(model.name)),
                       ChildrenToken, ChildContent(templates, model))
  {
  }

  /** With a null or empty type, a template whose name-substituted text holds
      no `{Children}` token renders to that text: the name is in, and every
      `{Type}` token of it is still in place. */
  lemma UntypedKeepsTypeTokens(templates: Templates, model: TypeModel)
    requires !HasType(model)
    requires TemplateFor(templates, model.classification) != ""
    requires !Contains(ReplaceAll(TemplateFor(templates, model.classification), NameToken, NameValue(model.name)),
                       ChildrenToken)
    ensures Render(templates, model)
         == ReplaceAll(TemplateFor(templates, model.classification), NameToken, NameValue(model.name))
  {
    var named := ReplaceAll(TemplateFor(templates, model.classification), NameToken, NameValue(model.name));
    ReplaceAllAbsent(named, ChildrenToken, ChildContent(templates, model));
  }

  /** A `{Name}` or `{Children}` pass leaves a `{Type}` token where it is: no
      occurrence of either token can overlap it, so the text before and the
      text after it are scanned as if apart. */
  lemma TypeTokenSurvivesPass(a: string, b: string, p: string, r: string)
    requires p == NameToken || p == ChildrenToken
    ensures ReplaceAll(a + TypeToken + b, p, r) == ReplaceAll(a, p, r) + TypeToken + ReplaceAll(b, p, r)
  {
    assert p[1..][0] != p[0] && p[1..][|p| - 2] != p[0];
    assert p[0] !in p[1..];
    assert a + TypeToken + b == a + (TypeToken + b);
    ReplaceAllSplitsAtStart(a, TypeToken + b, p, r);
    TypeTokenPieces(b);
    ReplaceAllSkipMismatch("Type}" + b, p, r);
    ReplaceAllSkip("Type}", b, p, r);
  }

  /** With a null or empty type every `{Type}` token of the template reaches
      the output: the text on each side of it goes through the `{Name}` and
      `{Children}` passes on its own, and the token stays between them. */
  lemma UntypedRenderKeepsTypeToken(templates: Templates, model: TypeModel, a: string, b: string)
    requires !HasType(model)
    requires TemplateFor(templates, model.classification) == a + TypeToken + b
    ensures Render(templates, model)
         == ReplaceAll(ReplaceAll(a, NameToken, NameValue(model.name)), ChildrenToken, ChildContent(templates, model))
            + TypeToken
            + ReplaceAll(ReplaceAll(b, NameToken, NameValue(model.name)), ChildrenToken, ChildContent(templates, model))
    ensures Contains(Render(templates, model), TypeToken)
  {
    var name, content := NameValue(model.name), ChildContent(templates, model);
    TypeTokenSurvivesPass(a, b, NameToken, name);
    var a1, b1 := ReplaceAll(a, NameToken, name), ReplaceAll(b, NameToken, name);
    TypeTokenSurvivesPass(a1, b1, ChildrenToken, content);
    var a2, b2 := ReplaceAll(a1, ChildrenToken, content), ReplaceAll(b1, ChildrenToken, content);
    var text := a2 + TypeToken + b2;
    assert text[|a2|..|a2| + |TypeToken|] == TypeToken;
    assert Occurs(text, TypeToken, |a2|);
  }

  /** The passes run one after the other on the current text: a name that is
      itself `{Type}` is then replaced by the type. */
  lemma NameHoldingTypeTokenGetsTypeSubstituted(templates: Templates, model: TypeModel)
    requires TemplateFor(templates, model.classification) == NameToken
    requires model.name == Some(TypeToken) && HasType(model)
    ensures Render(templates, model)
         == ReplaceAll(model.typeName.value, ChildrenToken, ChildContent(templates, model))
  {
    ReplaceAllHit("", NameToken, TypeToken);
    assert NameToken + "" == NameToken;
    assert TypeToken + "" == TypeToken;
    ReplaceAllHit("", TypeToken, model.typeName.value);
    assert model.typeName.value + "" == model.typeName.value;
  }

  /** A name that is itself `{Children}` is replaced by the children's text. */
  lemma NameHoldingChildrenTokenGetsChildrenSubstituted(templates: Templates, model: TypeModel)
    requires TemplateFor(templates, model.classification) == NameToken
    requires model.name == Some(ChildrenToken) && !HasType(model)
    ensures Render(templates, model) == ChildContent(templates, model)
  {
    ReplaceAllHit("", NameToken, ChildrenToken);
    assert NameToken + "" == NameToken;
    assert ChildrenToken + "" == ChildrenToken;
    var content := ChildContent(templates, model);
    ReplaceAllHit("", ChildrenToken, content);
    assert content + "" == content;
  }

  /** A type that is itself `{Children}`, in a `{Type}` template, is replaced
      by the children's text. */
  lemma TypeHoldingChildrenTokenGetsChildrenSubstituted(templates: Templates, model: TypeModel)
    requires TemplateFor(templates, model.classification) == TypeToken
    requires model.typeName == Some(ChildrenToken)
    ensures Render(templates, model) == ChildContent(templates, model)
  {
    var name := NameValue(model.name);
    assert TypeToken == [NameToken[0]] + "Type}";
    ReplaceAllSkip("Type}", "", NameToken, name);
    assert "Type}" + "" == "Type}";
    ReplaceAllSkipMismatch("Type}", NameToken, name);
    ReplaceAllHit("", TypeToken, ChildrenToken);
    assert TypeToken + "" == TypeToken;
    assert ChildrenToken + "" == ChildrenToken;
    var content := ChildContent(templates, model);
    ReplaceAllHit("", ChildrenToken, content);
    assert content + "" == content;
  }

  /** Every `{Children}` token that the left-to-right scan finds in the
      name- and type-substituted template receives the whole children's text:
      cut that text at those tokens, and the rendering is the pieces glued
      back with the children's text in between. */
  lemma ChildrenFillEveryToken(templates: Templates, model: TypeModel, pieces: seq<string>)
    requires TemplateFor(templates, model.classification) != ""
    requires IsLeftmostSplit(Typed(TemplateFor(templates, model.classification), model), ChildrenToken, pieces)
    ensures Render(templates, model) == Join(pieces, ChildContent(templates, model))
  {
    var typed := Typed(TemplateFor(templates, model.classification), model);
    ReplaceAllCharacterised(typed, ChildrenToken, ChildContent(templates, model), pieces);
  }

  /** A template with one `{Children}` token holds the children's renderings,
      in list order, exactly once, between the text around the token. */
  lemma ChildrenAppearOnceInOrder(templates: Templates, model: TypeModel, before: string, after: string)
    requires TemplateFor(templates, model.classification) != ""
    requires IsLeftmostSplit(Typed(TemplateFor(templates, model.classification), model), ChildrenToken, [before, after])
    requires model.children.List?
    ensures Render(templates, model) == before + RenderAll(templates, model.children.items) + after
  {
    ChildrenFillEveryToken(templates, model, [before, after]);
    assert [before, after][1..] == [after];
  }

  /** `{Children}` is replaced even when the children's text is empty, so a
      node whose children render to nothing loses every `{Children}` token. */
  lemma SilentChildrenRemoveChildrenTokens(templates: Templates, model: TypeModel, pieces: seq<string>)
    requires TemplateFor(templates, model.classification) != ""
    requires IsLeftmostSplit(Typed(TemplateFor(templates, model.classification), model), ChildrenToken, pieces)
    requires model.children.List? ==>
               forall i :: 0 <= i < |model.children.items| ==> Render(templates, model.children.items[i]) == ""
    ensures Render(templates, model) == Join(pieces, "")
  {
    if model.children.List? {
      SilentModelsRenderEmpty(templates, model.children.items);
    }
    ChildrenFillEveryToken(templates, model, pieces);
  }

  // ---------------------------------------------------------------------------
  // Null fields

  /** A null children list renders exactly as an empty one. */
  lemma NullChildrenRenderLikeEmpty(templates: Templates, model: TypeModel)
    ensures Render(templates, model.(children := Null)) == Render(templates, model.(children := List([])))
  {
    assert ChildContent(templates, model.(children := List([]))) == "";
  }

  /** A null name removes every `{Name}` token, as the empty name does. */
  lemma NullNameRendersLikeEmpty(templates: Templates, model: TypeModel)
    ensures Render(templates, model.(name := None)) == Render(templates, model.(name := Some("")))
  {
  }

  // ---------------------------------------------------------------------------
  // Children and roots are concatenated in order

  /** Each node of a list contributes its rendering exactly at its position:
      after everything before it and before everything after it. Duplicated
      nodes therefore contribute once per occurrence. */
  lemma RenderAllAt(templates: Templates, models: seq<TypeModel>, i: nat)
    requires i < |models|
    ensures RenderAll(templates, models)
         == RenderAll(templates, models[..i]) + Render(templates, models[i]) + RenderAll(templates, models[i + 1..])
  {
    assert models == models[..i] + ([models[i]] + models[i + 1..]);
    RenderAllAppend(templates, models[..i], [models[i]] + models[i + 1..]);
    assert ([models[i]] + models[i + 1..])[1..] == models[i + 1..];
  }

  /** Nodes that render to nothing contribute nothing. */
  lemma {:induction false} SilentModelsRenderEmpty(templates: Templates, models: seq<TypeModel>)
    requires forall i :: 0 <= i < |models| ==> Render(templates, models[i]) == ""
    ensures RenderAll(templates, models) == ""
    decreases |models|
  {
    if models != [] {
      SilentModelsRenderEmpty(templates, models[1..]);
    }
  }

  // ---------------------------------------------------------------------------
  // The document

  /** The opening the assembler appends before the roots. */
  lemma ScaffoldOpening()
    ensures UsingDirective + NamespaceHeader + OpenBrace == "using System;namespace SourceGenerator{"
  {
  }

  /** No roots: the document is the bare scaffold. */
  lemma EmptyDocumentIsScaffold(templates: Templates)
    ensures Document(templates, []) == "using System;namespace SourceGenerator{}"
  {
    assert RenderAll(templates, []) == "";
    ScaffoldOpening();
  }

  /** Roots that all render to nothing leave the bare scaffold too. */
  lemma SilentRootsGiveScaffold(templates: Templates, typeModels: seq<TypeModel>)
    requires forall i :: 0 <= i < |typeModels| ==> Render(templates, typeModels[i]) == ""
    ensures Document(templates, typeModels) == "using System;namespace SourceGenerator{}"
  {
    SilentModelsRenderEmpty(templates, typeModels);
    EmptyDocumentIsScaffold(templates);
  }

  /** The document of two root lists holds both renderings, in order. */
  lemma DocumentOfConcatenatedRoots(templates: Templates, a: seq<TypeModel>, b: seq<TypeModel>)
    ensures Document(templates, a + b)
         == "using System;namespace SourceGenerator{" + RenderAll(templates, a) + RenderAll(templates, b) + "}"
  {
    RenderAllAppend(templates, a, b);
    ScaffoldOpening();
  }

  // ---------------------------------------------------------------------------
  // Worked examples: an example property template and class template

  const PropertyTemplate := "public {Type} {Name} { get; set; }"
  const ClassTemplate := "public class {Name} { {Children} }"

  /** The name pass over the property template. */
  lemma AgeNamePass()
    ensures ReplaceAll("public " + ("{" + ("Type} " + (NameToken + (" " + ("{" + " get; set; }"))))), NameToken, "Age")
         == "public " + ("{" + ("Type} " + ("Age" + (" " + ("{" + " get; set; }")))))
  {
    var p, tail := NameToken, " get; set; }";
    ReplaceAllSkip(tail, "", p, "Age");
    assert tail + "" == tail;
    ReplaceAllSkipMismatch(tail, p, "Age");
    ReplaceAllSkip(" ", "{" + tail, p, "Age");
    ReplaceAllHit(" " + ("{" + tail), p, "Age");
    ReplaceAllSkip("Type} ", p + (" " + ("{" + tail)), p, "Age");
    ReplaceAllSkipMismatch("Type} " + (p + (" " + ("{" + tail))), p, "Age");
    ReplaceAllSkip("public ", "{" + ("Type} " + (p + (" " + ("{" + tail)))), p, "Age");
  }

  /** The type pass over the property template once the name is in. */
  lemma AgeTypePass()
    ensures ReplaceAll("public " + (TypeToken + (" Age " + ("{" + " get; set; }"))), TypeToken, "int")
         == "public " + ("int" + (" Age " + ("{" + " get; set; }")))
  {
    var p, tail := TypeToken, " get; set; }";
    ReplaceAllSkip(tail, "", p, "int");
    assert tail + "" == tail;
    ReplaceAllSkipMismatch(tail, p, "int");
    ReplaceAllSkip(" Age ", "{" + tail, p, "int");
    ReplaceAllHit(" Age " + ("{" + tail), p, "int");
    ReplaceAllSkip("public ", p + (" Age " + ("{" + tail)), p, "int");
  }

  /** The children pass over the property line, which holds no `{Children}`. */
  lemma AgeChildrenPass()
    ensures ReplaceAll("public int Age " + ("{" + " get; set; }"), ChildrenToken, "")
         == "public int Age " + ("{" + " get; set; }")
  {
    var p, tail := ChildrenToken, " get; set; }";
    ReplaceAllSkip(tail, "", p, "");
    assert tail + "" == tail;
    ReplaceAllSkipMismatch(tail, p, "");
    ReplaceAllSkip("public int Age ", "{" + tail, p, "");
  }

  /** The children pass over the untyped property line, which holds no
      `{Children}`: the `{Type}` token there is left alone. */
  lemma UntypedAgeChildrenPass()
    ensures ReplaceAll("public " + (TypeToken + (" Age " + ("{" + " get; set; }"))), ChildrenToken, "")
         == "public " + (TypeToken + (" Age " + ("{" + " get; set; }")))
  {
    var p, tail := ChildrenToken, " get; set; }";
    ReplaceAllSkip(tail, "", p, "");
    assert tail + "" == tail;
    ReplaceAllSkipMismatch(tail, p, "");
    var line := " Age " + ("{" + tail);
    ReplaceAllSkip(" Age ", "{" + tail, p, "");
    ReplaceAllSkip("Type}", line, p, "");
    var rest := "Type}" + line;
    ReplaceAllSkipMismatch(rest, p, "");
    TypeTokenPieces(line);
    ReplaceAllSkip("public ", TypeToken + line, p, "");
  }

  /** `{Type}` cut after its opening brace, the first character of every
      token. */
  lemma TypeTokenPieces(line: string)
    ensures TypeToken + line == [ChildrenToken[0]] + ("Type}" + line)
  {
  }

  /** The property `Age` with no type. */
  function UntypedAgeProperty(): (model: TypeModel)
  {
    TypeModel(Some("Age"), Some("Property"), None, List([]))
  }

  /** The property template for a property without a type: the name is
      substituted and the `{Type}` token is emitted as it stands. */
  lemma UntypedPropertyExample(templates: Templates)
    requires templates.propertyTemplate == PropertyTemplate
    ensures Render(templates, UntypedAgeProperty()) == "public " + (TypeToken + (" Age " + ("{" + " get; set; }")))
  {
    var model := UntypedAgeProperty();
    PropertyTemplatePieces();
    PropertyPassPieces();
    AgeNamePass();
    assert Typed(PropertyTemplate, model) == "public " + (TypeToken + (" Age " + ("{" + " get; set; }")));
    UntypedAgeChildrenPass();
    assert ChildContent(templates, model) == "";
  }

  /** The property `Age` of type `int`. */
  function AgeProperty(): (model: TypeModel)
  {
    TypeModel(Some("Age"), Some("Property"), Some("int"), List([]))
  }

  /** The property template cut into the pieces the name pass scans. */
  lemma PropertyTemplatePieces()
    ensures PropertyTemplate == "public " + ("{" + ("Type} " + (NameToken + (" " + ("{" + " get; set; }")))))
  {
  }

  /** The texts between the passes over the property template, cut into the
      pieces the next pass scans. */
  lemma PropertyPassPieces()
    ensures "public " + ("{" + ("Type} " + ("Age" + (" " + ("{" + " get; set; }")))))
         == "public " + (TypeToken + (" Age " + ("{" + " get; set; }")))
    ensures "public " + ("int" + (" Age " + ("{" + " get; set; }")))
         == "public int Age " + ("{" + " get; set; }")
  {
  }

  /** The rendered property line, cut as the children pass leaves it. */
  lemma PropertyLinePieces()
    ensures "public int Age " + ("{" + " get; set; }") == "public int Age { get; set; }"
  {
  }

  /** The property template with name "Age" and type "int" gives the
      auto-property declaration. */
  lemma PropertyExample(templates: Templates)
    requires templates.propertyTemplate == PropertyTemplate
    ensures Render(templates, AgeProperty()) == "public int Age { get; set; }"
  {
    var model := AgeProperty();
    PropertyTemplatePieces();
    PropertyPassPieces();
    PropertyLinePieces();
    AgeNamePass();
    AgeTypePass();
    assert Typed(PropertyTemplate, model) == "public int Age " + ("{" + " get; set; }");
    AgeChildrenPass();
    assert ChildContent(templates, model) == "";
  }

  /** The name pass over the class template. */
  lemma PersonNamePass()
    ensures ReplaceAll("public class " + (NameToken + (" " + ("{" + (" " + ("{" + "Children} }"))))), NameToken, "Person")
         == "public class " + ("Person" + (" " + ("{" + (" " + ("{" + "Children} }")))))
  {
    var p, tail := NameToken, "Children} }";
    ReplaceAllSkip(tail, "", p, "Person");
    assert tail + "" == tail;
    ReplaceAllSkipMismatch(tail, p, "Person");
    ReplaceAllSkip(" ", "{" + tail, p, "Person");
    ReplaceAllSkipMismatch(" " + ("{" + tail), p, "Person");
    ReplaceAllSkip(" ", "{" + (" " + ("{" + tail)), p, "Person");
    ReplaceAllHit(" " + ("{" + (" " + ("{" + tail))), p, "Person");
    ReplaceAllSkip("public class ", p + (" " + ("{" + (" " + ("{" + tail)))), p, "Person");
  }

  /** The children pass over the class declaration. */
  lemma PersonChildrenPass(content: string)
    ensures ReplaceAll("public class Person " + ("{" + (" " + (ChildrenToken + " }"))), ChildrenToken, content)
         == "public class Person " + ("{" + (" " + (content + " }")))
  {
    var p := ChildrenToken;
    ReplaceAllSkip(" }", "", p, content);
    assert " }" + "" == " }";
    ReplaceAllHit(" }", p, content);
    ReplaceAllSkip(" ", p + " }", p, content);
    ReplaceAllSkipMismatch(" " + (p + " }"), p, content);
    ReplaceAllSkip("public class Person ", "{" + (" " + (p + " }")), p, content);
  }

  /** The class `Person` holding the property `Age`. */
  function PersonClass(): (model: TypeModel)
  {
    TypeModel(Some("Person"), Some("Class"), None, List([AgeProperty()]))
  }

  /** The class template and the texts between its passes, cut into the
      pieces the pass lemmas scan. */
  lemma ClassPieces(content: string)
    ensures ClassTemplate == "public class " + (NameToken + (" " + ("{" + (" " + ("{" + "Children} }")))))
    ensures "public class " + ("Person" + (" " + ("{" + (" " + ("{" + "Children} }")))))
         == "public class Person " + ("{" + (" " + (ChildrenToken + " }")))
    ensures "public class Person " + ("{" + (" " + (content + " }")))
         == "public class Person { " + content + " }"
  {
  }

  /** The class template around the rendered property: the class line holds
      the property line in place of `{Children}`. */
  lemma NestedExample(templates: Templates)
    requires templates.classTemplate == ClassTemplate
    requires templates.propertyTemplate == PropertyTemplate
    ensures Render(templates, PersonClass()) == "public class Person { " + "public int Age { get; set; }" + " }"
  {
    var model := PersonClass();
    var content := "public int Age { get; set; }";
    ClassPieces(content);
    PersonNamePass();
    assert Typed(ClassTemplate, model) == "public class Person " + ("{" + (" " + (ChildrenToken + " }")));
    PropertyExample(templates);
    assert RenderAll(templates, [AgeProperty()]) == content + RenderAll(templates, []);
    assert ChildContent(templates, model) == content;
    PersonChildrenPass(content);
  }
}
