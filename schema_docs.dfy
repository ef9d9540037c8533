// The schema documentation audit: each type definition of a generated JSON
// Schema is classified by the keywords it carries (`oneOf`, `anyOf`, `enum`,
// `properties`, or a plain `type`), and one gap is recorded for every type,
// variant, variant title or property that lacks its description or title.
// Gaps are then located in the Rust sources, and the audit fails when a
// schema is missing or any gap was found.

module SchemaDocs {

  import opened Wrappers
  import opened Json
  import opened RustLocator
  import Strings

  /** A missing description or title: the type, what is missing, and which variant or property. */
  datatype MissingDoc = MissingDoc(typeName: string, kind: GapKind, itemName: Option<string>)

  /** A gap with the source location found for it. */
  datatype LocatedDoc = LocatedDoc(doc: MissingDoc, location: Option<Location>)

  function TypeDoc(typeName: string): MissingDoc
  {
    MissingDoc(typeName, TypeGap, None)
  }

  function Variant(typeName: string, name: string): MissingDoc
  {
    MissingDoc(typeName, VariantGap, Some(name))
  }

  // ---------------------------------------------------- variant naming

  /** The value of the first property whose schema is an object with a `const`. */
  function FirstPropertyConst(props: seq<(string, Json)>): (r: Option<Json>)
    ensures r.Some? ==> exists k :: 0 <= k < |props| && props[k].1.Obj? && Get(props[k].1, "const") == r
    ensures r.None? ==> forall k :: 0 <= k < |props| ==> !(props[k].1.Obj? && Has(props[k].1, "const"))
  {
    if |props| == 0 then None
    else if props[0].1.Obj? && Has(props[0].1, "const") then Get(props[0].1, "const")
    else
      var r := FirstPropertyConst(props[1..]);
      assert forall k :: 1 <= k < |props| ==> props[1..][k - 1] == props[k];
      r
  }

  /**
   * `_get_variant_identifier`: a display name for a variant, from its own
   * `const`, else the first property `const`, else the first required name,
   * else its `type`, else "unknown".
   */
  function VariantIdentifier(variant: Json): string
  {
    if Has(variant, "const") then Show(Get(variant, "const").value)
    else
      var propertyConst := FirstPropertyConst(Fields(Get(variant, "properties")));
      if propertyConst.Some? then Show(propertyConst.value)
      else
        var required := Items(Get(variant, "required"));
        if |required| > 0 then Show(required[0])
        else if Has(variant, "type") then Show(Get(variant, "type").value)
        else "unknown"
  }

  /** Each source of the name is used only when every earlier one is absent. */
  lemma VariantIdentifierOrder(variant: Json)
    ensures Has(variant, "const") ==> VariantIdentifier(variant) == Show(Get(variant, "const").value)
    ensures !Has(variant, "const") && FirstPropertyConst(Fields(Get(variant, "properties"))).Some? ==>
      VariantIdentifier(variant) == Show(FirstPropertyConst(Fields(Get(variant, "properties"))).value)
    ensures (!Has(variant, "const") && FirstPropertyConst(Fields(Get(variant, "properties"))).None?
      && |Items(Get(variant, "required"))| > 0) ==>
      VariantIdentifier(variant) == Show(Items(Get(variant, "required"))[0])
    ensures (!Has(variant, "const") && FirstPropertyConst(Fields(Get(variant, "properties"))).None?
      && |Items(Get(variant, "required"))| == 0 && Has(variant, "type")) ==>
      VariantIdentifier(variant) == Show(Get(variant, "type").value)
    ensures (!Has(variant, "const") && FirstPropertyConst(Fields(Get(variant, "properties"))).None?
      && |Items(Get(variant, "required"))| == 0 && !Has(variant, "type")) ==>
      VariantIdentifier(variant) == "unknown"
  {
  }

  /** A variant whose own `const` is a string is named by it, whatever else it has. */
  lemma ConstNamesVariant(variant: Json, name: string)
    requires Get(variant, "const") == Some(Str(name))
    ensures VariantIdentifier(variant) == name
  {
  }

  // ------------------------------------------------------ gaps per shape

  /** A string enum nested in a `oneOf`: `"enum"` present and `"type"` equal to "string". */
  predicate StringEnum(variant: Json)
  {
    Has(variant, "enum") && Get(variant, "type") == Some(Str("string"))
  }

  /** One variant gap per name, in order: the literals of an enum or the required names of a variant. */
  function VariantGaps(typeName: string, literals: seq<Json>): (r: seq<MissingDoc>)
    ensures |r| == |literals|
    ensures forall k :: 0 <= k < |r| ==> r[k] == Variant(typeName, Show(literals[k]))
  {
    seq(|literals|, k requires 0 <= k < |literals| => Variant(typeName, Show(literals[k])))
  }

  /** A `oneOf` variant named by a truthy `const` or `title` but without a description. */
  function NamedGap(typeName: string, variant: Json): seq<MissingDoc>
  {
    var name := Or(Get(variant, "const"), Get(variant, "title"));
    if Truthy(name) && !Has(variant, "description") then [Variant(typeName, Show(name.value))] else []
  }

  /** The literals of a string enum nested in a `oneOf`, each a variant to document. */
  function EnumLiteralGaps(typeName: string, variant: Json): seq<MissingDoc>
  {
    if StringEnum(variant) then VariantGaps(typeName, Items(Get(variant, "enum"))) else []
  }

  /** The required names of an undescribed object variant, each a variant to document. */
  function RequiredGaps(typeName: string, variant: Json): seq<MissingDoc>
  {
    if Has(variant, "properties") && !Has(variant, "description")
    then VariantGaps(typeName, Items(Get(variant, "required"))) else []
  }

  /** An object variant with neither `title` nor `const` lacks a title. */
  function TitleGap(typeName: string, variant: Json): seq<MissingDoc>
  {
    if Has(variant, "properties") && !Has(variant, "title") && !Has(variant, "const")
    then [MissingDoc(typeName, VariantTitleGap, Some(VariantIdentifier(variant)))] else []
  }

  /** The gaps of one `oneOf` variant, in the order the four checks append them. */
  function OneOfVariantGaps(typeName: string, variant: Json): seq<MissingDoc>
  {
    NamedGap(typeName, variant) + EnumLiteralGaps(typeName, variant)
      + RequiredGaps(typeName, variant) + TitleGap(typeName, variant)
  }

  function OneOfGaps(typeName: string, variants: seq<Json>): seq<MissingDoc>
  {
    if |variants| == 0 then []
    else OneOfGaps(typeName, variants[..|variants| - 1]) + OneOfVariantGaps(typeName, variants[|variants| - 1])
  }

  /** The name of a referenced definition: the text after the last `/` of the `$ref`. */
  function RefName(reference: string): (r: string)
    ensures '/' !in r
    ensures |r| <= |reference| && r == reference[|reference| - |r|..]
  {
    if |reference| == 0 then ""
    else if reference[|reference| - 1] == '/' then ""
    else RefName(reference[..|reference| - 1]) + [reference[|reference| - 1]]
  }

  /** `null` variants and bare references are not variants to document. */
  predicate SkippedAnyOf(variant: Json)
  {
    Get(variant, "type") == Some(Str("null"))
    || (Has(variant, "$ref") && Size(variant) == 1)
    || (Has(variant, "$ref") && Has(variant, "description"))
  }

  /** The variant gap of an undescribed `anyOf` variant: its reference name, else its `const` or `type`. */
  function DescribedGap(typeName: string, variant: Json): seq<MissingDoc>
  {
    if Has(variant, "$ref") then [Variant(typeName, RefName(Show(Get(variant, "$ref").value)))]
    else if !Has(variant, "description") then
      var id := Or(Get(variant, "const"), Get(variant, "type"));
      [Variant(typeName, if Truthy(id) then Show(id.value) else "unknown")]
    else []
  }

  /** The gaps of one `anyOf` variant. */
  function AnyOfVariantGaps(typeName: string, variant: Json): seq<MissingDoc>
  {
    if SkippedAnyOf(variant) then [] else DescribedGap(typeName, variant) + TitleGap(typeName, variant)
  }

  function AnyOfGaps(typeName: string, variants: seq<Json>): seq<MissingDoc>
  {
    if |variants| == 0 then []
    else AnyOfGaps(typeName, variants[..|variants| - 1]) + AnyOfVariantGaps(typeName, variants[|variants| - 1])
  }

  /** One property gap per property without a description, in order. */
  function PropertyGaps(typeName: string, props: seq<(string, Json)>): seq<MissingDoc>
  {
    if |props| == 0 then []
    else
      var last := props[|props| - 1];
      PropertyGaps(typeName, props[..|props| - 1])
        + (if !Has(last.1, "description") then [MissingDoc(typeName, PropertyGap, Some(last.0))] else [])
  }

  /** The definition carries one of the shapes the audit documents, or a concrete `type`. */
  predicate Documentable(typeDef: Json)
  {
    Has(typeDef, "oneOf") || Has(typeDef, "anyOf") || Has(typeDef, "enum") || Has(typeDef, "properties")
    || (Get(typeDef, "type").Some? && Get(typeDef, "type") != Some(Null))
  }

  /** A type definition without a top-level description. */
  function TopGap(typeName: string, typeDef: Json): seq<MissingDoc>
  {
    if !Has(typeDef, "description") then [TypeDoc(typeName)] else []
  }

  /** The gaps of a type definition; the first keyword present among oneOf, anyOf, enum, properties decides. */
  function TypeGaps(typeName: string, typeDef: Json): seq<MissingDoc>
  {
    var top := TopGap(typeName, typeDef);
    if Has(typeDef, "oneOf") then top + OneOfGaps(typeName, Items(Get(typeDef, "oneOf")))
    else if Has(typeDef, "anyOf") then top + AnyOfGaps(typeName, Items(Get(typeDef, "anyOf")))
    else if Has(typeDef, "enum") then top + VariantGaps(typeName, Items(Get(typeDef, "enum")))
    else if Has(typeDef, "properties") then top + PropertyGaps(typeName, Fields(Get(typeDef, "properties")))
    else if !Has(typeDef, "description") && Get(typeDef, "type").Some? && Get(typeDef, "type") != Some(Null) then [TypeDoc(typeName)]
    else []
  }

  // ------------------------------------------------------------ methods

  /** `check_type_description`. */
  method CheckTypeDescription(typeName: string, typeDef: Json) returns (missing: seq<MissingDoc>)
    ensures missing == TypeGaps(typeName, typeDef)
  {
    missing := [];
    var hasTopDescription := Has(typeDef, "description");
    if Has(typeDef, "oneOf") {
      if !hasTopDescription {
        missing := missing + [TypeDoc(typeName)];
      }
      var variants := Items(Get(typeDef, "oneOf"));
      assert missing == TopGap(typeName, typeDef);
      missing := CheckOneOf(typeName, variants, missing);
    } else if Has(typeDef, "anyOf") {
      if !hasTopDescription {
        missing := missing + [TypeDoc(typeName)];
      }
      var variants := Items(Get(typeDef, "anyOf"));
      assert missing == TopGap(typeName, typeDef);
      missing := CheckAnyOf(typeName, variants, missing);
    } else if Has(typeDef, "enum") {
      if !hasTopDescription {
        missing := missing + [TypeDoc(typeName)];
      }
      var literals := Items(Get(typeDef, "enum"));
      assert missing == TopGap(typeName, typeDef);
      missing := AppendVariants(typeName, literals, missing);
    } else if Has(typeDef, "properties") {
      if !hasTopDescription {
        missing := missing + [TypeDoc(typeName)];
      }
      assert missing == TopGap(typeName, typeDef);
      missing := CheckProperties(typeName, Fields(Get(typeDef, "properties")), missing);
    } else if !hasTopDescription {
      if Get(typeDef, "type").Some? && Get(typeDef, "type") != Some(Null) {
        missing := missing + [TypeDoc(typeName)];
      }
    }
  }

  /** Appends one variant gap per name. */
  method AppendVariants(typeName: string, literals: seq<Json>, missing: seq<MissingDoc>) returns (out: seq<MissingDoc>)
    ensures out == missing + VariantGaps(typeName, literals)
  {
    out := missing;
    var k := 0;
    while k < |literals|
      invariant k <= |literals| && out == missing + VariantGaps(typeName, literals[..k])
    {
      out := out + [Variant(typeName, Show(literals[k]))];
      k := k + 1;
    }
    assert literals[..k] == literals;
  }

  /** The four checks on one `oneOf` variant, each appending what it finds. */
  method CheckOneOfVariant(typeName: string, variant: Json, missing: seq<MissingDoc>) returns (out: seq<MissingDoc>)
    ensures out == missing + OneOfVariantGaps(typeName, variant)
  {
    out := missing;
    var variantName := Or(Get(variant, "const"), Get(variant, "title"));
    if Truthy(variantName) && !Has(variant, "description") {
      out := out + [Variant(typeName, Show(variantName.value))];
    }
    ghost var named := out;
    assert named == missing + NamedGap(typeName, variant);
    if Has(variant, "enum") && Get(variant, "type") == Some(Str("string")) {
      out := AppendVariants(typeName, Items(Get(variant, "enum")), out);
    }
    assert out == named + EnumLiteralGaps(typeName, variant);
    ghost var literals := out;
    if Has(variant, "properties") && !Has(variant, "description") {
      out := AppendVariants(typeName, Items(Get(variant, "required")), out);
    }
    assert out == literals + RequiredGaps(typeName, variant);
    ghost var fields := out;
    if Has(variant, "properties") && !Has(variant, "title") && !Has(variant, "const") {
      var variantId := VariantIdentifier(variant);
      out := out + [MissingDoc(typeName, VariantTitleGap, Some(variantId))];
    }
    assert out == fields + TitleGap(typeName, variant);
    AppendAssoc4(missing, NamedGap(typeName, variant), EnumLiteralGaps(typeName, variant),
      RequiredGaps(typeName, variant), TitleGap(typeName, variant));
  }

  lemma AppendAssoc4<T>(m: seq<T>, a: seq<T>, b: seq<T>, c: seq<T>, d: seq<T>)
    ensures m + a + b + c + d == m + (a + b + c + d)
  {
  }

  lemma OneOfGapsStep(typeName: string, variants: seq<Json>, i: nat)
    requires i < |variants|
    ensures OneOfGaps(typeName, variants[..i + 1]) == OneOfGaps(typeName, variants[..i]) + OneOfVariantGaps(typeName, variants[i])
  {
    assert variants[..i + 1][..i] == variants[..i];
  }

  /** The loop over a `oneOf` list. */
  method CheckOneOf(typeName: string, variants: seq<Json>, missing: seq<MissingDoc>) returns (out: seq<MissingDoc>)
    ensures out == missing + OneOfGaps(typeName, variants)
  {
    out := missing;
    var i := 0;
    while i < |variants|
      invariant i <= |variants| && out == missing + OneOfGaps(typeName, variants[..i])
    {
      OneOfGapsStep(typeName, variants, i);
      Strings.AppendAssoc(missing, OneOfGaps(typeName, variants[..i]), OneOfVariantGaps(typeName, variants[i]));
      out := CheckOneOfVariant(typeName, variants[i], out);
      i := i + 1;
    }
    assert variants[..i] == variants;
  }

  /** The checks on one `anyOf` variant that is not skipped. */
  method CheckAnyOfVariant(typeName: string, variant: Json, missing: seq<MissingDoc>) returns (out: seq<MissingDoc>)
    requires !SkippedAnyOf(variant)
    ensures out == missing + AnyOfVariantGaps(typeName, variant)
  {
    out := missing;
    if Has(variant, "$ref") && !Has(variant, "description") {
      var refName := RefName(Show(Get(variant, "$ref").value));
      out := out + [Variant(typeName, refName)];
    } else if !Has(variant, "description") && !Has(variant, "$ref") {
      var id := Or(Get(variant, "const"), Get(variant, "type"));
      var variantId := if Truthy(id) then Show(id.value) else "unknown";
      out := out + [Variant(typeName, variantId)];
    }
    assert out == missing + DescribedGap(typeName, variant);
    ghost var described := out;
    if Has(variant, "properties") && !Has(variant, "title") && !Has(variant, "const") {
      var variantId := VariantIdentifier(variant);
      out := out + [MissingDoc(typeName, VariantTitleGap, Some(variantId))];
    }
    assert out == described + TitleGap(typeName, variant);
    Strings.AppendAssoc(missing, DescribedGap(typeName, variant), TitleGap(typeName, variant));
  }

  lemma AnyOfGapsStep(typeName: string, variants: seq<Json>, i: nat)
    requires i < |variants|
    ensures AnyOfGaps(typeName, variants[..i + 1]) == AnyOfGaps(typeName, variants[..i]) + AnyOfVariantGaps(typeName, variants[i])
  {
    assert variants[..i + 1][..i] == variants[..i];
  }

  /** The loop over an `anyOf` list, skipping `null` variants and bare references. */
  method CheckAnyOf(typeName: string, variants: seq<Json>, missing: seq<MissingDoc>) returns (out: seq<MissingDoc>)
    ensures out == missing + AnyOfGaps(typeName, variants)
  {
    out := missing;
    var i := 0;
    while i < |variants|
      invariant i <= |variants| && out == missing + AnyOfGaps(typeName, variants[..i])
    {
      var variant := variants[i];
      AnyOfGapsStep(typeName, variants, i);
      Strings.AppendAssoc(missing, AnyOfGaps(typeName, variants[..i]), AnyOfVariantGaps(typeName, variant));
      i := i + 1;
      if Get(variant, "type") == Some(Str("null")) {
        continue;
      }
      if Has(variant, "$ref") && Size(variant) == 1 {
        continue;
      }
      if Has(variant, "$ref") && Has(variant, "description") {
        continue;
      }
      out := CheckAnyOfVariant(typeName, variant, out);
    }
    assert variants[..i] == variants;
  }

  /** The loop over a record's properties. */
  method CheckProperties(typeName: string, props: seq<(string, Json)>, missing: seq<MissingDoc>) returns (out: seq<MissingDoc>)
    ensures out == missing + PropertyGaps(typeName, props)
  {
    out := missing;
    var i := 0;
    while i < |props|
      invariant i <= |props| && out == missing + PropertyGaps(typeName, props[..i])
    {
      assert props[..i + 1][..i] == props[..i];
      var (propName, propDef) := props[i];
      if !Has(propDef, "description") {
        out := out + [MissingDoc(typeName, PropertyGap, Some(propName))];
      }
      i := i + 1;
    }
    assert props[..i] == props;
  }

  /** `check_top_level_properties`: the root's own properties, under the root's name. */
  method CheckTopLevelProperties(schema: Json, rootTypeName: string) returns (missing: seq<MissingDoc>)
    ensures missing == PropertyGaps(rootTypeName, Fields(Get(schema, "properties")))
  {
    missing := CheckProperties(rootTypeName, Fields(Get(schema, "properties")), []);
  }

  // --------------------------------------------------------- properties

  /** Gaps below the type level: each names the type, is not a type gap, and names its item. */
  predicate ItemGaps(typeName: string, gaps: seq<MissingDoc>)
  {
    forall k :: 0 <= k < |gaps| ==> gaps[k].typeName == typeName && gaps[k].kind != TypeGap && gaps[k].itemName.Some?
  }

  lemma ItemGapsAppend(typeName: string, a: seq<MissingDoc>, b: seq<MissingDoc>)
    requires ItemGaps(typeName, a) && ItemGaps(typeName, b)
    ensures ItemGaps(typeName, a + b)
  {
  }

  lemma OneOfVariantItems(typeName: string, variant: Json)
    ensures ItemGaps(typeName, OneOfVariantGaps(typeName, variant))
  {
    var named := NamedGap(typeName, variant);
    var literals := EnumLiteralGaps(typeName, variant);
    var fields := RequiredGaps(typeName, variant);
    ItemGapsAppend(typeName, named, literals);
    ItemGapsAppend(typeName, named + literals, fields);
    ItemGapsAppend(typeName, named + literals + fields, TitleGap(typeName, variant));
  }

  lemma AnyOfVariantItems(typeName: string, variant: Json)
    ensures ItemGaps(typeName, AnyOfVariantGaps(typeName, variant))
  {
    ItemGapsAppend(typeName, DescribedGap(typeName, variant), TitleGap(typeName, variant));
  }

  lemma {:induction false} OneOfGapsItems(typeName: string, variants: seq<Json>)
    ensures ItemGaps(typeName, OneOfGaps(typeName, variants))
  {
    if |variants| > 0 {
      OneOfGapsItems(typeName, variants[..|variants| - 1]);
      OneOfVariantItems(typeName, variants[|variants| - 1]);
      ItemGapsAppend(typeName, OneOfGaps(typeName, variants[..|variants| - 1]), OneOfVariantGaps(typeName, variants[|variants| - 1]));
    }
  }

  lemma {:induction false} AnyOfGapsItems(typeName: string, variants: seq<Json>)
    ensures ItemGaps(typeName, AnyOfGaps(typeName, variants))
  {
    if |variants| > 0 {
      AnyOfGapsItems(typeName, variants[..|variants| - 1]);
      AnyOfVariantItems(typeName, variants[|variants| - 1]);
      ItemGapsAppend(typeName, AnyOfGaps(typeName, variants[..|variants| - 1]), AnyOfVariantGaps(typeName, variants[|variants| - 1]));
    }
  }

  lemma {:induction false} PropertyGapsItems(typeName: string, props: seq<(string, Json)>)
    ensures ItemGaps(typeName, PropertyGaps(typeName, props))
  {
    if |props| > 0 {
      PropertyGapsItems(typeName, props[..|props| - 1]);
    }
  }

  /**
   * Every gap of a type names that type; the type gap is reported exactly when
   * the definition has no description and carries something to document, and
   * only as the first gap.
   */
  lemma TypeGapsShape(typeName: string, typeDef: Json)
    ensures forall k :: 0 <= k < |TypeGaps(typeName, typeDef)| ==> TypeGaps(typeName, typeDef)[k].typeName == typeName
    ensures TypeDoc(typeName) in TypeGaps(typeName, typeDef) <==> !Has(typeDef, "description") && Documentable(typeDef)
    ensures forall k :: 0 < k < |TypeGaps(typeName, typeDef)| ==> TypeGaps(typeName, typeDef)[k].kind != TypeGap
  {
    var top := TopGap(typeName, typeDef);
    var rest: seq<MissingDoc> := [];
    if Has(typeDef, "oneOf") {
      rest := OneOfGaps(typeName, Items(Get(typeDef, "oneOf")));
      OneOfGapsItems(typeName, Items(Get(typeDef, "oneOf")));
    } else if Has(typeDef, "anyOf") {
      rest := AnyOfGaps(typeName, Items(Get(typeDef, "anyOf")));
      AnyOfGapsItems(typeName, Items(Get(typeDef, "anyOf")));
    } else if Has(typeDef, "enum") {
      rest := VariantGaps(typeName, Items(Get(typeDef, "enum")));
    } else if Has(typeDef, "properties") {
      rest := PropertyGaps(typeName, Fields(Get(typeDef, "properties")));
      PropertyGapsItems(typeName, Fields(Get(typeDef, "properties")));
    } else {
      return;
    }
    assert ItemGaps(typeName, rest);
    assert TypeGaps(typeName, typeDef) == top + rest;
    assert TypeDoc(typeName) !in rest;
  }

  /** A property is reported exactly when it has no description. */
  lemma {:induction false} PropertyGapsExact(typeName: string, props: seq<(string, Json)>, name: string)
    ensures MissingDoc(typeName, PropertyGap, Some(name)) in PropertyGaps(typeName, props)
      <==> exists k :: 0 <= k < |props| && props[k].0 == name && !Has(props[k].1, "description")
  {
    if |props| > 0 {
      var init := props[..|props| - 1];
      PropertyGapsExact(typeName, init, name);
      assert forall k :: 0 <= k < |init| ==> init[k] == props[k];
      if exists k :: 0 <= k < |props| && props[k].0 == name && !Has(props[k].1, "description") {
        var k :| 0 <= k < |props| && props[k].0 == name && !Has(props[k].1, "description");
        if k < |init| {
          assert init[k] == props[k];
        }
      }
    }
  }

  /** A described `oneOf` variant that is neither a string enum nor an untitled object has nothing missing. */
  lemma DescribedOneOfVariant(typeName: string, variant: Json)
    requires Has(variant, "description") && !StringEnum(variant)
    requires !Has(variant, "properties") || Has(variant, "title") || Has(variant, "const")
    ensures OneOfVariantGaps(typeName, variant) == []
  {
  }

  /** A plain named `oneOf` variant without a description is one variant gap under its `const` or `title`. */
  lemma NamedOneOfVariant(typeName: string, variant: Json)
    requires Truthy(Or(Get(variant, "const"), Get(variant, "title"))) && !Has(variant, "description")
    requires !StringEnum(variant) && !Has(variant, "properties")
    ensures OneOfVariantGaps(typeName, variant) == [Variant(typeName, Show(Or(Get(variant, "const"), Get(variant, "title")).value))]
  {
  }

  /** An unnamed string enum nested in a `oneOf` yields one variant gap per literal. */
  lemma StringEnumOneOfVariant(typeName: string, variant: Json)
    requires StringEnum(variant) && !Has(variant, "properties")
    requires !Truthy(Or(Get(variant, "const"), Get(variant, "title")))
    ensures OneOfVariantGaps(typeName, variant) == VariantGaps(typeName, Items(Get(variant, "enum")))
  {
  }

  /**
   * An undescribed object variant with neither `title` nor `const`: one gap
   * per required name, then the missing title under its identifier.
   */
  lemma UntitledObjectOneOfVariant(typeName: string, variant: Json)
    requires Has(variant, "properties") && !Has(variant, "description")
    requires !Has(variant, "title") && !Has(variant, "const") && !StringEnum(variant)
    ensures OneOfVariantGaps(typeName, variant)
      == VariantGaps(typeName, Items(Get(variant, "required"))) + [MissingDoc(typeName, VariantTitleGap, Some(VariantIdentifier(variant)))]
  {
    assert NamedGap(typeName, variant) == [];
    assert EnumLiteralGaps(typeName, variant) == [];
  }

  /** `null` variants and bare or described references contribute nothing. */
  lemma SkippedAnyOfVariant(typeName: string, variant: Json)
    requires SkippedAnyOf(variant)
    ensures AnyOfVariantGaps(typeName, variant) == []
  {
  }

  /** An undescribed reference among other keys is reported under the referenced type's name, first. */
  lemma ReferenceAnyOfVariant(typeName: string, variant: Json)
    requires Has(variant, "$ref") && !Has(variant, "description") && Size(variant) != 1
    requires Get(variant, "type") != Some(Str("null"))
    ensures |AnyOfVariantGaps(typeName, variant)| >= 1
    ensures AnyOfVariantGaps(typeName, variant)[0] == Variant(typeName, RefName(Show(Get(variant, "$ref").value)))
  {
  }

  /** Any other undescribed `anyOf` variant is reported once, under its `const` or `type`, or as "unknown". */
  lemma PlainAnyOfVariant(typeName: string, variant: Json)
    requires !Has(variant, "$ref") && !Has(variant, "description")
    requires Get(variant, "type") != Some(Str("null"))
    ensures |AnyOfVariantGaps(typeName, variant)| >= 1
    ensures AnyOfVariantGaps(typeName, variant)[0].kind == VariantGap
    ensures !Truthy(Get(variant, "const")) && !Truthy(Get(variant, "type")) ==>
      AnyOfVariantGaps(typeName, variant)[0] == Variant(typeName, "unknown")
  {
  }

  // ------------------------------------------------------------ schemas

  /** The generated numbered copies of `PerAnimationPrefixConfig` are not audited. */
  predicate Skipped(typeName: string)
  {
    Strings.IsPrefix("PerAnimationPrefixConfig", typeName) && typeName != "PerAnimationPrefixConfig"
  }

  /** The schema's `title`, or "Root". */
  function RootTypeName(schema: Json): string
  {
    if Has(schema, "title") then Show(Get(schema, "title").value) else "Root"
  }

  function ByName(definition: (string, Json)): string
  {
    definition.0
  }

  /** The gaps of each definition in turn, leaving out the skipped ones. */
  function DefinitionGaps(definitions: seq<(string, Json)>): seq<MissingDoc>
  {
    if |definitions| == 0 then []
    else
      var last := definitions[|definitions| - 1];
      DefinitionGaps(definitions[..|definitions| - 1]) + (if Skipped(last.0) then [] else TypeGaps(last.0, last.1))
  }

  /** The root's properties, then the definitions under `$defs` in order of their names. */
  function SchemaGaps(schema: Json): seq<MissingDoc>
  {
    PropertyGaps(RootTypeName(schema), Fields(Get(schema, "properties")))
      + DefinitionGaps(Strings.SortBy(Fields(Get(schema, "$defs")), ByName))
  }

  /** The location searched for a gap: type gaps have no item, the others search by their item's name. */
  function Located(doc: MissingDoc, files: seq<RustFile>): LocatedDoc
  {
    LocatedDoc(doc, Locate(files, doc.typeName, doc.kind, doc.itemName.UnwrapOr("")))
  }

  lemma {:induction false} DefinitionGapsNames(definitions: seq<(string, Json)>)
    ensures forall g :: g in DefinitionGaps(definitions) ==>
      exists k :: 0 <= k < |definitions| && definitions[k].0 == g.typeName && !Skipped(g.typeName)
  {
    if |definitions| > 0 {
      var init := definitions[..|definitions| - 1];
      var last := definitions[|definitions| - 1];
      DefinitionGapsNames(init);
      TypeGapsShape(last.0, last.1);
      forall g | g in DefinitionGaps(definitions)
        ensures exists k :: 0 <= k < |definitions| && definitions[k].0 == g.typeName && !Skipped(g.typeName)
      {
        if g in DefinitionGaps(init) {
          var k :| 0 <= k < |init| && init[k].0 == g.typeName && !Skipped(g.typeName);
          assert definitions[k] == init[k];
        } else {
          assert definitions[|definitions| - 1].0 == g.typeName;
        }
      }
    }
  }

  /** Every gap is filed under the root's name or under a definition that is not skipped. */
  lemma SchemaGapsNames(schema: Json)
    ensures forall g :: g in SchemaGaps(schema) ==>
      g.typeName == RootTypeName(schema) ||
      (exists k :: 0 <= k < |Fields(Get(schema, "$defs"))|
                  && Fields(Get(schema, "$defs"))[k].0 == g.typeName && !Skipped(g.typeName))
  {
    var root := RootTypeName(schema);
    var definitions := Fields(Get(schema, "$defs"));
    var sorted := Strings.SortBy(definitions, ByName);
    PropertyGapsItems(root, Fields(Get(schema, "properties")));
    DefinitionGapsNames(sorted);
    Strings.SortBySortedPermutation(definitions, ByName);
    forall g | g in SchemaGaps(schema) && g !in PropertyGaps(root, Fields(Get(schema, "properties")))
      ensures exists k :: 0 <= k < |definitions| && definitions[k].0 == g.typeName && !Skipped(g.typeName)
    {
      var j :| 0 <= j < |sorted| && sorted[j].0 == g.typeName && !Skipped(g.typeName);
      assert sorted[j] in multiset(definitions);
      var k :| 0 <= k < |definitions| && definitions[k] == sorted[j];
    }
  }

  // ------------------------------------------------------ the whole audit

  /** One schema to audit: its parsed contents, absent when the file does not exist, and the Rust files to search. */
  datatype SchemaConfig = SchemaConfig(schema: Option<Json>, files: seq<RustFile>)

  lemma DefinitionGapsStep(definitions: seq<(string, Json)>, i: nat)
    requires i < |definitions|
    ensures DefinitionGaps(definitions[..i + 1]) == DefinitionGaps(definitions[..i])
      + (if Skipped(definitions[i].0) then [] else TypeGaps(definitions[i].0, definitions[i].1))
  {
    assert definitions[..i + 1][..i] == definitions[..i];
  }

  /** The loop over the definitions in name order. */
  method CheckDefinitions(definitions: seq<(string, Json)>, missing: seq<MissingDoc>) returns (out: seq<MissingDoc>)
    ensures out == missing + DefinitionGaps(definitions)
  {
    out := missing;
    var i := 0;
    while i < |definitions|
      invariant i <= |definitions| && out == missing + DefinitionGaps(definitions[..i])
    {
      var (typeName, typeDef) := definitions[i];
      DefinitionGapsStep(definitions, i);
      i := i + 1;
      if Strings.IsPrefix("PerAnimationPrefixConfig", typeName) && typeName != "PerAnimationPrefixConfig" {
        continue;
      }
      var found := CheckTypeDescription(typeName, typeDef);
      Strings.AppendAssoc(missing, DefinitionGaps(definitions[..i - 1]), found);
      out := out + found;
    }
    assert definitions[..i] == definitions;
  }

  /** Looks up each gap in the Rust sources, in order. */
  method LocateAll(missing: seq<MissingDoc>, files: seq<RustFile>) returns (located: seq<LocatedDoc>)
    ensures |located| == |missing|
    ensures forall k :: 0 <= k < |missing| ==> located[k] == Located(missing[k], files)
  {
    located := [];
    var i := 0;
    while i < |missing|
      invariant i <= |missing| && |located| == i
      invariant forall k :: 0 <= k < i ==> located[k] == Located(missing[k], files)
    {
      var doc := missing[i];
      var location := FindRustDefinition(doc.typeName, doc.itemName.UnwrapOr(""), doc.kind, files);
      located := located + [LocatedDoc(doc, location)];
      i := i + 1;
    }
  }

  /** `check_schema`: a missing schema is an error; otherwise every gap, with where it was found. */
  method CheckSchema(schema: Option<Json>, files: seq<RustFile>) returns (located: seq<LocatedDoc>, code: int)
    ensures schema.None? ==> located == [] && code == 1
    ensures schema.Some? ==> code == 0 && |located| == |SchemaGaps(schema.value)|
    ensures schema.Some? ==> forall k :: 0 <= k < |located| ==> located[k] == Located(SchemaGaps(schema.value)[k], files)
  {
    if schema.None? {
      return [], 1;
    }
    var rootTypeName := RootTypeName(schema.value);
    var allMissing := CheckTopLevelProperties(schema.value, rootTypeName);
    var definitions := Strings.SortBy(Fields(Get(schema.value, "$defs")), ByName);
    allMissing := CheckDefinitions(definitions, allMissing);
    located := LocateAll(allMissing, files);
    code := 0;
  }

  /** The number of gaps of a schema that exists. */
  function GapCount(config: SchemaConfig): nat
  {
    if config.schema.Some? then |SchemaGaps(config.schema.value)| else 0
  }

  /** A schema that does not exist counts as one error. */
  function ErrorCount(config: SchemaConfig): nat
  {
    if config.schema.None? then 1 else 0
  }

  /** The sum of `count` over the configurations. */
  function Total(configs: seq<SchemaConfig>, count: SchemaConfig -> nat): nat
  {
    if |configs| == 0 then 0
    else Total(configs[..|configs| - 1], count) + count(configs[|configs| - 1])
  }

  lemma {:induction false} TotalPositive(configs: seq<SchemaConfig>, count: SchemaConfig -> nat)
    ensures Total(configs, count) > 0 <==> exists k :: 0 <= k < |configs| && count(configs[k]) > 0
  {
    if |configs| > 0 {
      var init := configs[..|configs| - 1];
      TotalPositive(init, count);
      assert forall k :: 0 <= k < |init| ==> init[k] == configs[k];
    }
  }

  lemma TotalStep(configs: seq<SchemaConfig>, i: nat, count: SchemaConfig -> nat)
    requires i < |configs|
    ensures Total(configs[..i + 1], count) == Total(configs[..i], count) + count(configs[i])
  {
    assert configs[..i + 1][..i] == configs[..i];
  }

  /** Audits one schema and keeps only what `main` uses: the number of gaps and the error code. */
  method CheckAndCount(config: SchemaConfig) returns (missingCount: nat, errorCode: int)
    ensures errorCode == (if config.schema.None? then 1 else 0)
    ensures config.schema.Some? ==> missingCount == GapCount(config)
  {
    var missing;
    missing, errorCode := CheckSchema(config.schema, config.files);
    missingCount := |missing|;
  }

  /** `main`: fails when a schema is missing or when any schema has a gap. */
  method RunChecks(configs: seq<SchemaConfig>) returns (code: int)
    ensures code == 0 || code == 1
    ensures code == 1 <==>
      (exists k :: 0 <= k < |configs| && configs[k].schema.None?) || (exists k :: 0 <= k < |configs| && GapCount(configs[k]) > 0)
  {
    var totalMissing := 0;
    var hasErrors := false;
    var i := 0;
    while i < |configs|
      invariant i <= |configs| && totalMissing == Total(configs[..i], GapCount)
      invariant hasErrors <==> Total(configs[..i], ErrorCount) > 0
    {
      var config := configs[i];
      TotalStep(configs, i, GapCount);
      TotalStep(configs, i, ErrorCount);
      var missingCount, errorCode := CheckAndCount(config);
      i := i + 1;
      if errorCode != 0 {
        assert ErrorCount(config) == 1;
        hasErrors := true;
        continue;
      }
      assert ErrorCount(config) == 0;
      totalMissing := totalMissing + missingCount;
    }
    assert configs[..i] == configs;
    TotalPositive(configs, GapCount);
    TotalPositive(configs, ErrorCount);
    if hasErrors {
      return 1;
    }
    return if totalMissing > 0 then 1 else 0;
  }
}
