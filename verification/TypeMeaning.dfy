/**
 * What is read from a printed schema, keyword by keyword, in terms of the
 * schema and of what is read from the prints of its parts.
 */
module TypeMeaning {
  import opened Sequences
  import opened TypePrinter
  import opened TypeReader

  /** The type read from the print of a schema. */
  ghost function ReadBack(schema: Schema): (t: Type)
    ensures ReadUnion(Render(schema)) == Some((t, []))
  {
    PrintedTypeReadsBack(schema);
    ReadUnion(Render(schema)).value.0
  }

  lemma ReadsIntended(schema: Schema)
    ensures ReadBack(schema) == Intended(schema)
  {
    PrintedTypeReadsBack(schema);
    hide Render, Intended, ReadUnion;
  }

  lemma {:induction false} IntendedEach(schemas: seq<Schema>, parent: Schema)
    requires forall s :: s in schemas ==> s < parent
    ensures |IntendedAll(schemas, parent)| == |schemas|
    ensures forall i :: 0 <= i < |schemas| ==> IntendedAll(schemas, parent)[i] == ReadBack(schemas[i])
  {
    hide Intended;
    if schemas != [] {
      assert schemas[0] in schemas;
      assert forall s :: s in schemas[1..] ==> s in schemas;
      ReadsIntended(schemas[0]);
      IntendedEach(schemas[1..], parent);
    }
  }

  // Which keyword decides.

  ghost predicate Alternates(variants: Variants) {
    variants.Variants? && exists v :: v in variants.list && !(v.Mapping? && v.conditional)
  }

  lemma AlternatesIffUsed(variants: Variants)
    ensures UsesVariants(variants) <==> Alternates(variants)
  {
    if variants.Variants? && Typed(variants.list) != [] {
      assert Typed(variants.list)[0] in Typed(variants.list);
    }
  }

  /** No reference, constant or enumeration comes first. */
  predicate Structural(schema: Schema) {
    schema.Mapping? && schema.reference.NoText? && schema.constant.NoText? && schema.enumeration.NoTexts?
  }

  /** Nor do any alternatives. */
  ghost predicate Unvaried(schema: Schema) {
    Structural(schema) && !Alternates(schema.anyOf) && !Alternates(schema.oneOf)
  }

  /** Nor does allOf, which gives way to types and properties. */
  ghost predicate ByType(schema: Schema) {
    && Unvaried(schema)
    && (Alternates(schema.allOf) ==> !schema.types.NoType? || !schema.properties.NoProperties?)
  }

  lemma Deciding(schema: Schema)
    requires schema.Mapping?
    ensures UsesVariants(schema.anyOf) <==> Alternates(schema.anyOf)
    ensures UsesVariants(schema.oneOf) <==> Alternates(schema.oneOf)
    ensures UsesAllOf(schema) <==>
      Alternates(schema.allOf) && schema.types.NoType? && schema.properties.NoProperties?
  {
    AlternatesIffUsed(schema.anyOf);
    AlternatesIffUsed(schema.oneOf);
    AlternatesIffUsed(schema.allOf);
  }

  // What is read, keyword by keyword.

  lemma NamesRead(schema: Schema)
    ensures schema.NotAMapping? ==> ReadBack(schema) == Only(Name("GeneratedJsonValue"))
    ensures schema.Mapping? && schema.reference.Text? ==> ReadBack(schema) == Only(Name(schema.reference.text))
    ensures schema.Mapping? && schema.reference.NoText? && schema.constant.Text? ==>
      ReadBack(schema) == Only(Name(schema.constant.text))
  {
    ReadsIntended(schema);
    hide Render, ReadUnion;
  }

  /** Enumerations read as the union of their literals, an empty one as the type without values. */
  lemma EnumerationReads(schema: Schema)
    requires schema.Mapping? && schema.reference.NoText? && schema.constant.NoText? && schema.enumeration.Texts?
    ensures var texts := schema.enumeration.texts;
      ReadBack(schema) == if texts == [] then Only(Name("never"))
                          else Union(set text | text in texts :: Meet({Name(text)}))
  {
    ReadsIntended(schema);
    hide Render, ReadUnion;
    var texts := schema.enumeration.texts;
    var types := NamesOf(texts);
    forall meet ensures meet in (set text | text in texts :: Meet({Name(text)})) <==> meet in Any(types).alternatives {
      if meet in (set text | text in texts :: Meet({Name(text)})) {
        var k :| 0 <= k < |texts| && Meet({Name(texts[k])}) == meet;
        assert types[k] in types && meet in types[k].alternatives;
      }
    }
  }

  /** Where anyOf applies, the alternatives read are exactly those read from its variants without `if`. */
  lemma AnyOfReads(schema: Schema)
    requires Structural(schema) && Alternates(schema.anyOf)
    ensures ReadBack(schema).alternatives
         == set v, meet | v in schema.anyOf.list && !(v.Mapping? && v.conditional) && meet in ReadBack(v).alternatives
              :: meet
  {
    Deciding(schema);
    ReadsIntended(schema);
    AnyOfTyped(schema.anyOf.list, schema);
    hide Render, ReadUnion, ReadBack;
  }

  /** Where oneOf applies, likewise. */
  lemma OneOfReads(schema: Schema)
    requires Structural(schema) && !Alternates(schema.anyOf) && Alternates(schema.oneOf)
    ensures ReadBack(schema).alternatives
         == set v, meet | v in schema.oneOf.list && !(v.Mapping? && v.conditional) && meet in ReadBack(v).alternatives
              :: meet
  {
    Deciding(schema);
    ReadsIntended(schema);
    AnyOfTyped(schema.oneOf.list, schema);
    hide Render, ReadUnion, ReadBack;
  }

  lemma AnyOfTyped(variants: seq<Schema>, parent: Schema)
    requires forall v :: v in variants ==> v < parent
    ensures Any(IntendedAll(Typed(variants), parent)).alternatives
         == set v, meet | v in variants && !(v.Mapping? && v.conditional) && meet in ReadBack(v).alternatives :: meet
  {
    IntendedEach(Typed(variants), parent);
    AnyOfEach(Typed(variants), IntendedAll(Typed(variants), parent));
    hide ReadBack, IntendedAll, Any, Typed;
  }

  lemma AnyOfEach(schemas: seq<Schema>, types: seq<Type>)
    requires |types| == |schemas| && forall i :: 0 <= i < |schemas| ==> types[i] == ReadBack(schemas[i])
    ensures Any(types).alternatives == set v, meet | v in schemas && meet in ReadBack(v).alternatives :: meet
  {
    hide ReadBack;
    forall v | v in schemas ensures ReadBack(v) in types {
      var i :| 0 <= i < |schemas| && schemas[i] == v;
      assert types[i] in types;
    }
    forall t | t in types ensures exists v :: v in schemas && t == ReadBack(v) {
      var i :| 0 <= i < |types| && types[i] == t;
      assert schemas[i] in schemas;
    }
  }

  /** Where allOf applies, the parts read are exactly those of its members without `if`. */
  lemma AllOfReads(schema: Schema)
    requires Unvaried(schema) && Alternates(schema.allOf)
    requires schema.types.NoType? && schema.properties.NoProperties?
    ensures ReadBack(schema)
         == Union(AlternativesOf(set v, part | v in schema.allOf.list && !(v.Mapping? && v.conditional)
                                               && part in PartsOf(ReadBack(v)) :: part))
  {
    Deciding(schema);
    ReadsIntended(schema);
    AllOfTyped(schema.allOf.list, schema);
    hide Render, ReadUnion, ReadBack, PartsOf, AlternativesOf;
  }

  lemma AllOfTyped(variants: seq<Schema>, parent: Schema)
    requires forall v :: v in variants ==> v < parent
    ensures AllParts(IntendedAll(Typed(variants), parent))
         == set v, part | v in variants && !(v.Mapping? && v.conditional) && part in PartsOf(ReadBack(v)) :: part
  {
    IntendedEach(Typed(variants), parent);
    AllOfEach(Typed(variants), IntendedAll(Typed(variants), parent));
    hide ReadBack, IntendedAll, AllParts, PartsOf, Typed;
  }

  lemma AllOfEach(schemas: seq<Schema>, types: seq<Type>)
    requires |types| == |schemas| && forall i :: 0 <= i < |schemas| ==> types[i] == ReadBack(schemas[i])
    ensures AllParts(types) == set v, part | v in schemas && part in PartsOf(ReadBack(v)) :: part
  {
    hide ReadBack, PartsOf;
    forall v | v in schemas ensures ReadBack(v) in types {
      var i :| 0 <= i < |schemas| && schemas[i] == v;
      assert types[i] in types;
    }
    forall t | t in types ensures exists v :: v in schemas && t == ReadBack(v) {
      var i :| 0 <= i < |types| && types[i] == t;
      assert schemas[i] in schemas;
    }
  }

  /** A single type name. */
  lemma TypeNameReads(schema: Schema)
    requires ByType(schema)
    ensures schema.types == OneType("null") ==> ReadBack(schema) == Only(Name("null"))
    ensures schema.types == OneType("boolean") ==> ReadBack(schema) == Only(Name("boolean"))
    ensures schema.types in {OneType("integer"), OneType("number")} ==> ReadBack(schema) == Only(Name("number"))
    ensures schema.types == OneType("string") ==> ReadBack(schema) == Only(Name("string"))
  {
    Deciding(schema);
    ReadsIntended(schema);
    hide Render, ReadUnion, ReadBack;
  }

  /** A list of type names reads as the union over the schema under each of them. */
  lemma TypeListReads(schema: Schema)
    requires ByType(schema) && schema.types.ManyTypes?
    ensures schema.types.names == [] ==> ReadBack(schema) == Only(Name("never"))
    ensures schema.types.names != [] ==>
      ReadBack(schema).alternatives
        == set name, meet | name in schema.types.names
                            && meet in ReadBack(schema.(types := OneType(name))).alternatives :: meet
  {
    Deciding(schema);
    ReadsIntended(schema);
    var names := schema.types.names;
    forall name ensures ReadBack(schema.(types := OneType(name))) == IntendedType(schema, OneType(name)) {
      UnderName(schema, name);
    }
    hide Render, ReadUnion, ReadBack, IntendedType;
    var types := seq(|names|, i requires 0 <= i < |names| => IntendedType(schema, OneType(names[i])));
    if names != [] {
      forall meet ensures meet in Any(types).alternatives <==>
        exists name :: name in names && meet in ReadBack(schema.(types := OneType(name))).alternatives
      {
        if name :| name in names && meet in ReadBack(schema.(types := OneType(name))).alternatives {
          var i :| 0 <= i < |names| && names[i] == name;
          assert types[i] in types;
        }
        if t :| t in types && meet in t.alternatives {
          var i :| 0 <= i < |types| && types[i] == t;
          assert names[i] in names;
        }
      }
    }
  }

  lemma UnderName(schema: Schema, name: string)
    requires ByType(schema) && schema.types.ManyTypes?
    ensures ReadBack(schema.(types := OneType(name))) == IntendedType(schema, OneType(name))
  {
    var single := schema.(types := OneType(name));
    Deciding(single);
    ReadsIntended(single);
    hide Render, ReadUnion, ReadBack;
    SameUnderName(schema, single, OneType(name));
  }

  /** The type of a schema under a name does not depend on its own list of names. */
  lemma SameUnderName(schema: Schema, single: Schema, kind: Types)
    requires schema.Mapping? && single == schema.(types := kind)
    ensures IntendedType(single, kind) == IntendedType(schema, kind)
  {
    if schema.prefixItems.Variants? {
      IntendedEach(schema.prefixItems.list, schema);
      IntendedEach(single.prefixItems.list, single);
      assert IntendedAll(schema.prefixItems.list, schema) == IntendedAll(single.prefixItems.list, single);
    }
    if schema.properties.Properties? {
      MembersEach(schema.properties.fields, schema);
      MembersEach(single.properties.fields, single);
      assert IntendedMembers(schema.properties.fields, schema) == IntendedMembers(single.properties.fields, single);
    }
    hide Intended, IntendedAll, IntendedMembers, ReadBack;
  }

  lemma {:induction false} MembersEach(fields: seq<Property>, parent: Schema)
    requires parent.Mapping?
    requires forall f :: f in fields ==> f.schema < parent
    ensures |IntendedMembers(fields, parent)| == |fields|
    ensures forall i :: 0 <= i < |fields| ==>
      IntendedMembers(fields, parent)[i]
        == Member(fields[i].name, fields[i].name !in parent.required, ReadBack(fields[i].schema))
  {
    hide Intended;
    if fields != [] {
      assert fields[0] in fields;
      assert forall f :: f in fields[1..] ==> f in fields;
      ReadsIntended(fields[0].schema);
      MembersEach(fields[1..], parent);
    }
  }

  /** An array reads as its items, a tuple element by element, and without either as an array of anything. */
  lemma ArrayReads(schema: Schema) returns (elements: seq<Type>)
    requires ByType(schema) && schema.types == OneType("array")
    ensures schema.prefixItems.Variants? ==>
      && |elements| == |schema.prefixItems.list|
      && (forall i :: 0 <= i < |elements| ==> elements[i] == ReadBack(schema.prefixItems.list[i]))
      && ReadBack(schema) == Only(TupleOf(elements))
    ensures schema.prefixItems.NoVariants? && schema.items.Items? ==>
      ReadBack(schema) == Only(ArrayOf(ReadBack(schema.items.schema)))
    ensures schema.prefixItems.NoVariants? && schema.items.NoItems? ==>
      ReadBack(schema) == Only(ArrayOf(Only(Name("GeneratedJsonValue"))))
  {
    Deciding(schema);
    ReadsIntended(schema);
    elements := [];
    if schema.prefixItems.Variants? {
      elements := IntendedAll(schema.prefixItems.list, schema);
      IntendedEach(schema.prefixItems.list, schema);
    } else if schema.items.Items? {
      ReadsIntended(schema.items.schema);
    }
    hide Render, ReadUnion, ReadBack, IntendedAll;
  }

  /** The names the printer knows for values that are no objects. */
  const OTHER_NAMES := ["null", "boolean", "integer", "number", "string", "array"]

  predicate IsObject(schema: Schema)
    requires schema.Mapping?
  {
    || schema.types == OneType("object")
    || (!schema.types.ManyTypes? && !(schema.types.OneType? && schema.types.name in OTHER_NAMES)
        && (schema.properties.Properties? || !schema.additional.Unstated?))
  }

  /** An object reads member by member, in order, with `?` exactly where the name is not required. */
  lemma ObjectReads(schema: Schema) returns (members: seq<Member>)
    requires ByType(schema) && IsObject(schema)
    ensures schema.properties.NoProperties? ==> members == []
    ensures schema.properties.Properties? ==>
      && |members| == |schema.properties.fields|
      && forall i :: 0 <= i < |members| ==>
         var field := schema.properties.fields[i];
         members[i] == Member(field.name, field.name !in schema.required, ReadBack(field.schema))
    ensures ReadBack(schema)
         == match schema.additional
            case Matching(values) => Union({Meet({ObjectOf(members), RecordOf(ReadBack(values))})})
            case AnyAllowed => Union({Meet({ObjectOf(members), RecordOf(Only(Name("GeneratedJsonValue")))})})
            case _ => Only(ObjectOf(members))
  {
    Deciding(schema);
    ReadsIntended(schema);
    members := [];
    if schema.properties.Properties? {
      members := IntendedMembers(schema.properties.fields, schema);
      MembersEach(schema.properties.fields, schema);
    }
    if schema.additional.Matching? {
      ReadsIntended(schema.additional.schema);
    }
    hide Render, ReadUnion, ReadBack, IntendedMembers;
  }

  /** Whatever says nothing of its values reads as any value. */
  lemma AnythingReads(schema: Schema)
    requires ByType(schema) && !IsObject(schema) && !schema.types.ManyTypes?
    requires !(schema.types.OneType? && schema.types.name in OTHER_NAMES)
    ensures ReadBack(schema) == Only(Name("GeneratedJsonValue"))
  {
    Deciding(schema);
    ReadsIntended(schema);
    hide Render, ReadUnion, ReadBack;
  }
}
