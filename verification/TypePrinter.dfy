/**
 * The TypeScript type printer for JSON schemas, on tokens.  Names and literals
 * are atomic; the printer's only means of grouping are parentheses.
 */
module TypePrinter {
  import opened Sequences

  // Schemas, after JSON has been read.

  datatype Schema =
    | NotAMapping
    | Mapping(
        reference: Text,
        constant: Text,
        enumeration: Texts,
        anyOf: Variants,
        oneOf: Variants,
        allOf: Variants,
        types: Types,
        prefixItems: Variants,
        items: Items,
        properties: Properties,
        required: set<string>,
        additional: Additional,
        conditional: bool)

  datatype Text = NoText | Text(text: string)
  datatype Texts = NoTexts | Texts(texts: seq<string>)
  datatype Variants = NoVariants | Variants(list: seq<Schema>)
  datatype Types = NoType | OneType(name: string) | ManyTypes(names: seq<string>)
  datatype Items = NoItems | Items(schema: Schema)
  datatype Properties = NoProperties | Properties(fields: seq<Property>)
  datatype Property = Property(name: string, schema: Schema)
  datatype Additional = Unstated | AnyAllowed | NoneAllowed | Matching(schema: Schema)

  // Tokens.

  datatype Token =
    | Bar
    | Amp
    | LParen
    | RParen
    | Atom(text: string)
    | ArrayOpen
    | RecordOpen
    | Gt
    | TupleOpen
    | Comma
    | RBracket
    | LBrace
    | RBrace
    | FieldOpen(name: string, optional: bool)
    | Semicolon

  predicate Contains(text: string, part: string) {
    part <= text || (text != "" && Contains(text[1..], part))
  }

  /** The printer looks for " | " anywhere in the rendered text, also inside literals and property names. */
  predicate ShowsBar(token: Token) {
    token.Bar? || (token.Atom? && Contains(token.text, " | ")) || (token.FieldOpen? && Contains(token.name, " | "))
  }

  predicate ShowsAmp(token: Token) {
    token.Amp? || (token.Atom? && Contains(token.text, " & ")) || (token.FieldOpen? && Contains(token.name, " & "))
  }

  predicate HasBar(tokens: seq<Token>) {
    exists i :: 0 <= i < |tokens| && ShowsBar(tokens[i])
  }

  predicate HasAmp(tokens: seq<Token>) {
    exists i :: 0 <= i < |tokens| && ShowsAmp(tokens[i])
  }

  // The printer.

  function Parenthesised(tokens: seq<Token>): seq<Token> {
    [LParen] + tokens + [RParen]
  }

  function Join(values: seq<seq<Token>>, operator: Token): seq<Token> {
    if values == [] then []
    else if |values| == 1 then values[0]
    else values[0] + [operator] + Join(values[1..], operator)
  }

  function Guarded(values: seq<seq<Token>>, guard: seq<Token> -> bool): (guarded: seq<seq<Token>>)
    ensures |guarded| == |values|
    ensures forall i :: 0 <= i < |values| ==>
      guarded[i] == if guard(values[i]) then Parenthesised(values[i]) else values[i]
  {
    seq(|values|, i requires 0 <= i < |values| => if guard(values[i]) then Parenthesised(values[i]) else values[i])
  }

  function UnionOf(values: seq<seq<Token>>): seq<Token> {
    var unique := Unique(values);
    if unique == [] then [Atom("never")]
    else if |unique| == 1 then unique[0]
    else Join(Guarded(unique, HasAmp), Bar)
  }

  /** A variant that applies only under its `if`, which types cannot express. */
  predicate Conditional(variant: Schema) {
    variant.Mapping? && variant.conditional
  }

  /** The other variants, in order. */
  function Typed(variants: seq<Schema>): (typed: seq<Schema>)
    ensures Filters(variants, typed, (v: Schema) => !Conditional(v))
    ensures forall v :: v in typed <==> v in variants && !(v.Mapping? && v.conditional)
  {
    NothingToFilter((v: Schema) => !Conditional(v));
    if variants == [] then []
    else
      var n := |variants| - 1;
      assert variants == variants[..n] + [variants[n]];
      var rest := Typed(variants[..n]);
      FilterNext(variants[..n], rest, (v: Schema) => !Conditional(v), variants[n]);
      assert rest + [] == rest;
      if Conditional(variants[n]) then rest else rest + [variants[n]]
  }

  predicate UsesVariants(variants: Variants) {
    variants.Variants? && Typed(variants.list) != []
  }

  predicate UsesAllOf(schema: Schema)
    requires schema.Mapping?
  {
    UsesVariants(schema.allOf) && schema.types.NoType? && schema.properties.NoProperties?
  }

  const JSON_VALUE := Atom("GeneratedJsonValue")

  function Atoms(texts: seq<string>): seq<seq<Token>> {
    seq(|texts|, i requires 0 <= i < |texts| => [Atom(texts[i])])
  }

  function Render(schema: Schema): seq<Token>
    decreases schema, 2
  {
    if schema.NotAMapping? then [JSON_VALUE]
    else if schema.reference.Text? then [Atom(schema.reference.text)]
    else if schema.constant.Text? then [Atom(schema.constant.text)]
    else if schema.enumeration.Texts? then UnionOf(Atoms(schema.enumeration.texts))
    else if UsesVariants(schema.anyOf) then Join(Unique(RenderAll(Typed(schema.anyOf.list), schema)), Bar)
    else if UsesVariants(schema.oneOf) then Join(Unique(RenderAll(Typed(schema.oneOf.list), schema)), Bar)
    else if UsesAllOf(schema) then Join(Guarded(Unique(RenderAll(Typed(schema.allOf.list), schema)), HasBar), Amp)
    else
      match schema.types
      case ManyTypes(names) => UnionOf(seq(|names|,
                                           i requires 0 <= i < |names| => RenderType(schema, OneType(names[i]))))
      case _ => RenderType(schema, schema.types)
  }

  /** The schemas of a list that belongs to `parent`. */
  function RenderAll(schemas: seq<Schema>, ghost parent: Schema): (rendered: seq<seq<Token>>)
    requires forall s :: s in schemas ==> s < parent
    ensures |rendered| == |schemas|
    decreases parent, 0, |schemas|
  {
    if schemas == [] then []
    else
      assert schemas[0] in schemas;
      assert forall s :: s in schemas[1..] ==> s in schemas;
      [Render(schemas[0])] + RenderAll(schemas[1..], parent)
  }

  /** A schema under a single type name, or without one. */
  function RenderType(schema: Schema, kind: Types): seq<Token>
    requires schema.Mapping?
    decreases schema, 1
  {
    if kind == OneType("null") then [Atom("null")]
    else if kind == OneType("boolean") then [Atom("boolean")]
    else if kind == OneType("integer") || kind == OneType("number") then [Atom("number")]
    else if kind == OneType("string") then [Atom("string")]
    else if kind == OneType("array") then
      if schema.prefixItems.Variants? then
        [TupleOpen] + Join(RenderAll(schema.prefixItems.list, schema), Comma) + [RBracket]
      else
        [ArrayOpen] + (if schema.items.Items? then Render(schema.items.schema) else [JSON_VALUE]) + [Gt]
    else if kind == OneType("object") || schema.properties.Properties? || !schema.additional.Unstated? then
      var fields := if schema.properties.Properties? then RenderFields(schema.properties.fields, schema) else [];
      var declared := [LBrace] + fields + [RBrace];
      match schema.additional
      case Matching(values) => declared + [Amp, RecordOpen] + Render(values) + [Gt, Gt]
      case AnyAllowed => declared + [Amp, RecordOpen, JSON_VALUE, Gt, Gt]
      case _ => declared
    else [JSON_VALUE]
  }

  function RenderFields(fields: seq<Property>, parent: Schema): seq<Token>
    requires parent.Mapping?
    requires forall f :: f in fields ==> f.schema < parent
    decreases parent, 0, |fields|
  {
    if fields == [] then []
    else
      var field := fields[0];
      assert field in fields;
      assert forall f :: f in fields[1..] ==> f in fields;
      [FieldOpen(field.name, field.name !in parent.required)] + Render(field.schema) + [Semicolon]
      + RenderFields(fields[1..], parent)
  }
}
