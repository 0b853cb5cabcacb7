/**
 * What the printed types mean.  A reader of TypeScript types in which & binds
 * tighter than |, the type each schema stands for, and the proof that reading
 * what the printer wrote gives back that type.
 */
module TypeReader {
  import opened Sequences
  import opened TypePrinter

  // Types up to the order and repetition of variants and redundant parentheses:
  // a type is a set of alternatives, and an alternative is a set of parts.

  datatype Type = Union(alternatives: set<Meet>)
  datatype Meet = Meet(parts: set<Part>)
  datatype Part =
    | Name(text: string)
    | ArrayOf(element: Type)
    | RecordOf(value: Type)
    | TupleOf(elements: seq<Type>)
    | ObjectOf(members: seq<Member>)
    | Group(inner: Type)
  datatype Member = Member(name: string, optional: bool, value: Type)

  /** A parenthesised type as a member of an intersection: the parentheses matter only around a real union. */
  ghost function PartsOf(t: Type): set<Part> {
    if exists meet :: t == Union({meet})
    then (var meet :| t == Union({meet}); meet.parts)
    else {Group(t)}
  }

  /** An intersection as a member of a union: a lone parenthesised union is spliced in. */
  ghost function AlternativesOf(parts: set<Part>): set<Meet> {
    if exists t :: parts == {Group(t)}
    then (var t :| parts == {Group(t)}; t.alternatives)
    else {Meet(parts)}
  }

  ghost function Only(part: Part): Type {
    Union({Meet({part})})
  }

  // The reader: recursive descent, each function returning what it read and the tokens left.

  ghost function ReadUnion(tokens: seq<Token>): (read: Option<(Type, seq<Token>)>)
    ensures read.Some? ==> |read.value.1| < |tokens|
    decreases |tokens|, 4
  {
    match ReadMeet(tokens)
    case None => None
    case Some((parts, rest)) => WithAlternatives(AlternativesOf(parts), ReadUnionTail(rest))
  }

  ghost function ReadUnionTail(tokens: seq<Token>): (read: Option<(Type, seq<Token>)>)
    ensures read.Some? ==> |read.value.1| <= |tokens|
    decreases |tokens|, 0
  {
    if tokens != [] && tokens[0] == Bar then ReadUnion(tokens[1..]) else Some((Union({}), tokens))
  }

  ghost function ReadMeet(tokens: seq<Token>): (read: Option<(set<Part>, seq<Token>)>)
    ensures read.Some? ==> |read.value.1| < |tokens|
    decreases |tokens|, 3
  {
    match ReadPart(tokens)
    case None => None
    case Some((parts, rest)) => WithParts(parts, ReadMeetTail(rest))
  }

  ghost function ReadMeetTail(tokens: seq<Token>): (read: Option<(set<Part>, seq<Token>)>)
    ensures read.Some? ==> |read.value.1| <= |tokens|
    decreases |tokens|, 0
  {
    if tokens != [] && tokens[0] == Amp then ReadMeet(tokens[1..]) else Some(({}, tokens))
  }

  ghost function WithAlternatives(alternatives: set<Meet>, tail: Option<(Type, seq<Token>)>):
      Option<(Type, seq<Token>)> {
    match tail
    case None => None
    case Some((t, rest)) => Some((Union(alternatives + t.alternatives), rest))
  }

  ghost function WithParts(parts: set<Part>, tail: Option<(set<Part>, seq<Token>)>):
      Option<(set<Part>, seq<Token>)> {
    match tail
    case None => None
    case Some((more, rest)) => Some((parts + more, rest))
  }

  ghost function ReadPart(tokens: seq<Token>): (read: Option<(set<Part>, seq<Token>)>)
    ensures read.Some? ==> |read.value.1| < |tokens|
    decreases |tokens|, 2
  {
    if tokens == [] then None
    else
      var rest := tokens[1..];
      match tokens[0]
      case Atom(text) => Some(({Name(text)}, rest))
      case LParen =>
        (match ReadUnion(rest)
         case Some((t, after)) => if [RParen] <= after then Some((PartsOf(t), after[1..])) else None
         case None => None)
      case ArrayOpen =>
        (match ReadUnion(rest)
         case Some((t, after)) => if [Gt] <= after then Some(({ArrayOf(t)}, after[1..])) else None
         case None => None)
      case RecordOpen =>
        (match ReadUnion(rest)
         case Some((t, after)) => if [Gt, Gt] <= after then Some(({RecordOf(t)}, after[2..])) else None
         case None => None)
      case TupleOpen =>
        if [RBracket] <= rest then Some(({TupleOf([])}, rest[1..]))
        else
          (match ReadElements(rest)
           case Some((elements, after)) => Some(({TupleOf(elements)}, after))
           case None => None)
      case LBrace =>
        (match ReadMembers(rest)
         case Some((members, after)) => Some(({ObjectOf(members)}, after))
         case None => None)
      case _ => None
  }

  /** The elements of a tuple, one or more, up to and including the closing bracket. */
  ghost function ReadElements(tokens: seq<Token>): (read: Option<(seq<Type>, seq<Token>)>)
    ensures read.Some? ==> |read.value.1| < |tokens|
    decreases |tokens|, 5
  {
    match ReadUnion(tokens)
    case None => None
    case Some((t, rest)) =>
      if [RBracket] <= rest then Some(([t], rest[1..]))
      else if [Comma] <= rest then
        (match ReadElements(rest[1..])
         case Some((more, after)) => Some(([t] + more, after))
         case None => None)
      else None
  }

  /** The members of an object type, up to and including the closing brace. */
  ghost function ReadMembers(tokens: seq<Token>): (read: Option<(seq<Member>, seq<Token>)>)
    ensures read.Some? ==> |read.value.1| < |tokens|
    decreases |tokens|, 5
  {
    if [RBrace] <= tokens then Some(([], tokens[1..]))
    else if tokens != [] && tokens[0].FieldOpen? then
      (match ReadUnion(tokens[1..])
       case Some((t, rest)) =>
         if [Semicolon] <= rest then
           (match ReadMembers(rest[1..])
            case Some((more, after)) => Some(([Member(tokens[0].name, tokens[0].optional, t)] + more, after))
            case None => None)
         else None
       case None => None)
    else None
  }

  // The type a schema stands for.

  ghost function Intended(schema: Schema): Type
    decreases schema, 2
  {
    if schema.NotAMapping? then Only(Name(JSON_VALUE.text))
    else if schema.reference.Text? then Only(Name(schema.reference.text))
    else if schema.constant.Text? then Only(Name(schema.constant.text))
    else if schema.enumeration.Texts? then UnionAll(NamesOf(schema.enumeration.texts))
    else if UsesVariants(schema.anyOf) then Any(IntendedAll(Typed(schema.anyOf.list), schema))
    else if UsesVariants(schema.oneOf) then Any(IntendedAll(Typed(schema.oneOf.list), schema))
    else if UsesAllOf(schema) then All(IntendedAll(Typed(schema.allOf.list), schema))
    else
      match schema.types
      case ManyTypes(names) =>
        UnionAll(seq(|names|, i requires 0 <= i < |names| => IntendedType(schema, OneType(names[i]))))
      case _ => IntendedType(schema, schema.types)
  }

  /** A value of any of these types. */
  ghost function Any(types: seq<Type>): Type {
    Union(set t, meet | t in types && meet in t.alternatives :: meet)
  }

  /** A union whose empty case is the type without values. */
  ghost function UnionAll(types: seq<Type>): Type {
    if types == [] then Only(Name("never")) else Any(types)
  }

  /** A value of all of these types. */
  ghost function All(types: seq<Type>): Type {
    Union(AlternativesOf(AllParts(types)))
  }

  ghost function AllParts(types: seq<Type>): set<Part> {
    set t, part | t in types && part in PartsOf(t) :: part
  }

  ghost function NamesOf(texts: seq<string>): seq<Type> {
    seq(|texts|, i requires 0 <= i < |texts| => Only(Name(texts[i])))
  }

  ghost function IntendedAll(schemas: seq<Schema>, parent: Schema): (types: seq<Type>)
    requires forall s :: s in schemas ==> s < parent
    ensures |types| == |schemas|
    decreases parent, 0, |schemas|
  {
    if schemas == [] then []
    else
      assert schemas[0] in schemas;
      assert forall s :: s in schemas[1..] ==> s in schemas;
      [Intended(schemas[0])] + IntendedAll(schemas[1..], parent)
  }

  ghost function IntendedType(schema: Schema, kind: Types): Type
    requires schema.Mapping?
    decreases schema, 1
  {
    if kind == OneType("null") then Only(Name("null"))
    else if kind == OneType("boolean") then Only(Name("boolean"))
    else if kind == OneType("integer") || kind == OneType("number") then Only(Name("number"))
    else if kind == OneType("string") then Only(Name("string"))
    else if kind == OneType("array") then
      if schema.prefixItems.Variants? then Only(TupleOf(IntendedAll(schema.prefixItems.list, schema)))
      else if schema.items.Items? then Only(ArrayOf(Intended(schema.items.schema)))
      else Only(ArrayOf(Only(Name(JSON_VALUE.text))))
    else if kind == OneType("object") || schema.properties.Properties? || !schema.additional.Unstated? then
      var members := if schema.properties.Properties? then IntendedMembers(schema.properties.fields, schema) else [];
      match schema.additional
      case Matching(values) => Union({Meet({ObjectOf(members), RecordOf(Intended(values))})})
      case AnyAllowed => Union({Meet({ObjectOf(members), RecordOf(Only(Name(JSON_VALUE.text)))})})
      case _ => Only(ObjectOf(members))
    else Only(Name(JSON_VALUE.text))
  }

  ghost function IntendedMembers(fields: seq<Property>, parent: Schema): seq<Member>
    requires parent.Mapping?
    requires forall f :: f in fields ==> f.schema < parent
    decreases parent, 0, |fields|
  {
    if fields == [] then []
    else
      var field := fields[0];
      assert field in fields;
      assert forall f :: f in fields[1..] ==> f in fields;
      [Member(field.name, field.name !in parent.required, Intended(field.schema))]
      + IntendedMembers(fields[1..], parent)
  }

  // Token lists that read as a given phrase wherever they stand.

  ghost predicate StartsWith(tokens: seq<Token>, token: Token) {
    tokens != [] && tokens[0] == token
  }

  ghost predicate IsPart(tokens: seq<Token>, parts: set<Part>) {
    forall k :: ReadPart(tokens + k) == Some((parts, k))
  }

  ghost predicate IsMeet(tokens: seq<Token>, parts: set<Part>) {
    forall k :: ReadMeet(tokens + k) == WithParts(parts, ReadMeetTail(k))
  }

  ghost predicate IsUnion(tokens: seq<Token>, t: Type) {
    forall k :: !StartsWith(k, Amp) ==> ReadUnion(tokens + k) == WithAlternatives(t.alternatives, ReadUnionTail(k))
  }

  ghost predicate NoGroups(parts: set<Part>) {
    forall part :: part in parts ==> !part.Group?
  }

  /** A phrase that can also stand unparenthesised in an intersection. */
  ghost predicate IsPlain(tokens: seq<Token>, t: Type) {
    exists meet :: t == Union({meet}) && NoGroups(meet.parts) && IsMeet(tokens, meet.parts)
  }

  /** What the printer guarantees of everything it prints. */
  ghost predicate Prints(tokens: seq<Token>, t: Type) {
    IsUnion(tokens, t) && (!HasBar(tokens) ==> IsPlain(tokens, t))
  }

  // Phrases put together.

  lemma MeetIsUnion(tokens: seq<Token>, parts: set<Part>)
    requires IsMeet(tokens, parts)
    ensures IsUnion(tokens, Union(AlternativesOf(parts)))
  {
    forall k | !StartsWith(k, Amp)
      ensures ReadUnion(tokens + k) == WithAlternatives(AlternativesOf(parts), ReadUnionTail(k))
    {
      assert ReadMeet(tokens + k) == Some((parts, k)) by {
        assert ReadMeetTail(k) == Some(({}, k));
        assert parts + {} == parts;
      }
    }
  }

  lemma PlainIsUnion(tokens: seq<Token>, t: Type)
    requires IsPlain(tokens, t)
    ensures IsUnion(tokens, t)
  {
    var meet :| t == Union({meet}) && NoGroups(meet.parts) && IsMeet(tokens, meet.parts);
    MeetIsUnion(tokens, meet.parts);
    UngroupedStands(meet.parts);
  }

  lemma UngroupedStands(parts: set<Part>)
    requires NoGroups(parts)
    ensures AlternativesOf(parts) == {Meet(parts)}
  {
    forall t ensures parts != {Group(t)} {
      assert Group(t) in {Group(t)};
    }
  }

  lemma PartIsMeet(tokens: seq<Token>, parts: set<Part>)
    requires IsPart(tokens, parts)
    ensures IsMeet(tokens, parts)
  {
  }

  lemma PartIsPlain(tokens: seq<Token>, part: Part)
    requires IsPart(tokens, {part}) && !part.Group?
    ensures IsPlain(tokens, Only(part))
  {
    PartIsMeet(tokens, {part});
    assert Only(part) == Union({Meet({part})});
  }

  lemma NameIsPlain(text: string)
    ensures IsPlain([Atom(text)], Only(Name(text)))
  {
    forall k ensures ReadPart([Atom(text)] + k) == Some(({Name(text)}, k)) {
      assert ([Atom(text)] + k)[1..] == k;
    }
    PartIsPlain([Atom(text)], Name(text));
  }

  /** Reading a union up to a token that cannot continue it. */
  lemma ReadUpTo(tokens: seq<Token>, t: Type, k: seq<Token>)
    requires IsUnion(tokens, t) && !StartsWith(k, Amp) && !StartsWith(k, Bar)
    ensures ReadUnion(tokens + k) == Some((t, k))
  {
    hide ReadUnion;
    assert ReadUnionTail(k) == Some((Union({}), k));
    assert t.alternatives + {} == t.alternatives;
  }

  lemma GroupIsMeet(tokens: seq<Token>, t: Type)
    requires IsUnion(tokens, t)
    ensures IsMeet(Parenthesised(tokens), PartsOf(t))
  {
    var group := Parenthesised(tokens);
    forall k ensures ReadPart(group + k) == Some((PartsOf(t), k)) {
      assert (group + k)[1..] == tokens + ([RParen] + k);
      ReadUpTo(tokens, t, [RParen] + k);
    }
    PartIsMeet(group, PartsOf(t));
  }

  lemma ArrayIsPlain(tokens: seq<Token>, t: Type)
    requires IsUnion(tokens, t)
    ensures IsPlain([ArrayOpen] + tokens + [Gt], Only(ArrayOf(t)))
  {
    var phrase := [ArrayOpen] + tokens + [Gt];
    forall k ensures ReadPart(phrase + k) == Some(({ArrayOf(t)}, k)) {
      assert (phrase + k)[1..] == tokens + ([Gt] + k);
      ReadUpTo(tokens, t, [Gt] + k);
    }
    PartIsPlain(phrase, ArrayOf(t));
  }

  lemma RecordIsPart(tokens: seq<Token>, t: Type)
    requires IsUnion(tokens, t)
    ensures IsPart([RecordOpen] + tokens + [Gt, Gt], {RecordOf(t)})
  {
    var phrase := [RecordOpen] + tokens + [Gt, Gt];
    forall k ensures ReadPart(phrase + k) == Some(({RecordOf(t)}, k)) {
      assert (phrase + k)[1..] == tokens + ([Gt, Gt] + k);
      ReadUpTo(tokens, t, [Gt, Gt] + k);
    }
  }

  lemma MeetPair(left: seq<Token>, leftParts: set<Part>, right: seq<Token>, rightParts: set<Part>)
    requires IsMeet(left, leftParts) && IsMeet(right, rightParts)
    ensures IsMeet(left + [Amp] + right, leftParts + rightParts)
  {
    forall k ensures ReadMeet(left + [Amp] + right + k) == WithParts(leftParts + rightParts, ReadMeetTail(k)) {
      var after := [Amp] + right + k;
      assert left + [Amp] + right + k == left + after;
      assert after[1..] == right + k;
      assert ReadMeet(left + after) == WithParts(leftParts, ReadMeet(right + k));
      PartsAssociate(leftParts, rightParts, ReadMeetTail(k));
    }
  }

  lemma PartsAssociate(x: set<Part>, y: set<Part>, tail: Option<(set<Part>, seq<Token>)>)
    ensures WithParts(x, WithParts(y, tail)) == WithParts(x + y, tail)
  {
    match tail
    case None =>
    case Some((z, rest)) => assert x + (y + z) == x + y + z;
  }

  lemma UnionPair(left: seq<Token>, leftType: Type, right: seq<Token>, rightType: Type)
    requires IsUnion(left, leftType) && IsUnion(right, rightType)
    ensures IsUnion(left + [Bar] + right, Union(leftType.alternatives + rightType.alternatives))
  {
    var both := leftType.alternatives + rightType.alternatives;
    forall k | !StartsWith(k, Amp)
      ensures ReadUnion(left + [Bar] + right + k) == WithAlternatives(both, ReadUnionTail(k))
    {
      UnionPairBefore(left, leftType, right, rightType, k);
    }
  }

  lemma UnionPairBefore(left: seq<Token>, leftType: Type, right: seq<Token>, rightType: Type, k: seq<Token>)
    requires IsUnion(left, leftType) && IsUnion(right, rightType) && !StartsWith(k, Amp)
    ensures ReadUnion(left + [Bar] + right + k)
         == WithAlternatives(leftType.alternatives + rightType.alternatives, ReadUnionTail(k))
  {
    hide *;
    var after := [Bar] + (right + k);
    BarIsNotAmp(right + k);
    assert left + [Bar] + right + k == left + after;
    UnionAt(left, leftType, after);
    TailAfterBar(right + k);
    UnionAt(right, rightType, k);
    AlternativesAssociate(leftType.alternatives, rightType.alternatives, ReadUnionTail(k));
  }

  lemma BarIsNotAmp(tokens: seq<Token>)
    ensures !StartsWith([Bar] + tokens, Amp)
  {
  }

  lemma UnionAt(tokens: seq<Token>, t: Type, k: seq<Token>)
    requires IsUnion(tokens, t) && !StartsWith(k, Amp)
    ensures ReadUnion(tokens + k) == WithAlternatives(t.alternatives, ReadUnionTail(k))
  {
    hide ReadUnion, ReadUnionTail;
  }

  lemma TailAfterBar(tokens: seq<Token>)
    ensures ReadUnionTail([Bar] + tokens) == ReadUnion(tokens)
  {
    hide ReadUnion;
    assert ([Bar] + tokens)[1..] == tokens;
  }

  lemma AlternativesAssociate(x: set<Meet>, y: set<Meet>, tail: Option<(Type, seq<Token>)>)
    ensures WithAlternatives(x, WithAlternatives(y, tail)) == WithAlternatives(x + y, tail)
  {
    match tail
    case None =>
    case Some((z, rest)) => assert x + (y + z.alternatives) == x + y + z.alternatives;
  }

  // Joined lists.

  lemma {:induction false} JoinedUnion(values: seq<seq<Token>>, types: seq<Type>)
    requires |values| == |types| > 0
    requires forall i :: 0 <= i < |values| ==> IsUnion(values[i], types[i])
    ensures IsUnion(Join(values, Bar), Any(types))
  {
    hide IsUnion;
    if |values| == 1 {
      assert Any(types).alternatives == types[0].alternatives;
    } else {
      JoinedUnion(values[1..], types[1..]);
      UnionPair(values[0], types[0], Join(values[1..], Bar), Any(types[1..]));
      assert types == [types[0]] + types[1..];
      assert Any(types).alternatives == types[0].alternatives + Any(types[1..]).alternatives;
    }
  }

  lemma {:induction false} JoinedMeet(values: seq<seq<Token>>, types: seq<Type>)
    requires |values| == |types| > 0
    requires forall i :: 0 <= i < |values| ==> IsMeet(values[i], PartsOf(types[i]))
    ensures IsMeet(Join(values, Amp), AllParts(types))
  {
    hide IsMeet, PartsOf;
    if |values| == 1 {
      assert AllParts(types) == PartsOf(types[0]);
    } else {
      JoinedMeet(values[1..], types[1..]);
      MeetPair(values[0], PartsOf(types[0]), Join(values[1..], Amp), AllParts(types[1..]));
      assert types == [types[0]] + types[1..];
      assert AllParts(types) == PartsOf(types[0]) + AllParts(types[1..]);
    }
  }

  lemma {:induction false} JoinShowsBars(values: seq<seq<Token>>, operator: Token)
    ensures forall i :: 0 <= i < |values| && HasBar(values[i]) ==> HasBar(Join(values, operator))
    ensures |values| > 1 && operator == Bar ==> HasBar(Join(values, operator))
  {
    if |values| > 1 {
      var rest := Join(values[1..], operator);
      JoinShowsBars(values[1..], operator);
      BarsOfPair(values[0], operator, rest);
    }
  }

  lemma BarsOfPair(left: seq<Token>, operator: Token, right: seq<Token>)
    ensures HasBar(left) || HasBar(right) || operator == Bar ==> HasBar(left + [operator] + right)
  {
    var whole := left + [operator] + right;
    assert whole[|left|] == operator;
    if i :| 0 <= i < |left| && ShowsBar(left[i]) {
      assert whole[i] == left[i];
    }
    if i :| 0 <= i < |right| && ShowsBar(right[i]) {
      assert whole[|left| + 1 + i] == right[i];
    }
  }

  // Repeated values.

  ghost predicate AllPrint(values: seq<seq<Token>>, types: seq<Type>) {
    |values| == |types| && forall i :: 0 <= i < |values| ==> Prints(values[i], types[i])
  }

  ghost predicate AllPlain(values: seq<seq<Token>>, types: seq<Type>) {
    |values| == |types| && forall i :: 0 <= i < |values| ==> IsPlain(values[i], types[i])
  }

  /** Equal tokens read as equal types. */
  lemma ReadingIsUnique(tokens: seq<Token>, t: Type, u: Type)
    requires IsUnion(tokens, t) && IsUnion(tokens, u)
    ensures t == u
  {
    ReadUpTo(tokens, t, []);
    ReadUpTo(tokens, u, []);
  }

  /** Dropping repeated values drops repeated types. */
  lemma {:induction false} TypesOfUnique(values: seq<seq<Token>>, types: seq<Type>) returns (kept: seq<Type>)
    requires AllPrint(values, types)
    ensures AllPrint(Unique(values), kept)
    ensures forall t :: t in kept <==> t in types
    ensures AllPlain(values, types) ==> AllPlain(Unique(values), kept)
  {
    if values == [] {
      kept := [];
    } else {
      var n := |values| - 1;
      kept := TypesOfUnique(values[..n], types[..n]);
      assert values == values[..n] + [values[n]] && types == types[..n] + [types[n]];
      var earlier := Unique(values[..n]);
      if values[n] in earlier {
        var j :| 0 <= j < |earlier| && earlier[j] == values[n];
        ReadingIsUnique(values[n], kept[j], types[n]);
      } else {
        kept := kept + [types[n]];
      }
    }
  }

  // The three ways the printer joins variants.

  lemma ParenthesisedPlain(tokens: seq<Token>, t: Type)
    requires IsPlain(tokens, t)
    ensures IsPlain(Parenthesised(tokens), t)
  {
    PlainIsUnion(tokens, t);
    GroupIsMeet(tokens, t);
    PlainParts(tokens, t);
  }

  lemma PlainParts(tokens: seq<Token>, t: Type)
    requires IsPlain(tokens, t)
    ensures NoGroups(PartsOf(t)) && t == Union({Meet(PartsOf(t))}) && IsMeet(tokens, PartsOf(t))
  {
    var meet :| t == Union({meet}) && NoGroups(meet.parts) && IsMeet(tokens, meet.parts);
    forall other | t == Union({other}) ensures other == meet {
      assert other in t.alternatives;
    }
  }

  lemma PlainFromParts(tokens: seq<Token>, parts: set<Part>)
    requires NoGroups(parts) && IsMeet(tokens, parts)
    ensures IsPlain(tokens, Union({Meet(parts)}))
  {
  }

  /** A union of plain phrases, of which those that show an & are parenthesised. */
  lemma GuardedUnionPrints(values: seq<seq<Token>>, types: seq<Type>)
    requires AllPlain(values, types)
    ensures Prints(UnionOf(values), UnionAll(types))
  {
    hide IsUnion, IsPlain;
    forall i | 0 <= i < |values| ensures Prints(values[i], types[i]) {
      PlainIsUnion(values[i], types[i]);
    }
    var kept := TypesOfUnique(values, types);
    var unique := Unique(values);
    assert unique == [] <==> types == [] by {
      assert values != [] ==> values[0] in unique;
      assert types != [] ==> types[0] in kept;
    }
    assert types != [] ==> Any(kept) == Any(types);
    if unique == [] {
      NameIsPlain("never");
      PlainIsUnion([Atom("never")], Only(Name("never")));
    } else if |unique| == 1 {
      assert Any(kept).alternatives == kept[0].alternatives;
    } else {
      ManyGuarded(unique, kept);
    }
  }

  lemma ManyGuarded(unique: seq<seq<Token>>, kept: seq<Type>)
    requires AllPlain(unique, kept) && |unique| > 1
    ensures Prints(Join(Guarded(unique, HasAmp), Bar), Any(kept))
  {
    hide IsUnion, IsPlain;
    var guarded := Guarded(unique, HasAmp);
    forall i | 0 <= i < |guarded| ensures IsUnion(guarded[i], kept[i]) {
      ParenthesisedPlain(unique[i], kept[i]);
      PlainIsUnion(guarded[i], kept[i]);
    }
    JoinedUnion(guarded, kept);
    JoinShowsBars(guarded, Bar);
  }

  /** A union of any printed phrases, none parenthesised. */
  lemma AnyOfPrints(values: seq<seq<Token>>, types: seq<Type>)
    requires AllPrint(values, types) && values != []
    ensures Prints(Join(Unique(values), Bar), Any(types))
  {
    hide IsUnion, IsPlain;
    var kept := TypesOfUnique(values, types);
    var unique := Unique(values);
    assert values[0] in unique;
    assert Any(kept) == Any(types);
    if |unique| == 1 {
      assert Any(kept).alternatives == kept[0].alternatives;
    } else {
      JoinedUnion(unique, kept);
      JoinShowsBars(unique, Bar);
    }
  }

  /** An intersection of printed phrases, of which those that show a | are parenthesised. */
  lemma AllOfPrints(values: seq<seq<Token>>, types: seq<Type>)
    requires AllPrint(values, types) && values != []
    ensures Prints(Join(Guarded(Unique(values), HasBar), Amp), All(types))
  {
    hide IsUnion, IsPlain, IsMeet, HasBar, PartsOf;
    var kept := TypesOfUnique(values, types);
    var unique := Unique(values);
    assert values[0] in unique;
    assert AllParts(kept) == AllParts(types);
    var guarded := Guarded(unique, HasBar);
    forall i | 0 <= i < |guarded| ensures IsMeet(guarded[i], PartsOf(kept[i])) {
      GuardedMeet(unique[i], kept[i]);
    }
    JoinedMeet(guarded, kept);
    var whole := Join(guarded, Amp);
    MeetIsUnion(whole, AllParts(kept));
    if !HasBar(whole) {
      forall i | 0 <= i < |unique| ensures NoGroups(PartsOf(kept[i])) {
        JoinShowsBars(guarded, Amp);
        ParenthesesKeepBars(unique[i]);
        PlainParts(unique[i], kept[i]);
      }
      UngroupedStands(AllParts(kept));
      PlainFromParts(whole, AllParts(kept));
    }
  }

  lemma GuardedMeet(tokens: seq<Token>, t: Type)
    requires Prints(tokens, t)
    ensures IsMeet(if HasBar(tokens) then Parenthesised(tokens) else tokens, PartsOf(t))
  {
    if HasBar(tokens) {
      GroupIsMeet(tokens, t);
    } else {
      PlainParts(tokens, t);
    }
  }

  lemma ParenthesesKeepBars(tokens: seq<Token>)
    ensures HasBar(tokens) ==> HasBar(Parenthesised(tokens))
  {
    if i :| 0 <= i < |tokens| && ShowsBar(tokens[i]) {
      assert Parenthesised(tokens)[i + 1] == tokens[i];
    }
  }

  // Tuples and object types.

  lemma NoTypeHere(tokens: seq<Token>)
    requires StartsWith(tokens, RBracket)
    ensures ReadUnion(tokens) == None
  {
    assert ReadPart(tokens) == None;
    assert ReadMeet(tokens) == None;
  }

  /** A closing bracket cannot begin a type. */
  lemma NeverBegins(tokens: seq<Token>, t: Type, k: seq<Token>)
    requires IsUnion(tokens, t) && k != [] && (k[0] == Comma || k[0] == RBracket)
    ensures !StartsWith(tokens + k, RBracket)
  {
    ReadUpTo(tokens, t, k);
    if StartsWith(tokens + k, RBracket) {
      NoTypeHere(tokens + k);
    }
  }

  lemma {:induction false} ElementsRead(values: seq<seq<Token>>, types: seq<Type>, k: seq<Token>)
    requires |values| == |types| > 0
    requires forall i :: 0 <= i < |values| ==> IsUnion(values[i], types[i])
    ensures ReadElements(Join(values, Comma) + [RBracket] + k) == Some((types, k))
    ensures !StartsWith(Join(values, Comma) + [RBracket] + k, RBracket)
  {
    hide IsUnion;
    var tokens := Join(values, Comma) + [RBracket] + k;
    if |values| == 1 {
      var after := [RBracket] + k;
      assert tokens == values[0] + after && after[1..] == k;
      ReadUpTo(values[0], types[0], after);
      NeverBegins(values[0], types[0], after);
      assert [types[0]] == types;
    } else {
      var rest := Join(values[1..], Comma) + [RBracket] + k;
      var after := [Comma] + rest;
      assert tokens == values[0] + after && after[1..] == rest;
      ReadUpTo(values[0], types[0], after);
      NeverBegins(values[0], types[0], after);
      ElementsRead(values[1..], types[1..], k);
      assert [types[0]] + types[1..] == types;
    }
  }

  lemma TupleIsPlain(values: seq<seq<Token>>, types: seq<Type>)
    requires AllPrint(values, types)
    ensures IsPlain([TupleOpen] + Join(values, Comma) + [RBracket], Only(TupleOf(types)))
  {
    var phrase := [TupleOpen] + Join(values, Comma) + [RBracket];
    forall k ensures ReadPart(phrase + k) == Some(({TupleOf(types)}, k)) {
      var rest := Join(values, Comma) + [RBracket] + k;
      assert (phrase + k)[1..] == rest;
      if values == [] {
        assert types == [];
        assert rest == [RBracket] + k && rest[1..] == k;
      } else {
        ElementsRead(values, types, k);
      }
    }
    PartIsPlain(phrase, TupleOf(types));
  }

  ghost predicate IsMembers(tokens: seq<Token>, members: seq<Member>) {
    forall k :: ReadMembers(tokens + [RBrace] + k) == Some((members, k))
  }

  lemma NoMembersRead()
    ensures IsMembers([], [])
  {
    forall k ensures ReadMembers([] + [RBrace] + k) == Some(([], k)) {
      assert [] + [RBrace] + k == [RBrace] + k;
      assert ([RBrace] + k)[1..] == k;
    }
  }

  lemma MoreMembersRead(member: Member, tokens: seq<Token>, rest: seq<Token>, members: seq<Member>)
    requires IsUnion(tokens, member.value) && IsMembers(rest, members)
    ensures IsMembers([FieldOpen(member.name, member.optional)] + tokens + [Semicolon] + rest, [member] + members)
  {
    var whole := [FieldOpen(member.name, member.optional)] + tokens + [Semicolon] + rest;
    forall k ensures ReadMembers(whole + [RBrace] + k) == Some(([member] + members, k)) {
      hide *;
      var after := [Semicolon] + (rest + [RBrace] + k);
      assert whole + [RBrace] + k == [FieldOpen(member.name, member.optional)] + (tokens + after);
      MemberRead(member, tokens, after);
      assert after[1..] == rest + [RBrace] + k;
      MembersAt(rest, members, k);
    }
  }

  lemma MembersAt(tokens: seq<Token>, members: seq<Member>, k: seq<Token>)
    requires IsMembers(tokens, members)
    ensures ReadMembers(tokens + [RBrace] + k) == Some((members, k))
  {
    hide ReadMembers;
  }

  lemma MemberRead(member: Member, tokens: seq<Token>, after: seq<Token>)
    requires IsUnion(tokens, member.value) && after != [] && after[0] == Semicolon
    ensures ReadMembers([FieldOpen(member.name, member.optional)] + (tokens + after))
         == match ReadMembers(after[1..])
            case Some((more, rest)) => Some(([member] + more, rest))
            case None => None
  {
    ReadUpTo(tokens, member.value, after);
    hide ReadUnion, IsUnion;
    var whole := [FieldOpen(member.name, member.optional)] + (tokens + after);
    assert whole[1..] == tokens + after;
  }

  lemma ObjectIsPart(tokens: seq<Token>, members: seq<Member>)
    requires IsMembers(tokens, members)
    ensures IsPart([LBrace] + tokens + [RBrace], {ObjectOf(members)})
  {
    var phrase := [LBrace] + tokens + [RBrace];
    forall k ensures ReadPart(phrase + k) == Some(({ObjectOf(members)}, k)) {
      assert (phrase + k)[1..] == tokens + [RBrace] + k;
    }
  }

  lemma ObjectWithRecordIsPlain(tokens: seq<Token>, members: seq<Member>, values: seq<Token>, t: Type)
    requires IsMembers(tokens, members) && IsUnion(values, t)
    ensures IsPlain([LBrace] + tokens + [RBrace] + [Amp, RecordOpen] + values + [Gt, Gt],
                    Union({Meet({ObjectOf(members), RecordOf(t)})}))
  {
    var declared, record := [LBrace] + tokens + [RBrace], [RecordOpen] + values + [Gt, Gt];
    ObjectIsPart(tokens, members);
    PartIsMeet(declared, {ObjectOf(members)});
    RecordIsPart(values, t);
    PartIsMeet(record, {RecordOf(t)});
    MeetPair(declared, {ObjectOf(members)}, record, {RecordOf(t)});
    assert declared + [Amp] + record == declared + [Amp, RecordOpen] + values + [Gt, Gt];
    assert {ObjectOf(members)} + {RecordOf(t)} == {ObjectOf(members), RecordOf(t)};
    PlainFromParts(declared + [Amp] + record, {ObjectOf(members), RecordOf(t)});
  }

  // The printer, by induction on the schema.

  lemma PlainPrints(tokens: seq<Token>, t: Type)
    requires IsPlain(tokens, t)
    ensures Prints(tokens, t)
  {
    PlainIsUnion(tokens, t);
  }

  lemma {:induction false} RenderPrints(schema: Schema)
    ensures Prints(Render(schema), Intended(schema))
    decreases schema, 2
  {
    hide Prints, IsPlain;
    if schema.NotAMapping? {
      NameIsPlain(JSON_VALUE.text);
      PlainPrints([JSON_VALUE], Only(Name(JSON_VALUE.text)));
    } else if schema.reference.Text? {
      NameIsPlain(schema.reference.text);
      PlainPrints([Atom(schema.reference.text)], Only(Name(schema.reference.text)));
    } else if schema.constant.Text? {
      NameIsPlain(schema.constant.text);
      PlainPrints([Atom(schema.constant.text)], Only(Name(schema.constant.text)));
    } else if schema.enumeration.Texts? {
      var texts := schema.enumeration.texts;
      forall i | 0 <= i < |texts| ensures IsPlain(Atoms(texts)[i], NamesOf(texts)[i]) {
        NameIsPlain(texts[i]);
      }
      GuardedUnionPrints(Atoms(texts), NamesOf(texts));
    } else if UsesVariants(schema.anyOf) {
      var typed := Typed(schema.anyOf.list);
      RenderAllPrints(typed, schema);
      AnyOfPrints(RenderAll(typed, schema), IntendedAll(typed, schema));
    } else if UsesVariants(schema.oneOf) {
      var typed := Typed(schema.oneOf.list);
      RenderAllPrints(typed, schema);
      AnyOfPrints(RenderAll(typed, schema), IntendedAll(typed, schema));
    } else if UsesAllOf(schema) {
      var typed := Typed(schema.allOf.list);
      RenderAllPrints(typed, schema);
      AllOfPrints(RenderAll(typed, schema), IntendedAll(typed, schema));
    } else if schema.types.ManyTypes? {
      var names := schema.types.names;
      var values := seq(|names|, i requires 0 <= i < |names| => RenderType(schema, OneType(names[i])));
      var types := seq(|names|, i requires 0 <= i < |names| => IntendedType(schema, OneType(names[i])));
      forall i | 0 <= i < |names| ensures IsPlain(values[i], types[i]) {
        RenderTypePlain(schema, OneType(names[i]));
      }
      GuardedUnionPrints(values, types);
    } else {
      RenderTypePlain(schema, schema.types);
      PlainPrints(RenderType(schema, schema.types), IntendedType(schema, schema.types));
    }
  }

  lemma {:induction false} RenderAllPrints(schemas: seq<Schema>, parent: Schema)
    requires forall s :: s in schemas ==> s < parent
    ensures AllPrint(RenderAll(schemas, parent), IntendedAll(schemas, parent))
    decreases parent, 0, |schemas|
  {
    hide Prints;
    if schemas != [] {
      assert schemas[0] in schemas;
      assert forall s :: s in schemas[1..] ==> s in schemas;
      RenderPrints(schemas[0]);
      RenderAllPrints(schemas[1..], parent);
    }
  }

  lemma {:induction false} RenderTypePlain(schema: Schema, kind: Types)
    requires schema.Mapping?
    ensures IsPlain(RenderType(schema, kind), IntendedType(schema, kind))
    decreases schema, 1
  {
    hide Prints, IsPlain, IsMembers, IsPart;
    NameIsPlain("null");
    NameIsPlain("boolean");
    NameIsPlain("number");
    NameIsPlain("string");
    NameIsPlain(JSON_VALUE.text);
    if kind == OneType("array") {
      if schema.prefixItems.Variants? {
        RenderAllPrints(schema.prefixItems.list, schema);
        TupleIsPlain(RenderAll(schema.prefixItems.list, schema), IntendedAll(schema.prefixItems.list, schema));
      } else if schema.items.Items? {
        RenderPrints(schema.items.schema);
        PrintsUnion(Render(schema.items.schema), Intended(schema.items.schema));
        ArrayIsPlain(Render(schema.items.schema), Intended(schema.items.schema));
      } else {
        PlainIsUnion([JSON_VALUE], Only(Name(JSON_VALUE.text)));
        ArrayIsPlain([JSON_VALUE], Only(Name(JSON_VALUE.text)));
      }
    } else if kind == OneType("object") || schema.properties.Properties? || !schema.additional.Unstated? {
      var fields := if schema.properties.Properties? then schema.properties.fields else [];
      RenderFieldsRead(fields, schema);
      var tokens, members := RenderFields(fields, schema), IntendedMembers(fields, schema);
      if schema.additional.Matching? {
        RenderPrints(schema.additional.schema);
        PrintsUnion(Render(schema.additional.schema), Intended(schema.additional.schema));
        ObjectWithRecordIsPlain(tokens, members, Render(schema.additional.schema), Intended(schema.additional.schema));
      } else if schema.additional.AnyAllowed? {
        PlainIsUnion([JSON_VALUE], Only(Name(JSON_VALUE.text)));
        ObjectWithRecordIsPlain(tokens, members, [JSON_VALUE], Only(Name(JSON_VALUE.text)));
        assert [LBrace] + tokens + [RBrace] + [Amp, RecordOpen] + [JSON_VALUE] + [Gt, Gt]
            == [LBrace] + tokens + [RBrace] + [Amp, RecordOpen, JSON_VALUE, Gt, Gt];
      } else {
        ObjectIsPart(tokens, members);
        PartIsPlain([LBrace] + tokens + [RBrace], ObjectOf(members));
      }
    }
  }

  lemma PrintsUnion(tokens: seq<Token>, t: Type)
    requires Prints(tokens, t)
    ensures IsUnion(tokens, t)
  {
  }

  lemma {:induction false} RenderFieldsRead(fields: seq<Property>, parent: Schema)
    requires parent.Mapping?
    requires forall f :: f in fields ==> f.schema < parent
    ensures IsMembers(RenderFields(fields, parent), IntendedMembers(fields, parent))
    decreases parent, 0, |fields|
  {
    hide Prints, IsUnion, IsMembers;
    if fields == [] {
      NoMembersRead();
    } else {
      var field := fields[0];
      assert field in fields;
      assert forall f :: f in fields[1..] ==> f in fields;
      RenderPrints(field.schema);
      PrintsUnion(Render(field.schema), Intended(field.schema));
      RenderFieldsRead(fields[1..], parent);
      MoreMembersRead(Member(field.name, field.name !in parent.required, Intended(field.schema)), Render(field.schema),
                      RenderFields(fields[1..], parent), IntendedMembers(fields[1..], parent));
    }
  }

  /** Reading what the printer wrote for a schema, to the last token, gives the type the schema stands for. */
  lemma PrintedTypeReadsBack(schema: Schema)
    ensures ReadUnion(Render(schema)) == Some((Intended(schema), []))
  {
    RenderPrints(schema);
    ReadUpTo(Render(schema), Intended(schema), []);
    assert Render(schema) + [] == Render(schema);
  }

  /** Schemas printed alike stand for the same type. */
  lemma EqualPrintsMeanEqualTypes(schema: Schema, other: Schema)
    requires Render(schema) == Render(other)
    ensures Intended(schema) == Intended(other)
  {
    PrintedTypeReadsBack(schema);
    PrintedTypeReadsBack(other);
  }
}
