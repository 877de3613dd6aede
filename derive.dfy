/** The derive's decision procedure: which of three shapes each field of the
    input struct takes, what the generated struct is called, and when the
    derive aborts instead. The code the derive emits for each shape is given
    its meaning in module MutableStructs; here it is the classification. */
module Derive {
  import opened Syntax

  /** A field as the derive sees it after classification. Every variant keeps
      the field's name and visibility; `name` is what `get_name` returns. */
  datatype MutableStructField =
    | Basic(name: string, vis: Visibility, ty: Type)
    | MutableStruct(name: string, vis: Visibility, customMutableTy: string)
    | Vec(name: string, vis: Visibility, innerTy: Type)

  /** The generated reactive struct: its visibility and name, the name of the
      plain struct it snapshots to, and its fields in declaration order. */
  datatype MutableStructDef =
    MutableStructDef(vis: Visibility, name: string, snapshotType: string, fields: seq<MutableStructField>)

  // ---------------------------------------------------------------------------
  // Attributes
  // ---------------------------------------------------------------------------

  function AttrLabel(which: AttrName): string
  {
    match which
    case MutableType => "mutable_type"
    case StructName => "MutableStructName"
  }

  /** Whether the attribute loop for `which` looks at attribute `a` at all:
      the path must be exactly the attribute's name, and the struct-name loop
      also skips inner attributes. The field loop does not look at the style. */
  predicate Considered(a: Attribute, which: AttrName)
  {
    IsIdent(a.path, AttrLabel(which)) && (which == StructName ==> a.style == Outer)
  }

  /** The value an attribute of the form `#[name = "value"]` carries, or the
      abort for each other form. */
  function StringValue(meta: Meta, which: AttrName): Result<string>
  {
    match meta
    case MetaNameValue(StrLit(s)) => Ok(s)
    case MetaNameValue(OtherLit) => Err(AttrNotString(which))
    case MetaPath => Err(AttrNotNameValue(which))
    case MetaList => Err(AttrNotNameValue(which))
    case Unparsable => Err(AttrMalformed(which))
  }

  /** Specification of both attribute loops: the first considered attribute
      decides, and no considered attribute means no value. */
  function AttrValue(attrs: seq<Attribute>, which: AttrName): Result<Option<string>>
  {
    if attrs == [] then Ok(None)
    else if !Considered(attrs[0], which) then AttrValue(attrs[1..], which)
    else match StringValue(attrs[0].meta, which)
      case Ok(s) => Ok(Some(s))
      case Err(e) => Err(e)
  }

  predicate NoneConsidered(attrs: seq<Attribute>, which: AttrName)
  {
    forall i :: 0 <= i < |attrs| ==> !Considered(attrs[i], which)
  }

  predicate IsFirstConsidered(attrs: seq<Attribute>, which: AttrName, i: int)
  {
    0 <= i < |attrs| && Considered(attrs[i], which) &&
    forall j :: 0 <= j < i ==> !Considered(attrs[j], which)
  }

  /** The loop over a field's attributes looking for `mutable_type`. */
  method MaybeGetMutableType(input: Field) returns (r: Result<Option<string>>)
    ensures r == AttrValue(input.attrs, MutableType)
  {
    var i := 0;
    while i < |input.attrs|
      invariant 0 <= i <= |input.attrs|
      invariant AttrValue(input.attrs[i..], MutableType) == AttrValue(input.attrs, MutableType)
    {
      var attr := input.attrs[i];
      assert input.attrs[i..][1..] == input.attrs[i + 1..];
      if !IsIdent(attr.path, "mutable_type") {
        i := i + 1;
        continue;
      }
      match attr.meta {
        case MetaNameValue(lit) =>
          match lit {
            case StrLit(s) => return Ok(Some(s));
            case OtherLit => return Err(AttrNotString(MutableType));
          }
        case MetaPath => return Err(AttrNotNameValue(MutableType));
        case MetaList => return Err(AttrNotNameValue(MutableType));
        case Unparsable => return Err(AttrMalformed(MutableType));
      }
    }
    return Ok(None);
  }

  /** The loop over the struct's attributes looking for an outer `MutableStructName`. */
  method MaybeGetMutableName(input: ItemStruct) returns (r: Result<Option<string>>)
    ensures r == AttrValue(input.attrs, StructName)
  {
    var i := 0;
    while i < |input.attrs|
      invariant 0 <= i <= |input.attrs|
      invariant AttrValue(input.attrs[i..], StructName) == AttrValue(input.attrs, StructName)
    {
      var attr := input.attrs[i];
      assert input.attrs[i..][1..] == input.attrs[i + 1..];
      if attr.style == Inner {
        i := i + 1;
        continue;
      }
      if !IsIdent(attr.path, "MutableStructName") {
        i := i + 1;
        continue;
      }
      match attr.meta {
        case MetaNameValue(lit) =>
          match lit {
            case StrLit(s) => return Ok(Some(s));
            case OtherLit => return Err(AttrNotString(StructName));
          }
        case MetaPath => return Err(AttrNotNameValue(StructName));
        case MetaList => return Err(AttrNotNameValue(StructName));
        case Unparsable => return Err(AttrMalformed(StructName));
      }
    }
    return Ok(None);
  }

  /** No value exactly when no attribute is considered. */
  lemma {:induction false} AttrValueNoneIff(attrs: seq<Attribute>, which: AttrName)
    ensures AttrValue(attrs, which) == Ok(None) <==> NoneConsidered(attrs, which)
  {
    if attrs != [] {
      AttrValueNoneIff(attrs[1..], which);
      if !Considered(attrs[0], which) {
        assert NoneConsidered(attrs[1..], which) ==> NoneConsidered(attrs, which) by {
          if NoneConsidered(attrs[1..], which) {
            forall i | 0 <= i < |attrs| ensures !Considered(attrs[i], which) {
              if i > 0 { assert attrs[i] == attrs[1..][i - 1]; }
            }
          }
        }
      }
    }
  }

  /** The first considered attribute decides the value, whatever follows it. */
  lemma {:induction false} AttrValueFirst(attrs: seq<Attribute>, which: AttrName, i: int)
    requires IsFirstConsidered(attrs, which, i)
    ensures AttrValue(attrs, which) ==
      match StringValue(attrs[i].meta, which)
      case Ok(s) => Ok(Some(s))
      case Err(e) => Err(e)
  {
    if i > 0 {
      assert !Considered(attrs[0], which);
      forall j | 0 <= j < i - 1 ensures !Considered(attrs[1..][j], which) {
        assert attrs[1..][j] == attrs[j + 1];
      }
      AttrValueFirst(attrs[1..], which, i - 1);
    }
  }

  /** A value, when there is one, is the string of the first considered attribute. */
  lemma {:induction false} AttrValueSomeFromFirst(attrs: seq<Attribute>, which: AttrName, s: string)
    requires AttrValue(attrs, which) == Ok(Some(s))
    ensures exists i :: IsFirstConsidered(attrs, which, i) && attrs[i].meta == MetaNameValue(StrLit(s))
  {
    if Considered(attrs[0], which) {
      assert IsFirstConsidered(attrs, which, 0);
    } else {
      AttrValueSomeFromFirst(attrs[1..], which, s);
      var k :| IsFirstConsidered(attrs[1..], which, k) && attrs[1..][k].meta == MetaNameValue(StrLit(s));
      forall j | 0 <= j < k + 1 ensures !Considered(attrs[j], which) {
        if j > 0 { assert attrs[j] == attrs[1..][j - 1]; }
      }
      assert IsFirstConsidered(attrs, which, k + 1);
    }
  }

  /** An abort, when there is one, comes from the form of the first considered
      attribute; so it is always one of the attribute aborts. */
  lemma {:induction false} AttrValueErrFromFirst(attrs: seq<Attribute>, which: AttrName, e: DeriveError)
    requires AttrValue(attrs, which) == Err(e)
    ensures exists i :: IsFirstConsidered(attrs, which, i) && StringValue(attrs[i].meta, which) == Err(e)
    ensures IsAttrError(e) && e.attr == which
  {
    if Considered(attrs[0], which) {
      assert IsFirstConsidered(attrs, which, 0);
    } else {
      AttrValueErrFromFirst(attrs[1..], which, e);
      var k :| IsFirstConsidered(attrs[1..], which, k) && StringValue(attrs[1..][k].meta, which) == Err(e);
      forall j | 0 <= j < k + 1 ensures !Considered(attrs[j], which) {
        if j > 0 { assert attrs[j] == attrs[1..][j - 1]; }
      }
      assert IsFirstConsidered(attrs, which, k + 1);
    }
  }

  /** Inner attributes never change the struct name, wherever they stand. */
  lemma {:induction false} InnerAttributesIgnored(before: seq<Attribute>, a: Attribute, after: seq<Attribute>)
    requires a.style == Inner
    ensures AttrValue(before + [a] + after, StructName) == AttrValue(before + after, StructName)
  {
    if before == [] {
      assert (before + [a] + after)[1..] == after;
      assert before + after == after;
    } else {
      InnerAttributesIgnored(before[1..], a, after);
      assert (before + [a] + after)[1..] == before[1..] + [a] + after;
      assert (before + after)[1..] == before[1..] + after;
    }
  }

  // ---------------------------------------------------------------------------
  // Field classification
  // ---------------------------------------------------------------------------

  function Last<T>(s: seq<T>): T
    requires |s| > 0
  {
    s[|s| - 1]
  }

  /** The Vec check on a field's type: a path whose last segment is `Vec`
      must carry exactly one angle-bracketed type argument. */
  function VecType(ty: Type): (r: Result<Option<Type>>)
    ensures r == Ok(None) <==> NotVec(ty)
    ensures forall t :: r == Ok(Some(t)) <==> IsVecOf(ty, t)
    ensures r == Err(EmptyTypePath) <==> ty.TypePath? && |ty.segments| == 0
    ensures r == Err(VecWithoutGeneric) <==> EndsInVec(ty) && !Last(ty.segments).arguments.AngleBracketed?
    ensures r.Err? ==> IsVecError(r.error)
  {
    match ty
    case OtherType(_) => Ok(None)
    case TypePath(segments) =>
      if |segments| == 0 then Err(EmptyTypePath)
      else if Last(segments).ident != "Vec" then Ok(None)
      else match Last(segments).arguments
        case AngleBracketed(args) =>
          if |args| != 1 then Err(VecArgCount(|args|))
          else (match args[0]
            case TypeArg(t) => Ok(Some(t))
            case NonTypeArg(_) => Err(VecArgNotType))
        case NoArguments => Err(VecWithoutGeneric)
        case Parenthesized => Err(VecWithoutGeneric)
  }

  predicate EndsInVec(ty: Type)
  {
    ty.TypePath? && |ty.segments| > 0 && Last(ty.segments).ident == "Vec"
  }

  /** `ty` is a path ending in `Vec<t>`. */
  predicate IsVecOf(ty: Type, t: Type)
  {
    EndsInVec(ty) && Last(ty.segments).arguments == AngleBracketed([TypeArg(t)])
  }

  /** A type the Vec check lets through untouched. */
  predicate NotVec(ty: Type)
  {
    ty.OtherType? || (|ty.segments| > 0 && Last(ty.segments).ident != "Vec")
  }

  /** The aborts of an attribute that does not read as `name = "value"`. */
  predicate IsAttrError(e: DeriveError)
  {
    e.AttrNotString? || e.AttrNotNameValue? || e.AttrMalformed?
  }

  /** The aborts of the Vec check on a field's type. */
  predicate IsVecError(e: DeriveError)
  {
    e == EmptyTypePath || e == VecWithoutGeneric || e == VecArgNotType || (e.VecArgCount? && e.count != 1)
  }

  /** Classify one field: an annotation wins, then the Vec check, else Basic. */
  function Classify(field: Field): (r: Result<MutableStructField>)
    ensures r.Ok? ==> field.ident == Some(r.value.name) && r.value.vis == field.vis
    ensures field.ident.None? ==> r.Err?
  {
    match AttrValue(field.attrs, MutableType)
    case Err(e) => Err(e)
    case Ok(Some(s)) =>
      if field.ident.None? then Err(UnnamedField)
      else Ok(MutableStruct(field.ident.value, field.vis, s))
    case Ok(None) =>
      match VecType(field.ty)
      case Err(e) => Err(e)
      case Ok(Some(t)) =>
        if field.ident.None? then Err(UnnamedField)
        else Ok(Vec(field.ident.value, field.vis, t))
      case Ok(None) =>
        if field.ident.None? then Err(UnnamedField)
        else Ok(Basic(field.ident.value, field.vis, field.ty))
  }

  /** The first `mutable_type` attribute decides: a string makes the field a
      nested reactive struct, any other form aborts, and in neither case is
      the field's type looked at (so a malformed `Vec` cannot abort). */
  lemma AnnotationDecides(field: Field, i: int, otherTy: Type)
    requires IsFirstConsidered(field.attrs, MutableType, i)
    ensures match StringValue(field.attrs[i].meta, MutableType)
      case Ok(s) =>
        Classify(field) == if field.ident.None? then Err(UnnamedField)
                           else Ok(MutableStruct(field.ident.value, field.vis, s))
      case Err(e) => Classify(field) == Err(e)
    ensures Classify(field.(ty := otherTy)) == Classify(field)
  {
    AttrValueFirst(field.attrs, MutableType, i);
  }

  /** A field is a nested reactive struct exactly when it is named and its
      first `mutable_type` attribute is a string. */
  lemma ClassifiedMutableStructIff(field: Field, n: string, s: string)
    ensures Classify(field) == Ok(MutableStruct(n, field.vis, s)) <==>
      field.ident == Some(n) &&
      exists i :: IsFirstConsidered(field.attrs, MutableType, i) && field.attrs[i].meta == MetaNameValue(StrLit(s))
  {
    if Classify(field) == Ok(MutableStruct(n, field.vis, s)) {
      AttrValueNoneIff(field.attrs, MutableType);
      AttrValueSomeFromFirst(field.attrs, MutableType, s);
    }
    if exists i :: IsFirstConsidered(field.attrs, MutableType, i) && field.attrs[i].meta == MetaNameValue(StrLit(s)) {
      var i :| IsFirstConsidered(field.attrs, MutableType, i) && field.attrs[i].meta == MetaNameValue(StrLit(s));
      AttrValueFirst(field.attrs, MutableType, i);
    }
  }

  /** A field is a reactive list of `t` exactly when it is named, carries no
      `mutable_type` attribute, and its type is a path ending in `Vec<t>`. */
  lemma ClassifiedVecIff(field: Field, n: string, t: Type)
    ensures Classify(field) == Ok(Vec(n, field.vis, t)) <==>
      field.ident == Some(n) && NoneConsidered(field.attrs, MutableType) && IsVecOf(field.ty, t)
  {
    AttrValueNoneIff(field.attrs, MutableType);
  }

  /** A field is a scalar cell exactly when it is named, carries no
      `mutable_type` attribute, and its type passes the Vec check untouched;
      the cell keeps the field's type unchanged. */
  lemma ClassifiedBasicIff(field: Field, n: string, t: Type)
    ensures Classify(field) == Ok(Basic(n, field.vis, t)) <==>
      field.ident == Some(n) && NoneConsidered(field.attrs, MutableType) && NotVec(field.ty) && t == field.ty
  {
    AttrValueNoneIff(field.attrs, MutableType);
  }

  /** Without an annotation, a `Vec` that is not `Vec<T>` aborts, and so does
      an empty path; these aborts come before the unnamed-field abort. */
  lemma UnannotatedVecAborts(field: Field)
    requires NoneConsidered(field.attrs, MutableType)
    ensures field.ty.TypePath? && |field.ty.segments| == 0 ==> Classify(field) == Err(EmptyTypePath)
    ensures EndsInVec(field.ty) ==>
      match Last(field.ty.segments).arguments
      case AngleBracketed(args) =>
        if |args| != 1 then Classify(field) == Err(VecArgCount(|args|))
        else if args[0].NonTypeArg? then Classify(field) == Err(VecArgNotType)
        else Classify(field).Ok? <==> field.ident.Some?
      case _ => Classify(field) == Err(VecWithoutGeneric)
  {
    AttrValueNoneIff(field.attrs, MutableType);
  }

  /** Each abort of the classifier, in both directions: an attribute abort
      comes exactly from a malformed first `mutable_type`; a type abort
      exactly from an unannotated field whose type fails the Vec check (an
      empty path among them); and the unnamed-field abort exactly from a
      field without a name that passes both checks. */
  lemma ClassifyErrIff(field: Field, e: DeriveError)
    ensures IsAttrError(e) ==>
      (Classify(field) == Err(e) <==>
       exists i :: IsFirstConsidered(field.attrs, MutableType, i) &&
                   StringValue(field.attrs[i].meta, MutableType) == Err(e))
    ensures IsVecError(e) ==>
      (Classify(field) == Err(e) <==> NoneConsidered(field.attrs, MutableType) && VecType(field.ty) == Err(e))
    ensures Classify(field) == Err(EmptyTypePath) <==>
      NoneConsidered(field.attrs, MutableType) && field.ty.TypePath? && |field.ty.segments| == 0
    ensures Classify(field) == Err(UnnamedField) <==>
      field.ident.None? &&
      (forall i :: IsFirstConsidered(field.attrs, MutableType, i) ==>
                   StringValue(field.attrs[i].meta, MutableType).Ok?) &&
      (NoneConsidered(field.attrs, MutableType) ==> VecType(field.ty).Ok?)
  {
    AttrValueNoneIff(field.attrs, MutableType);
    match AttrValue(field.attrs, MutableType)
    case Ok(None) =>
      assert forall i :: !IsFirstConsidered(field.attrs, MutableType, i);
    case Ok(Some(s)) =>
      AttrValueSomeFromFirst(field.attrs, MutableType, s);
      var i :| IsFirstConsidered(field.attrs, MutableType, i) && field.attrs[i].meta == MetaNameValue(StrLit(s));
      assert forall j :: IsFirstConsidered(field.attrs, MutableType, j) ==> j == i;
    case Err(e') =>
      AttrValueErrFromFirst(field.attrs, MutableType, e');
      var i :| IsFirstConsidered(field.attrs, MutableType, i) &&
               StringValue(field.attrs[i].meta, MutableType) == Err(e');
      assert forall j :: IsFirstConsidered(field.attrs, MutableType, j) ==> j == i;
  }

  /** Classify every field in order; the first abort wins. */
  function ClassifyAll(fields: seq<Field>): (r: Result<seq<MutableStructField>>)
    ensures r.Ok? ==> (|r.value| == |fields| &&
                       forall i :: 0 <= i < |fields| ==> Classify(fields[i]) == Ok(r.value[i]))
  {
    if fields == [] then Ok([])
    else match Classify(fields[0])
      case Err(e) => Err(e)
      case Ok(f) =>
        match ClassifyAll(fields[1..])
        case Err(e) => Err(e)
        case Ok(rest) => Ok([f] + rest)
  }

  /** Classification of the fields succeeds exactly when every field's does,
      and otherwise reports the first failing field's abort. */
  lemma {:induction false} ClassifyAllErrors(fields: seq<Field>)
    ensures ClassifyAll(fields).Ok? <==> forall i :: 0 <= i < |fields| ==> Classify(fields[i]).Ok?
    ensures forall i :: 0 <= i < |fields| && Classify(fields[i]).Err? &&
                        (forall j :: 0 <= j < i ==> Classify(fields[j]).Ok?) ==>
                        ClassifyAll(fields) == Err(Classify(fields[i]).error)
  {
    if fields != [] {
      ClassifyAllErrors(fields[1..]);
      assert forall i :: 0 < i < |fields| ==> fields[1..][i - 1] == fields[i];
    }
  }

  // ---------------------------------------------------------------------------
  // The generated struct
  // ---------------------------------------------------------------------------

  /** Both attribute loops in one statement: no considered attribute gives
      no value, and otherwise the first considered one decides. */
  lemma {:induction false} AttrValueDecided(attrs: seq<Attribute>, which: AttrName)
    ensures NoneConsidered(attrs, which) ==> AttrValue(attrs, which) == Ok(None)
    ensures forall i :: IsFirstConsidered(attrs, which, i) ==>
      AttrValue(attrs, which) == match StringValue(attrs[i].meta, which)
                                 case Ok(s) => Ok(Some(s))
                                 case Err(e) => Err(e)
  {
    AttrValueNoneIff(attrs, which);
    forall i | IsFirstConsidered(attrs, which, i)
      ensures AttrValue(attrs, which) == match StringValue(attrs[i].meta, which)
                                         case Ok(s) => Ok(Some(s))
                                         case Err(e) => Err(e)
    {
      AttrValueFirst(attrs, which, i);
    }
  }

  /** The name of the reactive struct: `Mutable` followed by the struct's own
      name when no outer `MutableStructName` is present, and otherwise the
      first one's string or its abort. */
  function MutableName(item: ItemStruct): (r: Result<string>)
    ensures NoneConsidered(item.attrs, StructName) ==> r == Ok("Mutable" + item.ident)
    ensures forall i :: IsFirstConsidered(item.attrs, StructName, i) ==>
      r == StringValue(item.attrs[i].meta, StructName)
  {
    AttrValueDecided(item.attrs, StructName);
    match AttrValue(item.attrs, StructName)
    case Err(e) => Err(e)
    case Ok(Some(s)) => Ok(s)
    case Ok(None) => Ok("Mutable" + item.ident)
  }

  /** The whole derive: the name is determined first, then every field is
      classified. */
  function DeriveMutableStruct(item: ItemStruct): (r: Result<MutableStructDef>)
    ensures r.Ok? ==> (
      r.value.vis == item.vis && r.value.snapshotType == item.ident &&
      |r.value.fields| == |item.fields| &&
      forall i :: 0 <= i < |item.fields| ==> item.fields[i].ident == Some(r.value.fields[i].name))
  {
    match MutableName(item)
    case Err(e) => Err(e)
    case Ok(name) =>
      match ClassifyAll(item.fields)
      case Err(e) => Err(e)
      case Ok(fields) => Ok(MutableStructDef(item.vis, name, item.ident, fields))
  }

  /** The derive succeeds exactly when the name and every field do; a bad
      name is reported before any field. */
  lemma DeriveOkIff(item: ItemStruct)
    ensures DeriveMutableStruct(item).Ok? <==>
      MutableName(item).Ok? && forall i :: 0 <= i < |item.fields| ==> Classify(item.fields[i]).Ok?
    ensures MutableName(item).Err? ==> DeriveMutableStruct(item) == Err(MutableName(item).error)
    ensures DeriveMutableStruct(item).Ok? ==> DeriveMutableStruct(item).value.name == MutableName(item).value
  {
    ClassifyAllErrors(item.fields);
  }

  // ---------------------------------------------------------------------------
  // The structs the repository's tests derive
  // ---------------------------------------------------------------------------

  function PlainType(name: string): Type
  {
    TypePath([PathSegment(name, NoArguments)])
  }

  function PlainField(name: string, ty: Type): Field
  {
    Field([], Inherited, Some(name), ty)
  }

  lemma SingleFieldClassified(f: Field, m: MutableStructField)
    requires Classify(f) == Ok(m)
    ensures ClassifyAll([f]) == Ok([m])
  {
    assert [f][1..] == [];
    assert ClassifyAll([f][1..]) == Ok([]);
    assert [m] + [] == [m];
  }

  /** Two scalar fields become two cells; the name falls back to `MutablePlayerScore`. */
  lemma PlayerScoreExample()
    ensures DeriveMutableStruct(ItemStruct([], Inherited, "PlayerScore",
              [PlainField("points", PlainType("u32")), PlainField("multiplier", PlainType("f32"))]))
         == Ok(MutableStructDef(Inherited, "MutablePlayerScore", "PlayerScore",
              [Basic("points", Inherited, PlainType("u32")), Basic("multiplier", Inherited, PlainType("f32"))]))
  {
    var fields := [PlainField("points", PlainType("u32")), PlainField("multiplier", PlainType("f32"))];
    assert AttrValue([], MutableType) == Ok(None);
    assert Last(PlainType("u32").segments).ident != "Vec";
    assert Last(PlainType("f32").segments).ident != "Vec";
    assert Classify(fields[0]) == Ok(Basic("points", Inherited, PlainType("u32")));
    SingleFieldClassified(fields[1], Basic("multiplier", Inherited, PlainType("f32")));
    assert fields[1..] == [fields[1]];
    assert [Basic("points", Inherited, PlainType("u32"))] + [Basic("multiplier", Inherited, PlainType("f32"))] == [Basic("points", Inherited, PlainType("u32")), Basic("multiplier", Inherited, PlainType("f32"))];
    assert AttrValue([], StructName) == Ok(None);
    assert "Mutable" + "PlayerScore" == "MutablePlayerScore";
  }

  /** An outer `MutableStructName` attribute names the generated struct. */
  lemma CustomNamedExample()
    ensures DeriveMutableStruct(ItemStruct(
              [Attribute(Outer, AttrPath(false, ["MutableStructName"]), MetaNameValue(StrLit("MyMutableStruct")))],
              Inherited, "CustomNamedStruct", [PlainField("level", PlainType("u8"))]))
         == Ok(MutableStructDef(Inherited, "MyMutableStruct", "CustomNamedStruct",
              [Basic("level", Inherited, PlainType("u8"))]))
  {
    var attrs := [Attribute(Outer, AttrPath(false, ["MutableStructName"]), MetaNameValue(StrLit("MyMutableStruct")))];
    assert Considered(attrs[0], StructName);
    assert AttrValue(attrs, StructName) == Ok(Some("MyMutableStruct"));
    var fields := [PlainField("level", PlainType("u8"))];
    assert AttrValue([], MutableType) == Ok(None);
    assert Last(PlainType("u8").segments).ident != "Vec";
    SingleFieldClassified(fields[0], Basic("level", Inherited, PlainType("u8")));
  }

  /** A `Vec<String>` field becomes a reactive list of `String`; a field of
      another derived struct type without a `mutable_type` attribute stays a
      scalar cell holding the whole struct. */
  lemma ComposedExample()
    ensures DeriveMutableStruct(ItemStruct([], Inherited, "ComposedStruct",
              [PlainField("score", PlainType("PlayerScore")),
               PlainField("events", TypePath([PathSegment("Vec", AngleBracketed([TypeArg(PlainType("String"))]))]))]))
         == Ok(MutableStructDef(Inherited, "MutableComposedStruct", "ComposedStruct",
              [Basic("score", Inherited, PlainType("PlayerScore")), Vec("events", Inherited, PlainType("String"))]))
  {
    var events := PlainField("events", TypePath([PathSegment("Vec", AngleBracketed([TypeArg(PlainType("String"))]))]));
    var fields := [PlainField("score", PlainType("PlayerScore")), events];
    assert AttrValue([], MutableType) == Ok(None);
    assert Last(PlainType("PlayerScore").segments).ident != "Vec";
    assert VecType(events.ty) == Ok(Some(PlainType("String")));
    assert Classify(fields[0]) == Ok(Basic("score", Inherited, PlainType("PlayerScore")));
    SingleFieldClassified(fields[1], Vec("events", Inherited, PlainType("String")));
    assert fields[1..] == [fields[1]];
    assert [Basic("score", Inherited, PlainType("PlayerScore"))] + [Vec("events", Inherited, PlainType("String"))] == [Basic("score", Inherited, PlainType("PlayerScore")), Vec("events", Inherited, PlainType("String"))];
    assert AttrValue([], StructName) == Ok(None);
    assert "Mutable" + "ComposedStruct" == "MutableComposedStruct";
  }
}
