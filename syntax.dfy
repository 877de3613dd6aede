/** Abstract syntax of the part of a Rust struct definition the derive inspects.
    The shapes mirror what the `syn` parser hands the derive: attributes with a
    style, a path and (once parsed) a meta item; fields with an optional name,
    a visibility and a type; types that are either paths or something else.
    The derive's aborts become values of `DeriveError`. */
module Syntax {

  datatype Option<T> = None | Some(value: T)

  datatype Result<T> = Ok(value: T) | Err(error: DeriveError)

  /** The two helper attributes the derive declares. */
  datatype AttrName = MutableType | StructName

  /** Each abort of the derive, without its message text. */
  datatype DeriveError =
    | AttrNotString(attr: AttrName)     // `#[name = 3]`: a name-value whose literal is not a string
    | AttrNotNameValue(attr: AttrName)  // `#[name]` or `#[name(...)]`
    | AttrMalformed(attr: AttrName)     // the attribute's tokens do not parse as a meta item
    | VecArgCount(count: nat)           // `Vec<A, B>` or `Vec<>`: the argument count is not one
    | VecArgNotType                     // `Vec<'a>`: the one argument is not a type
    | VecWithoutGeneric                 // `Vec` or `Vec(..)`: no angle-bracketed arguments
    | EmptyTypePath                     // a path type with no segments
    | UnnamedField                      // a tuple-struct field has no name

  datatype Literal = StrLit(text: string) | OtherLit

  /** The outcome of parsing an attribute's tokens as a meta item. */
  datatype Meta =
    | MetaPath                          // `#[name]`
    | MetaList                          // `#[name(...)]`
    | MetaNameValue(lit: Literal)       // `#[name = lit]`
    | Unparsable                        // the parse failed

  datatype AttrStyle = Outer | Inner

  /** An attribute path: `::a::b` has a leading colon and segments ["a", "b"]. */
  datatype AttrPath = AttrPath(leadingColon: bool, segments: seq<string>)

  datatype Attribute = Attribute(style: AttrStyle, path: AttrPath, meta: Meta)

  datatype Visibility = Public | Crate | Restricted(path: seq<string>) | Inherited

  datatype Type =
    | TypePath(segments: seq<PathSegment>)   // `a::b::C<..>`
    | OtherType(text: string)                // references, tuples, arrays, ...

  datatype PathSegment = PathSegment(ident: string, arguments: PathArguments)

  datatype PathArguments =
    | NoArguments                             // `Vec`
    | AngleBracketed(args: seq<GenericArgument>)  // `Vec<..>`
    | Parenthesized                           // `Fn(A) -> B`

  datatype GenericArgument = TypeArg(ty: Type) | NonTypeArg(text: string)

  datatype Field = Field(attrs: seq<Attribute>, vis: Visibility, ident: Option<string>, ty: Type)

  datatype ItemStruct = ItemStruct(attrs: seq<Attribute>, vis: Visibility, ident: string, fields: seq<Field>)

  /** True when the path is exactly the single identifier `name`, as syn's `Path::is_ident`. */
  predicate IsIdent(p: AttrPath, name: string)
  {
    !p.leadingColon && p.segments == [name]
  }
}
