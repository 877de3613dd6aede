# futures-signals-structs, modelled in Dafny

`futures-signals-structs` is a Rust derive macro. Given a plain struct, it
generates a companion "mutable" (reactive) struct whose fields can each be set
and observed. It also generates the conversions between the two forms:
`as_mutable_struct` (plain to reactive), `snapshot` (reactive to plain),
`update` (write a plain value into an existing reactive struct) and `clone`.

This project models two things:

- **The derive's decision procedure** (module `Derive`, over the abstract
  syntax in module `Syntax`). Each field is classified as exactly one of three
  kinds: `Basic` (a scalar cell), `MutableStruct` (a nested reactive struct
  named by a `mutable_type` attribute) or `Vec` (a reactive list). The derive
  also chooses the generated struct's name. Every abort of the macro is a
  `DeriveError` value instead of a panic. The loops that read the
  `mutable_type` and `MutableStructName` attributes are methods. Both are
  proved equal to one specification function, `AttrValue`. The classifier, the
  name choice and the whole derive are functions over it. Lemmas characterise
  each kind in both directions, and `ClassifyErrIff` does the same for each
  abort of the classifier. `get_name` is the `name` field
  that all three variants of `MutableStructField` share.
- **What the generated code does at run time** (modules `MutableStructs` and
  `MutableVecs`). A generated struct is a `ReactiveStruct` object with one slot
  per field, in field order. A slot holds a `Cell` (the `Mutable<T>` of a
  `Basic` field), a nested `ReactiveStruct`, or a `MutableVec` (the reactive
  list of a `Vec` field, as implemented in `vec.rs`). Plain values are
  `Value`s; a `Layout` records which kind each field has. The generated
  `update` writes into the existing cells in place, as the Rust code does
  through `&self`. The object invariant keeps the slots' objects pairwise
  disjoint, so setting one field's cell changes no other field. The program
  itself does not enforce this: `as_mutable_struct` and `clone` build such
  structs from fresh objects, but a struct written as a literal may share a
  cell between two fields, and that case is outside the model (see "Left
  out").

The repository's tests derive three structs: `PlayerScore`,
`CustomNamedStruct` and `ComposedStruct`. The lemmas `PlayerScoreExample`,
`CustomNamedExample` and `ComposedExample` compute what the derive makes of
each one. The derive gives `ComposedStruct.score` (tests/test.rs:23) no
`mutable_type` attribute, so it classifies that field as `Basic`: a single
cell holding a whole `PlayerScore`. The test at tests/test.rs:100 reaches
through that field as if it were a nested reactive struct. The model follows
the derive's code (futures-signals-structs-derive/src/lib.rs:31-48).

## Model

| member | source | states |
|---|---|---|
| `Derive.MaybeGetMutableType` | futures-signals-structs-derive/src/lib.rs:122-142 | The loop over a field's attributes returns what `AttrValue` specifies for `mutable_type`: the first such attribute's string, its abort, or none |
| `Derive.MaybeGetMutableName` | futures-signals-structs-derive/src/lib.rs:272-295 | The loop over the struct's attributes skips inner attributes and returns what `AttrValue` specifies for `MutableStructName` |
| `Derive.AttrValueNoneIff` | futures-signals-structs-derive/src/lib.rs:123-141 | The attribute loops find no value exactly when no attribute they look at is present |
| `Derive.AttrValueFirst` | futures-signals-structs-derive/src/lib.rs:127-139 | The first considered attribute decides: `name = "s"` gives `s`; any other form aborts, whatever later attributes say |
| `Derive.AttrValueSomeFromFirst` | futures-signals-structs-derive/src/lib.rs:128-130 | A value the loops return is the string literal of the first considered attribute |
| `Derive.InnerAttributesIgnored` | futures-signals-structs-derive/src/lib.rs:274-276 | Adding an inner attribute anywhere never changes the struct-name lookup |
| `Derive.VecType` | futures-signals-structs-derive/src/lib.rs:145-162 | The Vec check lets a non-`Vec` type through with no value, gives `t` exactly for a path ending in `Vec<t>`, aborts on an empty path or a `Vec` without angle brackets, and otherwise aborts only on an argument count other than one or a non-type argument |
| `Derive.Classify` | futures-signals-structs-derive/src/lib.rs:29-51 | A classified field keeps its name and visibility; a field without a name aborts |
| `Derive.AnnotationDecides` | futures-signals-structs-derive/src/lib.rs:31-36 | With a `mutable_type` attribute, the first one decides: a string gives `MutableStruct` with that type name, any other form aborts. The field's type is never looked at, so a malformed `Vec` cannot abort |
| `Derive.ClassifiedMutableStructIff` | futures-signals-structs-derive/src/lib.rs:31-36 | A field is `MutableStruct(n, vis, s)` if and only if it is named `n` and its first `mutable_type` attribute is the string `s` |
| `Derive.ClassifiedVecIff` | futures-signals-structs-derive/src/lib.rs:37-42 | A field is `Vec(n, vis, t)` if and only if it is named `n`, has no `mutable_type` attribute, and its type is a path ending in `Vec<t>` |
| `Derive.ClassifiedBasicIff` | futures-signals-structs-derive/src/lib.rs:43-48 | A field is `Basic(n, vis, t)` if and only if it is named `n`, has no `mutable_type` attribute, its type is not a path ending in `Vec`, and `t` is its type unchanged |
| `Derive.UnannotatedVecAborts` | futures-signals-structs-derive/src/lib.rs:145-162 | Without an annotation, a `Vec` with no angle brackets, a number of arguments other than one, or a non-type argument aborts, and so does an empty path; these aborts come before the unnamed-field abort |
| `Derive.ClassifyErrIff` | futures-signals-structs-derive/src/lib.rs:29-51 | Each abort in both directions: an attribute abort exactly when the first `mutable_type` has that malformed form; a Vec-check abort (the empty path among them) exactly when the field is unannotated and its type fails the check that way; the unnamed-field abort exactly when a field without a name passes both checks |
| `Derive.ClassifyAll` | futures-signals-structs-derive/src/lib.rs:179 | Classifying the fields gives one entry per field, in order, each the field's own classification |
| `Derive.ClassifyAllErrors` | futures-signals-structs-derive/src/lib.rs:179 | Classifying the fields succeeds exactly when every field does, and otherwise reports the first failing field's abort |
| `Derive.MutableName` | futures-signals-structs-derive/src/lib.rs:173-176 | The generated name is `Mutable` followed by the struct's name when no outer `MutableStructName` is present, and otherwise the first one's string or its abort |
| `Derive.DeriveMutableStruct` | futures-signals-structs-derive/src/lib.rs:189-219 | The generated struct has the original's visibility, snapshots to the original type, and has one field per input field with the same names in the same order |
| `Derive.DeriveOkIff` | futures-signals-structs-derive/src/lib.rs:173-179 | The derive succeeds exactly when the name and every field do; a bad name is reported before any field |
| `Derive.PlayerScoreExample` | tests/test.rs:9-13 | `PlayerScore` gets two scalar cells and the name `MutablePlayerScore` |
| `Derive.CustomNamedExample` | tests/test.rs:15-19 | `#[MutableStructName = "MyMutableStruct"]` names the generated struct `MyMutableStruct` |
| `Derive.ComposedExample` | tests/test.rs:21-25 | `events: Vec<String>` becomes a reactive list of `String`; `score: PlayerScore` stays a scalar cell |
| `MutableStructs.FieldKind` | futures-signals-structs-derive/src/lib.rs:55-71 | A generated field is a `Mutable` cell exactly for `Basic`, a `MutableVec` exactly for `Vec`, and the custom struct exactly for `MutableStruct`; only a custom type whose layout is unknown has no kind |
| `MutableStructs.LayoutOf` | futures-signals-structs-derive/src/lib.rs:55-71 | The generated fields hold, one per classified field and in order, a cell for `Basic`, the custom struct for `MutableStruct`, and a reactive list for `Vec` |
| `MutableStructs.DerivedLayout` | futures-signals-structs-derive/src/lib.rs:55-71 | When the derive succeeds, the generated struct has one slot per input field, in order, and each field's classification fixes its slot: a cell for `Basic`, a list for `Vec`, a nested struct for `MutableStruct` |
| `MutableStructs.SlotValue` | futures-signals-structs-derive/src/lib.rs:89-97 | A field's snapshot (`get_cloned`, nested `snapshot`, or the list copied out) is a value of the kind the field holds |
| `MutableStructs.ReactiveStruct.Snapshot` | futures-signals-structs-derive/src/lib.rs:202-228 | The snapshot is a plain value of the struct's layout whose field `i` is the current value of slot `i` |
| `MutableStructs.ReactiveStruct.Update` | futures-signals-structs-derive/src/lib.rs:211-232 | After `update(s)` the snapshot is `s`, and only objects of this struct were written |
| `MutableStructs.ReactiveStruct.SetCell` | futures-signals-structs-derive/src/lib.rs:57-58 | Setting the cell of field `i` keeps the struct valid and changes field `i` of the next snapshot and no other field |
| `MutableStructs.ReactiveStruct.Clone` | futures-signals-structs-derive/src/lib.rs:235-239 | A clone is a valid struct of the same layout, built from fresh objects, whose snapshot equals the original's |
| `MutableStructs.AsMutableStruct` | futures-signals-structs-derive/src/lib.rs:250-267 | `as_mutable_struct(v)` builds a struct of fresh objects whose snapshot is `v` |
| `MutableStructs.SnapshotRoundTrip` | tests/test.rs:90-109 | `snapshot(as_mutable_struct(v)) == v` for any mix of cells, nested structs and lists |
| `MutableStructs.UpdateThenSnapshot` | tests/test.rs:111-131 | After `update(w)` the snapshot is `w`, whatever the struct held before |
| `MutableStructs.UpdateIsIdempotent` | futures-signals-structs-derive/src/lib.rs:230-232 | Two updates with the same value leave what one leaves |
| `MutableStructs.SetThenSnapshot` | tests/test.rs:40-53 | Setting one cell gives a snapshot that differs from the original value in that field only |
| `MutableStructs.CloneSnapshot` | tests/test.rs:72-81 | A clone's snapshot equals the original's |
| `MutableStructs.CloneIsIndependent` | futures-signals-structs-derive/src/lib.rs:236-238 | Setting a cell of a clone leaves the original's snapshot unchanged |
| `MutableVecs.AsMutableStruct` | futures-signals-structs-traits/src/vec.rs:7-9 | Turning a vector into a reactive list gives a fresh list whose contents equal the vector |
| `MutableVecs.MutableVec.Snapshot` | futures-signals-structs-traits/src/vec.rs:15-17 | The snapshot is the list's current contents in order, and it reads only the list |
| `MutableVecs.MutableVec.Update` | futures-signals-structs-traits/src/vec.rs:19-21 | `update(s)` replaces the whole contents with `s`, whatever the previous length |
| `MutableVecs.RoundTrip` | futures-signals-structs-traits/src/vec.rs:7-17 | `as_mutable_struct(v).snapshot() == v` |
| `MutableVecs.UpdateThenSnapshot` | futures-signals-structs-traits/src/vec.rs:15-21 | After `update(w)` the snapshot is `w`, whatever the list held before |
| `MutableVecs.UpdateIsIdempotent` | futures-signals-structs-traits/src/vec.rs:19-21 | Two updates with the same contents leave what one leaves |

## Left out

- Parsing by `syn`: the model starts from its outcome. Attributes, meta items, paths and types are abstract datatypes.
- Token emission by `quote!`, and the `proc_macro` entry point (futures-signals-structs-derive/src/lib.rs:165-187, apart from lines 173-179): the model gives the generated code its meaning, not its text.
- `format_ident!` panics when the `mutable_type` or `MutableStructName` string is not a valid Rust identifier. That check belongs to `proc_macro2`, so the model accepts any string.
- `Path::is_ident` also requires the single segment to have no generic arguments. Attribute paths are modelled as plain identifier lists, so that case cannot arise.
- Generic parameters and where-clauses of the input struct: the derive ignores them, and so does the model.
- Signals, observers and the `lock_ref`/`lock_mut` locks of `futures_signals`: reads and writes of cells and lists are plain reads and writes of their contents.
- Panic messages: each abort is an abstract `DeriveError` value.
- Floating-point field values (the tests' `f32`): scalar values are integers.
- Rust's type checking of the generated code: a nested field's layout comes from the `known` map, and plain values are checked against a layout only by shape (`Fits`).
- Other `Mutable` and `MutableVec` operations, such as `push_cloned` (tests/test.rs:101): they belong to `futures_signals`, not to this repository.
- Types named by `mutable_type`: the generated code calls their own `as_mutable_struct`, `snapshot` and `update`; the model assumes each such type is itself a derived struct.
- `ReactiveStruct.Update` and `ReactiveStruct.SetCell` require a struct whose fields hold pairwise distinct cells, lists and nested structs. The generated fields keep the input fields' visibility (futures-signals-structs-derive/src/lib.rs:58, 64, 69), so a caller can also build the struct as a literal, and cloning a `Mutable` or `MutableVec` shares its state. For a struct with one cell in two fields, `update` writes that cell twice, the last write wins, and the snapshot need not equal the argument; setting one field also changes the other. The model excludes such structs. Only `AsMutableStruct` and `Clone`, whose objects are proved fresh, are shown to build structs with no shared cells.
