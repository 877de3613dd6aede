/** What the code the derive emits does when it runs. The generated struct is
    a `ReactiveStruct`: one slot per field of the plain struct, in the same
    order, each slot a scalar cell, a nested reactive struct, or a reactive
    list. `AsMutableStruct` builds one from a plain value, `Snapshot` reads
    the plain value back, `Update` writes a plain value into the existing
    cells in place, and `Clone` is a snapshot turned into a fresh struct.
    Cells are written through shared references, as the generated code does,
    so the slots themselves never change after construction. */
module MutableStructs {
  import opened Syntax
  import opened Derive
  import MutableVecs

  /** A plain value: a scalar, a plain struct (its field values in
      declaration order), or a vector. */
  datatype Value = Scalar(x: int) | Record(fields: seq<Value>) | List(items: seq<Value>)

  /** The shape of a generated struct: what each of its fields holds. */
  datatype Layout = Layout(kinds: seq<Kind>)

  datatype Kind = CellKind | NestedKind(layout: Layout) | ListKind

  /** `v` is a plain value of the struct whose generated struct has `layout`. */
  predicate Fits(v: Value, layout: Layout)
    decreases layout
  {
    v.Record? && |v.fields| == |layout.kinds| &&
    forall i :: 0 <= i < |layout.kinds| ==> FitsKind(v.fields[i], layout.kinds[i])
  }

  predicate FitsKind(v: Value, k: Kind)
    decreases k
  {
    match k
    case CellKind => true
    case ListKind => v.List?
    case NestedKind(l) => Fits(v, l)
  }

  /** What the generated field definition for a classified field holds: a
      `Mutable` cell, the custom reactive struct (whose own layout `known`
      supplies), or a `MutableVec`. */
  function FieldKind(f: MutableStructField, known: map<string, Layout>): (r: Option<Kind>)
    ensures r.None? <==> f.MutableStruct? && f.customMutableTy !in known
    ensures r.Some? ==> (f.Basic? <==> r.value == CellKind) && (f.Vec? <==> r.value == ListKind) &&
                        (f.MutableStruct? <==> r.value.NestedKind?)
  {
    match f
    case Basic(_, _, _) => Some(CellKind)
    case Vec(_, _, _) => Some(ListKind)
    case MutableStruct(_, _, ty) => if ty in known then Some(NestedKind(known[ty])) else None
  }

  /** The layout of a generated struct: one kind per field, in field order. */
  function LayoutOf(fields: seq<MutableStructField>, known: map<string, Layout>): (r: Option<Layout>)
    ensures r.Some? <==> forall i :: 0 <= i < |fields| ==> FieldKind(fields[i], known).Some?
    ensures r.Some? ==> (|r.value.kinds| == |fields| &&
                         forall i :: 0 <= i < |fields| ==> FieldKind(fields[i], known) == Some(r.value.kinds[i]))
  {
    if fields == [] then Some(Layout([]))
    else match FieldKind(fields[0], known)
      case None => None
      case Some(k) =>
        match LayoutOf(fields[1..], known)
        case None => None
        case Some(rest) => Some(Layout([k] + rest.kinds))
  }

  /** `futures_signals::signal::Mutable<T>`: a settable cell holding one value. */
  class Cell {
    var value: Value

    constructor (v: Value)
      ensures value == v
    {
      value := v;
    }

    method Set(v: Value)
      modifies this
      ensures value == v
    {
      value := v;
    }
  }

  datatype Slot =
    | CellSlot(cell: Cell)
    | NestedSlot(nested: ReactiveStruct)
    | ListSlot(list: MutableVecs.MutableVec<Value>)

  /** The objects whose state a slot's value depends on. */
  ghost function SlotRepr(sl: Slot): set<object>
  {
    match sl
    case CellSlot(c) => {c}
    case ListSlot(l) => {l}
    case NestedSlot(n) => n.Repr
  }

  ghost function SlotHeight(sl: Slot): nat
  {
    match sl
    case NestedSlot(n) => n.Height
    case _ => 0
  }

  /** A slot of the kind the layout names; a nested struct has that layout. */
  predicate SlotMatches(sl: Slot, k: Kind)
  {
    match sl
    case CellSlot(_) => k == CellKind
    case ListSlot(_) => k == ListKind
    case NestedSlot(n) => k == NestedKind(n.layout)
  }

  /** The object invariant, apart from the validity of nested structs, stated
      on a candidate struct's parts: slots match the layout, nested structs
      are lower, and the slots' objects lie in `repr` and are pairwise
      disjoint, so no two fields share a cell. */
  ghost predicate SlotsValid(layout: Layout, slots: seq<Slot>, repr: set<object>, height: nat)
  {
    height > 0 && |slots| == |layout.kinds| &&
    (forall i :: 0 <= i < |slots| ==> SlotMatches(slots[i], layout.kinds[i])) &&
    (forall i :: 0 <= i < |slots| ==> SlotHeight(slots[i]) < height) &&
    (forall i :: 0 <= i < |slots| ==> SlotRepr(slots[i]) <= repr) &&
    (forall i, j :: 0 <= i < j < |slots| ==> SlotRepr(slots[i]) !! SlotRepr(slots[j]))
  }

  /** The current plain value of one slot: the cell's value, the list's
      contents, or the nested struct's snapshot. It is a value of the kind
      the slot holds. */
  function SlotValue(sl: Slot): (v: Value)
    requires sl.NestedSlot? ==> sl.nested.Valid()
    reads SlotRepr(sl)
    decreases SlotHeight(sl), 2, 0
    ensures forall k :: SlotMatches(sl, k) ==> FitsKind(v, k)
  {
    match sl
    case CellSlot(c) => c.value
    case ListSlot(l) => List(l.Snapshot())
    case NestedSlot(n) => n.Snapshot()
  }

  /** A generated reactive struct. */
  class ReactiveStruct {
    const layout: Layout
    const slots: seq<Slot>
    ghost const Repr: set<object>
    ghost const Height: nat

    ghost predicate Valid()
      decreases Height
    {
      SlotsValid(layout, slots, Repr, Height) &&
      forall i :: 0 <= i < |slots| && slots[i].NestedSlot? ==> slots[i].nested.Valid()
    }

    /** The struct literal `MutableName { field: ..., ... }`. */
    constructor Assemble(layout: Layout, slots: seq<Slot>, ghost repr: set<object>, ghost height: nat)
      requires SlotsValid(layout, slots, repr, height)
      requires forall i :: 0 <= i < |slots| && slots[i].NestedSlot? ==> slots[i].nested.Valid()
      ensures Valid()
      ensures this.layout == layout && this.slots == slots && Repr == repr && Height == height
    {
      this.layout := layout;
      this.slots := slots;
      Repr := repr;
      Height := height;
    }

    /** The current values of the first `k` slots. */
    function Values(k: nat): (vs: seq<Value>)
      requires Valid() && k <= |slots|
      reads Repr
      decreases Height, 0, k
      ensures |vs| == k
      ensures forall i :: 0 <= i < k ==> vs[i] == SlotValue(slots[i])
    {
      if k == 0 then [] else Values(k - 1) + [SlotValue(slots[k - 1])]
    }

    /** The plain value the struct currently holds: each field's snapshot,
        in field order. It is always a value of the struct's layout. */
    function Snapshot(): (v: Value)
      requires Valid()
      reads Repr
      decreases Height, 1, 0
      ensures Fits(v, layout)
      ensures |v.fields| == |slots| && forall i :: 0 <= i < |slots| ==> v.fields[i] == SlotValue(slots[i])
    {
      Record(Values(|slots|))
    }

    /** Write every field of `s` into the existing cells, in field order. */
    method Update(s: Value)
      requires Valid() && Fits(s, layout)
      modifies Repr
      decreases Height
      ensures Valid()
      ensures Snapshot() == s
    {
      var i := 0;
      while i < |slots|
        invariant 0 <= i <= |slots|
        invariant forall j :: 0 <= j < i ==> SlotValue(slots[j]) == s.fields[j]
      {
        assert FitsKind(s.fields[i], layout.kinds[i]);
        match slots[i] {
          case CellSlot(c) => c.Set(s.fields[i]);
          case NestedSlot(n) => n.Update(s.fields[i]);
          case ListSlot(l) => l.Update(s.fields[i].items);
        }
        i := i + 1;
      }
      assert Snapshot().fields == s.fields;
    }

    /** Set the cell of field `i`: the next snapshot differs in that field only. */
    method SetCell(i: nat, x: Value)
      requires Valid() && i < |slots| && slots[i].CellSlot?
      modifies slots[i].cell
      ensures Valid()
      ensures Snapshot() == Record(old(Snapshot().fields)[i := x])
    {
      slots[i].cell.Set(x);
    }

    /** A new struct built from this one's snapshot: equal contents, no shared cells. */
    method Clone() returns (c: ReactiveStruct)
      requires Valid()
      ensures c.Valid() && c.layout == layout && fresh(c.Repr)
      ensures c.Snapshot() == Snapshot()
    {
      var s := Snapshot();
      c := AsMutableStruct(layout, s);
    }
  }

  /** Build a reactive struct from a plain value: a cell per scalar field, a
      nested reactive struct per nested field, a reactive list per list. */
  method AsMutableStruct(layout: Layout, v: Value) returns (r: ReactiveStruct)
    requires Fits(v, layout)
    decreases layout
    ensures r.Valid() && r.layout == layout && fresh(r.Repr)
    ensures r.Snapshot() == v
  {
    var slots: seq<Slot> := [];
    ghost var repr: set<object> := {};
    ghost var height: nat := 1;
    var i := 0;
    while i < |layout.kinds|
      invariant 0 <= i <= |layout.kinds| && |slots| == i && height > 0
      invariant forall j :: 0 <= j < i ==> SlotMatches(slots[j], layout.kinds[j]) && SlotHeight(slots[j]) < height
      invariant forall j :: 0 <= j < i && slots[j].NestedSlot? ==> slots[j].nested.Valid()
      invariant forall j :: 0 <= j < i ==> SlotRepr(slots[j]) <= repr
      invariant forall j, k :: 0 <= j < k < i ==> SlotRepr(slots[j]) !! SlotRepr(slots[k])
      invariant fresh(repr)
      invariant forall j :: 0 <= j < i ==> SlotValue(slots[j]) == v.fields[j]
    {
      assert FitsKind(v.fields[i], layout.kinds[i]);
      var slot: Slot;
      match layout.kinds[i] {
        case CellKind =>
          var c := new Cell(v.fields[i]);
          slot := CellSlot(c);
        case ListKind =>
          var l := MutableVecs.AsMutableStruct(v.fields[i].items);
          slot := ListSlot(l);
        case NestedKind(sub) =>
          var n := AsMutableStruct(sub, v.fields[i]);
          slot := NestedSlot(n);
          height := if n.Height < height then height else n.Height + 1;
      }
      slots := slots + [slot];
      repr := repr + SlotRepr(slot);
      i := i + 1;
    }
    r := new ReactiveStruct.Assemble(layout, slots, repr, height);
    assert r.Snapshot().fields == v.fields;
  }

  /** The derive's output fixes the run-time shape: the generated struct has
      one slot per field of the input struct, in order; a field the derive
      classifies `Basic` is a cell, a `Vec` field a reactive list, and a
      `MutableStruct` field a nested struct. */
  lemma DerivedLayout(item: ItemStruct, known: map<string, Layout>, d: MutableStructDef, l: Layout)
    requires DeriveMutableStruct(item) == Ok(d) && LayoutOf(d.fields, known) == Some(l)
    ensures |l.kinds| == |item.fields|
    ensures forall i :: 0 <= i < |item.fields| ==>
      Classify(item.fields[i]) == Ok(d.fields[i]) &&
      (d.fields[i].Basic? <==> l.kinds[i] == CellKind) &&
      (d.fields[i].Vec? <==> l.kinds[i] == ListKind) &&
      (d.fields[i].MutableStruct? <==> l.kinds[i].NestedKind?)
  {
  }

  // ---------------------------------------------------------------------------
  // Laws of the generated code, as a caller sees them
  // ---------------------------------------------------------------------------

  /** Turning a plain value into a reactive struct and back gives the value,
      whatever mix of cells, nested structs and lists the layout has. */
  method SnapshotRoundTrip(layout: Layout, v: Value) returns (s: Value)
    requires Fits(v, layout)
    ensures s == v
  {
    var r := AsMutableStruct(layout, v);
    s := r.Snapshot();
  }

  /** After `update(w)` the snapshot is `w`, whatever the struct held before. */
  method UpdateThenSnapshot(layout: Layout, v: Value, w: Value) returns (s: Value)
    requires Fits(v, layout) && Fits(w, layout)
    ensures s == w
  {
    var r := AsMutableStruct(layout, v);
    r.Update(w);
    s := r.Snapshot();
  }

  /** Updating twice with the same value leaves what one update leaves. */
  method UpdateIsIdempotent(layout: Layout, v: Value, w: Value) returns (once: Value, twice: Value)
    requires Fits(v, layout) && Fits(w, layout)
    ensures once == twice == w
  {
    var r := AsMutableStruct(layout, v);
    r.Update(w);
    once := r.Snapshot();
    r.Update(w);
    twice := r.Snapshot();
  }

  /** Setting one scalar cell changes that field of the next snapshot and no other. */
  method SetThenSnapshot(layout: Layout, v: Value, i: nat, x: Value) returns (s: Value)
    requires Fits(v, layout) && i < |layout.kinds| && layout.kinds[i] == CellKind
    ensures s == Record(v.fields[i := x])
  {
    var r := AsMutableStruct(layout, v);
    r.SetCell(i, x);
    s := r.Snapshot();
  }

  /** A clone snapshots to the same value as the original. */
  method CloneSnapshot(layout: Layout, v: Value) returns (original: Value, copy: Value)
    requires Fits(v, layout)
    ensures original == copy == v
  {
    var r := AsMutableStruct(layout, v);
    var c := r.Clone();
    original := r.Snapshot();
    copy := c.Snapshot();
  }

  /** A clone snapshots to the same value as the original, and setting a cell
      of the clone leaves the original untouched: the two share no cell. */
  method CloneIsIndependent(layout: Layout, v: Value, i: nat, x: Value) returns (original: Value, copy: Value)
    requires Fits(v, layout) && i < |layout.kinds| && layout.kinds[i] == CellKind
    ensures original == v
    ensures copy == Record(v.fields[i := x])
  {
    var r := AsMutableStruct(layout, v);
    var c := r.Clone();
    c.SetCell(i, x);
    original := r.Snapshot();
    copy := c.Snapshot();
  }
}
