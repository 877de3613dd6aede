/** The reactive list: a `Vec<T>` turned into a settable, observable list, and
    back. Observers and locking are not modelled: reads and writes of the
    list are plain reads and writes of its contents. */
module MutableVecs {

  /** A reactive list holding an ordered sequence of values. */
  class MutableVec<T> {
    var items: seq<T>

    /** A list that starts out holding `values`. */
    constructor NewWithValues(values: seq<T>)
      ensures items == values
    {
      items := values;
    }

    /** A plain copy of the current contents, in order. Reading it changes nothing. */
    function Snapshot(): (s: seq<T>)
      reads this
      ensures s == items
    {
      items
    }

    /** Replace the whole contents with `newSnapshot`, whatever was there. */
    method Update(newSnapshot: seq<T>)
      modifies this
      ensures Snapshot() == newSnapshot
    {
      items := newSnapshot;
    }
  }

  /** A fresh reactive list whose contents equal `v`. */
  method AsMutableStruct<T>(v: seq<T>) returns (l: MutableVec<T>)
    ensures fresh(l)
    ensures l.Snapshot() == v
  {
    l := new MutableVec.NewWithValues(v);
  }

  /** Turning a vector into a reactive list and back gives the vector. */
  method RoundTrip<T>(v: seq<T>) returns (s: seq<T>)
    ensures s == v
  {
    var l := AsMutableStruct(v);
    s := l.Snapshot();
  }

  /** After an update, the snapshot is the update's argument, whatever the
      list held before and however long it was. */
  method UpdateThenSnapshot<T>(v: seq<T>, w: seq<T>) returns (s: seq<T>)
    ensures s == w
  {
    var l := AsMutableStruct(v);
    l.Update(w);
    s := l.Snapshot();
  }

  /** Updating twice with the same contents leaves what one update leaves. */
  method UpdateIsIdempotent<T>(v: seq<T>, w: seq<T>) returns (once: seq<T>, twice: seq<T>)
    ensures once == twice == w
  {
    var l := AsMutableStruct(v);
    l.Update(w);
    once := l.Snapshot();
    l.Update(w);
    twice := l.Snapshot();
  }
}
