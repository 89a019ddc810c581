/** Flattening an array of triples into a buffer with stride 3, as the
    triangle-mesh constructor does for its vertex and index buffers.  The
    element type is generic: the copy does no arithmetic on the elements. */
module Triples {

  /** Component `k` (0, 1 or 2) of a triple. */
  function Component<T>(t: (T, T, T), k: nat): T
    requires k < 3
  {
    if k == 0 then t.0 else if k == 1 then t.1 else t.2
  }

  /** The stride-3 layout: slot `3 * i + k` of the buffer holds component `k`
      of triple `i`. */
  function Flatten<T>(items: seq<(T, T, T)>): (buf: seq<T>)
    ensures |buf| == 3 * |items|
    ensures forall i :: 0 <= i < |items| ==>
              && buf[3 * i] == items[i].0
              && buf[3 * i + 1] == items[i].1
              && buf[3 * i + 2] == items[i].2
  {
    if items == [] then []
    else [items[0].0, items[0].1, items[0].2] + Flatten(items[1..])
  }

  /** Reads a stride-3 buffer back as triples. */
  function Unflatten<T>(buf: seq<T>): (items: seq<(T, T, T)>)
    requires |buf| % 3 == 0
    ensures 3 * |items| == |buf|
    ensures forall i :: 0 <= i < |items| ==> items[i] == (buf[3 * i], buf[3 * i + 1], buf[3 * i + 2])
  {
    if buf == [] then []
    else [(buf[0], buf[1], buf[2])] + Unflatten(buf[3..])
  }

  /** The slot-wise reading of `Flatten`, for any slot index. */
  lemma {:induction false} FlattenSlot<T>(items: seq<(T, T, T)>, j: nat)
    requires j < 3 * |items|
    ensures Flatten(items)[j] == Component(items[j / 3], j % 3)
  {
    var i, k := j / 3, j % 3;
    assert j == 3 * i + k;
    var buf := Flatten(items);
    if k == 0 {
      assert buf[3 * i] == items[i].0;
    } else if k == 1 {
      assert buf[3 * i + 1] == items[i].1;
    } else {
      assert buf[3 * i + 2] == items[i].2;
    }
  }

  /** Reading the flattened buffer back gives the original triples. */
  lemma {:induction false} UnflattenFlatten<T>(items: seq<(T, T, T)>)
    ensures Unflatten(Flatten(items)) == items
  {
    var back := Unflatten(Flatten(items));
    assert |back| == |items|;
    forall i | 0 <= i < |items|
      ensures back[i] == items[i]
    {
    }
  }

  /** Flattening a buffer read back as triples gives the same buffer: every
      slot is covered by exactly one triple. */
  lemma {:induction false} FlattenUnflatten<T>(buf: seq<T>)
    requires |buf| % 3 == 0
    ensures Flatten(Unflatten(buf)) == buf
  {
    var items := Unflatten(buf);
    var again := Flatten(items);
    forall j | 0 <= j < |buf|
      ensures again[j] == buf[j]
    {
      FlattenSlot(items, j);
      var i, k := j / 3, j % 3;
      assert j == 3 * i + k;
      assert items[i] == (buf[3 * i], buf[3 * i + 1], buf[3 * i + 2]);
    }
  }

  /** The copy loop of `TriangleMeshGeometry::try_new`: writes triple `i` into
      slots `3 * i`, `3 * i + 1` and `3 * i + 2` of a backend buffer that holds
      exactly `3 * |items|` elements.  Every slot is overwritten, so the
      buffer's previous contents do not matter. */
  method FillTriples<T>(buffer: seq<T>, items: seq<(T, T, T)>) returns (filled: seq<T>)
    requires |buffer| == 3 * |items|
    ensures filled == Flatten(items)
    ensures Unflatten(filled) == items
  {
    var buf := new T[|buffer|](j requires 0 <= j < |buffer| => buffer[j]);
    for i := 0 to |items|
      invariant forall p :: 0 <= p < i ==>
                  && buf[3 * p] == items[p].0
                  && buf[3 * p + 1] == items[p].1
                  && buf[3 * p + 2] == items[p].2
    {
      buf[3 * i] := items[i].0;
      buf[3 * i + 1] := items[i].1;
      buf[3 * i + 2] := items[i].2;
    }
    filled := buf[..];
    var expected := Flatten(items);
    forall j | 0 <= j < |filled|
      ensures filled[j] == expected[j]
    {
      var p, k := j / 3, j % 3;
      assert j == 3 * p + k;
      if k == 0 {
        assert filled[3 * p] == items[p].0 == expected[3 * p];
      } else if k == 1 {
        assert filled[3 * p + 1] == items[p].1 == expected[3 * p + 1];
      } else {
        assert filled[3 * p + 2] == items[p].2 == expected[3 * p + 2];
      }
    }
    UnflattenFlatten(items);
  }
}
