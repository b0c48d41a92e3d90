/** The rows of a flat image, turned over: as a function, and in place. */
module Rows {

  /** Where row r begins. */
  function Offset(w: nat, r: nat): nat { w * r }

  lemma FirstRow(w: nat)
    ensures Offset(w, 0) == 0
  {
  }

  lemma NextRow(w: nat, r: nat)
    ensures Offset(w, r) + w == Offset(w, r + 1)
  {
  }

  lemma RowsAdd(w: nat, r: nat, q: nat)
    ensures Offset(w, r) + Offset(w, q) == Offset(w, r + q)
  {
  }

  lemma RowBefore(w: nat, r: nat, q: nat)
    ensures r < q ==> Offset(w, r) + w <= Offset(w, q)
  {
    assert r < q ==> w * (r + 1) <= w * q;
  }

  function RowAt<T>(ps: seq<T>, at: nat, w: nat): (row: seq<T>)
    requires at + w <= |ps|
  {
    ps[at..at + w]
  }

  function RowOf<T>(ps: seq<T>, w: nat, h: nat, r: nat): seq<T>
    requires |ps| == Offset(w, h) && r < h
  {
    RowBefore(w, r, h);
    RowAt(ps, Offset(w, r), w)
  }

  lemma FirstRows<T>(a: seq<T>, w: nat, h: nat, r: nat)
    requires |a| == Offset(w, h) && r < h - 1
    ensures Offset(w, h - 1) <= |a| && RowOf(a[..Offset(w, h - 1)], w, h - 1, r) == RowOf(a, w, h, r)
  {
    hide Offset;
    RowBefore(w, h - 1, h);
    RowBefore(w, r, h - 1);
  }

  /** The rows, upside down. */
  function Flipped<T>(ps: seq<T>, w: nat, h: nat): (flipped: seq<T>)
    requires |ps| == Offset(w, h)
    ensures |flipped| == |ps|
    decreases h
  {
    if h == 0 then [] else
      NextRow(w, h - 1);
      var above := Offset(w, h - 1);
      ps[above..] + Flipped(ps[..above], w, h - 1)
  }

  lemma FlippedNext<T>(above: seq<T>, row: seq<T>, w: nat, k: nat)
    requires |above| == Offset(w, k) && |row| == w
    ensures |above + row| == Offset(w, k + 1)
    ensures Flipped(above + row, w, k + 1) == row + Flipped(above, w, k)
  {
    hide Offset;
    NextRow(w, k);
    assert (above + row)[|above|..] == row && (above + row)[..|above|] == above;
  }

  lemma {:induction false} FlippedRow<T>(ps: seq<T>, w: nat, h: nat, r: nat)
    requires |ps| == Offset(w, h) && r < h
    ensures RowOf(Flipped(ps, w, h), w, h, r) == RowOf(ps, w, h, h - 1 - r)
    decreases h
  {
    hide Offset;
    NextRow(w, h - 1);
    FirstRow(w);
    if r > 0 {
      var n, k := Offset(w, h - 1), Offset(w, r - 1);
      var rest := Flipped(ps[..n], w, h - 1);
      NextRow(w, r - 1);
      RowBefore(w, r - 1, h - 1);
      FirstRows(ps, w, h, h - 1 - r);
      FlippedRow(ps[..n], w, h - 1, r - 1);
      assert (ps[n..] + rest)[w + k..w + k + w] == rest[k..k + w];
    }
  }

  lemma {:induction false} SameRows<T>(a: seq<T>, b: seq<T>, w: nat, h: nat)
    requires |a| == |b| == Offset(w, h) && forall r: nat :: r < h ==> RowOf(a, w, h, r) == RowOf(b, w, h, r)
    ensures a == b
    decreases h
  {
    hide Offset;
    if h == 0 {
      FirstRow(w);
    } else {
      var m, n := h - 1, Offset(w, h - 1);
      NextRow(w, m);
      var a', b' := a[..n], b[..n];
      forall r: nat | r < m ensures RowOf(a', w, m, r) == RowOf(b', w, m, r) {
        FirstRows(a, w, h, r);
        FirstRows(b, w, h, r);
      }
      SameRows(a', b', w, m);
      assert RowOf(a, w, h, h - 1) == a[n..] && RowOf(b, w, h, h - 1) == b[n..];
      assert a == a[..n] + a[n..] && b == b[..n] + b[n..];
    }
  }

  /** Turned over twice, the rows are as they were. */
  lemma FlippedTwice<T>(ps: seq<T>, w: nat, h: nat)
    requires |ps| == Offset(w, h)
    ensures Flipped(Flipped(ps, w, h), w, h) == ps
  {
    hide Offset, Flipped, RowOf;
    var flipped := Flipped(ps, w, h);
    forall r: nat | r < h ensures RowOf(Flipped(flipped, w, h), w, h, r) == RowOf(ps, w, h, r) {
      FlippedRow(flipped, w, h, r);
      FlippedRow(ps, w, h, h - 1 - r);
    }
    SameRows(Flipped(flipped, w, h), ps, w, h);
  }

  // ----- In place -----

  /** System.arraycopy. */
  method ArrayCopy<T>(src: array<T>, from: nat, dest: array<T>, to: nat, n: nat)
    requires from + n <= src.Length && to + n <= dest.Length
    modifies dest
    ensures dest[..] == old(dest[..to]) + old(src[from..from + n]) + old(dest[to + n..])
  {
    forall i | 0 <= i < n {
      dest[to + i] := src[from + i];
    }
  }

  /** Two rows change places. */
  function Exchanged<T>(ps: seq<T>, w: nat, a: nat, c: nat): (r: seq<T>)
    requires a + w <= c && c + w <= |ps|
    ensures |r| == |ps|
  {
    ps[..a] + ps[c..c + w] + ps[a + w..c] + ps[a..a + w] + ps[c + w..]
  }

  lemma TwoCopies<T>(was: seq<T>, mid: seq<T>, w: nat, a: nat, c: nat)
    requires a + w <= c && c + w <= |was| && mid == was[..a] + was[c..c + w] + was[a + w..]
    ensures mid[..c] + was[a..a + w] + mid[c + w..] == Exchanged(was, w, a, c)
  {
    assert mid[..c] == was[..a] + was[c..c + w] + was[a + w..c];
    assert mid[c + w..] == was[c + w..];
  }

  /** The three copies by which two rows change places. */
  method SwapRows<T>(px: array<T>, temp: array<T>, a: nat, c: nat)
    requires px != temp && a + temp.Length <= c && c + temp.Length <= px.Length
    modifies px, temp
    ensures px[..] == Exchanged(old(px[..]), temp.Length, a, c)
  {
    hide Exchanged;
    var w := temp.Length;
    ghost var was := px[..];
    ArrayCopy(px, a, temp, 0, w);
    assert temp[..] == was[a..a + w];
    ArrayCopy(px, c, px, a, w);
    ghost var mid := px[..];
    TwoCopies(was, mid, w, a, c);
    ArrayCopy(temp, 0, px, c, w);
  }

  /** The row that goes to row r when y and z change places. */
  function Other(r: nat, y: nat, z: nat): nat { if r == y then z else if r == z then y else r }

  lemma ExchangedAt<T>(ps: seq<T>, w: nat, a: nat, c: nat, at: nat)
    requires a + w <= c && c + w <= |ps| && at + w <= |ps|
    requires at + w <= a || at == a || (a + w <= at && at + w <= c) || at == c || c + w <= at
    ensures w > 0 ==> RowAt(Exchanged(ps, w, a, c), at, w) == RowAt(ps, Other(at, a, c), w)
  {
    var r := Exchanged(ps, w, a, c);
    forall i | at <= i < at + w
      ensures r[i] == ps[if a <= i < a + w then i - a + c else if c <= i < c + w then i - c + a else i]
    {
    }
  }

  lemma ExchangedRow<T>(ps: seq<T>, w: nat, h: nat, y: nat, z: nat, r: nat)
    requires |ps| == Offset(w, h) && y < z < h && r < h
    ensures Offset(w, y) + w <= Offset(w, z) && Offset(w, z) + w <= |ps|
    ensures RowOf(Exchanged(ps, w, Offset(w, y), Offset(w, z)), w, h, r) == RowOf(ps, w, h, Other(r, y, z))
  {
    hide Offset, Exchanged;
    RowBefore(w, y, z);
    RowBefore(w, z, h);
    RowBefore(w, r, y);
    RowBefore(w, r, z);
    RowBefore(w, y, r);
    RowBefore(w, z, r);
    RowBefore(w, r, h);
    ExchangedAt(ps, w, Offset(w, y), Offset(w, z), Offset(w, r));
  }

  /** Of was, the rows above y and as many below have changed places. */
  ghost predicate FlippedTo<T>(ps: seq<T>, was: seq<T>, w: nat, h: nat, y: nat)
    requires |was| == Offset(w, h)
  {
    && |ps| == |was|
    && forall r: nat :: r < h ==>
      RowOf(ps, w, h, r) == RowOf(was, w, h, if r < y || h - y <= r then h - 1 - r else r)
  }

  lemma StartFlipped<T>(ps: seq<T>, w: nat, h: nat)
    requires |ps| == Offset(w, h)
    ensures FlippedTo(ps, ps, w, h, 0)
  {
  }

  lemma NextFlipped<T>(ps: seq<T>, was: seq<T>, w: nat, h: nat, y: nat, z: nat)
    requires |was| == Offset(w, h) && FlippedTo(ps, was, w, h, y) && y < z == h - 1 - y
    ensures Offset(w, y) + w <= Offset(w, z) && Offset(w, z) + w <= |ps|
    ensures FlippedTo(Exchanged(ps, w, Offset(w, y), Offset(w, z)), was, w, h, y + 1)
  {
    hide Offset, RowOf, Exchanged;
    ExchangedRow(ps, w, h, y, z, y);
    forall r: nat | r < h
      ensures RowOf(Exchanged(ps, w, Offset(w, y), Offset(w, z)), w, h, r)
           == RowOf(was, w, h, if r < y + 1 || h - (y + 1) <= r then h - 1 - r else r)
    {
      ExchangedRow(ps, w, h, y, z, r);
    }
  }

  lemma RowIsFlipped<T>(ps: seq<T>, was: seq<T>, w: nat, h: nat, r: nat)
    requires |was| == Offset(w, h) && FlippedTo(ps, was, w, h, h / 2) && r < h
    ensures RowOf(ps, w, h, r) == RowOf(was, w, h, h - 1 - r)
  {
    hide Offset, RowOf;
    assert r < h / 2 || h - h / 2 <= r || r == h - 1 - r;
  }

  lemma AllFlipped<T>(ps: seq<T>, was: seq<T>, w: nat, h: nat)
    requires |was| == Offset(w, h) && FlippedTo(ps, was, w, h, h / 2)
    ensures ps == Flipped(was, w, h)
  {
    hide Offset, RowOf, Flipped, FlippedTo;
    SameSize(ps, was, w, h, h / 2);
    var flipped := Flipped(was, w, h);
    forall r: nat | r < h ensures RowOf(ps, w, h, r) == RowOf(flipped, w, h, r) {
      RowIsFlipped(ps, was, w, h, r);
      FlippedRow(was, w, h, r);
    }
    SameRows(ps, flipped, w, h);
  }

  lemma SameSize<T>(ps: seq<T>, was: seq<T>, w: nat, h: nat, y: nat)
    requires |was| == Offset(w, h) && FlippedTo(ps, was, w, h, y)
    ensures |ps| == |was|
  {
  }

  /** Every row above the middle changes places with the row as far below. */
  method FlipRows<T(0)>(px: array<T>, w: nat, h: nat)
    requires px.Length == Offset(w, h)
    modifies px
    ensures px[..] == Flipped(old(px[..]), w, h)
  {
    hide FlippedTo, Exchanged, Flipped;
    var temp := new T[w];
    ghost var was := px[..];
    StartFlipped(was, w, h);
    var y := 0;
    while y < h / 2
      invariant y <= h / 2 && FlippedTo(px[..], was, w, h, y)
    {
      var z := h - 1 - y;
      NextFlipped(px[..], was, w, h, y, z);
      SwapRows(px, temp, y * w, z * w);
      y := y + 1;
    }
    AllFlipped(px[..], was, w, h);
  }
}
