/** The bytes of a pixel of core/methods/demo/PImage.java, packed into an int; and the cells of a flat image. */
module Pixels {
  import opened Arithmetic
  import opened Ints

  // ----- Packed bytes -----

  function Red(c: int): int { c / 256 / 256 % 256 }

  function Green(c: int): int { c / 256 % 256 }

  function Blue(c: int): int { c % 256 }

  /** Bitwise or of two's complement numbers. */
  function Or(a: int, b: int): int
    decreases Size(a) + Size(b)
  {
    if a == 0 || b == -1 then b
    else if b == 0 || a == -1 then a
    else 2 * Or(a / 2, b / 2) + if a % 2 == 1 || b % 2 == 1 then 1 else 0
  }

  /** It works on each bit by itself. */
  lemma OrBits(a: int, b: int)
    ensures (Or(a, b) % 2 == 1 <==> a % 2 == 1 || b % 2 == 1) && Or(a, b) / 2 == Or(a / 2, b / 2)
  {
  }

  function Size(a: int): nat { if a < 0 then -a else a }

  lemma {:induction false} OrAdds(a: int, b: nat, k: nat)
    requires b < Pow2(k)
    ensures Or(a * Pow2(k), b) == a * Pow2(k) + b
    decreases k
  {
    if k > 0 {
      var n := a * Pow2(k);
      assert n == 2 * (a * Pow2(k - 1));
      OrAdds(a, b / 2, k - 1);
    }
  }

  /** 0xff000000 | r << 16 | g << 8 | b. */
  function Pack(r: int, g: int, b: int): int {
    Or(Or(Or(-1 * 0x1000000, Wrap(r * 0x10000)), Wrap(g * 0x100)), b)
  }

  predicate IsByte(v: int) { 0 <= v < 256 }

  lemma Powers()
    ensures Pow2(8) == 0x100 && Pow2(16) == 0x10000 && Pow2(24) == 0x1000000
  {
    assert Pow2(12) == 0x1000;
    assert Pow2(20) == 0x10_0000;
  }

  lemma Or24(a: int, b: nat)
    requires b < 0x1000000
    ensures Or(a * 0x1000000, b) == a * 0x1000000 + b
  {
    Powers();
    OrAdds(a, b, 24);
  }

  lemma Or16(a: int, b: nat)
    requires b < 0x10000
    ensures Or(a * 0x10000, b) == a * 0x10000 + b
  {
    Powers();
    OrAdds(a, b, 16);
  }

  lemma Or8(a: int, b: nat)
    requires b < 0x100
    ensures Or(a * 0x100, b) == a * 0x100 + b
  {
    Powers();
    OrAdds(a, b, 8);
  }

  /** A number in base 256. */
  function Digits(a: int, r: int, g: int, b: int): int { a * 0x1000000 + r * 0x10000 + g * 0x100 + b }

  lemma OrDigits(a: int, r: int, g: int, b: int)
    requires IsByte(r) && IsByte(g) && IsByte(b)
    ensures Or(Or(Or(a * 0x1000000, r * 0x10000), g * 0x100), b) == Digits(a, r, g, b)
  {
    var x, y := a * 256 + r, (a * 256 + r) * 256 + g;
    Or24(a, r * 0x10000);
    assert Or(a * 0x1000000, r * 0x10000) == x * 0x10000;
    Or16(x, g * 0x100);
    assert Or(x * 0x10000, g * 0x100) == y * 0x100;
    Or8(y, b);
  }

  lemma LastDigit(a: int, b: int)
    requires IsByte(b)
    ensures (a * 256 + b) / 256 == a && (a * 256 + b) % 256 == b
  {
  }

  lemma DigitsRead(a: int, r: int, g: int, b: int)
    requires IsByte(r) && IsByte(g) && IsByte(b)
    ensures var c := Digits(a, r, g, b); Red(c) == r && Green(c) == g && Blue(c) == b && c / 256 / 256 / 256 == a
  {
    LastDigit((a * 256 + r) * 256 + g, b);
    LastDigit(a * 256 + r, g);
    LastDigit(a, r);
  }

  lemma PackDigits(a: int, r: int, g: int, b: int)
    requires a == -1 && IsByte(r) && IsByte(g) && IsByte(b)
    ensures Pack(r, g, b) == Digits(a, r, g, b)
  {
    OrDigits(a, r, g, b);
  }

  /** Packed bytes do not run into each other, and the pixel is opaque. */
  lemma PackKeeps(r: int, g: int, b: int)
    requires IsByte(r) && IsByte(g) && IsByte(b)
    ensures Pack(r, g, b) == Digits(-1, r, g, b)
    ensures Red(Pack(r, g, b)) == r && Green(Pack(r, g, b)) == g && Blue(Pack(r, g, b)) == b
  {
    PackDigits(-1, r, g, b);
    DigitsRead(-1, r, g, b);
  }

  // ----- Cells of a flat image -----

  function At(cells: seq<int>, i: nat): int { if i < |cells| then cells[i] else 0 }

  /** Where the cell (x, y) is. */
  function Cell(width: nat, x: nat, y: nat): nat { y * width + x }

  lemma RowInside(width: nat, height: nat, y: nat)
    requires y < height
    ensures Cell(width, 0, y) + width == Cell(width, 0, y + 1) <= width * height
  {
    assert (y + 1) * width <= height * width;
  }

  lemma CellBefore(width: nat, x: nat, y: nat, yy: nat)
    requires x < width && y < yy
    ensures Cell(width, x, y) < Cell(width, 0, yy)
  {
    assert (y + 1) * width <= yy * width;
  }

  lemma CellsBefore(width: nat, yy: nat)
    ensures forall x: nat, y: nat :: x < width && y < yy ==> Cell(width, x, y) < Cell(width, 0, yy)
  {
    forall x: nat, y: nat | x < width && y < yy ensures Cell(width, x, y) < Cell(width, 0, yy) {
      CellBefore(width, x, y, yy);
    }
  }

  lemma CellInside(width: nat, height: nat, x: nat, y: nat)
    requires x < width && y < height
    ensures Cell(width, x, y) < width * height
  {
    RowInside(width, height, y);
  }

  lemma CellOf(width: nat, height: nat, i: nat)
    requires i < width * height
    ensures width > 0 && i / width < height && Cell(width, i % width, i / width) == i
  {
    assert width > 0;
    assert i == i / width * width + i % width;
    Cancel(i / width, height, width);
  }

  lemma CellBelow(width: nat, x: nat, q: nat)
    ensures Cell(width, x, q) + width == Cell(width, x, q + 1)
  {
  }
}
