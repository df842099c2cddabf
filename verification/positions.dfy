/** Replication coordinates (go-mysql's mysql.Position) and the order that
    Position.Compare puts on them. Compare itself lives in go-mysql, outside
    this repository; the model assumes it orders by file name first, compared
    lexically, and then by offset. */
module Positions {

  newtype uint32 = x: int | 0 <= x < 0x1_0000_0000
  newtype uint64 = x: int | 0 <= x < 0x1_0000_0000_0000_0000

  /** A coordinate in the binlog: the log file's name and a byte offset in it. */
  datatype Position = Position(name: string, pos: uint32)

  /** Go's conversion uint32(x) of a uint64: keeps the low 32 bits. */
  function Truncate32(x: uint64): (r: uint32)
    ensures x as int < 0x1_0000_0000 ==> r as int == x as int
    ensures (x as int - r as int) % 0x1_0000_0000 == 0
  {
    (x as int % 0x1_0000_0000) as uint32
  }

  /** Lexical comparison of two names: -1, 0 or 1. Comparing code points
      lexically orders strings the same way as comparing their UTF-8 bytes,
      which is what Go's string comparison does. */
  function CompareNames(a: string, b: string): (r: int)
    ensures -1 <= r <= 1
    ensures r == 0 <==> a == b
  {
    if a == [] && b == [] then 0
    else if a == [] then -1
    else if b == [] then 1
    else if a[0] < b[0] then -1
    else if b[0] < a[0] then 1
    else
      var r := CompareNames(a[1..], b[1..]);
      assert r == 0 ==> a == [a[0]] + a[1..] == [b[0]] + b[1..] == b;
      r
  }

  /** Position.Compare: the file name decides, and within one file the offset. */
  function Compare(p: Position, q: Position): (r: int)
    ensures -1 <= r <= 1
    ensures r == 0 <==> p == q
    ensures p.name == q.name ==> (r < 0 <==> p.pos < q.pos)
  {
    var c := CompareNames(p.name, q.name);
    if c != 0 then c
    else if p.pos > q.pos then 1
    else if p.pos < q.pos then -1
    else 0
  }

  /** `p.Compare(q) >= 0`: p has reached q. */
  predicate AtLeast(p: Position, q: Position) {
    Compare(p, q) >= 0
  }

  lemma {:induction false} CompareNamesFlip(a: string, b: string)
    ensures CompareNames(b, a) == -CompareNames(a, b)
  {
    if a != [] && b != [] && a[0] == b[0] {
      CompareNamesFlip(a[1..], b[1..]);
    }
  }

  lemma {:induction false} CompareNamesTransitive(a: string, b: string, c: string)
    requires CompareNames(a, b) <= 0 && CompareNames(b, c) <= 0
    ensures CompareNames(a, c) <= 0
  {
    if a != [] && b != [] && c != [] && a[0] == b[0] == c[0] {
      CompareNamesTransitive(a[1..], b[1..], c[1..]);
    }
  }

  /** Compare is antisymmetric: swapping the arguments negates the answer. */
  lemma CompareFlip(p: Position, q: Position)
    ensures Compare(q, p) == -Compare(p, q)
  {
    CompareNamesFlip(p.name, q.name);
  }

  /** AtLeast is a total order on positions, so "caught up with the target"
      is well defined whatever pair of positions is compared. */
  lemma AtLeastTotalOrder(p: Position, q: Position, s: Position)
    ensures AtLeast(p, p)
    ensures AtLeast(p, q) || AtLeast(q, p)
    ensures AtLeast(p, q) && AtLeast(q, p) ==> p == q
    ensures AtLeast(p, q) && AtLeast(q, s) ==> AtLeast(p, s)
  {
    CompareFlip(p, q);
    CompareFlip(q, s);
    CompareFlip(p, s);
    if AtLeast(p, q) && AtLeast(q, s) {
      CompareNamesTransitive(s.name, q.name, p.name);
    }
  }
}
