/** The raw bitmap writer of one map tool and the reader of another. */
module Pbm {
  import opened Torus

  /** The bit of column k in its byte, most significant first. */
  function Mask(k: nat): bv8
    requires k < 8
  {
    match k
    case 0 => 0x80
    case 1 => 0x40
    case 2 => 0x20
    case 3 => 0x10
    case 4 => 0x08
    case 5 => 0x04
    case 6 => 0x02
    case _ => 0x01
  }

  lemma MaskIs(k: nat)
    requires k < 8
    ensures Mask(k) == (0x80 as bv8) >> k
  {}

  /** Up to eight pixels in a byte, the rest zero. */
  function Pack(bits: seq<bool>): bv8
    requires |bits| <= 8
  {
    if bits == [] then 0
    else Pack(bits[..|bits| - 1]) | if bits[|bits| - 1] then Mask(|bits| - 1) else 0
  }

  predicate Test(c: bv8, k: nat)
    requires k < 8
  {
    c & Mask(k) == Mask(k)
  }

  lemma MasksApart(k: nat, j: nat)
    requires k < 8 && j < 8 && k != j
    ensures Mask(k) & Mask(j) == 0 && Mask(k) != 0
  {}

  lemma OrApart(v: bv8, a: bv8, m: bv8)
    requires a & m == 0
    ensures (v | a) & m == v & m
  {}

  lemma {:induction false} PackedBit(bits: seq<bool>, k: nat)
    requires |bits| <= 8 && k < 8
    ensures Pack(bits) & Mask(k) == if k < |bits| && bits[k] then Mask(k) else 0
  {
    if bits != [] {
      var n := |bits| - 1;
      PackedBit(bits[..n], k);
      if k != n {
        MasksApart(n, k);
        OrApart(Pack(bits[..n]), if bits[n] then Mask(n) else 0, Mask(k));
      } else {
        OrSame(Pack(bits[..n]), Mask(n));
      }
    }
  }

  lemma OrSame(v: bv8, m: bv8)
    requires v & m == 0
    ensures (v | m) & m == m && (v | 0) & m == 0
  {}

  function Least(a: int, b: int): int { if a < b then a else b }

  /** The bytes of one row: eight pixels each, the last byte padded. */
  function RowBytes(row: seq<bool>): seq<bv8> {
    if row == [] then [] else [Pack(row[..Least(8, |row|)])] + RowBytes(row[Least(8, |row|)..])
  }

  function Body(rows: seq<seq<bool>>): seq<bv8> {
    if rows == [] then [] else Body(rows[..|rows| - 1]) + RowBytes(rows[|rows| - 1])
  }

  /** Bytes per row. */
  function RowSize(width: int): int { (width + 7) / 8 }

  lemma {:induction false} RowBytesSize(row: seq<bool>)
    ensures |RowBytes(row)| == RowSize(|row|)
  {
    if row != [] { RowBytesSize(row[Least(8, |row|)..]); }
  }

  lemma {:induction false} BodySizeBy(rows: seq<seq<bool>>, size: int)
    requires forall row :: row in rows ==> |RowBytes(row)| == size
    ensures |Body(rows)| == |rows| * size
  {
    if rows != [] {
      BodySizeBy(rows[..|rows| - 1], size);
      assert rows[|rows| - 1] in rows;
      assert (|rows| - 1) * size == |rows| * size - size;
    }
  }

  /** The body has exactly the bytes the header promises. */
  lemma BodySize(rows: seq<seq<bool>>, width: int)
    requires forall row :: row in rows ==> |row| == width
    ensures |Body(rows)| == |rows| * RowSize(width)
  {
    forall row | row in rows ensures |RowBytes(row)| == RowSize(width) { RowBytesSize(row); }
    BodySizeBy(rows, RowSize(width));
  }

  lemma {:induction false} RowBytesExtend(row: seq<bool>, q: nat, m: nat)
    requires 8 * q < m <= 8 * q + 8 && m <= |row|
    ensures RowBytes(row[..m]) == RowBytes(row[..8 * q]) + [Pack(row[8 * q..m])]
    decreases q
  {
    hide Pack;
    if q == 0 {
      assert row[..m][..Least(8, m)] == row[0..m] && row[..m][Least(8, m)..] == [];
    } else {
      var n := 8 * q;
      RowBytesExtend(row[8..], q - 1, m - 8);
      assert row[..m][8..] == row[8..][..m - 8] && row[..n][8..] == row[8..][..n - 8] &&
             row[8..][n - 8..m - 8] == row[n..m];
      assert row[..m][..8] == row[..n][..8];
    }
  }

  /** The writer's loops over one picture. */
  method WriteBody(rows: seq<seq<bool>>) returns (out: seq<bv8>)
    ensures out == Body(rows)
  {
    out := [];
    for y := 0 to |rows|
      invariant out == Body(rows[..y])
    {
      var bytes := WriteRow(rows[y]);
      out := out + bytes;
      assert rows[..y + 1][..y] == rows[..y];
    }
    assert rows[..|rows|] == rows;
  }

  method WriteRow(row: seq<bool>) returns (out: seq<bv8>)
    ensures out == RowBytes(row)
  {
    hide Mask, Pack, RowBytes;
    out := [];
    var value: bv8, i: bv8 := 0, 0x80;
    ghost var k, q := 0, 0;
    RowStart();
    for x := 0 to |row|
      invariant 0 <= k < 8 && x == 8 * q + k && i == Mask(k) && value == Pack(row[x - k..x])
      invariant q >= 0 && out == RowBytes(row[..8 * q])
    {
      PackNext(row, x - k, x);
      if row[x] { value := value | i; }
      NextMask(k);
      i := i >> 1;
      k := k + 1;
      if i == 0 {
        RowBytesExtend(row, q, x + 1);
        out := out + [value];
        i, value, k, q := 0x80, 0, 0, q + 1;
        assert row[x + 1..x + 1] == [];
      }
    }
    FirstMask(k);
    if i != 0x80 {
      RowBytesExtend(row, q, |row|);
      out := out + [value];
    }
    assert row[..|row|] == row;
  }

  lemma RowStart()
    ensures Pack([]) == 0 && RowBytes([]) == [] && Mask(0) == 0x80
  {}

  lemma PackNext(row: seq<bool>, a: int, x: int)
    requires 0 <= a <= x < |row| && x - a < 8
    ensures Pack(row[a..x + 1]) == if row[x] then Pack(row[a..x]) | Mask(x - a) else Pack(row[a..x])
  {
    hide Mask;
    assert row[a..x + 1][..x - a] == row[a..x];
    OrNothing(Pack(row[a..x]));
  }

  lemma OrNothing(v: bv8)
    ensures v | 0 == v
  {}

  lemma NextMask(k: nat)
    requires k < 8
    ensures Mask(k) >> 1 == if k < 7 then Mask(k + 1) else 0
    ensures Mask(k) != 0 && (k < 7 ==> Mask(k) >> 1 != 0)
  {}

  lemma FirstMask(k: nat)
    requires k < 8
    ensures Mask(k) == 0x80 <==> k == 0
  {}

  // ----- Reading

  function Dot(on: bool): char { if on then 'x' else ' ' }

  /** The first n bits of a byte, drawn. */
  function Drawn(c: bv8, n: nat): (s: string)
    requires n <= 8
    ensures |s| == n
  {
    if n == 0 then "" else Drawn(c, n - 1) + [Dot(Test(c, n - 1))]
  }

  /** What is printed for the bytes when column col of a row has been reached. */
  function ReadFrom(bytes: seq<bv8>, width: nat, col: nat): string
    requires col < width
  {
    if bytes == [] then ""
    else
      var n := Least(8, width - col);
      if col + n == width then Drawn(bytes[0], n) + "\n" + ReadFrom(bytes[1..], width, 0)
      else Drawn(bytes[0], n) + ReadFrom(bytes[1..], width, col + n)
  }

  /** The reader's inner loop: one byte, left when a row is complete. */
  method DrawByte(c: bv8, width: nat, count0: nat) returns (out: string, count: nat)
    requires width > 0
    ensures var col := count0 % width; var n := Least(8, width - col);
            out == Drawn(c, n) + (if col + n == width then "\n" else "") &&
            count % width == if col + n == width then 0 else col + n
  {
    hide Mask, Drawn;
    out, count := "", count0;
    ghost var col := count0 % width;
    var k, mask: bv8 := 0, 128;
    DrawnNone(c);
    while mask > 0
      invariant 0 <= k <= 8 && k <= width - col && mask == if k < 8 then Mask(k) else 0
      invariant k < 8 ==> k < width - col
      invariant out == Drawn(c, k) && count % width == if col + k == width then 0 else col + k
      invariant col + k < width && (mask == 0 <==> k == 8)
      decreases 8 - k
    {
      DrawnNext(c, k);
      if c & mask == mask { out := out + "x"; } else { out := out + " "; }
      NextCount(count, col + k, width);
      NextMask(k);
      count := count + 1;
      if count % width == 0 {
        out := out + "\n";
        return;
      }
      k, mask := k + 1, mask >> 1;
    }
    assert Drawn(c, 8) + "" == Drawn(c, 8);
  }

  lemma DrawnNone(c: bv8)
    ensures Drawn(c, 0) == "" && Mask(0) == 128
  {}

  lemma DrawnNext(c: bv8, k: nat)
    requires k < 8
    ensures Drawn(c, k + 1) == Drawn(c, k) + (if c & Mask(k) == Mask(k) then "x" else " ")
  {}

  lemma NextCount(count: nat, col: int, width: nat)
    requires 0 <= col < width && count % width == col
    ensures (count + 1) % width == if col + 1 == width then 0 else col + 1
  {
    ModPlus(count, 1, width);
    if col + 1 == width { ModUnique(width, width, 1, 0); } else { ModUnique(col + 1, width, 0, col + 1); }
  }

  /** The reader's loop over the input. */
  method ProcessBitPacked(bytes: seq<bv8>, width: nat) returns (out: string)
    requires width > 0
    ensures out == "\n" + ReadFrom(bytes, width, 0)
  {
    hide Drawn;
    out := "\n";
    var count: nat := 0;
    for at := 0 to |bytes|
      invariant out + ReadFrom(bytes[at..], width, count % width) == "\n" + ReadFrom(bytes, width, 0)
    {
      ghost var col := count % width;
      assert bytes[at..][0] == bytes[at] && bytes[at..][1..] == bytes[at + 1..];
      var text, next := DrawByte(bytes[at], width, count);
      assert ReadFrom(bytes[at..], width, col) == text + ReadFrom(bytes[at + 1..], width, next % width);
      count := next;
      out := out + text;
    }
    assert bytes[|bytes|..] == [];
  }

  function Text(row: seq<bool>): string { seq(|row|, i requires 0 <= i < |row| => Dot(row[i])) }

  /** The picture as lines. */
  function Lines(rows: seq<seq<bool>>): string {
    if rows == [] then "" else Text(rows[0]) + "\n" + Lines(rows[1..])
  }

  lemma {:induction false} DrawnPacked(bits: seq<bool>, n: nat)
    requires n <= |bits| <= 8
    ensures Drawn(Pack(bits), n) == Text(bits[..n])
  {
    if n > 0 {
      DrawnPacked(bits, n - 1);
      PackedBit(bits, n - 1);
      NextMask(n - 1);
      assert Text(bits[..n]) == Text(bits[..n - 1]) + [Dot(bits[n - 1])];
    }
  }

  /** A row is drawn again, whatever follows it: the padding is passed over. */
  lemma {:induction false} RowBack(row: seq<bool>, width: nat, col: nat, more: seq<bv8>)
    requires col < width && |row| == width - col
    ensures ReadFrom(RowBytes(row) + more, width, col) == Text(row) + "\n" + ReadFrom(more, width, 0)
    decreases |row|
  {
    hide Pack, Drawn;
    var n := Least(8, |row|);
    var bytes := RowBytes(row) + more;
    assert bytes[0] == Pack(row[..n]) && bytes[1..] == RowBytes(row[n..]) + more;
    DrawnPacked(row[..n], n);
    assert row[..n][..n] == row[..n];
    if n < |row| {
      RowBack(row[n..], width, col + n, more);
      assert Text(row) == Text(row[..n]) + Text(row[n..]);
    } else {
      assert row[..n] == row && RowBytes(row[n..]) == [] && [] + more == more;
    }
  }

  lemma {:induction false} BodyFirst(rows: seq<seq<bool>>)
    requires rows != []
    ensures Body(rows) == RowBytes(rows[0]) + Body(rows[1..])
  {
    if |rows| > 1 {
      BodyFirst(rows[..|rows| - 1]);
      assert rows[1..][..|rows| - 2] == rows[..|rows| - 1][1..];
    }
  }

  /** Reading what was written gives the picture back, for every width. */
  lemma {:induction false} PictureBack(rows: seq<seq<bool>>, width: nat)
    requires width > 0 && forall row :: row in rows ==> |row| == width
    ensures ReadFrom(Body(rows), width, 0) == Lines(rows)
  {
    if rows != [] {
      BodyFirst(rows);
      RowBack(rows[0], width, 0, Body(rows[1..]));
      PictureBack(rows[1..], width);
    }
  }
}
