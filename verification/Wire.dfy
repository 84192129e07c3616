/** The recording file: chunks of eight sections, each a length and big-endian elements. */
module Wire {
  import opened Options

  type Byte = b: int | 0 <= b < 256

  /** The element types of the eight buffers. */
  datatype Kind = Chars | Ints | Shorts | Errnos

  const KINDS: seq<Kind> := [Ints, Errnos, Shorts, Chars, Chars, Ints, Chars, Ints]
  const SIZES: seq<int> := [5000, 5000, 25000, 200000, 50000, 2000, 5000, 2000]
  const THRESHOLDS: seq<int> := [4000, 4000, 23000, 100000, 40000, 1000, 4000, 100]
  const TYPES := 8

  const INTS := 0
  const ERRNOS := 1
  const SHORTS := 2
  const DATA := 3
  const SCHED := 4

  /** The contents of the eight buffers, as elements. */
  type Bufs = b: seq<seq<int>> | |b| == TYPES witness [[], [], [], [], [], [], [], []]

  function Unit(k: Kind): int {
    match k
    case Chars => 1
    case Shorts => 2
    case _ => 4
  }

  predicate InKind(k: Kind, v: int) {
    match k
    case Chars => 0 <= v < 256
    case Shorts => -0x8000 <= v < 0x8000
    case _ => -0x8000_0000 <= v < 0x8000_0000
  }

  /** How error numbers are written and read back. */
  datatype Codec = Codec(enc: int -> int, dec: int -> Option<int>)

  ghost predicate Sane(c: Codec) { forall e :: InKind(Ints, e) ==> InKind(Ints, c.enc(e)) }

  // ----- Elements

  function Unsigned(v: int, bytes: int): int
    requires bytes in {1, 2, 4}
  {
    if v >= 0 then v else v + (if bytes == 1 then 0x100 else if bytes == 2 then 0x1_0000 else 0x1_0000_0000)
  }

  function Signed(v: int, bytes: int): int
    requires bytes in {1, 2, 4}
  {
    if bytes == 2 && v >= 0x8000 then v - 0x1_0000
    else if bytes == 4 && v >= 0x8000_0000 then v - 0x1_0000_0000
    else v
  }

  /** Network byte order. */
  function Big(v: int, bytes: int): (r: seq<Byte>)
    requires bytes in {1, 2, 4} && 0 <= v && (bytes == 1 ==> v < 0x100) && (bytes == 2 ==> v < 0x1_0000) &&
             (bytes == 4 ==> v < 0x1_0000_0000)
    ensures |r| == bytes
  {
    if bytes == 1 then [v]
    else if bytes == 2 then [v / 256, v % 256]
    else [v / 0x100_0000, (v / 0x1_0000) % 256, (v / 256) % 256, v % 256]
  }

  function UnBig(r: seq<Byte>): int
    requires |r| in {1, 2, 4}
  {
    if |r| == 1 then r[0]
    else if |r| == 2 then 256 * (r[0] as int) + r[1] as int
    else 0x100_0000 * (r[0] as int) + 0x1_0000 * (r[1] as int) + 256 * (r[2] as int) + r[3] as int
  }

  lemma BigBack(v: int, bytes: int)
    requires bytes in {1, 2, 4} && 0 <= v && (bytes == 1 ==> v < 0x100) && (bytes == 2 ==> v < 0x1_0000) &&
             (bytes == 4 ==> v < 0x1_0000_0000)
    ensures UnBig(Big(v, bytes)) == v
  {
    if bytes == 4 {
      assert v == 256 * (v / 256) + v % 256;
      assert v / 256 == 256 * ((v / 256) / 256) + (v / 256) % 256;
      assert (v / 256) / 256 == v / 0x1_0000;
      assert v / 0x1_0000 == 256 * ((v / 0x1_0000) / 256) + (v / 0x1_0000) % 256;
      assert (v / 0x1_0000) / 256 == v / 0x100_0000;
    }
  }

  /** The number written with these digits to base 256, the most significant first. */
  function Digits(r: seq<Byte>): int {
    if r == [] then 0 else 256 * Digits(r[..|r| - 1]) + r[|r| - 1] as int
  }

  /** Bytes are read in the network's order, the most significant first. */
  lemma {:induction false} ReadInOrder(r: seq<Byte>)
    requires |r| in {1, 2, 4}
    ensures UnBig(r) == Digits(r)
  {
    assert Digits([]) == 0 && r[..1][..0] == [] && Digits(r[..1]) == r[0] as int;
    if |r| >= 2 {
      assert r[..2][..1] == r[..1] && Digits(r[..2]) == 256 * Digits(r[..1]) + r[1] as int;
    }
    if |r| == 4 {
      assert r[..3][..2] == r[..2] && Digits(r[..3]) == 256 * Digits(r[..2]) + r[2] as int;
      assert r[..4] == r && r[..4][..3] == r[..3];
    } else {
      assert r[..|r|] == r;
    }
  }

  /** Conversion to the file's form and order; every error number goes through the codec. */
  function Element(c: Codec, k: Kind, v: int): (r: seq<Byte>)
    requires InKind(k, v) && (k == Errnos ==> InKind(Ints, c.enc(v)))
    ensures |r| == Unit(k)
  {
    var u := if k == Errnos then c.enc(v) else v;
    Big(Unsigned(u, Unit(k)), Unit(k))
  }

  function UnElement(c: Codec, k: Kind, r: seq<Byte>): Option<int>
    requires |r| == Unit(k)
  {
    var v := Signed(UnBig(r), Unit(k));
    if k == Errnos then c.dec(v) else Some(v)
  }

  /** The codec gives back this element. */
  predicate Kept(c: Codec, k: Kind, v: int) { k == Errnos ==> c.dec(c.enc(v)) == Some(v) }

  /** Error numbers written as they are. */
  function Plain(): Codec { Codec((e: int) => e, (v: int) => Some(v)) }

  lemma ElementBack(c: Codec, k: Kind, v: int)
    requires InKind(k, v) && (k == Errnos ==> InKind(Ints, c.enc(v)))
    ensures UnElement(c, k, Element(c, k, v)) == Some(v) <==> Kept(c, k, v)
  {
    var u := if k == Errnos then c.enc(v) else v;
    BigBack(Unsigned(u, Unit(k)), Unit(k));
    assert Signed(Unsigned(u, Unit(k)), Unit(k)) == u;
  }

  // ----- Sections

  predicate GoodElements(k: Kind, vs: seq<int>) { forall v :: v in vs ==> InKind(k, v) }

  function Elements(c: Codec, k: Kind, vs: seq<int>): (r: seq<Byte>)
    requires GoodElements(k, vs) && (k == Errnos ==> forall v :: v in vs ==> InKind(Ints, c.enc(v)))
    ensures |r| == Unit(k) * |vs|
  {
    if vs == [] then [] else Element(c, k, vs[0]) + Elements(c, k, vs[1..])
  }

  function UnElements(c: Codec, k: Kind, r: seq<Byte>): Option<seq<int>>
    decreases |r|
  {
    if |r| < Unit(k) then Some([])
    else
      var first, rest := UnElement(c, k, r[..Unit(k)]), UnElements(c, k, r[Unit(k)..]);
      if first.None? || rest.None? then None else Some([first.value] + rest.value)
  }

  lemma {:induction false} ElementsBack(c: Codec, k: Kind, vs: seq<int>)
    requires GoodElements(k, vs) && (k == Errnos ==> forall v :: v in vs ==> InKind(Ints, c.enc(v)))
    ensures UnElements(c, k, Elements(c, k, vs)) == Some(vs) <==> forall v :: v in vs ==> Kept(c, k, v)
    ensures var r := UnElements(c, k, Elements(c, k, vs)); r.Some? ==> |r.value| == |vs|
  {
    if vs != [] {
      var a, b := Element(c, k, vs[0]), Elements(c, k, vs[1..]);
      assert (a + b)[..Unit(k)] == a && (a + b)[Unit(k)..] == b;
      ElementBack(c, k, vs[0]);
      ElementsBack(c, k, vs[1..]);
      assert vs == [vs[0]] + vs[1..];
      assert forall v :: v in vs <==> v == vs[0] || v in vs[1..];
    }
  }

  predicate Fits(k: Kind, size: int, vs: seq<int>) { Unit(k) * |vs| <= size - 4 }

  /** Length in bytes, then the elements. */
  function Section(c: Codec, k: Kind, vs: seq<int>): seq<Byte>
    requires GoodElements(k, vs) && (k == Errnos ==> forall v :: v in vs ==> InKind(Ints, c.enc(v)))
    requires Unit(k) * |vs| < 0x1_0000_0000
  {
    Big(Unit(k) * |vs|, 4) + Elements(c, k, vs)
  }

  /** Reads one section; None where the source gives up. */
  function UnSection(c: Codec, k: Kind, size: int, file: seq<Byte>): (r: Option<(seq<int>, seq<Byte>)>)
    ensures r.Some? ==> |r.value.1| < |file|
  {
    if |file| < 4 then None
    else
      var len := UnBig(file[..4]);
      if len > size - 4 || len > |file| - 4 then None
      else
        var vs := UnElements(c, k, file[4..4 + len]);
        if vs.None? then None else Some((vs.value, file[4 + len..]))
  }

  lemma SectionBack(c: Codec, k: Kind, size: int, vs: seq<int>, rest: seq<Byte>)
    requires GoodElements(k, vs) && (k == Errnos ==> forall v :: v in vs ==> InKind(Ints, c.enc(v)))
    requires Fits(k, size, vs) && size < 0x1_0000_0000
    ensures var r := UnSection(c, k, size, Section(c, k, vs) + rest);
            && (r == Some((vs, rest)) <==> forall v :: v in vs ==> Kept(c, k, v))
            && (r.Some? ==> r.value.1 == rest && |r.value.0| == |vs|)
  {
    var len := Unit(k) * |vs|;
    BigBack(len, 4);
    var file := Section(c, k, vs) + rest;
    assert file[..4] == Big(len, 4);
    assert file[4..4 + len] == Elements(c, k, vs);
    assert file[4 + len..] == rest;
    ElementsBack(c, k, vs);
  }

  // ----- Chunks

  ghost predicate GoodBufs(c: Codec, b: Bufs) {
    Sane(c) && forall i :: 0 <= i < TYPES ==> GoodElements(KINDS[i], b[i])
  }

  predicate BufsFit(b: Bufs) { forall i :: 0 <= i < TYPES ==> Fits(KINDS[i], SIZES[i], b[i]) }

  /** The sections from number i on. */
  ghost function ChunkFrom(c: Codec, b: Bufs, i: nat): seq<Byte>
    requires i <= TYPES && GoodBufs(c, b) && BufsFit(b)
    decreases TYPES - i
  {
    if i == TYPES then [] else Section(c, KINDS[i], b[i]) + ChunkFrom(c, b, i + 1)
  }

  lemma ChunkNext(c: Codec, b: Bufs, i: nat)
    requires i < TYPES && GoodBufs(c, b) && BufsFit(b)
    ensures GoodElements(KINDS[i], b[i]) && (KINDS[i] == Errnos ==> forall v :: v in b[i] ==> InKind(Ints, c.enc(v)))
    ensures Unit(KINDS[i]) * |b[i]| < 0x1_0000_0000
    ensures ChunkFrom(c, b, i) == Section(c, KINDS[i], b[i]) + ChunkFrom(c, b, i + 1)
  {
    hide Section;
    OneSection(c, b, [], i);
  }

  lemma ChunkEnd(c: Codec, b: Bufs)
    requires GoodBufs(c, b) && BufsFit(b)
    ensures ChunkFrom(c, b, TYPES) == []
  {}

  function UnChunkFrom(c: Codec, file: seq<Byte>, i: nat): (r: Option<(seq<seq<int>>, seq<Byte>)>)
    requires i <= TYPES
    ensures r.Some? ==> |r.value.0| == TYPES - i && |r.value.1| <= |file| && (i < TYPES ==> |r.value.1| < |file|)
    decreases TYPES - i
  {
    if i == TYPES then Some(([], file))
    else
      var first := UnSection(c, KINDS[i], SIZES[i], file);
      if first.None? then None
      else
        var more := UnChunkFrom(c, first.value.1, i + 1);
        if more.None? then None else Some(([first.value.0] + more.value.0, more.value.1))
  }

  /** The codec keeps all error numbers among sections from i on. */
  predicate KeptFrom(c: Codec, b: Bufs, i: nat) { i <= ERRNOS ==> forall v :: v in b[ERRNOS] ==> Kept(c, Errnos, v) }

  lemma SamePair(x: seq<int>, m: seq<seq<int>>, y: seq<int>, n: seq<seq<int>>)
    ensures [x] + m == [y] + n <==> x == y && m == n
  {
    if [x] + m == [y] + n {
      assert ([x] + m)[0] == ([y] + n)[0];
      assert ([x] + m)[1..] == ([y] + n)[1..];
    }
  }

  /** Reading section i, then the rest. */
  function Prepended(first: Option<(seq<int>, seq<Byte>)>,
                     more: Option<(seq<seq<int>>, seq<Byte>)>): Option<(seq<seq<int>>, seq<Byte>)> {
    if first.None? || more.None? then None else Some(([first.value.0] + more.value.0, more.value.1))
  }

  lemma UnChunkStep(c: Codec, b: Bufs, rest: seq<Byte>, i: nat)
    requires i < TYPES && GoodBufs(c, b) && BufsFit(b)
    ensures var more := ChunkFrom(c, b, i + 1) + rest; var r := SectionRead(c, b, more, i);
            (r == Some((b[i], more)) <==> (i == ERRNOS ==> forall v :: v in b[ERRNOS] ==> Kept(c, Errnos, v))) &&
            (r.Some? ==> r.value.1 == more && |r.value.0| == |b[i]|) &&
            UnChunkFrom(c, ChunkFrom(c, b, i) + rest, i) == Prepended(r, UnChunkFrom(c, more, i + 1))
  {
    hide Section, UnSection, Kept;
    var first, more := Section(c, KINDS[i], b[i]), ChunkFrom(c, b, i + 1);
    OneSection(c, b, more + rest, i);
    assert first + more + rest == first + (more + rest);
  }

  /** What reading section i gives when the file goes on with rest. */
  ghost function SectionRead(c: Codec, b: Bufs, rest: seq<Byte>, i: nat): Option<(seq<int>, seq<Byte>)>
    requires i < TYPES && GoodBufs(c, b) && BufsFit(b)
  {
    OneSection(c, b, rest, i);
    UnSection(c, KINDS[i], SIZES[i], Section(c, KINDS[i], b[i]) + rest)
  }

  /** The sections r are those of b from i on, but for the values of error numbers. */
  ghost predicate AllButErrnos(r: seq<seq<int>>, b: Bufs, i: nat) {
    i <= TYPES && |r| == TYPES - i &&
    forall j :: i <= j < TYPES ==> |r[j - i]| == |b[j]| && (j != ERRNOS ==> r[j - i] == b[j])
  }

  /** The sections from i on are read back exactly when the codec keeps their error numbers; otherwise only those can
      be wrong. */
  ghost predicate ReadBack(c: Codec, b: Bufs, rest: seq<Byte>, i: nat)
    requires i <= TYPES && GoodBufs(c, b) && BufsFit(b)
  {
    var r := UnChunkFrom(c, ChunkFrom(c, b, i) + rest, i);
    (r == Some((b[i..], rest)) <==> KeptFrom(c, b, i)) &&
    (r.Some? ==> r.value.1 == rest && AllButErrnos(r.value.0, b, i))
  }

  lemma ChunkEndBack(c: Codec, b: Bufs, rest: seq<Byte>)
    requires GoodBufs(c, b) && BufsFit(b)
    ensures ReadBack(c, b, rest, TYPES)
  {
    hide GoodBufs, BufsFit;
    assert ChunkFrom(c, b, TYPES) == [] && [] + rest == rest;
    assert b[TYPES..] == [];
  }

  lemma ChunkStepBack(c: Codec, b: Bufs, rest: seq<Byte>, i: nat)
    requires i < TYPES && GoodBufs(c, b) && BufsFit(b)
    requires ReadBack(c, b, rest, i + 1)
    ensures ReadBack(c, b, rest, i)
  {
    hide UnChunkFrom, ChunkFrom, SectionRead, Kept, GoodBufs, BufsFit;
    UnChunkStep(c, b, rest, i);
    var more := ChunkFrom(c, b, i + 1) + rest;
    var r, t := SectionRead(c, b, more, i), UnChunkFrom(c, more, i + 1);
    assert b[i..] == [b[i]] + b[i + 1..];
    if r.Some? && t.Some? { SamePair(r.value.0, t.value.0, b[i], b[i + 1..]); }
  }

  lemma {:induction false} ChunkFromBack(c: Codec, b: Bufs, rest: seq<Byte>, i: nat)
    requires i <= TYPES && GoodBufs(c, b) && BufsFit(b)
    ensures ReadBack(c, b, rest, i)
    decreases TYPES - i
  {
    hide ReadBack, UnChunkFrom, ChunkFrom, Kept, GoodBufs, BufsFit;
    if i < TYPES {
      ChunkFromBack(c, b, rest, i + 1);
      ChunkStepBack(c, b, rest, i);
    } else {
      ChunkEndBack(c, b, rest);
    }
  }

  lemma OneSection(c: Codec, b: Bufs, rest: seq<Byte>, i: nat)
    requires i < TYPES && GoodBufs(c, b) && BufsFit(b)
    ensures GoodElements(KINDS[i], b[i]) && (KINDS[i] == Errnos ==> forall v :: v in b[i] ==> InKind(Ints, c.enc(v)))
    ensures Unit(KINDS[i]) * |b[i]| < 0x1_0000_0000
    ensures var r := UnSection(c, KINDS[i], SIZES[i], Section(c, KINDS[i], b[i]) + rest);
            (r == Some((b[i], rest)) <==> (i == ERRNOS ==> forall v :: v in b[ERRNOS] ==> Kept(c, Errnos, v))) &&
            (r.Some? ==> r.value.1 == rest && |r.value.0| == |b[i]|)
  {
    hide Section, UnSection;
    assert SIZES[i] <= 200000;
    SectionBack(c, KINDS[i], SIZES[i], b[i], rest);
    assert i != ERRNOS ==> KINDS[i] != Errnos;
  }

  /** A chunk that fits is read back exactly when the codec keeps its error numbers. */
  lemma ChunkBack(c: Codec, b: Bufs, rest: seq<Byte>)
    requires GoodBufs(c, b) && BufsFit(b)
    ensures UnChunkFrom(c, ChunkFrom(c, b, 0) + rest, 0) == Some((b, rest)) <==>
            forall v :: v in b[ERRNOS] ==> Kept(c, Errnos, v)
    ensures var r := UnChunkFrom(c, ChunkFrom(c, b, 0) + rest, 0);
            r.Some? ==> r.value.1 == rest && AllButErrnos(r.value.0, b, 0)
  {
    ChunkFromBack(c, b, rest, 0);
    assert b[0..] == b;
  }

  // ----- The codec as written

  /** Every case of the writer falls through to 0, and every case of the reader to the error exit. */
  function FallThrough(): Codec { Codec((e: int) => 0, (v: int) => None) }

  /** So a chunk is read back exactly when it holds no error number at all. */
  lemma ErrnosSpoilChunks(b: Bufs, rest: seq<Byte>)
    requires GoodBufs(FallThrough(), b) && BufsFit(b)
    ensures UnChunkFrom(FallThrough(), ChunkFrom(FallThrough(), b, 0) + rest, 0) == Some((b, rest)) <==> b[ERRNOS] == []
  {
    ChunkBack(FallThrough(), b, rest);
    if b[ERRNOS] != [] { assert b[ERRNOS][0] in b[ERRNOS] && !Kept(FallThrough(), Errnos, b[ERRNOS][0]); }
  }
}
