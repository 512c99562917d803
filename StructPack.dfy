/**
 * The binary layout both asset builders write with Python's struct module:
 * little-endian 32-bit words ("<I") and float32 coordinates ("<f"), plus the
 * reading direction used to state what a written file holds.
 *
 * A float32 is carried as its 32-bit pattern, so a point is three words; the
 * float64 to float32 rounding done before packing is not part of this model.
 */
module StructPack {

  type byte = x: int | 0 <= x < 256
  type u32 = x: int | 0 <= x < 0x1_0000_0000

  /** One point as the three float32 patterns of x, y and z. */
  datatype Float3 = Float3(x: u32, y: u32, z: u32)

  /** struct.pack("<I", n): the least significant byte first. */
  function WordBytes(n: u32): (b: seq<byte>)
    ensures |b| == 4
  {
    [n % 256, (n / 0x100) % 256, (n / 0x1_0000) % 256, n / 0x100_0000]
  }

  /** The word stored at offset i, read back least significant byte first. */
  function WordAt(b: seq<byte>, i: nat): u32
    requires i + 4 <= |b|
  {
    b[i] as int + 0x100 * b[i + 1] as int + 0x1_0000 * b[i + 2] as int + 0x100_0000 * b[i + 3] as int
  }

  /** The bytes of WordBytes(n) sit at offset i. */
  predicate WordStoredAt(b: seq<byte>, i: nat, n: u32)
  {
    && i + 4 <= |b|
    && b[i] == n % 256 && b[i + 1] == (n / 0x100) % 256
    && b[i + 2] == (n / 0x1_0000) % 256 && b[i + 3] == n / 0x100_0000
  }

  /** Reading a packed word gives the word back. */
  lemma WordRoundTrip(n: u32, b: seq<byte>, i: nat)
    requires WordStoredAt(b, i, n)
    ensures WordAt(b, i) == n
  {
    var q1, q2 := n / 0x100, n / 0x1_0000;
    assert n == 0x100 * q1 + n % 256;
    assert q1 == 0x100 * q2 + q1 % 256;
    assert q2 == 0x100 * (n / 0x100_0000) + q2 % 256;
  }

  /** struct.pack("<{k}I", ...): the words one after another. */
  function WordsBytes(ws: seq<u32>): (b: seq<byte>)
    ensures |b| == 4 * |ws|
  {
    if ws == [] then [] else WordBytes(ws[0]) + WordsBytes(ws[1..])
  }

  /** The k words stored from offset i. */
  function WordsAt(b: seq<byte>, i: nat, k: nat): (ws: seq<u32>)
    requires i + 4 * k <= |b|
    ensures |ws| == k
  {
    seq(k, j requires 0 <= j < k => WordAt(b, i + 4 * j))
  }

  /** Word j of a packed run sits at byte 4j. */
  lemma {:induction false} WordsBytesAt(ws: seq<u32>, j: nat)
    requires j < |ws|
    ensures WordStoredAt(WordsBytes(ws), 4 * j, ws[j])
  {
    if j > 0 {
      WordsBytesAt(ws[1..], j - 1);
      assert WordsBytes(ws) == WordBytes(ws[0]) + WordsBytes(ws[1..]);
    }
  }

  /** Reading a packed run of words gives the words back. */
  lemma WordsRoundTrip(ws: seq<u32>, b: seq<byte>, i: nat)
    requires i + 4 * |ws| <= |b| && b[i .. i + 4 * |ws|] == WordsBytes(ws)
    ensures WordsAt(b, i, |ws|) == ws
  {
    forall j | 0 <= j < |ws|
      ensures WordsAt(b, i, |ws|)[j] == ws[j]
    {
      WordRead(ws, b, i, j);
    }
  }

  lemma WordRead(ws: seq<u32>, b: seq<byte>, i: nat, j: nat)
    requires i + 4 * |ws| <= |b| && b[i .. i + 4 * |ws|] == WordsBytes(ws) && j < |ws|
    ensures WordAt(b, i + 4 * j) == ws[j]
  {
    WordsBytesAt(ws, j);
    var p, w := i + 4 * j, WordsBytes(ws);
    assert b[p] == w[4 * j] && b[p + 1] == w[4 * j + 1];
    assert b[p + 2] == w[4 * j + 2] && b[p + 3] == w[4 * j + 3];
    WordRoundTrip(ws[j], b, p);
  }

  /** Packing two runs one after the other packs their concatenation. */
  lemma {:induction false} WordsBytesAppend(a: seq<u32>, c: seq<u32>)
    ensures WordsBytes(a + c) == WordsBytes(a) + WordsBytes(c)
  {
    if a != [] {
      WordsBytesAppend(a[1..], c);
      assert (a + c)[0] == a[0] && (a + c)[1..] == a[1..] + c;
      assert WordsBytes(a + c) == WordBytes(a[0]) + WordsBytes(a[1..] + c);
      assert WordsBytes(a) == WordBytes(a[0]) + WordsBytes(a[1..]);
      assert WordBytes(a[0]) + (WordsBytes(a[1..]) + WordsBytes(c)) == (WordBytes(a[0]) + WordsBytes(a[1..])) + WordsBytes(c);
    } else {
      assert a + c == c;
    }
  }

  /** Words a to a + m of a run read from offset i are the run of m words from offset i + 4a. */
  lemma WordsAtSlice(b: seq<byte>, i: nat, k: nat, a: nat, m: nat)
    requires i + 4 * k <= |b| && a + m <= k
    ensures WordsAt(b, i, k)[a .. a + m] == WordsAt(b, i + 4 * a, m)
  {
    var whole, part := WordsAt(b, i, k), WordsAt(b, i + 4 * a, m);
    forall j | 0 <= j < m
      ensures whole[a + j] == part[j]
    {
      assert i + 4 * (a + j) == i + 4 * a + 4 * j;
    }
    assert whole[a .. a + m] == part;
  }

  /** points.astype(np.float32).reshape(-1): x, y, z of every point in turn. */
  function Coords(ps: seq<Float3>): (ws: seq<u32>)
    ensures |ws| == 3 * |ps|
  {
    if ps == [] then [] else [ps[0].x, ps[0].y, ps[0].z] + Coords(ps[1..])
  }

  /** The n points a run of 3n coordinates holds, three words per point. */
  function Points(ws: seq<u32>, n: nat): (ps: seq<Float3>)
    requires |ws| == 3 * n
    ensures |ps| == n
  {
    if n == 0 then [] else [Float3(ws[0], ws[1], ws[2])] + Points(ws[3..], n - 1)
  }

  /** Regrouping the flattened coordinates gives the points back. */
  lemma {:induction false} PointsCoords(ps: seq<Float3>)
    ensures Points(Coords(ps), |ps|) == ps
  {
    if ps != [] {
      var m := |ps| - 1;
      PointsCoords(ps[1..]);
      assert Coords(ps)[3..] == Coords(ps[1..]);
      assert Points(Coords(ps), |ps|) == [ps[0]] + Points(Coords(ps[1..]), m);
    }
  }

  /** Flattening the regrouped points gives the coordinates back. */
  lemma {:induction false} CoordsPoints(ws: seq<u32>, n: nat)
    requires |ws| == 3 * n
    ensures Coords(Points(ws, n)) == ws
  {
    if n > 0 {
      var m := n - 1;
      CoordsPoints(ws[3..], m);
      assert Points(ws, n) == [Float3(ws[0], ws[1], ws[2])] + Points(ws[3..], m);
      assert ws == ws[..3] + ws[3..];
    }
  }

  /** Four ASCII bytes identifying a container. */
  function Tag(a: char, b: char, c: char, d: char): (t: seq<byte>)
    requires a < 128 as char && b < 128 as char && c < 128 as char && d < 128 as char
    ensures |t| == 4
  {
    [a as int, b as int, c as int, d as int]
  }
}
