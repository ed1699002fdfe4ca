/** The order-independent content digest of `deploy/ops/stream_digest.py`: a row count, a sum modulo 2^256 and an
    exclusive or of one 256-bit hash per row.  SHA-256 itself stays a parameter `hash`: nothing here depends on it. */
module Digest {
  import opened Numerals

  const MODULUS: nat := 0x1_00000000_00000000_00000000_00000000_00000000_00000000_00000000_00000000

  type Word = n: nat | n < MODULUS witness 0

  const ALGORITHM := "sha256-multiset-v1"

  datatype Accumulator = Accumulator(count: nat, sum: Word, xor: Word)

  lemma {:induction false} PowersMultiply(a: nat, b: nat)
    ensures Pow2(a + b) == Pow2(a) * Pow2(b)
  {
    if a > 0 {
      PowersMultiply(a - 1, b);
      assert Pow2(a + b) == 2 * Pow2(a - 1 + b);
    }
  }

  lemma TwoTo32()
    ensures Pow2(32) == 0x1_00000000
  {
    assert Pow2(8) == 256;
    PowersMultiply(8, 8);
    PowersMultiply(16, 16);
  }

  lemma ModulusIsTwoTo256()
    ensures Pow2(256) == MODULUS
  {
    hide Pow2;
    TwoTo32();
    PowersMultiply(32, 32);
    PowersMultiply(64, 64);
    PowersMultiply(128, 128);
  }

  /** Bitwise exclusive or of two naturals. */
  function Xor(a: nat, b: nat): (r: nat)
    decreases a
  {
    if a == 0 then b else (a + b) % 2 + 2 * Xor(a / 2, b / 2)
  }

  lemma {:induction false} XorBits(a: nat, b: nat)
    ensures Xor(a, b) % 2 == (a + b) % 2 && Xor(a, b) / 2 == Xor(a / 2, b / 2)
  {
    if a == 0 {
      assert a / 2 == 0 && Xor(0, b / 2) == b / 2;
    } else {
      LowestBit((a + b) % 2, Xor(a / 2, b / 2));
    }
  }

  lemma LowestBit(bit: nat, rest: nat)
    requires bit < 2
    ensures (bit + 2 * rest) % 2 == bit && (bit + 2 * rest) / 2 == rest
  {
  }

  lemma {:induction false} XorZero(a: nat)
    ensures Xor(a, 0) == a
  {
    if a > 0 {
      XorZero(a / 2);
    }
  }

  lemma {:induction false} XorCommutes(a: nat, b: nat)
    ensures Xor(a, b) == Xor(b, a)
    decreases a
  {
    if a == 0 {
      XorZero(b);
    } else {
      XorCommutes(a / 2, b / 2);
      XorBits(b, a);
    }
  }

  lemma XorBitsOfThree(a: nat, b: nat, c: nat)
    ensures Xor(Xor(a, b), c) % 2 == (a + b + c) % 2
    ensures Xor(Xor(a, b), c) / 2 == Xor(Xor(a / 2, b / 2), c / 2)
  {
    hide Xor;
    XorBits(a, b);
    XorBits(Xor(a, b), c);
    SameParity(Xor(a, b), a + b, c);
  }

  lemma SameParity(x: nat, y: nat, c: nat)
    requires x % 2 == y % 2
    ensures (x + c) % 2 == (y + c) % 2
  {
  }

  lemma {:induction false} XorAssociates(a: nat, b: nat, c: nat)
    ensures Xor(Xor(a, b), c) == Xor(a, Xor(b, c))
    decreases a
  {
    if a > 0 {
      XorBitsOfThree(a, b, c);
      XorBitsOfThree(b, c, a);
      XorCommutes(a, Xor(b, c));
      XorAssociates(a / 2, b / 2, c / 2);
      XorCommutes(a / 2, Xor(b / 2, c / 2));
      SameBits(Xor(Xor(a, b), c), Xor(a, Xor(b, c)));
    }
  }

  lemma SameBits(x: nat, y: nat)
    requires x % 2 == y % 2 && x / 2 == y / 2
    ensures x == y
  {
  }

  lemma {:induction false} XorBounded(a: nat, b: nat, bits: nat)
    requires a < Pow2(bits) && b < Pow2(bits)
    ensures Xor(a, b) < Pow2(bits)
    decreases bits
  {
    if bits > 0 {
      XorBits(a, b);
      XorBounded(a / 2, b / 2, bits - 1);
    }
  }

  function XorWords(a: Word, b: Word): (r: Word)
    ensures r == Xor(a, b)
  {
    ModulusIsTwoTo256();
    XorBounded(a, b, 256);
    Xor(a, b)
  }

  function Absorb(acc: Accumulator, w: Word): Accumulator {
    Accumulator(acc.count + 1, (acc.sum + w) % MODULUS, XorWords(acc.xor, w))
  }

  function Sum(ws: seq<Word>): (r: nat) {
    if ws == [] then 0 else Sum(ws[..|ws| - 1]) + ws[|ws| - 1]
  }

  function XorAll(ws: seq<Word>): (r: Word) {
    if ws == [] then 0 else XorWords(XorAll(ws[..|ws| - 1]), ws[|ws| - 1])
  }

  function Hashes<T>(hash: T -> Word, rows: seq<T>): (ws: seq<Word>)
    ensures |ws| == |rows|
  {
    seq(|rows|, i requires 0 <= i < |rows| => hash(rows[i]))
  }

  /** What the accumulator stands for: count, sum and exclusive or of the rows fed to it. */
  function DigestOf<T>(hash: T -> Word, rows: seq<T>): Accumulator {
    var ws := Hashes(hash, rows);
    Accumulator(|ws|, Sum(ws) % MODULUS, XorAll(ws))
  }

  function Render(acc: Accumulator): string {
    ALGORITHM + ":" + Decimal(acc.count) + ":" + FixedHex(acc.sum, 64) + ":" + FixedHex(acc.xor, 64)
  }

  function HexDigest<T>(hash: T -> Word, rows: seq<T>): string {
    Render(DigestOf(hash, rows))
  }

  lemma SumModulo(s: nat, w: nat)
    ensures (s % MODULUS + w) % MODULUS == (s + w) % MODULUS
  {
  }

  lemma SumsModulo(s: nat, t: nat)
    ensures (s % MODULUS + t % MODULUS) % MODULUS == (s + t) % MODULUS
  {
  }

  lemma DigestAbsorbs<T>(hash: T -> Word, rows: seq<T>, row: T)
    ensures DigestOf(hash, rows + [row]) == Absorb(DigestOf(hash, rows), hash(row))
  {
    var ws, ws' := Hashes(hash, rows), Hashes(hash, rows + [row]);
    assert ws' == ws + [hash(row)];
    assert ws'[..|ws'| - 1] == ws;
    SumModulo(Sum(ws), hash(row));
  }

  // ---- Order independence ----

  lemma {:induction false} SumSplit(a: seq<Word>, b: seq<Word>)
    ensures Sum(a + b) == Sum(a) + Sum(b) && XorAll(a + b) == Xor(XorAll(a), XorAll(b))
  {
    if b == [] {
      assert a + b == a;
      XorZero(XorAll(a));
    } else {
      var front, last := b[..|b| - 1], b[|b| - 1];
      assert (a + b)[..|a + b| - 1] == a + front;
      SumSplit(a, front);
      XorAssociates(XorAll(a), XorAll(front), last);
    }
  }

  function Without<T>(s: seq<T>, k: nat): (r: seq<T>)
    requires k < |s|
    ensures multiset(r) == multiset(s) - multiset{s[k]}
  {
    assert s == s[..k] + [s[k]] + s[k + 1..];
    s[..k] + s[k + 1..]
  }

  lemma SumExtracts(ws: seq<Word>, k: nat)
    requires k < |ws|
    ensures Sum(ws) == Sum(Without(ws, k)) + ws[k]
    ensures XorAll(ws) == Xor(XorAll(Without(ws, k)), ws[k])
  {
    var left, w, right := ws[..k], ws[k], ws[k + 1..];
    assert ws == (left + [w]) + right;
    SumSplit(left, right);
    SumSplit(left + [w], right);
    assert (left + [w])[..k] == left;
    var x, y := XorAll(left), XorAll(right);
    XorAssociates(x, w, y);
    XorCommutes(w, y);
    XorAssociates(x, y, w);
  }

  lemma FindIn<T>(s: seq<T>, x: T) returns (k: nat)
    requires x in multiset(s)
    ensures k < |s| && s[k] == x
  {
    k :| k < |s| && s[k] == x;
  }

  lemma {:induction false} SumPermuted(a: seq<Word>, b: seq<Word>)
    requires multiset(a) == multiset(b)
    ensures Sum(a) == Sum(b) && XorAll(a) == XorAll(b)
  {
    assert |a| == |multiset(a)| && |b| == |multiset(b)|;
    if a != [] {
      var last := |a| - 1;
      assert Without(a, last) == a[..last];
      var k := FindIn(b, a[last]);
      SumPermuted(Without(a, last), Without(b, k));
      SumExtracts(b, k);
    }
  }

  lemma HashesWithout<T>(hash: T -> Word, s: seq<T>, k: nat)
    requires k < |s|
    ensures Hashes(hash, Without(s, k)) == Without(Hashes(hash, s), k)
  {
  }

  lemma {:induction false} HashesPermuted<T>(hash: T -> Word, a: seq<T>, b: seq<T>)
    requires multiset(a) == multiset(b)
    ensures multiset(Hashes(hash, a)) == multiset(Hashes(hash, b))
  {
    assert |a| == |multiset(a)| && |b| == |multiset(b)|;
    if a != [] {
      var k := FindIn(b, a[0]);
      HashesPermuted(hash, Without(a, 0), Without(b, k));
      HashesWithout(hash, a, 0);
      HashesWithout(hash, b, k);
      Reassemble(Hashes(hash, a), 0, Hashes(hash, b), k);
    }
  }

  lemma Reassemble<T>(a: seq<T>, i: nat, b: seq<T>, j: nat)
    requires i < |a| && j < |b| && a[i] == b[j]
    requires multiset(Without(a, i)) == multiset(Without(b, j))
    ensures multiset(a) == multiset(b)
  {
    assert a[i] in multiset(a) && b[j] in multiset(b);
    assert multiset(a) == multiset(Without(a, i)) + multiset{a[i]};
    assert multiset(b) == multiset(Without(b, j)) + multiset{b[j]};
  }

  /** Any scan order of the same rows gives the same digest text. */
  lemma DigestIgnoresOrder<T>(hash: T -> Word, a: seq<T>, b: seq<T>)
    requires multiset(a) == multiset(b)
    ensures HexDigest(hash, a) == HexDigest(hash, b)
  {
    HashesPermuted(hash, a, b);
    SumPermuted(Hashes(hash, a), Hashes(hash, b));
    assert |a| == |multiset(a)| && |b| == |multiset(b)|;
  }

  /** Digests of two parts combine field by field into the digest of the whole. */
  lemma DigestCombines<T>(hash: T -> Word, a: seq<T>, b: seq<T>)
    ensures var (x, y, whole) := (DigestOf(hash, a), DigestOf(hash, b), DigestOf(hash, a + b));
            whole == Accumulator(x.count + y.count, (x.sum + y.sum) % MODULUS, XorWords(x.xor, y.xor))
  {
    hide Sum, XorAll, Xor;
    var ws, vs := Hashes(hash, a), Hashes(hash, b);
    assert Hashes(hash, a + b) == ws + vs;
    SumSplit(ws, vs);
    SumsModulo(Sum(ws), Sum(vs));
  }

  // ---- The text determines the accumulator ----

  lemma FirstColon(digits: string, rest: string)
    requires AllDigits(digits)
    ensures var s := digits + ":" + rest;
            && s[|digits|] == ':' && s[..|digits|] == digits && s[|digits| + 1..] == rest
            && forall i | 0 <= i < |digits| :: s[i] != ':'
  {
    var s := digits + ":" + rest;
    forall i | 0 <= i < |digits| ensures s[i] != ':' {
      assert s[i] == digits[i] && IsDigit(digits[i]);
    }
  }

  lemma SplitAtColon(a: string, b: string, x: string, y: string)
    requires AllDigits(a) && AllDigits(b)
    requires a + ":" + x == b + ":" + y
    ensures a == b && x == y
  {
    FirstColon(a, x);
    FirstColon(b, y);
    assert |a| == |b|;
  }

  lemma RenderInjective(p: Accumulator, q: Accumulator)
    ensures Render(p) == Render(q) <==> p == q
  {
    if Render(p) == Render(q) {
      var n := |ALGORITHM| + 1;
      var ps, px := FixedHex(p.sum, 64), FixedHex(p.xor, 64);
      var qs, qx := FixedHex(q.sum, 64), FixedHex(q.xor, 64);
      assert Render(p)[n..] == Decimal(p.count) + ":" + (ps + ":" + px);
      assert Render(q)[n..] == Decimal(q.count) + ":" + (qs + ":" + qx);
      SplitAtColon(Decimal(p.count), Decimal(q.count), ps + ":" + px, qs + ":" + qx);
      assert (ps + ":" + px)[..64] == ps && (qs + ":" + qx)[..64] == qs;
      assert (ps + ":" + px)[65..] == px && (qs + ":" + qx)[65..] == qx;
      DecimalRoundTrip(p.count);
      DecimalRoundTrip(q.count);
      ModulusIsTwoTo256();
      FixedHexInjective(p.sum, q.sum, 64);
      FixedHexInjective(p.xor, q.xor, 64);
    }
  }

  /** Equal digest texts come from equally many rows, whatever the hash function does. */
  lemma EqualDigestsEqualCounts<T>(hash: T -> Word, a: seq<T>, b: seq<T>)
    requires HexDigest(hash, a) == HexDigest(hash, b)
    ensures |a| == |b|
  {
    RenderInjective(DigestOf(hash, a), DigestOf(hash, b));
  }

  // ---- What the fields say of the hashes, bit by bit ----

  /** The hashes of all rows added up, as integers. */
  function Total<T>(hash: T -> Word, rows: seq<T>): nat {
    if rows == [] then 0 else hash(rows[0]) + Total(hash, rows[1..])
  }

  predicate Bit(n: nat, i: nat)
    decreases i
  {
    if i == 0 then n % 2 == 1 else Bit(n / 2, i - 1)
  }

  /** How many rows have a hash with this bit set. */
  function BitCount<T>(hash: T -> Word, rows: seq<T>, i: nat): nat {
    if rows == [] then 0 else (if Bit(hash(rows[0]), i) then 1 else 0) + BitCount(hash, rows[1..], i)
  }

  lemma {:induction false} XorBit(a: nat, b: nat, i: nat)
    ensures Bit(Xor(a, b), i) == (Bit(a, i) != Bit(b, i))
    decreases i
  {
    XorBits(a, b);
    if i > 0 {
      XorBit(a / 2, b / 2, i - 1);
    }
  }

  lemma {:induction false} NoBits(i: nat)
    ensures !Bit(0, i)
  {
    if i > 0 {
      NoBits(i - 1);
    }
  }

  lemma {:induction false} SameBitsSameWord(a: nat, b: nat, bits: nat)
    requires a < Pow2(bits) && b < Pow2(bits)
    requires forall i: nat | i < bits :: Bit(a, i) == Bit(b, i)
    ensures a == b
    decreases bits
  {
    if bits > 0 {
      assert Bit(a, 0) == Bit(b, 0);
      forall i: nat | i < bits - 1 ensures Bit(a / 2, i) == Bit(b / 2, i) {
        assert Bit(a, i + 1) == Bit(b, i + 1);
      }
      SameBitsSameWord(a / 2, b / 2, bits - 1);
    }
  }

  lemma HashesTail<T>(hash: T -> Word, rows: seq<T>)
    requires rows != []
    ensures Hashes(hash, rows) == [hash(rows[0])] + Hashes(hash, rows[1..])
  {
  }

  lemma SingleSum(w: Word)
    ensures Sum([w]) == w && XorAll([w]) == w
  {
    assert [w][..0] == [];
    assert Sum([]) == 0 && XorAll([]) == 0;
  }

  lemma {:induction false} SumIsTotal<T>(hash: T -> Word, rows: seq<T>)
    ensures Sum(Hashes(hash, rows)) == Total(hash, rows)
    decreases |rows|
  {
    if rows != [] {
      SumIsTotal(hash, rows[1..]);
      HashesTail(hash, rows);
      SumSplit([hash(rows[0])], Hashes(hash, rows[1..]));
      SingleSum(hash(rows[0]));
    }
  }

  lemma {:induction false} XorIsParity<T>(hash: T -> Word, rows: seq<T>, i: nat)
    ensures Bit(XorAll(Hashes(hash, rows)), i) == (BitCount(hash, rows, i) % 2 == 1)
    decreases |rows|
  {
    hide Sum, Xor, Bit;
    if rows == [] {
      NoBits(i);
    } else {
      XorIsParity(hash, rows[1..], i);
      HashesTail(hash, rows);
      SumSplit([hash(rows[0])], Hashes(hash, rows[1..]));
      SingleSum(hash(rows[0]));
      XorBit(hash(rows[0]), XorAll(Hashes(hash, rows[1..])), i);
    }
  }

  /** The three fields, said of the hashes alone: how many rows, their total modulo 2^256, and of each bit whether an
      odd number of the hashes has it. */
  lemma DigestMeans<T>(hash: T -> Word, rows: seq<T>)
    ensures var acc := DigestOf(hash, rows);
            && acc.count == |rows| && acc.sum == Total(hash, rows) % MODULUS
            && forall i: nat :: Bit(acc.xor, i) == (BitCount(hash, rows, i) % 2 == 1)
  {
    SumIsTotal(hash, rows);
    forall i: nat ensures Bit(DigestOf(hash, rows).xor, i) == (BitCount(hash, rows, i) % 2 == 1) {
      XorIsParity(hash, rows, i);
    }
  }

  /** The hashes of two row lists agree in number, in their total modulo 2^256, and in the parity of every bit. */
  ghost predicate SameFigures<T>(hash: T -> Word, a: seq<T>, b: seq<T>) {
    && |a| == |b| && Total(hash, a) % MODULUS == Total(hash, b) % MODULUS
    && forall i: nat | i < 256 :: BitCount(hash, a, i) % 2 == BitCount(hash, b, i) % 2
  }

  /** Two row lists have the same digest text if and only if their hashes agree in those figures. */
  lemma DigestTellsFigures<T>(hash: T -> Word, a: seq<T>, b: seq<T>)
    ensures HexDigest(hash, a) == HexDigest(hash, b) <==> SameFigures(hash, a, b)
  {
    hide DigestOf, Bit, Render, BitCount, Total;
    var x, y := DigestOf(hash, a), DigestOf(hash, b);
    RenderInjective(x, y);
    DigestMeans(hash, a);
    DigestMeans(hash, b);
    if SameFigures(hash, a, b) {
      forall i: nat | i < 256 ensures Bit(x.xor, i) == Bit(y.xor, i) {
        assert BitCount(hash, a, i) % 2 == BitCount(hash, b, i) % 2;
      }
      ModulusIsTwoTo256();
      SameBitsSameWord(x.xor, y.xor, 256);
    }
    if x == y {
      forall i: nat | i < 256 ensures BitCount(hash, a, i) % 2 == BitCount(hash, b, i) % 2 {
        assert Bit(x.xor, i) == Bit(y.xor, i);
      }
    }
  }

  lemma {:induction false} TotalAppend<T>(hash: T -> Word, rows: seq<T>, row: T)
    ensures Total(hash, rows + [row]) == Total(hash, rows) + hash(row)
  {
    if rows == [] {
      assert [] + [row] == [row] && [row][1..] == [];
    } else {
      assert (rows + [row])[1..] == rows[1..] + [row];
      TotalAppend(hash, rows[1..], row);
    }
  }

  /** Rows that differ in one place have the same digest text only if that row's hashes collide outright. */
  lemma OneRowTells<T>(hash: T -> Word, rows: seq<T>, a: T, b: T)
    ensures HexDigest(hash, rows + [a]) == HexDigest(hash, rows + [b]) <==> hash(a) == hash(b)
  {
    hide Render, DigestOf;
    RenderInjective(DigestOf(hash, rows + [a]), DigestOf(hash, rows + [b]));
    DigestAbsorbs(hash, rows, a);
    DigestAbsorbs(hash, rows, b);
    if HexDigest(hash, rows + [a]) == HexDigest(hash, rows + [b]) {
      DigestMeans(hash, rows + [a]);
      DigestMeans(hash, rows + [b]);
      TotalAppend(hash, rows, a);
      TotalAppend(hash, rows, b);
      SameRemainder(Total(hash, rows), hash(a), hash(b));
    }
  }

  lemma SameRemainder(s: nat, a: Word, b: Word)
    requires (s + a) % MODULUS == (s + b) % MODULUS
    ensures a == b
  {
    var k := (s + a) / MODULUS - (s + b) / MODULUS;
    assert a - b == k * MODULUS;
  }

  /** The mutable accumulator.  `fed` records the rows in the order they came. */
  class StreamingContentDigest<T> {
    const hash: T -> Word
    var count: nat
    var sum: Word
    var xor: Word
    ghost var fed: seq<T>

    ghost predicate Valid()
      reads this
    {
      Accumulator(count, sum, xor) == DigestOf(hash, fed)
    }

    constructor (hash: T -> Word)
      ensures Valid() && fed == [] && this.hash == hash
    {
      this.hash := hash;
      count, sum, xor := 0, 0, 0;
      fed := [];
    }

    /** What the fields are by then, in terms of the hashes of all rows fed. */
    lemma FieldsMean()
      requires Valid()
      ensures count == |fed| && sum == Total(hash, fed) % MODULUS
      ensures forall i: nat :: Bit(xor, i) == (BitCount(hash, fed, i) % 2 == 1)
    {
      DigestMeans(hash, fed);
    }

    method Update(row: T)
      requires Valid()
      modifies this
      ensures Valid() && fed == old(fed) + [row]
      ensures count == |fed| && sum == Total(hash, fed) % MODULUS
      ensures forall i: nat :: Bit(xor, i) == (BitCount(hash, fed, i) % 2 == 1)
    {
      DigestAbsorbs(hash, fed, row);
      var value := hash(row);
      count := count + 1;
      sum := (sum + value) % MODULUS;
      xor := XorWords(xor, value);
      fed := fed + [row];
      FieldsMean();
    }

    method Hexdigest() returns (text: string)
      requires Valid()
      ensures text == HexDigest(hash, fed)
    {
      text := ALGORITHM + ":" + Decimal(count) + ":" + FixedHex(sum, 64) + ":" + FixedHex(xor, 64);
    }
  }

  /** The streaming loop of both fingerprint paths: one row at a time, in whatever order the scan returns them. */
  method StreamDigest<T>(hash: T -> Word, rows: seq<T>) returns (text: string)
    ensures forall other: seq<T> | multiset(other) == multiset(rows) :: text == HexDigest(hash, other)
  {
    var digest := new StreamingContentDigest(hash);
    for i := 0 to |rows|
      invariant fresh(digest) && digest.Valid() && digest.hash == hash && digest.fed == rows[..i]
    {
      digest.Update(rows[i]);
      assert rows[..i] + [rows[i]] == rows[..i + 1];
    }
    assert rows[..|rows|] == rows;
    text := digest.Hexdigest();
    forall other: seq<T> | multiset(other) == multiset(rows)
      ensures text == HexDigest(hash, other)
    {
      DigestIgnoresOrder(hash, rows, other);
    }
  }
}
