/**
  The Internet checksum `in_cksum` (RFC 1071) with its 32-bit accumulator and two folds, for either
  byte order of the machine.
*/
module Checksum {
  import opened Machine

  /** The longest buffer whose word sum cannot overflow 32 bits. */
  const MAXLEN := 131074

  datatype Order = Little | Big

  /** A 16-bit load of two consecutive bytes. */
  function Load(o: Order, a: Byte, b: Byte): (w: nat)
    ensures w <= 0xffff
  {
    if o.Little? then a as int + 256 * b as int else 256 * a as int + b as int
  }

  /** The two bytes in memory after storing a 16-bit value. */
  function Stored(o: Order, v: nat): (Byte, Byte)
    requires v <= 0xffff
  {
    if o.Little? then (v % 256, v / 256) else (v / 256, v % 256)
  }

  /** The plain sum of the 16-bit words; an odd last byte is loaded with a zero behind it. */
  function Sum(o: Order, buf: seq<Byte>): nat {
    if |buf| == 0 then 0
    else if |buf| == 1 then Load(o, buf[0], 0)
    else Load(o, buf[0], buf[1]) + Sum(o, buf[2..])
  }

  /** The two folds of a 32-bit sum, truncated to 16 bits. */
  function Fold(sum: nat): (r: nat)
    ensures r <= 0xffff
  {
    var s1 := sum / 0x10000 + sum % 0x10000;
    (s1 + s1 / 0x10000) % 0x10000
  }

  function Cksum(o: Order, buf: seq<Byte>): (c: nat)
    ensures c <= 0xffff
  {
    0xffff - Fold(Sum(o, buf) % WORD)
  }

  method InCksum(o: Order, addr: seq<Byte>) returns (answer: nat)
    ensures answer == Cksum(o, addr)
  {
    hide Sum, Fold;
    var sum, nleft, w := 0, |addr|, 0;
    assert addr[0..] == addr;
    while nleft > 1
      invariant 0 <= w <= |addr| && nleft == |addr| - w
      invariant 0 <= sum < WORD
      invariant (sum + Sum(o, addr[w..])) % WORD == Sum(o, addr) % WORD
    {
      SumHead(o, addr, w);
      WrapAdd(sum, Load(o, addr[w], addr[w + 1]), Sum(o, addr[w + 2..]));
      sum := (sum + Load(o, addr[w], addr[w + 1])) % WORD;
      w := w + 2;
      nleft := nleft - 2;
    }
    SumTail(o, addr, w);
    if nleft == 1 {
      sum := (sum + Load(o, addr[w], 0)) % WORD;
    }
    assert sum == Sum(o, addr) % WORD;
    answer := 0xffff - Fold(sum);
  }

  lemma SumHead(o: Order, a: seq<Byte>, w: nat)
    requires w + 1 < |a|
    ensures Sum(o, a[w..]) == Load(o, a[w], a[w + 1]) + Sum(o, a[w + 2..])
  {
    assert a[w..][2..] == a[w + 2..];
  }

  lemma SumTail(o: Order, a: seq<Byte>, w: nat)
    requires |a| - 1 <= w <= |a|
    ensures Sum(o, a[w..]) == if w == |a| then 0 else Load(o, a[w], 0)
  {}

  lemma WrapAdd(s: nat, x: nat, rest: nat)
    ensures ((s + x) % WORD + rest) % WORD == (s + (x + rest)) % WORD
  {
    var q := (s + x) / WORD;
    assert s + x + rest == ((s + x) % WORD + rest) + q * WORD;
    Wraps((s + x) % WORD + rest, q, WORD);
  }

  // ---- arithmetic modulo 65535 ----

  /** x is congruent to y modulo 65535. */
  ghost predicate Congruent(x: int, y: int) {
    exists k: int :: x == y + Times(k)
  }

  function Times(k: int): int { 65535 * k }

  lemma CongruentBy(x: int, y: int, k: int)
    requires x == y + 65535 * k
    ensures Congruent(x, y)
  {
    assert x == y + Times(k);
  }

  lemma CongruentChain(x: int, y: int, z: int)
    requires Congruent(x, y) && Congruent(y, z)
    ensures Congruent(x, z) && Congruent(y, x)
  {
    var j: int :| x == y + Times(j);
    var k: int :| y == z + Times(k);
    CongruentBy(x, z, j + k);
    CongruentBy(y, x, -j);
  }

  /** Two congruent 16-bit values are equal, unless one is 0 and the other 0xffff. */
  lemma CongruentWords(x: nat, y: nat)
    requires x <= 0xffff && y <= 0xffff && Congruent(x, y)
    ensures x == y || (x == 0 && y == 0xffff) || (x == 0xffff && y == 0)
  {
    var k: int :| x == y + Times(k);
    assert -1 <= k <= 1;
  }

  /** Two folds suffice: the result is the end-around-carry sum, zero only for a zero sum. */
  lemma FoldIsCarrySum(sum: nat)
    requires sum < WORD
    ensures Congruent(Fold(sum), sum)
    ensures Fold(sum) == 0 <==> sum == 0
  {
    var q, r := sum / 0x10000, sum % 0x10000;
    var s1 := q + r;
    assert sum == q * 0x10000 + r && q <= 0xffff && s1 <= 0x1fffe;
    if s1 < 0x10000 {
      assert Fold(sum) == s1;
      CongruentBy(Fold(sum), sum, -q);
    } else {
      assert s1 / 0x10000 == 1;
      assert Fold(sum) == s1 - 65535;
      CongruentBy(Fold(sum), sum, -q - 1);
    }
  }

  lemma {:induction false} SumBound(o: Order, buf: seq<Byte>)
    ensures 2 * Sum(o, buf) <= 65535 * (|buf| + 1)
    ensures |buf| % 2 == 0 ==> 2 * Sum(o, buf) <= 65535 * |buf|
  {
    if |buf| < 2 {
    } else {
      SumBound(o, buf[2..]);
    }
  }

  /** Up to 131074 bytes the accumulator cannot overflow. */
  lemma NoOverflow(o: Order, buf: seq<Byte>)
    requires |buf| <= MAXLEN
    ensures Sum(o, buf) < WORD
  {
    SumBound(o, buf);
  }

  // ---- byte-order independence ----

  function Odds(buf: seq<Byte>): nat {
    if |buf| < 2 then 0 else buf[1] as int + Odds(buf[2..])
  }

  lemma {:induction false} SwappedSums(buf: seq<Byte>)
    ensures 256 * Sum(Little, buf) == Sum(Big, buf) + 65535 * Odds(buf)
    ensures Sum(Little, buf) == 0 <==> Sum(Big, buf) == 0
  {
    if |buf| < 2 {
    } else {
      SwappedSums(buf[2..]);
    }
  }

  function Swap(v: nat): nat
    requires v <= 0xffff
  {
    256 * (v % 256) + v / 256
  }

  /** The checksum stored in memory is the same two bytes on a little-endian and on a big-endian machine. */
  lemma ByteOrderIndependent(buf: seq<Byte>)
    requires |buf| <= MAXLEN
    ensures Stored(Little, Cksum(Little, buf)) == Stored(Big, Cksum(Big, buf))
  {
    hide Fold, Sum, Congruent;
    NoOverflow(Little, buf);
    NoOverflow(Big, buf);
    var sl, sb := Sum(Little, buf), Sum(Big, buf);
    var rl, rb := Fold(sl), Fold(sb);
    SwappedSums(buf);
    FoldIsCarrySum(sl);
    FoldIsCarrySum(sb);
    SwapTimes256(rl, sl, sb, Odds(buf));
    CongruentChain(rb, sb, Swap(rl));
    CongruentWords(rb, Swap(rl));
    assert rb == Swap(rl);
    SwapStores(rl);
  }

  lemma SwapTimes256(rl: nat, sl: nat, sb: nat, odds: nat)
    requires rl <= 0xffff && Congruent(rl, sl) && 256 * sl == sb + 65535 * odds
    ensures Congruent(sb, Swap(rl))
    ensures Swap(rl) <= 0xffff && (Swap(rl) == 0 <==> rl == 0)
  {
    var k: int :| rl == sl + Times(k);
    var h, l := rl / 256, rl % 256;
    assert rl == 256 * h + l;
    assert Swap(rl) == 256 * l + h;
    assert 256 * rl == 65536 * h + 256 * l == Swap(rl) + 65535 * h;
    assert 256 * rl == 256 * sl + 65535 * (256 * k);
    assert sb == Swap(rl) + 65535 * (h - 256 * k - odds);
    CongruentBy(sb, Swap(rl), h - 256 * k - odds);
  }

  lemma SwapStores(r: nat)
    requires r <= 0xffff
    ensures Swap(r) <= 0xffff && Stored(Little, 0xffff - r) == Stored(Big, 0xffff - Swap(r))
  {
    var h, l := r / 256, r % 256;
    assert r == 256 * h + l;
    assert 0xffff - r == 256 * (255 - h) + (255 - l);
    assert 0xffff - Swap(r) == 256 * (255 - l) + (255 - h);
  }

  // ---- insert, then verify ----

  /** The buffer with the 16-bit value stored at an even offset. */
  function Patched(o: Order, buf: seq<Byte>, f: nat, v: nat): (r: seq<Byte>)
    requires f % 2 == 0 && f + 2 <= |buf| && v <= 0xffff
    ensures |r| == |buf|
  {
    buf[f := Stored(o, v).0][f + 1 := Stored(o, v).1]
  }

  lemma LoadStored(o: Order, v: nat)
    requires v <= 0xffff
    ensures Load(o, Stored(o, v).0, Stored(o, v).1) == v
  {}

  lemma {:induction false} SumPatched(o: Order, buf: seq<Byte>, f: nat, v: nat)
    requires f % 2 == 0 && f + 2 <= |buf| && v <= 0xffff
    ensures Sum(o, Patched(o, buf, f, v)) == Sum(o, buf) - Load(o, buf[f], buf[f + 1]) + v
  {
    hide Stored, Load;
    var p := Patched(o, buf, f, v);
    LoadStored(o, v);
    if f == 0 {
      assert p[2..] == buf[2..];
    } else {
      SumPatched(o, buf[2..], f - 2, v);
      assert p[2..] == Patched(o, buf[2..], f - 2, v);
    }
  }

  /** A buffer verifies exactly when its words sum to a nonzero multiple of 65535. */
  lemma VerifiesIff(o: Order, buf: seq<Byte>)
    requires |buf| <= MAXLEN
    ensures Cksum(o, buf) == 0 <==> Sum(o, buf) != 0 && Congruent(Sum(o, buf), 0)
  {
    hide Fold, Sum, Congruent;
    NoOverflow(o, buf);
    var s := Sum(o, buf);
    FoldIsCarrySum(s);
    if Congruent(s, 0) && s != 0 {
      CongruentChain(Fold(s), s, 0);
      CongruentWords(Fold(s), 0);
    }
    if Fold(s) == 0xffff {
      CongruentBy(0xffff, 0, 1);
      CongruentChain(Fold(s), s, s) by { CongruentBy(s, s, 0); }
      CongruentChain(s, 0xffff, 0);
    }
  }

  /** Storing the checksum in a zeroed field makes the buffer verify, also when UDP stores 0xffff for 0. */
  lemma InsertThenVerify(o: Order, buf: seq<Byte>, f: nat, v: nat)
    requires |buf| <= MAXLEN && f % 2 == 0 && f + 2 <= |buf| && buf[f] == 0 && buf[f + 1] == 0
    requires v == Cksum(o, buf) || (Cksum(o, buf) == 0 && v == 0xffff)
    ensures Cksum(o, Patched(o, buf, f, v)) == 0
  {
    hide Fold, Sum, Congruent, Patched;
    var s := Sum(o, buf);
    NoOverflow(o, buf);
    FoldIsCarrySum(s);
    SumPatched(o, buf, f, v);
    assert Load(o, 0, 0) == 0;
    Completes(Fold(s), s, v);
    VerifiesIff(o, Patched(o, buf, f, v));
  }

  lemma Completes(r: nat, s: nat, v: nat)
    requires r <= 0xffff && Congruent(r, s) && (r == 0 <==> s == 0)
    requires v == 0xffff - r || (r == 0xffff && v == 0xffff)
    ensures s + v != 0 && Congruent(s + v, 0)
  {
    var k: int :| r == s + Times(k);
    CongruentBy(s + v, 0, if v == 0xffff - r then 1 - k else 2 - k);
  }

  /**
    In a buffer that verifies, changing one aligned word is noticed unless the new word is congruent
    to the old (0 for 0xffff or the reverse).
  */
  lemma WordErrorNoticed(o: Order, buf: seq<Byte>, f: nat, v: nat)
    requires |buf| <= MAXLEN && f % 2 == 0 && f + 2 <= |buf| && v <= 0xffff
    requires Cksum(o, buf) == 0
    ensures var was := Load(o, buf[f], buf[f + 1]);
      Cksum(o, Patched(o, buf, f, v)) == 0 <==> Congruent(v, was) && Sum(o, Patched(o, buf, f, v)) != 0
  {
    hide Fold, Sum, Patched, Load;
    var w := Load(o, buf[f], buf[f + 1]);
    var s, s' := Sum(o, buf), Sum(o, Patched(o, buf, f, v));
    VerifiesIff(o, buf);
    VerifiesIff(o, Patched(o, buf, f, v));
    SumPatched(o, buf, f, v);
    var k: int :| s == 0 + Times(k);
    if Congruent(v, w) {
      var j: int :| v == w + Times(j);
      CongruentBy(s', 0, k + j);
    }
    if Congruent(s', 0) {
      var j: int :| s' == 0 + Times(j);
      CongruentBy(v, w, j - k);
    }
  }

  lemma FourWords(o: Order, b: seq<Byte>)
    requires |b| == 8
    ensures Sum(o, b) == Load(o, b[0], b[1]) + Load(o, b[2], b[3]) + Load(o, b[4], b[5]) + Load(o, b[6], b[7])
  {
    hide Load;
    assert b[2..][2..] == b[4..] && b[4..][2..] == b[6..];
    assert Sum(o, b[6..]) == Load(o, b[6], b[7]) + Sum(o, b[6..][2..]);
    assert Sum(o, b[4..]) == Load(o, b[4], b[5]) + Sum(o, b[6..]);
    assert Sum(o, b[2..]) == Load(o, b[2], b[3]) + Sum(o, b[4..]);
  }

  /** The example of section 3 of RFC 1071. */
  lemma KnownSum()
    ensures Cksum(Big, [0x00, 0x01, 0xf2, 0x03, 0xf4, 0xf5, 0xf6, 0xf7]) == 0x220d
    ensures Stored(Little, Cksum(Little, [0x00, 0x01, 0xf2, 0x03, 0xf4, 0xf5, 0xf6, 0xf7])) == (0x22, 0x0d)
  {
    hide Sum;
    var b: seq<Byte> := [0x00, 0x01, 0xf2, 0x03, 0xf4, 0xf5, 0xf6, 0xf7];
    FourWords(Big, b);
    assert Sum(Big, b) == 0x2ddf0;
    hide Load;
    assert Cksum(Big, b) == 0x220d;
    hide Cksum, Fold;
    ByteOrderIndependent(b);
  }

  /** An odd last byte counts as if a zero followed it. */
  lemma {:induction false} OddPadded(o: Order, buf: seq<Byte>)
    requires |buf| % 2 == 1
    ensures Sum(o, buf + [0]) == Sum(o, buf)
  {
    if |buf| == 1 {
      assert (buf + [0])[2..] == [];
    } else {
      OddPadded(o, buf[2..]);
      assert (buf + [0])[2..] == buf[2..] + [0];
    }
  }

  // ---- past the bound ----

  /**
    For a buffer of any length the folded sum is right exactly when the 2^32-overflows of the
    accumulator cancel out.
  */
  lemma RightIffNoLoss(o: Order, buf: seq<Byte>)
    ensures Congruent(Fold(Sum(o, buf) % WORD), Sum(o, buf)) <==> Congruent(Sum(o, buf) / WORD, 0)
  {
    hide Fold, Sum, Congruent;
    var s := Sum(o, buf);
    var k, low := s / WORD, s % WORD;
    FoldIsCarrySum(low);
    LossIs(Fold(low), low, k, s);
  }

  lemma LossIs(r: nat, low: nat, k: nat, s: nat)
    requires Congruent(r, low) && s == k * WORD + low
    ensures Congruent(r, s) <==> Congruent(k, 0)
  {
    var j: int :| r == low + Times(j);
    assert WORD == 65535 * 65537 + 1;
    assert s == low + k + 65535 * (65537 * k);
    if Congruent(r, s) {
      var i: int :| r == s + Times(i);
      CongruentBy(k, 0, j - i - 65537 * k);
    }
    if Congruent(k, 0) {
      var i: int :| k == 0 + Times(i);
      CongruentBy(r, s, j - i - 65537 * k);
    }
  }

  /** The word sum is folded rightly for every buffer of length `n`. */
  ghost predicate RightAt(o: Order, n: nat) {
    forall buf: seq<Byte> :: |buf| == n ==> Congruent(Fold(Sum(o, buf) % WORD), Sum(o, buf))
  }

  /** The bound is exact, in either byte order: one byte more and some buffer is summed wrongly. */
  lemma BoundIsTight(o: Order, n: nat)
    ensures RightAt(o, n) <==> n <= MAXLEN
  {
    hide Fold, Sum, Congruent;
    if n <= MAXLEN {
      forall buf: seq<Byte> | |buf| == n ensures Congruent(Fold(Sum(o, buf) % WORD), Sum(o, buf)) {
        NoOverflow(o, buf);
        FoldIsCarrySum(Sum(o, buf));
      }
    } else {
      var buf: seq<Byte> := seq(MAXLEN + 1, i => 255) + seq(n - MAXLEN - 1, i => 0);
      SumOnes(o, buf, MAXLEN / 2);
      assert Sum(o, buf) / WORD == 1 by { assert Load(o, 255, 0) >= 1; }
      RightIffNoLoss(o, buf);
      if Congruent(1, 0) { CongruentWords(1, 0); }
    }
  }

  /** `k` words of ones, one more byte of ones, and zeros. */
  lemma {:induction false} SumOnes(o: Order, buf: seq<Byte>, k: nat)
    requires |buf| > 2 * k
    requires forall i :: 0 <= i <= 2 * k ==> buf[i] == 255
    requires forall i :: 2 * k < i < |buf| ==> buf[i] == 0
    ensures Sum(o, buf) == 65535 * k + Load(o, 255, 0)
  {
    if k == 0 {
      if |buf| >= 2 { SumZeros(o, buf[2..]); }
    } else {
      SumOnes(o, buf[2..], k - 1);
    }
  }

  lemma {:induction false} SumZeros(o: Order, buf: seq<Byte>)
    requires forall i :: 0 <= i < |buf| ==> buf[i] == 0
    ensures Sum(o, buf) == 0
  {
    if |buf| < 2 {
    } else {
      SumZeros(o, buf[2..]);
    }
  }
}
