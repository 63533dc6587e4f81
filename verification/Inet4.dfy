/**
  IPv4 text: `inet_pton4`, `inet_ntop4` and the looser `inet_aton`.
*/
module Inet4 {
  import opened Machine
  import opened Fields

  // ---- what the texts mean ----

  predicate Octet(f: string) {
    f != "" && Numeral(f, 10) && Value(f, 10) <= 255
  }

  /** Exactly four non-empty decimal fields of value at most 255; leading zeros are free. */
  predicate IsQuad(s: string) {
    var fs := Split(s, '.');
    |fs| == 4 && Octet(fs[0]) && Octet(fs[1]) && Octet(fs[2]) && Octet(fs[3])
  }

  function QuadBytes(s: string): (bs: seq<Byte>)
    requires IsQuad(s)
    ensures |bs| == 4
  {
    var fs := Split(s, '.');
    [Value(fs[0], 10), Value(fs[1], 10), Value(fs[2], 10), Value(fs[3], 10)]
  }

  /** A field as `inet_aton` reads it: decimal digits, possibly none, value taken modulo the width. */
  predicate LooseField(f: string) {
    Numeral(f, 10) && Value(f, 10) % ULONG <= 255
  }

  /** One to four loose fields. */
  predicate IsLoose(s: string) {
    var fs := Split(s, '.');
    |fs| <= 4 && forall k :: 0 <= k < |fs| ==> LooseField(fs[k])
  }

  function LooseByte(fs: seq<string>, k: nat): Byte
    requires k < |fs| ==> LooseField(fs[k])
  {
    if k < |fs| then Value(fs[k], 10) % ULONG else 0
  }

  /** Missing trailing fields are zero bytes. */
  function LooseBytes(s: string): (bs: seq<Byte>)
    requires IsLoose(s)
    ensures |bs| == 4
  {
    var fs := Split(s, '.');
    [LooseByte(fs, 0), LooseByte(fs, 1), LooseByte(fs, 2), LooseByte(fs, 3)]
  }

  // ---- facts about scanning ----

  lemma NumeralNoSep(s: string, c: char)
    requires Numeral(s, 16) && Digit(c) == 16
    ensures c !in s
  {
    forall i | 0 <= i < |s| ensures s[i] != c {
      assert Digit(s[i]) < 16;
    }
  }

  // ---- scanning: `done` holds the closed fields, `cur` the digits of the open one ----

  ghost predicate Scanned(src: string, i: nat, done: seq<string>, cur: string) {
    && i <= |src|
    && Numeral(cur, 10)
    && Split(src, '.') == done + Split(cur + src[i..], '.')
  }

  lemma ScanStart(src: string)
    ensures Scanned(src, 0, [], "") && Value("", 10) == 0
  {
    assert "" + src[0..] == src;
  }

  lemma ScanDigit(src: string, i: nat, done: seq<string>, cur: string)
    requires i < |src| && Scanned(src, i, done, cur) && Digit(src[i]) < 10
    ensures Scanned(src, i + 1, done, cur + [src[i]])
    ensures Value(cur + [src[i]], 10) == Value(cur, 10) * 10 + Digit(src[i])
  {
    assert cur + src[i..] == (cur + [src[i]]) + src[i + 1..];
    ValueSnoc(cur, src[i], 10);
  }

  lemma ScanDot(src: string, i: nat, done: seq<string>, cur: string)
    requires i < |src| && Scanned(src, i, done, cur) && src[i] == '.'
    ensures Scanned(src, i + 1, done + [cur], "")
    ensures |Split(src, '.')| >= |done| + 2
    ensures Split(src, '.')[|done|] == cur
  {
    NumeralNoSep(cur, '.');
    assert src[i..] == ['.'] + src[i + 1..];
    SplitAtSep(cur, src[i + 1..], '.');
    assert "" + src[i + 1..] == src[i + 1..];
  }

  lemma ScanEnd(src: string, done: seq<string>, cur: string)
    requires Scanned(src, |src|, done, cur)
    ensures Split(src, '.') == done + [cur]
  {
    NumeralNoSep(cur, '.');
    SplitWhole(cur, '.');
    assert cur + src[|src|..] == cur;
  }

  /** The open field starts with the digits already read. */
  lemma OpenField(src: string, i: nat, done: seq<string>, cur: string)
    requires Scanned(src, i, done, cur)
    ensures |Split(src, '.')| > |done|
    ensures cur <= Split(src, '.')[|done|]
  {
    NumeralNoSep(cur, '.');
    SplitPrefix(cur, src[i..], '.');
  }

  lemma RejectBig(src: string, i: nat, done: seq<string>, cur: string)
    requires Scanned(src, i, done, cur) && Value(cur, 10) > 255
    ensures !IsQuad(src)
  {
    OpenField(src, i, done, cur);
    var f := Split(src, '.')[|done|];
    assert f == cur + f[|cur|..];
    ValuePrefix(cur, f[|cur|..], 10);
    assert !Octet(f);
  }

  /** A character that is neither a digit nor a dot spoils the field it is in. */
  lemma RejectChar(src: string, i: nat, done: seq<string>, cur: string)
    requires i < |src| && Scanned(src, i, done, cur) && Digit(src[i]) >= 10 && src[i] != '.'
    ensures !IsQuad(src) && !IsLoose(src)
  {
    var rest := src[i + 1..];
    NumeralNoSep(cur, '.');
    assert src[i..] == [src[i]] + rest;
    SplitPrefix(cur, src[i..], '.');
    assert src[i..][1..] == rest;
    var f := Split(src, '.')[|done|];
    assert f[|cur|] == src[i];
    assert !Numeral(f, 10);
  }

  lemma RejectEmpty(src: string, i: nat, done: seq<string>)
    requires i < |src| && Scanned(src, i, done, "") && src[i] == '.'
    ensures !IsQuad(src)
  {
    ScanDot(src, i, done, "");
    assert !Octet(Split(src, '.')[|done|]);
  }

  // ---- inet_pton4 ----

  method Pton4(src: string, dst: array<Byte>, at: nat) returns (ok: bool)
    requires at + 4 <= dst.Length
    modifies dst
    ensures ok <==> IsQuad(src)
    ensures ok ==> dst[..] == old(dst[..at]) + QuadBytes(src) + old(dst[at + 4..])
    ensures !ok ==> dst[..] == old(dst[..])
  {
    var tmp := new Byte[4];
    ok := ScanQuad(src, tmp);
    if ok {
      forall k | 0 <= k < 4 { dst[at + k] := tmp[k]; }
    }
  }

  /** The character loop of `inet_pton4`, filling its four-byte temporary. */
  method ScanQuad(src: string, tmp: array<Byte>) returns (ok: bool)
    requires tmp.Length == 4
    modifies tmp
    ensures ok <==> IsQuad(src)
    ensures ok ==> tmp[..] == QuadBytes(src)
  {
    hide Split, Value, Numeral, Scanned, IsQuad, QuadBytes, Digit, Find;
    var tp, octets, sawDigit := 0, 0, false;
    tmp[0] := 0;
    ghost var done: seq<string>, cur: string := [], "";
    ScanStart(src);
    var i := 0;
    while i < |src|
      invariant 0 <= i <= |src| && Scanned(src, i, done, cur)
      invariant |done| == tp <= 3
      invariant forall k :: 0 <= k < tp ==> Octet(done[k]) && tmp[k] == Value(done[k], 10)
      invariant tmp[tp] == Value(cur, 10)
      invariant sawDigit <==> cur != ""
      invariant octets == tp + (if sawDigit then 1 else 0)
    {
      var ch := src[i];
      var pch := Find(DIGITS, ch);
      DecimalIs(ch);
      if pch < 10 {
        var value := tmp[tp] as int * 10 + pch;
        ScanDigit(src, i, done, cur);
        cur := cur + [ch];
        if value > 255 {
          RejectBig(src, i + 1, done, cur);
          return false;
        }
        tmp[tp] := value;
        if !sawDigit {
          octets := octets + 1;
          assert octets <= 4;  // so the source's "more than four octets" exit is never taken here
          sawDigit := true;
        }
      } else if ch == '.' && sawDigit {
        OctetIntro(src, i, done, cur);
        ScanDot(src, i, done, cur);
        if octets == 4 {
          FiveFields(src);
          return false;
        }
        done, cur := done + [cur], "";
        tp := tp + 1;
        tmp[tp] := 0;
        sawDigit := false;
        ScanStart(src);
      } else {
        if ch == '.' {
          RejectEmpty(src, i, done);
        } else {
          RejectChar(src, i, done, cur);
        }
        return false;
      }
      i := i + 1;
    }
    ScanEnd(src, done, cur);
    QuadIntro(src, done, cur);
    ok := octets == 4;
  }

  lemma OctetIntro(src: string, i: nat, done: seq<string>, cur: string)
    requires Scanned(src, i, done, cur) && cur != "" && Value(cur, 10) <= 255
    ensures Octet(cur)
  {}

  lemma FiveFields(src: string)
    requires |Split(src, '.')| > 4
    ensures !IsQuad(src)
  {}

  lemma QuadIntro(src: string, done: seq<string>, cur: string)
    requires Split(src, '.') == done + [cur] && Scanned(src, |src|, done, cur)
    requires |done| <= 3 && (forall k :: 0 <= k < |done| ==> Octet(done[k])) && Value(cur, 10) <= 255
    ensures IsQuad(src) <==> |done| == 3 && cur != ""
    ensures IsQuad(src) ==>
              QuadBytes(src) == [Value(done[0], 10), Value(done[1], 10), Value(done[2], 10), Value(cur, 10)]
  {
    if |done| == 3 {
      assert Octet(done[0]) && Octet(done[1]) && Octet(done[2]);
      assert Octet(cur) <==> cur != "";
    }
  }

  // ---- inet_ntop4 ----

  function QuadText(bs: seq<Byte>): string
    requires |bs| == 4
  {
    Join([Text(bs[0], 10), Text(bs[1], 10), Text(bs[2], 10), Text(bs[3], 10)], '.')
  }

  lemma DecFieldPlain(n: nat, c: char)
    requires Digit(c) == 16
    ensures c !in Text(n, 10)
  {
    TextValue(n, 10);
    NumeralNoSep(Text(n, 10), c);
  }

  /** IPv4 round trip, and the printed text fits the 16-byte temporary. */
  lemma QuadRoundTrip(bs: seq<Byte>)
    requires |bs| == 4
    ensures IsQuad(QuadText(bs)) && QuadBytes(QuadText(bs)) == bs
    ensures 7 <= |QuadText(bs)| <= 15
  {
    var fs := [Text(bs[0], 10), Text(bs[1], 10), Text(bs[2], 10), Text(bs[3], 10)];
    forall k | 0 <= k < 4
      ensures Octet(fs[k]) && Value(fs[k], 10) == bs[k] && '.' !in fs[k] && 1 <= |fs[k]| <= 3
    {
      assert fs[k] == Text(bs[k], 10);
      TextValue(bs[k], 10);
      DecTextLength(bs[k]);
      DecFieldPlain(bs[k], '.');
    }
    SplitJoin(fs, '.');
    JoinFour(fs[0], fs[1], fs[2], fs[3], '.');
  }

  /** A dotted quad holds nothing but digits and dots. */
  lemma QuadChars(s: string, c: char)
    requires IsQuad(s) && Digit(c) >= 10 && c != '.'
    ensures c !in s
  {
    var fs := Split(s, '.');
    forall k | 0 <= k < |fs| ensures c !in fs[k] {
      assert Octet(fs[k]);
      forall i | 0 <= i < |fs[k]| ensures fs[k][i] != c { assert Digit(fs[k][i]) < 10; }
    }
    if c in s { SplitCovers(s, '.', c); }
  }

  // ---- inet_aton ----

  /** The host-order value of four bytes in network order. */
  function Pack(bs: seq<Byte>): nat
    requires |bs| == 4
  {
    bs[0] as int * 0x1000000 + bs[1] as int * 0x10000 + bs[2] as int * 0x100 + bs[3] as int
  }

  /** The accumulator after some fields: their bytes in base 256. */
  function Packed(fs: seq<string>): nat
    requires forall k :: 0 <= k < |fs| ==> LooseField(fs[k])
  {
    if fs == [] then 0 else Packed(fs[..|fs| - 1]) * 256 + Value(fs[|fs| - 1], 10) % ULONG
  }

  lemma PackedSnoc(fs: seq<string>, f: string)
    requires forall k :: 0 <= k < |fs| ==> LooseField(fs[k])
    requires LooseField(f)
    ensures Packed(fs + [f]) == Packed(fs) * 256 + Value(f, 10) % ULONG
  {
    assert (fs + [f])[..|fs|] == fs;
  }

  function ShiftLeft8(a: nat, times: nat): nat
    decreases times
  {
    if times == 0 then a else ShiftLeft8(a * 256, times - 1)
  }

  lemma WrapDigit(v: nat, d: nat)
    ensures (v % ULONG * 10 + d) % ULONG == (v * 10 + d) % ULONG
  {
    var q := v / ULONG;
    assert v * 10 + d == (v % ULONG * 10 + d) + q * 10 * ULONG;
    Wraps(v % ULONG * 10 + d, q * 10, ULONG);
  }

  lemma PackedAll(fs: seq<string>)
    requires 1 <= |fs| <= 4 && forall k :: 0 <= k < |fs| ==> LooseField(fs[k])
    ensures var b := (k: nat) requires k < |fs| ==> LooseField(fs[k]) => LooseByte(fs, k) as int;
      && (|fs| == 1 ==> Packed(fs) == b(0))
      && (|fs| == 2 ==> Packed(fs) == b(0) * 0x100 + b(1))
      && (|fs| == 3 ==> Packed(fs) == b(0) * 0x10000 + b(1) * 0x100 + b(2))
      && (|fs| == 4 ==> Packed(fs) == b(0) * 0x1000000 + b(1) * 0x10000 + b(2) * 0x100 + b(3))
  {
    hide Value;
    if |fs| == 1 {
    } else {
      var fs' := fs[..|fs| - 1];
      PackedAll(fs');
      assert forall k: nat :: k < |fs'| ==> LooseField(fs'[k]) && LooseByte(fs', k) == LooseByte(fs, k);
    }
  }

  lemma NormalizedPack(s: string)
    requires IsLoose(s)
    ensures ShiftLeft8(Packed(Split(s, '.')), 4 - |Split(s, '.')|) == Pack(LooseBytes(s))
  {
    hide Value, Split, Packed;
    var fs := Split(s, '.');
    PackedAll(fs);
    var p := Packed(fs);
    assert ShiftLeft8(p, 0) == p && ShiftLeft8(p, 1) == p * 256;
    assert ShiftLeft8(p, 2) == ShiftLeft8(p * 256, 1) == p * 0x10000;
    assert ShiftLeft8(p, 3) == ShiftLeft8(p * 256, 2) == ShiftLeft8(p * 0x10000, 1) == p * 0x1000000;
  }

  /** `addr` is the host-order value whose network-order bytes are stored through `ap`. */
  method Aton(cp: string) returns (ok: bool, addr: nat)
    ensures ok <==> IsLoose(cp)
    ensures ok ==> addr == Pack(LooseBytes(cp))
  {
    var dots;
    ok, addr, dots := ScanLoose(cp);
    if ok {
      NormalizedPack(cp);
      while dots < 3
        invariant dots <= 3
        invariant ShiftLeft8(addr, 3 - dots) == Pack(LooseBytes(cp))
      {
        addr := addr * 256;
        dots := dots + 1;
      }
    }
  }

  /** The do/while loop of `inet_aton`. */
  method ScanLoose(cp: string) returns (ok: bool, addr: nat, dots: nat)
    ensures ok <==> IsLoose(cp)
    ensures ok ==> dots == |Split(cp, '.')| - 1 && addr == Packed(Split(cp, '.'))
  {
    hide Split, Value, Numeral, Scanned, Packed, IsLoose;
    var acc := 0;
    addr, dots := 0, 0;
    ghost var done: seq<string>, cur: string := [], "";
    ScanStart(cp);
    assert Packed([]) == 0 by { PackedNil(); }
    var i := 0;
    while i < |cp|
      invariant 0 <= i <= |cp| && Scanned(cp, i, done, cur)
      invariant |done| == dots <= 3
      invariant forall k :: 0 <= k < dots ==> LooseField(done[k])
      invariant addr == Packed(done)
      invariant acc == Value(cur, 10) % ULONG
    {
      var cc := cp[i];
      if '0' <= cc <= '9' {
        ScanDigit(cp, i, done, cur);
        WrapDigit(Value(cur, 10), Digit(cc));
        acc := (acc * 10 + (cc as int - '0' as int)) % ULONG;
        cur := cur + [cc];
      } else if cc == '.' {
        ScanDot(cp, i, done, cur);
        dots := dots + 1;
        if dots > 3 || acc > 255 {
          LooseNeeds(cp, |done|);
          return false, 0, dots;
        }
        LooseIntro(cp, i, done, cur);
        PackedSnoc(done, cur);
        addr := addr * 256 + acc;
        acc := 0;
        done, cur := done + [cur], "";
        ScanStart(cp);
      } else {
        RejectChar(cp, i, done, cur);
        return false, 0, dots;
      }
      i := i + 1;
    }
    // the terminating NUL closes the last field
    ScanEnd(cp, done, cur);
    if acc > 255 {
      LooseNeeds(cp, |done|);
      return false, 0, dots;
    }
    LooseIntro(cp, i, done, cur);
    PackedSnoc(done, cur);
    addr := addr * 256 + acc;
    LooseWhole(cp);
    ok := true;
  }

  lemma PackedNil()
    ensures Packed([]) == 0
  {}

  lemma LooseNeeds(s: string, k: nat)
    requires |Split(s, '.')| > 4 || (k < |Split(s, '.')| && Value(Split(s, '.')[k], 10) % ULONG > 255)
    ensures !IsLoose(s)
  {
    if |Split(s, '.')| <= 4 { assert !LooseField(Split(s, '.')[k]); }
  }

  lemma LooseIntro(src: string, i: nat, done: seq<string>, cur: string)
    requires Scanned(src, i, done, cur) && Value(cur, 10) % ULONG <= 255
    ensures LooseField(cur)
  {}

  lemma LooseWhole(s: string)
    requires |Split(s, '.')| <= 4 && forall k :: 0 <= k < |Split(s, '.')| ==> LooseField(Split(s, '.')[k])
    ensures IsLoose(s)
  {}

  /** Every text the strict parser takes, the loose one takes with the same four bytes. */
  lemma StrictIsLoose(s: string)
    requires IsQuad(s)
    ensures IsLoose(s) && LooseBytes(s) == QuadBytes(s)
  {
    hide Split, Value, Numeral;
    var fs := Split(s, '.');
    forall k | 0 <= k < |fs| ensures LooseField(fs[k]) && LooseByte(fs, k) == Value(fs[k], 10) {
      assert Octet(fs[k]);
    }
  }

  /**
    The converse fails exactly on texts with fewer than four fields, an empty field, or a field whose
    value wraps around.
  */
  lemma StrictIff(s: string)
    ensures IsQuad(s) <==>
      && IsLoose(s) && |Split(s, '.')| == 4
      && forall k :: 0 <= k < 4 ==> Split(s, '.')[k] != "" && Value(Split(s, '.')[k], 10) < ULONG
  {
    hide Split, Value, Numeral;
    if IsQuad(s) { StrictIsLoose(s); }
    var fs := Split(s, '.');
    if IsLoose(s) && |fs| == 4 {
      forall k | 0 <= k < 4 && fs[k] != "" && Value(fs[k], 10) < ULONG ensures Octet(fs[k]) {
        assert LooseField(fs[k]);
      }
    }
  }

  /** Four printed numbers: strict if they are at most 255, loose already if they are so modulo 2^64. */
  lemma PrintedNumbers(ns: seq<nat>)
    requires |ns| == 4
    ensures var s := Join([Text(ns[0], 10), Text(ns[1], 10), Text(ns[2], 10), Text(ns[3], 10)], '.');
      && (IsQuad(s) <==> forall k :: 0 <= k < 4 ==> ns[k] <= 255)
      && (IsLoose(s) <==> forall k :: 0 <= k < 4 ==> ns[k] % ULONG <= 255)
  {
    hide Split, Value, Numeral, Text, Join;
    var fs := [Text(ns[0], 10), Text(ns[1], 10), Text(ns[2], 10), Text(ns[3], 10)];
    forall k | 0 <= k < 4
      ensures Numeral(fs[k], 10) && fs[k] != "" && Value(fs[k], 10) == ns[k] && '.' !in fs[k]
    {
      assert fs[k] == Text(ns[k], 10);
      TextValue(ns[k], 10);
      DecFieldPlain(ns[k], '.');
    }
    SplitJoin(fs, '.');
  }

  /** Texts of the other two kinds: too few fields, an empty field. */
  lemma LooseIsNotStrict()
    ensures IsLoose("") && !IsQuad("")
    ensures IsLoose("1") && !IsQuad("1")
    ensures IsLoose("1..1.1") && !IsQuad("1..1.1")
  {
    assert Split("", '.') == [""];
    assert "1"[..0] == "" && Value("1", 10) == Value("", 10) * 10 + 1;
    SplitWhole("1", '.');
    hide Split, Value;
    GapText();
  }

  lemma GapText()
    ensures Split("1..1.1", '.') == ["1", "", "1", "1"] && Value("", 10) == 0
  {
    hide Split, Join;
    SplitJoin(["1", "", "1", "1"], '.');
    JoinFour("1", "", "1", "1", '.');
    assert Join(["1", "", "1", "1"], '.') == "1..1.1";
  }

  lemma ShorthandText()
    ensures Split("10.1", '.') == ["10", "1"]
    ensures Numeral("10", 10) && Numeral("1", 10) && Value("10", 10) == 10 && Value("1", 10) == 1
  {
    assert ["10", "1"][1..] == ["1"] && Join(["10", "1"], '.') == "10.1";
    assert "10"[..1] == "1" && "1"[..0] == "" && Value("1", 10) == 1;
    hide Split;
    SplitJoin(["10", "1"], '.');
  }

  /** A known answer: the first field is the highest byte, missing ones are at the low end. */
  lemma Shorthand()
    ensures IsLoose("10.1") && LooseBytes("10.1") == [10, 1, 0, 0] && Pack(LooseBytes("10.1")) == 0x0a010000
  {
    hide Split, Value, Numeral;
    ShorthandText();
  }
}
