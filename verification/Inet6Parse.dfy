/**
  IPv6 text to bytes: `inet_pton6`, characterised exactly on every string.
*/
module Inet6Parse {
  import opened Machine
  import opened Fields
  import opened Inet4

  // ---- what the code accepts, read off the colon-separated fields ----

  predicate HexGroup(f: string) {
    f != "" && Numeral(f, 16) && Value(f, 16) <= 0xffff
  }

  /** A leading colon must be doubled; the first of the two is then skipped. */
  predicate LeadOk(s: string) {
    |s| >= 1 && s[0] == ':' ==> |s| >= 2 && s[1] == ':'
  }

  function Body(s: string): string {
    if |s| >= 1 && s[0] == ':' then s[1..] else s
  }

  /** An empty field that is not the last one is a `::`. */
  predicate Marker(fs: seq<string>, k: int) {
    0 <= k < |fs| - 1 && fs[k] == ""
  }

  predicate InnerField(f: string) {
    f == "" || HexGroup(f)
  }

  predicate LastField(f: string) {
    f == "" || HexGroup(f) || IsQuad(f)
  }

  /** Groups separated by colons, at most one `::`, the last field a group, a dotted quad or nothing. */
  ghost predicate WellFormed(fs: seq<string>) {
    && |fs| >= 1
    && (forall k :: 0 <= k < |fs| - 1 ==> InnerField(fs[k]))
    && LastField(fs[|fs| - 1])
    && (forall j, k :: Marker(fs, j) && Marker(fs, k) ==> j == k)
  }

  function GroupBytes(w: nat): (bs: seq<Byte>)
    requires w <= 0xffff
    ensures |bs| == 2
  {
    [w / 256, w % 256]
  }

  function FieldBytes(f: string): seq<Byte> {
    if HexGroup(f) then GroupBytes(Value(f, 16)) else if IsQuad(f) then QuadBytes(f) else []
  }

  function Bytes(fs: seq<string>): seq<Byte> {
    if fs == [] then [] else Bytes(fs[..|fs| - 1]) + FieldBytes(fs[|fs| - 1])
  }

  function Zeros(n: nat): (z: seq<Byte>)
    ensures |z| == n
  {
    seq(n, i => 0)
  }

  ghost predicate HasMarker(fs: seq<string>) {
    exists k :: Marker(fs, k)
  }

  ghost function MarkerOf(fs: seq<string>): int
    requires HasMarker(fs)
    ensures Marker(fs, MarkerOf(fs))
  {
    var k :| Marker(fs, k); k
  }

  /**
    The bytes after the `::` go to the end of the address and zeros fill the gap. When nothing
    is elided the code instead erases the bytes after the `::`.
  */
  function Expand(bs: seq<Byte>, c: nat): (r: seq<Byte>)
    requires c <= |bs| <= 16
    ensures |r| == 16
  {
    if |bs| < 16 then bs[..c] + Zeros(16 - |bs|) + bs[c..] else bs[..c] + Zeros(16 - c)
  }

  ghost predicate Accepts(s: string) {
    var fs := Split(Body(s), ':');
    && LeadOk(s)
    && WellFormed(fs)
    && (if HasMarker(fs) then |Bytes(fs)| <= 16 else |Bytes(fs)| == 16)
  }

  /** Bytes in front of the `::`. */
  ghost function Before(fs: seq<string>): (c: nat)
    requires HasMarker(fs)
    ensures c <= |Bytes(fs)|
  {
    BytesPrefix(fs, MarkerOf(fs));
    |Bytes(fs[..MarkerOf(fs)])|
  }

  ghost function Parsed(s: string): (r: seq<Byte>)
    requires Accepts(s)
    ensures |r| == 16
  {
    var fs := Split(Body(s), ':');
    if HasMarker(fs) then Expand(Bytes(fs), Before(fs)) else Bytes(fs)
  }

  // ---- facts about field bytes ----

  lemma {:induction false} BytesPrefix(fs: seq<string>, k: nat)
    requires k <= |fs|
    ensures Bytes(fs[..k]) <= Bytes(fs)
  {
    if k < |fs| {
      BytesPrefix(fs[..|fs| - 1], k);
      assert fs[..|fs| - 1][..k] == fs[..k];
    } else {
      assert fs[..k] == fs;
    }
  }

  lemma BytesSnoc(fs: seq<string>, f: string)
    ensures Bytes(fs + [f]) == Bytes(fs) + FieldBytes(f)
  {
    assert (fs + [f])[..|fs|] == fs;
  }

  lemma EmptyField()
    ensures FieldBytes("") == [] && !HexGroup("") && !IsQuad("")
  {
    assert Split("", '.') == [""];
  }

  lemma HexGroupChars(f: string, c: char)
    requires Digit(c) == 16 && c in f
    ensures !HexGroup(f)
  {
    var i :| 0 <= i < |f| && f[i] == c;
    assert !Numeral(f, 16);
  }

  lemma QuadNotHex(f: string)
    requires IsQuad(f)
    ensures !HexGroup(f) && f != "" && ':' !in f && '.' in f
    ensures FieldBytes(f) == QuadBytes(f)
  {
    QuadChars(f, ':');
    EmptyField();
    if '.' !in f { SplitWhole(f, '.'); }
    HexGroupChars(f, '.');
  }

  // ---- the hexadecimal reading of a decimal field never overflows ----

  lemma {:induction false} DecimalAsHex(f: string)
    requires Numeral(f, 10)
    ensures Value(f, 10) <= 9 ==> Value(f, 16) <= 0x9
    ensures Value(f, 10) <= 99 ==> Value(f, 16) <= 0x99
    ensures Value(f, 10) <= 999 ==> Value(f, 16) <= 0x999
    ensures Value(f, 10) == 0 ==> Value(f, 16) == 0
  {
    if f == "" {
    } else {
      DecimalAsHex(f[..|f| - 1]);
    }
  }

  /** Hexadecimal digits that start a dotted quad stay below 0x1000. */
  lemma QuadHexPrefix(f: string, p: string)
    requires IsQuad(f) && p <= f && Numeral(p, 16)
    ensures Value(p, 16) <= 0x999
  {
    var r := f[|p|..];
    assert f == p + r;
    NumeralNoSep(p, '.');
    SplitPrefix(p, r, '.');
    var o := Split(f, '.')[0];
    var r0 := Split(r, '.')[0];
    assert Octet(o) && o == p + r0;
    DecimalAsHex(o);
    ValuePrefix(p, r0, 16);
  }

  // ---- scanning ----

  /** Closed fields `done` and the hexadecimal digits `cur` of the open one, in front of position `i`. */
  ghost predicate Scanned6(t: string, i: nat, done: seq<string>, cur: string) {
    && i <= |t|
    && Numeral(cur, 16)
    && |cur| <= i && t[i - |cur|..i] == cur
    && Split(t, ':') == done + Split(cur + t[i..], ':')
    && (forall k :: 0 <= k < |done| ==> InnerField(done[k]))
    && (forall j, k :: 0 <= j < |done| && 0 <= k < |done| && done[j] == "" && done[k] == "" ==> j == k)
  }

  lemma Start6(t: string)
    ensures Scanned6(t, 0, [], "") && Value("", 16) == 0 && Bytes([]) == []
  {
    assert "" + t[0..] == t;
  }

  lemma Digit6(t: string, i: nat, done: seq<string>, cur: string)
    requires i < |t| && Scanned6(t, i, done, cur) && Digit(t[i]) < 16
    ensures Scanned6(t, i + 1, done, cur + [t[i]])
    ensures Value(cur + [t[i]], 16) == Value(cur, 16) * 16 + Digit(t[i])
  {
    assert cur + t[i..] == (cur + [t[i]]) + t[i + 1..];
    ValueSnoc(cur, t[i], 16);
  }

  lemma Colon6(t: string, i: nat, done: seq<string>, cur: string)
    requires i < |t| && Scanned6(t, i, done, cur) && t[i] == ':'
    ensures |Split(t, ':')| >= |done| + 2 && Split(t, ':')[..|done| + 1] == done + [cur]
    ensures InnerField(cur) && (cur == "" ==> "" !in done) ==> Scanned6(t, i + 1, done + [cur], "")
  {
    hide Split, Value, InnerField;
    NumeralNoSep(cur, ':');
    assert t[i..] == [':'] + t[i + 1..];
    SplitAtSep(cur, t[i + 1..], ':');
    assert "" + t[i + 1..] == t[i + 1..];
    assert done + ([cur] + Split(t[i + 1..], ':')) == (done + [cur]) + Split(t[i + 1..], ':');
  }

  /** The field after the closed ones starts with the digits read. */
  lemma OpenField6(t: string, i: nat, done: seq<string>, cur: string)
    requires Scanned6(t, i, done, cur)
    ensures |Split(t, ':')| > |done| && Split(t, ':')[..|done|] == done
    ensures cur <= Split(t, ':')[|done|]
    ensures i < |t| && t[i] != ':' ==> |Split(t, ':')[|done|]| > |cur| && Split(t, ':')[|done|][|cur|] == t[i]
    ensures t[i - |cur|..] == cur + t[i..]
  {
    NumeralNoSep(cur, ':');
    SplitPrefix(cur, t[i..], ':');
    if i < |t| {
      assert t[i..] == [t[i]] + t[i + 1..];
      assert t[i..][1..] == t[i + 1..];
    }
    assert t[i - |cur|..] == t[i - |cur|..i] + t[i..];
  }

  lemma RejectBig6(t: string, i: nat, done: seq<string>, cur: string)
    requires Scanned6(t, i, done, cur) && Value(cur, 16) > 0xffff
    ensures !WellFormed(Split(t, ':'))
  {
    OpenField6(t, i, done, cur);
    var f := Split(t, ':')[|done|];
    assert f == cur + f[|cur|..];
    ValuePrefix(cur, f[|cur|..], 16);
    assert f != "" && !HexGroup(f);
    if IsQuad(f) { QuadHexPrefix(f, cur); }
  }

  lemma RejectSecondMarker(t: string, i: nat, done: seq<string>)
    requires i < |t| && Scanned6(t, i, done, "") && t[i] == ':' && "" in done
    ensures !WellFormed(Split(t, ':'))
  {
    Colon6(t, i, done, "");
    var k :| 0 <= k < |done| && done[k] == "";
    var fs := Split(t, ':');
    assert fs[k] == fs[..|done| + 1][k] && fs[|done|] == fs[..|done| + 1][|done|];
    assert Marker(fs, k) && Marker(fs, |done|);
  }

  lemma RejectLong(fs: seq<string>, k: nat)
    requires k <= |fs| && |Bytes(fs[..k])| > 16
    ensures |Bytes(fs)| > 16
  {
    BytesPrefix(fs, k);
  }

  /** At a dot or any other foreign character only a final dotted quad can save the text. */
  lemma Foreign6(t: string, i: nat, done: seq<string>, cur: string)
    requires i < |t| && Scanned6(t, i, done, cur) && Digit(t[i]) == 16 && t[i] != ':'
    ensures WellFormed(Split(t, ':')) ==> t[i] == '.' && IsQuad(t[i - |cur|..])
    ensures IsQuad(t[i - |cur|..]) ==> Split(t, ':') == done + [t[i - |cur|..]]
  {
    hide Split, Value, Numeral, IsQuad, HexGroup;
    OpenField6(t, i, done, cur);
    var fs := Split(t, ':');
    var f := fs[|done|];
    var tail := t[i - |cur|..];
    HexGroupChars(f, t[i]);
    assert !InnerField(f);
    if IsQuad(tail) {
      QuadNotHex(tail);
      SplitWhole(tail, ':');
    }
    if WellFormed(fs) {
      assert |fs| == |done| + 1;
      assert LastField(f) && IsQuad(f);
      if t[i] != '.' { QuadChars(f, t[i]); }
      assert Split(tail, ':') == [f];
      LoneField(tail, f);
    }
  }

  lemma LoneField(s: string, f: string)
    requires Split(s, ':') == [f]
    ensures s == f
    decreases |s|
  {
    if s == "" {
    } else {
      var rest := Split(s[1..], ':');
      assert s[0] == ':' ==> |Split(s, ':')| == 1 + |rest|;
      assert Split(s, ':') == [[s[0]] + rest[0]] + rest[1..];
      assert |rest| == 1;
      LoneField(s[1..], rest[0]);
    }
  }

  lemma End6(t: string, done: seq<string>, cur: string)
    requires Scanned6(t, |t|, done, cur) && Value(cur, 16) <= 0xffff
    ensures Split(t, ':') == done + [cur] && WellFormed(Split(t, ':'))
    ensures cur == "" ==> Bytes(Split(t, ':')) == Bytes(done)
    ensures cur != "" ==> Bytes(Split(t, ':')) == Bytes(done) + GroupBytes(Value(cur, 16))
  {
    NumeralNoSep(cur, ':');
    SplitWhole(cur, ':');
    assert cur + t[|t|..] == cur;
    BytesSnoc(done, cur);
    EmptyField();
    WellFormedSnoc(done, cur);
  }

  lemma WellFormedSnoc(done: seq<string>, f: string)
    requires forall k :: 0 <= k < |done| ==> InnerField(done[k])
    requires forall j, k :: 0 <= j < |done| && 0 <= k < |done| && done[j] == "" && done[k] == "" ==> j == k
    requires LastField(f)
    ensures WellFormed(done + [f])
  {
    var fs := done + [f];
    forall k | 0 <= k < |fs| - 1 ensures InnerField(fs[k]) { assert fs[k] == done[k]; }
    forall j, k | Marker(fs, j) && Marker(fs, k) ensures j == k {
      assert done[j] == "" && done[k] == "";
    }
  }

  // ---- the in-place shift ----

  /** After `n` bytes have been moved, from the top down. */
  ghost predicate Shifted(was: seq<Byte>, now: seq<Byte>, colonp: nat, tp: nat, n: nat)
    requires |was| == |now| == 16 && colonp <= tp <= 16 && n <= tp - colonp
  {
    && (forall k :: 0 <= k < tp - n ==> now[k] == was[k])
    && (forall k :: tp - n <= k < 16 - n ==> now[k] == 0)
    && (forall k :: 16 - n <= k < 16 ==> now[k] == if tp == 16 then 0 else was[k - (16 - tp)])
  }

  lemma ShiftOne(was: seq<Byte>, now: seq<Byte>, colonp: nat, tp: nat, n: nat)
    requires |was| == |now| == 16 && colonp <= tp <= 16 && n < tp - colonp && Shifted(was, now, colonp, tp, n)
    ensures Shifted(was, now[15 - n := now[tp - 1 - n]][tp - 1 - n := 0], colonp, tp, n + 1)
  {}

  lemma ShiftedAll(was: seq<Byte>, now: seq<Byte>, colonp: nat, tp: nat)
    requires |was| == |now| == 16 && colonp <= tp <= 16 && Shifted(was, now, colonp, tp, tp - colonp)
    ensures now == Expand(was[..tp], colonp)
  {
    var r := Expand(was[..tp], colonp);
    forall k | 0 <= k < 16 ensures now[k] == r[k] {
      if tp < 16 {
        assert r == was[..colonp] + Zeros(16 - tp) + was[colonp..tp];
      }
    }
  }

  /** The overlapping shift of the bytes behind the `::`, by hand from the top down. */
  method Shift(tmp: array<Byte>, colonp: nat, tp: nat)
    requires tmp.Length == 16 && colonp <= tp <= 16
    requires forall k :: tp <= k < 16 ==> tmp[k] == 0
    modifies tmp
    ensures tmp[..] == Expand(old(tmp[..tp]), colonp)
  {
    hide Expand;
    ghost var was := tmp[..];
    var n := tp - colonp;
    var i := 1;
    assert Shifted(was, tmp[..], colonp, tp, 0);
    hide Shifted;
    while i <= n
      invariant 1 <= i <= n + 1
      invariant Shifted(was, tmp[..], colonp, tp, i - 1)
    {
      ghost var now := tmp[..];
      ShiftOne(was, now, colonp, tp, i - 1);
      tmp[16 - i] := tmp[colonp + n - i];
      tmp[colonp + n - i] := 0;
      assert tmp[..] == now[16 - i := now[tp - i]][tp - i := 0];
      i := i + 1;
    }
    ShiftedAll(was, tmp[..], colonp, tp);
    assert was[..tp] == old(tmp[..tp]);
  }

  // ---- inet_pton6 ----

  /** What the character loop leaves behind: the bytes, and where the `::` was (-1 for none). */
  ghost predicate Collected(t: string, tmp: seq<Byte>, tp: nat, colonp: int) {
    var fs := Split(t, ':');
    && |tmp| == 16 && tp <= 16
    && WellFormed(fs)
    && tmp[..tp] == Bytes(fs)
    && (forall k :: tp <= k < 16 ==> tmp[k] == 0)
    && (colonp == -1 <==> !HasMarker(fs))
    && (colonp != -1 ==> colonp == Before(fs))
  }

  /** What holds between two characters of the loop. */
  ghost predicate Loop6(t: string, i: nat, done: seq<string>, cur: string, tmp: seq<Byte>, tp: nat, colonp: int) {
    && Scanned6(t, i, done, cur)
    && |tmp| == 16 && tp <= 16
    && tmp[..tp] == Bytes(done)
    && (forall k :: tp <= k < 16 ==> tmp[k] == 0)
    && (colonp == -1 <==> "" !in done)
    && (colonp != -1 ==> 0 <= colonp <= tp)
    && (colonp != -1 ==> forall k :: 0 <= k < |done| && done[k] == "" ==> colonp == |Bytes(done[..k])|)
  }

  lemma CloseEmpty(t: string, i: nat, done: seq<string>, tmp: seq<Byte>, tp: nat)
    requires i < |t| && Loop6(t, i, done, "", tmp, tp, -1) && t[i] == ':'
    ensures Loop6(t, i + 1, done + [""], "", tmp, tp, tp)
  {
    hide Split, Bytes, Value, Numeral;
    Colon6(t, i, done, "");
    BytesSnoc(done, "");
    EmptyField();
    forall k | 0 <= k < |done| + 1 && (done + [""])[k] == ""
      ensures tp == |Bytes((done + [""])[..k])|
    {
      assert k == |done|;
      assert (done + [""])[..k] == done;
    }
  }

  lemma CloseGroup(
    t: string, i: nat, done: seq<string>, cur: string, tmp: seq<Byte>, tmp': seq<Byte>, tp: nat, colonp: int)
    requires i < |t| && Loop6(t, i, done, cur, tmp, tp, colonp) && t[i] == ':'
    requires cur != "" && Value(cur, 16) <= 0xffff && tp <= 14
    requires tmp' == tmp[tp := Value(cur, 16) / 256][tp + 1 := Value(cur, 16) % 256]
    ensures Loop6(t, i + 1, done + [cur], "", tmp', tp + 2, colonp)
  {
    hide Split, Bytes, Value, Numeral;
    Colon6(t, i, done, cur);
    BytesSnoc(done, cur);
    assert HexGroup(cur);
    assert tmp'[..tp + 2] == tmp[..tp] + GroupBytes(Value(cur, 16));
    forall k | 0 <= k < |done| + 1 && (done + [cur])[k] == ""
      ensures colonp == |Bytes((done + [cur])[..k])|
    {
      assert done[k] == "" && (done + [cur])[..k] == done[..k];
    }
    if "" in done + [cur] {
      var k :| 0 <= k < |done| + 1 && (done + [cur])[k] == "";
      assert done[k] == "";
    }
  }

  lemma LongGroup(t: string, i: nat, done: seq<string>, cur: string, tmp: seq<Byte>, tp: nat, colonp: int)
    requires i <= |t| && Loop6(t, i, done, cur, tmp, tp, colonp) && (i < |t| ==> t[i] == ':')
    requires cur != "" && Value(cur, 16) <= 0xffff && tp + 2 > 16
    ensures WellFormed(Split(t, ':')) ==> |Bytes(Split(t, ':'))| > 16
  {
    hide Split, Value, Numeral, WellFormed, Bytes;
    var fs := Split(t, ':');
    if i < |t| {
      Colon6(t, i, done, cur);
    } else {
      End6(t, done, cur);
      assert fs[..|done| + 1] == fs;
    }
    BytesSnoc(done, cur);
    RejectLong(fs, |done| + 1);
  }

  /** The last field closed: the loop state becomes the collected one. */
  lemma Collect(t: string, done: seq<string>, f: string, tmp: seq<Byte>, tp: nat, colonp: int, i: nat, cur: string)
    requires |tmp| == 16 && |Bytes(done)| <= tp <= 16
    requires Loop6(t, i, done, cur, tmp[..|Bytes(done)|] + Zeros(16 - |Bytes(done)|), |Bytes(done)|, colonp)
    requires Split(t, ':') == done + [f] && LastField(f)
    requires tmp[..tp] == Bytes(done) + FieldBytes(f)
    requires forall k :: tp <= k < 16 ==> tmp[k] == 0
    ensures Collected(t, tmp, tp, colonp)
  {
    hide Split, Bytes, Value, Numeral, IsQuad, HexGroup, WellFormed, FieldBytes;
    var fs := done + [f];
    WellFormedSnoc(done, f);
    BytesSnoc(done, f);
    if "" in done {
      var k :| 0 <= k < |done| && done[k] == "";
      assert Marker(fs, k);
    }
    if HasMarker(fs) {
      var k := MarkerOf(fs);
      assert done[k] == "" && fs[..k] == done[..k];
    }
  }

  method Pton6(src: string, dst: array<Byte>) returns (ok: bool)
    requires dst.Length >= 16
    modifies dst
    ensures ok <==> Accepts(src)
    ensures ok ==> dst[..] == Parsed(src) + old(dst[16..])
    ensures !ok ==> dst[..] == old(dst[..])
  {
    hide Split, Bytes, WellFormed;
    if |src| >= 1 && src[0] == ':' && !(|src| >= 2 && src[1] == ':') {
      return false;
    }
    var tmp := new Byte[16](i => 0);
    var tp, colonp;
    ok, tp, colonp := Scan6(Body(src), tmp);
    if !ok {
      return false;
    }
    if colonp != -1 {
      Shift(tmp, colonp, tp);
      tp := 16;
    }
    if tp != 16 {
      return false;
    }
    assert tmp[..] == Parsed(src) by { assert tmp[..16] == tmp[..]; }
    forall k | 0 <= k < 16 { dst[k] := tmp[k]; }
    ok := true;
  }

  /** The character loop of `inet_pton6` and the flush of a last group. */
  method Scan6(t: string, tmp: array<Byte>) returns (ok: bool, tp: nat, colonp: int)
    requires tmp.Length == 16 && forall k :: 0 <= k < 16 ==> tmp[k] == 0
    modifies tmp
    ensures tp <= 16 && -1 <= colonp <= tp
    ensures ok <==> WellFormed(Split(t, ':')) && |Bytes(Split(t, ':'))| <= 16
    ensures ok ==> Collected(t, tmp[..], tp, colonp)
  {
    hide *;
    tp, colonp := 0, -1;
    var curtok, sawXdigit, val := 0, false, 0;
    ghost var done: seq<string>, cur: string := [], "";
    Loop6Start(t, tmp[..]);
    var i := 0;
    while i < |t|
      invariant 0 <= i <= |t| && tp <= 16 && -1 <= colonp <= tp
      invariant Loop6(t, i, done, cur, tmp[..], tp, colonp)
      invariant curtok + |cur| == i
      invariant sawXdigit <==> cur != ""
      invariant val == Value(cur, 16) <= 0xffff
    {
      var ch := t[i];
      Loop6Facts(t, i, done, cur, tmp[..], tp, colonp);
      var pch := Find(XDIGITS_L, ch);
      if pch == 16 {
        pch := Find(XDIGITS_U, ch);
      }
      DigitIs(ch);
      if pch < 16 {
        Digit6(t, i, done, cur);
        val := val * 16 + pch;
        cur := cur + [ch];
        if val > 0xffff {
          RejectBig6(t, i + 1, done, cur);
          return false, tp, colonp;
        }
        sawXdigit := true;
        Loop6Digit(t, i, done, cur, tmp[..], tp, colonp);
      } else if ch == ':' {
        curtok := i + 1;
        if !sawXdigit {
          if colonp != -1 {
            RejectSecondMarker(t, i, done);
            return false, tp, colonp;
          }
          CloseEmpty(t, i, done, tmp[..], tp);
          colonp := tp;
          done := done + [""];
        } else {
          if tp + 2 > 16 {
            LongGroup(t, i, done, cur, tmp[..], tp, colonp);
            return false, tp, colonp;
          }
          ghost var before := tmp[..];
          tmp[tp] := val / 256;
          tmp[tp + 1] := val % 256;
          CloseGroup(t, i, done, cur, before, tmp[..], tp, colonp);
          tp := tp + 2;
          sawXdigit := false;
          val := 0;
          done, cur := done + [cur], "";
          Start6(t);
        }
      } else {
        Foreign6(t, i, done, cur);
        if ch == '.' && tp + 4 <= 16 {
          ghost var before := tmp[..];
          var quad := Pton4(t[curtok..], tmp, tp);
          if quad {
            CollectQuad(t, i, done, cur, before, tmp[..], tp, colonp);
            return true, tp + 4, colonp;
          }
        } else {
          NoRoomForQuad(t, i, done, cur, tmp[..], tp, colonp);
        }
        return false, tp, colonp;
      }
      i := i + 1;
    }
    Loop6Facts(t, i, done, cur, tmp[..], tp, colonp);
    End6(t, done, cur);
    ghost var before := tmp[..];
    if sawXdigit {
      if tp + 2 > 16 {
        LongGroup(t, i, done, cur, tmp[..], tp, colonp);
        return false, tp, colonp;
      }
      tmp[tp] := val / 256;
      tmp[tp + 1] := val % 256;
      tp := tp + 2;
      CollectGroup(t, i, done, cur, before, tmp[..], tp - 2, colonp);
    } else {
      CollectEmpty(t, i, done, before, tp, colonp);
    }
    ok := true;
  }

  lemma Loop6Start(t: string, tmp: seq<Byte>)
    requires |tmp| == 16 && forall k :: 0 <= k < 16 ==> tmp[k] == 0
    ensures Loop6(t, 0, [], "", tmp, 0, -1) && Value("", 16) == 0
  {
    Start6(t);
  }

  lemma Loop6Facts(t: string, i: nat, done: seq<string>, cur: string, tmp: seq<Byte>, tp: nat, colonp: int)
    requires Loop6(t, i, done, cur, tmp, tp, colonp)
    ensures Scanned6(t, i, done, cur) && (colonp == -1 <==> "" !in done)
    ensures |Bytes(done)| == tp
  {}

  lemma Loop6Digit(t: string, i: nat, done: seq<string>, cur: string, tmp: seq<Byte>, tp: nat, colonp: int)
    requires |cur| >= 1 && Loop6(t, i, done, cur[..|cur| - 1], tmp, tp, colonp)
    requires Scanned6(t, i + 1, done, cur)
    ensures Loop6(t, i + 1, done, cur, tmp, tp, colonp)
  {}

  lemma CollectGroup(
    t: string, i: nat, done: seq<string>, cur: string, tmp: seq<Byte>, tmp': seq<Byte>, tp: nat, colonp: int)
    requires Loop6(t, i, done, cur, tmp, tp, colonp)
    requires cur != "" && Value(cur, 16) <= 0xffff && tp <= 14 && i == |t|
    requires tmp' == tmp[tp := Value(cur, 16) / 256][tp + 1 := Value(cur, 16) % 256]
    ensures Collected(t, tmp', tp + 2, colonp) && |Bytes(Split(t, ':'))| <= 16
  {
    hide Split, Bytes, Value;
    End6(t, done, cur);
    BytesSnoc(done, cur);
    assert tmp'[..tp + 2] == tmp[..tp] + GroupBytes(Value(cur, 16));
    assert tmp'[..tp] + Zeros(16 - tp) == tmp;
    assert HexGroup(cur);
    Collect(t, done, cur, tmp', tp + 2, colonp, i, cur);
  }

  lemma CollectEmpty(t: string, i: nat, done: seq<string>, tmp: seq<Byte>, tp: nat, colonp: int)
    requires Loop6(t, i, done, "", tmp, tp, colonp) && i == |t|
    ensures Collected(t, tmp, tp, colonp) && |Bytes(Split(t, ':'))| <= 16
  {
    hide Split, Bytes, Value;
    assert Value("", 16) == 0 by { Start6(t); }
    End6(t, done, "");
    BytesSnoc(done, "");
    EmptyField();
    assert tmp[..tp] + Zeros(16 - tp) == tmp;
    Collect(t, done, "", tmp, tp, colonp, i, "");
  }

  lemma CollectQuad(
    t: string, i: nat, done: seq<string>, cur: string, tmp: seq<Byte>, tmp': seq<Byte>, tp: nat, colonp: int)
    requires i < |t| && Loop6(t, i, done, cur, tmp, tp, colonp) && tp <= 12 && |cur| <= i
    requires Digit(t[i]) == 16 && t[i] != ':' && IsQuad(t[i - |cur|..])
    requires |tmp| == 16 && tmp' == tmp[..tp] + QuadBytes(t[i - |cur|..]) + tmp[tp + 4..]
    ensures Collected(t, tmp', tp + 4, colonp)
    ensures WellFormed(Split(t, ':')) && |Bytes(Split(t, ':'))| <= 16
  {
    hide Split, Bytes, Value, IsQuad, QuadBytes;
    var f := t[i - |cur|..];
    Foreign6(t, i, done, cur);
    QuadNotHex(f);
    BytesSnoc(done, f);
    assert tmp'[..tp + 4] == tmp[..tp] + QuadBytes(f);
    assert tmp'[..tp] + Zeros(16 - tp) == tmp;
    Collect(t, done, f, tmp', tp + 4, colonp, i, cur);
  }

  lemma NoRoomForQuad(t: string, i: nat, done: seq<string>, cur: string, tmp: seq<Byte>, tp: nat, colonp: int)
    requires i < |t| && Loop6(t, i, done, cur, tmp, tp, colonp) && |cur| <= i
    requires Digit(t[i]) == 16 && t[i] != ':' && (t[i] != '.' || tp + 4 > 16)
    ensures WellFormed(Split(t, ':')) ==> |Bytes(Split(t, ':'))| > 16
  {
    hide Split, Bytes, Value, IsQuad, QuadBytes;
    Foreign6(t, i, done, cur);
    if WellFormed(Split(t, ':')) {
      var f := t[i - |cur|..];
      QuadNotHex(f);
      BytesSnoc(done, f);
    }
  }
}
