/**
  IPv6 bytes to text: `inet_ntop6`, the choice of the zero run it compresses, and the round
  trip through `inet_pton6`.
*/
module Inet6Print {
  import opened Machine
  import opened Fields
  import opened Inet4
  import opened Inet6Parse

  type Word = w: int | 0 <= w < 0x10000

  function Words(a: seq<Byte>): (ws: seq<Word>)
    requires |a| == 16
    ensures |ws| == 8
  {
    seq(8, i requires 0 <= i < 8 => (a[2 * i] as int * 256 + a[2 * i + 1] as int) as Word)
  }

  // ---- which run of zero words is compressed ----

  predicate ZeroRun(ws: seq<Word>, b: int, l: int) {
    0 <= b && 1 <= l && b + l <= |ws| && forall k :: b <= k < b + l ==> ws[k] == 0
  }

  /** `(b, l)` is the leftmost of the longest zero runs of `ws` in front of position `e`. */
  ghost predicate LongestRun(ws: seq<Word>, e: int, b: int, l: int) {
    && ZeroRun(ws, b, l) && b + l <= e
    && (forall b', l' :: ZeroRun(ws, b', l') && b' + l' <= e ==> l' < l || (l' == l && b <= b'))
  }

  ghost predicate NoRun(ws: seq<Word>, e: int) {
    forall b', l' :: ZeroRun(ws, b', l') ==> b' + l' > e
  }

  /** Section 4.2 of RFC 5952: the leftmost longest run of at least two, or none (-1) if there is no such run. */
  ghost predicate Chosen(ws: seq<Word>, b: int, l: int) {
    if b == -1 then forall b', l' :: ZeroRun(ws, b', l') ==> l' < 2
    else l >= 2 && LongestRun(ws, |ws|, b, l)
  }

  /** The choice is unique. */
  lemma ChosenUnique(ws: seq<Word>, b: int, l: int, b': int, l': int)
    requires Chosen(ws, b, l) && Chosen(ws, b', l')
    ensures b == b' && (b != -1 ==> l == l')
  {
    if b != -1 { assert ZeroRun(ws, b, l); }
    if b' != -1 { assert ZeroRun(ws, b', l'); }
  }

  /** The run in progress in front of `i`: from `cb` on, or none (-1) when the word before is not zero. */
  ghost predicate Current(ws: seq<Word>, i: int, cb: int, cl: int) {
    && 0 <= i <= |ws|
    && (if cb == -1 then i > 0 ==> ws[i - 1] != 0
        else ZeroRun(ws, cb, cl) && cb + cl == i && (cb > 0 ==> ws[cb - 1] != 0))
  }

  /** The best run so far, over the words in front of `e`. */
  ghost predicate Best(ws: seq<Word>, e: int, bb: int, bl: int) {
    if bb == -1 then NoRun(ws, e) else LongestRun(ws, e, bb, bl)
  }

  /** Closing a run that began right after a non-zero word. */
  lemma CloseRun(ws: seq<Word>, i: int, bb: int, bl: int, cb: int, cl: int)
    requires cb != -1 && Current(ws, i, cb, cl) && Best(ws, cb, bb, bl)
    ensures bb == -1 || cl > bl ==> Best(ws, i, cb, cl)
    ensures !(bb == -1 || cl > bl) ==> Best(ws, i, bb, bl)
  {
    forall b', l' | ZeroRun(ws, b', l') && b' + l' <= i
      ensures b' + l' <= cb || (cb <= b' && l' <= cl)
    {
      assert cb > 0 ==> !(b' <= cb - 1 < b' + l');
    }
  }

  /** A non-zero word closes nothing: runs in front of `i + 1` are runs in front of `i`. */
  lemma PassNonZero(ws: seq<Word>, i: int, bb: int, bl: int)
    requires 0 <= i < |ws| && ws[i] != 0 && Best(ws, i, bb, bl)
    ensures Best(ws, i + 1, bb, bl)
  {
    forall b', l' | ZeroRun(ws, b', l') && b' + l' <= i + 1
      ensures b' + l' <= i
    {
      assert ws[b' + l' - 1] == 0;
    }
  }

  method FindRun(words: array<Word>) returns (base: int, len: int)
    ensures Chosen(words[..], base, len)
  {
    ghost var ws := words[..];
    var curBase, curLen := -1, 0;
    base, len := -1, 0;
    var i := 0;
    while i < words.Length
      invariant 0 <= i <= words.Length
      invariant curBase >= -1 && base >= -1
      invariant Current(ws, i, curBase, curLen)
      invariant Best(ws, if curBase == -1 then i else curBase, base, len)
    {
      if words[i] == 0 {
        if curBase == -1 {
          curBase, curLen := i, 1;
        } else {
          curLen := curLen + 1;
        }
      } else if curBase != -1 {
        CloseRun(ws, i, base, len, curBase, curLen);
        if base == -1 || curLen > len {
          base, len := curBase, curLen;
        }
        curBase := -1;
        PassNonZero(ws, i, base, len);
      } else {
        PassNonZero(ws, i, base, len);
      }
      i := i + 1;
    }
    if curBase != -1 {
      CloseRun(ws, i, base, len, curBase, curLen);
      if base == -1 || curLen > len {
        base, len := curBase, curLen;
      }
    }
    if base != -1 && len < 2 {
      ghost var b, l := base, len;
      base := -1;
      assert LongestRun(ws, |ws|, b, l);
    }
  }

  // ---- the printed text ----

  function HexFields(ws: seq<Word>): (fs: seq<string>)
    ensures |fs| == |ws|
  {
    seq(|ws|, i requires 0 <= i < |ws| => Text(ws[i], 16))
  }

  /** The last four bytes are written as a dotted quad after six zero words, or five and 0xffff. */
  predicate Embedded(ws: seq<Word>, b: int, l: int)
    requires |ws| == 8
  {
    b == 0 && (l == 6 || (l == 5 && ws[5] == 0xffff))
  }

  function TailFields(a: seq<Byte>, b: nat, l: nat): (fs: seq<string>)
    requires |a| == 16 && b + l <= 8
    ensures |fs| >= 1
  {
    var ws := Words(a);
    if b + l == 8 then [""]
    else if Embedded(ws, b, l) then HexFields(ws[l..6]) + [QuadText(a[12..])]
    else HexFields(ws[b + l..])
  }

  /** The text, as fields joined by colons: an empty field in the middle makes the `::`. */
  function Format(a: seq<Byte>, b: int, l: int): string
    requires |a| == 16 && (b == -1 || (0 <= b && 2 <= l && b + l <= 8))
  {
    var ws := Words(a);
    if b == -1 then Join(HexFields(ws), ':')
    else (if b == 0 then ":" else "") + Join(HexFields(ws[..b]) + [""] + TailFields(a, b, l), ':')
  }

  lemma FormatFull(a: seq<Byte>, l: int)
    requires |a| == 16
    ensures Format(a, -1, l) == Join(HexFields(Words(a)), ':')
  {}

  lemma FormatRun(a: seq<Byte>, b: nat, l: nat)
    requires |a| == 16 && 2 <= l && b + l <= 8
    ensures var left := HexFields(Words(a)[..b]);
      Format(a, b, l) == (if left == [] then ":" else "") + Join(left + [""] + TailFields(a, b, l), ':')
  {
    hide Join, TailFields;
    assert |HexFields(Words(a)[..b])| == b;
  }

  lemma ChosenBounds(ws: seq<Word>, b: int, l: int)
    requires |ws| == 8 && Chosen(ws, b, l)
    ensures b == -1 || (0 <= b && 2 <= l && b + l <= 8)
    ensures b != -1 ==> forall k :: b <= k < b + l ==> ws[k] == 0
  {}

  // ---- round trip ----

  lemma HexField(w: Word)
    ensures HexGroup(Text(w, 16)) && ':' !in Text(w, 16) && |Text(w, 16)| <= 4
    ensures FieldBytes(Text(w, 16)) == GroupBytes(w)
  {
    TextValue(w, 16);
    HexTextLength(w);
    NumeralNoSep(Text(w, 16), ':');
  }

  lemma HexFieldsSnoc(ws: seq<Word>, w: Word)
    ensures HexFields(ws + [w]) == HexFields(ws) + [Text(w, 16)]
  {
    hide Text;
  }

  lemma WordBytes(a: seq<Byte>, j: nat)
    requires |a| == 16 && j < 8
    ensures GroupBytes(Words(a)[j]) == [a[2 * j], a[2 * j + 1]]
  {}

  /** Printed words read back as the bytes they came from. */
  lemma {:induction false} HexFieldsBytes(a: seq<Byte>, i: nat, j: nat)
    requires |a| == 16 && i <= j <= 8
    ensures Bytes(HexFields(Words(a)[i..j])) == a[2 * i..2 * j]
  {
    hide *;
    NoBytes();
    if i == j {
      assert HexFields(Words(a)[i..j]) == [] && a[2 * i..2 * j] == [];
    } else {
      var w, ws := Words(a)[j - 1], Words(a)[i..j - 1];
      HexFieldsBytes(a, i, j - 1);
      assert Words(a)[i..j] == ws + [w];
      HexFieldsSnoc(ws, w);
      BytesSnoc(HexFields(ws), Text(w, 16));
      HexField(w);
      WordBytes(a, j - 1);
      TwoMore(a, 2 * i, 2 * (j - 1));
    }
  }

  lemma TwoMore(a: seq<Byte>, from: nat, to: nat)
    requires from <= to && to + 2 <= |a|
    ensures a[from..to] + [a[to], a[to + 1]] == a[from..to + 2]
  {}

  lemma {:induction false} BytesAppend(xs: seq<string>, ys: seq<string>)
    ensures Bytes(xs + ys) == Bytes(xs) + Bytes(ys)
  {
    hide *;
    NoBytes();
    if ys == [] {
      assert xs + ys == xs && Bytes(xs) + [] == Bytes(xs);
    } else {
      var ys', y := ys[..|ys| - 1], ys[|ys| - 1];
      BytesAppend(xs, ys');
      BytesSnoc(xs + ys', y);
      BytesSnoc(ys', y);
      assert ys == ys' + [y] && xs + ys == (xs + ys') + [y];
      assert (Bytes(xs) + Bytes(ys')) + FieldBytes(y) == Bytes(xs) + (Bytes(ys') + FieldBytes(y));
    }
  }

  lemma NoBytes()
    ensures Bytes([]) == []
  {}

  lemma PlainHexFields(ws: seq<Word>)
    ensures forall f :: f in HexFields(ws) ==> HexGroup(f) && f != "" && ':' !in f && |f| <= 4
  {
    forall f | f in HexFields(ws)
      ensures HexGroup(f) && f != "" && ':' !in f && |f| <= 4
    {
      var k :| 0 <= k < |ws| && HexFields(ws)[k] == f;
      HexField(ws[k]);
    }
  }

  /** The fields behind the `::`: what they are made of, and that they carry the rest of the address. */
  lemma Tail(a: seq<Byte>, b: nat, l: nat)
    requires |a| == 16 && 2 <= l && b + l <= 8
    ensures var fs := TailFields(a, b, l);
      && (forall k :: 0 <= k < |fs| ==> ':' !in fs[k])
      && (forall k :: 0 <= k < |fs| - 1 ==> HexGroup(fs[k]))
      && LastField(fs[|fs| - 1])
      && Bytes(fs) == a[2 * (b + l)..]
  {
    hide *;
    var ws := Words(a);
    TailCases(a, b, l);
    if b + l == 8 {
      EmptyField();
      BytesSnoc([], "");
      NoBytes();
      assert [] + [""] == [""] && a[16..] == [];
      EmptyIsLast();
    } else if Embedded(ws, b, l) {
      EmbeddedTail(a, l);
    } else {
      PlainHexFields(ws[b + l..]);
      assert ws[b + l..] == ws[b + l..8];
      HexFieldsBytes(a, b + l, 8);
      assert a[2 * (b + l)..2 * 8] == a[2 * (b + l)..];
      GroupIsLast(HexFields(ws[b + l..])[8 - b - l - 1]);
    }
  }

  lemma TailCases(a: seq<Byte>, b: nat, l: nat)
    requires |a| == 16 && 2 <= l && b + l <= 8
    ensures b + l == 8 ==> TailFields(a, b, l) == [""]
    ensures b + l < 8 && Embedded(Words(a), b, l) ==>
      b == 0 && l <= 6 && TailFields(a, b, l) == HexFields(Words(a)[l..6]) + [QuadText(a[12..])]
    ensures b + l < 8 && !Embedded(Words(a), b, l) ==> TailFields(a, b, l) == HexFields(Words(a)[b + l..])
  {}

  lemma EmptyIsLast()
    ensures LastField("")
  {}

  lemma EmbeddedTail(a: seq<Byte>, l: nat)
    requires |a| == 16 && l <= 6
    ensures var fs := HexFields(Words(a)[l..6]) + [QuadText(a[12..])];
      && (forall k :: 0 <= k < |fs| ==> ':' !in fs[k])
      && (forall k :: 0 <= k < |fs| - 1 ==> HexGroup(fs[k]))
      && LastField(fs[|fs| - 1])
      && Bytes(fs) == a[2 * l..]
  {
    hide Split, Value, Numeral, Text, Join, Bytes, FieldBytes, IsQuad, QuadText, QuadBytes, Words, HexFields;
    var hs, q := HexFields(Words(a)[l..6]), QuadText(a[12..]);
    QuadRoundTrip(a[12..]);
    QuadNotHex(q);
    PlainHexFields(Words(a)[l..6]);
    HexFieldsBytes(a, l, 6);
    BytesSnoc(hs, q);
    assert a[2 * l..12] + a[12..] == a[2 * l..];
  }

  /** Any text made of groups around a `::`, up to sixteen bytes of them, is accepted and read as its two parts say. */
  lemma MarkedText(left: seq<string>, right: seq<string>)
    requires forall k :: 0 <= k < |left| ==> HexGroup(left[k]) && ':' !in left[k]
    requires |right| >= 1
    requires forall k :: 0 <= k < |right| ==> ':' !in right[k]
    requires forall k :: 0 <= k < |right| - 1 ==> HexGroup(right[k])
    requires LastField(right[|right| - 1])
    requires |Bytes(left)| + |Bytes(right)| <= 16
    ensures var s := (if left == [] then ":" else "") + Join(left + [""] + right, ':');
      Accepts(s) && Parsed(s) == Expand(Bytes(left) + Bytes(right), |Bytes(left)|)
  {
    hide Split, Value, Bytes, Join, HexGroup, Body, LeadOk, WellFormed, Marker, LastField, Expand;
    var fs := left + [""] + right;
    LeadingColons(left, right);
    SplitJoin(fs, ':');
    CompressedFields(left, right);
    CompressedBytes(left, right);
    assert fs[..|left|] == left;
  }

  lemma CompressedBytes(left: seq<string>, right: seq<string>)
    ensures Bytes(left + [""] + right) == Bytes(left) + Bytes(right)
  {
    hide Bytes;
    BytesSnoc(left, "");
    EmptyField();
    BytesAppend(left + [""], right);
    assert Bytes(left) + [] == Bytes(left);
  }

  lemma ExpandParts(xs: seq<Byte>, ys: seq<Byte>)
    requires |xs| + |ys| <= 16
    ensures Expand(xs + ys, |xs|) ==
      if |xs| + |ys| < 16 then xs + Zeros(16 - |xs| - |ys|) + ys else xs + Zeros(16 - |xs|)
  {
    assert (xs + ys)[..|xs|] == xs && (xs + ys)[|xs|..] == ys;
  }

  /** Any text made of groups around a `::` that elides something parses to its bytes with zeros in the gap. */
  lemma ParseCompressed(left: seq<string>, right: seq<string>)
    requires forall k :: 0 <= k < |left| ==> HexGroup(left[k]) && ':' !in left[k]
    requires |right| >= 1
    requires forall k :: 0 <= k < |right| ==> ':' !in right[k]
    requires forall k :: 0 <= k < |right| - 1 ==> HexGroup(right[k])
    requires LastField(right[|right| - 1])
    requires |Bytes(left)| + |Bytes(right)| < 16
    ensures var s := (if left == [] then ":" else "") + Join(left + [""] + right, ':');
      && Accepts(s)
      && Parsed(s) == Bytes(left) + Zeros(16 - |Bytes(left)| - |Bytes(right)|) + Bytes(right)
  {
    hide *;
    MarkedText(left, right);
    ExpandParts(Bytes(left), Bytes(right));
  }

  /** The only empty inner field is the one that makes the `::`. */
  lemma CompressedFields(left: seq<string>, right: seq<string>)
    requires forall k :: 0 <= k < |left| ==> HexGroup(left[k])
    requires |right| >= 1
    requires forall k :: 0 <= k < |right| - 1 ==> HexGroup(right[k])
    requires LastField(right[|right| - 1])
    ensures var fs := left + [""] + right;
      WellFormed(fs) && HasMarker(fs) && MarkerOf(fs) == |left|
  {
    hide Split, Value, Numeral, IsQuad;
    var fs := left + [""] + right;
    forall k | 0 <= k < |fs| - 1 && k != |left| ensures fs[k] != "" && HexGroup(fs[k]) {
      assert fs[k] == if k < |left| then left[k] else right[k - |left| - 1];
    }
    assert Marker(fs, |left|);
    assert fs[|fs| - 1] == right[|right| - 1];
  }

  lemma LeadingColons(left: seq<string>, right: seq<string>)
    requires |right| >= 1
    requires forall k :: 0 <= k < |left| ==> HexGroup(left[k]) && ':' !in left[k]
    ensures var j := Join(left + [""] + right, ':');
      var s := (if left == [] then ":" else "") + j;
      LeadOk(s) && Body(s) == j
  {
    hide Numeral, Value;
    var j := Join(left + [""] + right, ':');
    var fs := left + [""] + right;
    if left != [] {
      assert fs[0] == left[0] && HexGroup(left[0]) && left[0][0] != ':';
      assert j[0] == left[0][0] && "" + j == j;
    } else {
      assert fs[0] == "" && j[0] == ':';
      assert (":" + j)[1..] == j;
    }
  }

  /** Any text of groups only (the last may be a dotted quad) parses to its sixteen bytes. */
  lemma ParseFull(fs: seq<string>)
    requires |fs| >= 1
    requires forall k :: 0 <= k < |fs| - 1 ==> HexGroup(fs[k]) && ':' !in fs[k]
    requires LastField(fs[|fs| - 1]) && fs[0] != "" && ':' !in fs[|fs| - 1]
    requires |Bytes(fs)| == 16
    ensures Accepts(Join(fs, ':')) && Parsed(Join(fs, ':')) == Bytes(fs)
  {
    hide Split, Value, Numeral, IsQuad, Bytes;
    var s := Join(fs, ':');
    assert fs[0] <= s && s[0] != ':';
    SplitJoin(fs, ':');
    EmptyField();
    forall k | 0 <= k < |fs| - 1 ensures fs[k] != "" { assert HexGroup(fs[k]); }
    assert WellFormed(fs);
  }

  /** The printed words in front of position `b` and from there on: groups, carrying their bytes. */
  lemma PrintedGroups(a: seq<Byte>, b: nat)
    requires |a| == 16 && b <= 8
    ensures var left, right := HexFields(Words(a)[..b]), HexFields(Words(a)[b..]);
      && (forall k :: 0 <= k < |left| ==> HexGroup(left[k]) && ':' !in left[k])
      && (forall k :: 0 <= k < |right| ==> HexGroup(right[k]) && ':' !in right[k])
      && Bytes(left) == a[..2 * b] && Bytes(right) == a[2 * b..]
  {
    hide *;
    var ws := Words(a);
    PlainHexFields(ws[..b]);
    PlainHexFields(ws[b..]);
    HexFieldsBytes(a, 0, b);
    HexFieldsBytes(a, b, 8);
    assert ws[0..b] == ws[..b] && ws[b..8] == ws[b..];
    assert a[2 * 0..2 * b] == a[..2 * b] && a[2 * b..2 * 8] == a[2 * b..];
  }

  lemma RoundTripPlain(a: seq<Byte>, l: int)
    requires |a| == 16
    ensures Accepts(Format(a, -1, l)) && Parsed(Format(a, -1, l)) == a
  {
    hide *;
    FormatFull(a, l);
    PrintedGroups(a, 0);
    assert Words(a)[0..] == Words(a) && a[2 * 0..] == a;
    var fs := HexFields(Words(a));
    GroupIsLast(fs[7]);
    GroupNotEmpty(fs[0]);
    ParseFull(fs);
  }

  lemma GroupNotEmpty(f: string)
    requires HexGroup(f)
    ensures f != ""
  {}

  lemma RoundTripCompressed(a: seq<Byte>, b: nat, l: nat)
    requires |a| == 16 && 2 <= l && b + l <= 8
    requires forall k :: b <= k < b + l ==> Words(a)[k] == 0
    ensures Accepts(Format(a, b, l)) && Parsed(Format(a, b, l)) == a
  {
    hide *;
    RunIsZeroBytes(a, b, l);
    AddressParts(a, b, l);
    PrintedGroups(a, b);
    Tail(a, b, l);
    FormatRun(a, b, l);
    ParseCompressed(HexFields(Words(a)[..b]), TailFields(a, b, l));
  }

  lemma AddressParts(a: seq<Byte>, b: nat, l: nat)
    requires |a| == 16 && b + l <= 8
    ensures a[..2 * b] + a[2 * b..2 * (b + l)] + a[2 * (b + l)..] == a
    ensures 16 - |a[..2 * b]| - |a[2 * (b + l)..]| == 2 * l
  {}

  /** The main theorem: whatever run was compressed, the printed text parses back to the address. */
  lemma RoundTrip(a: seq<Byte>, b: int, l: int)
    requires |a| == 16 && Chosen(Words(a), b, l)
    ensures Accepts(Format(a, b, l)) && Parsed(Format(a, b, l)) == a
  {
    hide *;
    ChosenBounds(Words(a), b, l);
    if b == -1 {
      RoundTripPlain(a, l);
    } else {
      RoundTripCompressed(a, b, l);
    }
  }

  lemma GroupIsLast(f: string)
    requires HexGroup(f)
    ensures LastField(f)
  {}

  lemma RunIsZeroBytes(a: seq<Byte>, b: nat, l: nat)
    requires |a| == 16 && b + l <= 8 && forall k :: b <= k < b + l ==> Words(a)[k] == 0
    ensures a[2 * b..2 * (b + l)] == Zeros(2 * l)
  {
    forall k | 2 * b <= k < 2 * (b + l) ensures a[k] == 0 {
      var w := k / 2;
      assert Words(a)[w] == 0;
      assert k == 2 * w || k == 2 * w + 1;
    }
  }

  lemma FieldsLength(ws: seq<Word>)
    requires |ws| >= 1
    ensures |Join(HexFields(ws), ':')| <= 5 * |ws| - 1
  {
    hide Text, Join;
    PlainHexFields(ws);
    JoinLength(HexFields(ws), ':');
  }

  lemma TailLength(a: seq<Byte>, b: nat, l: nat)
    requires |a| == 16 && 2 <= l && b + l <= 8
    ensures |Join(TailFields(a, b, l), ':')| <=
      if b + l == 8 then 0
      else if b == 0 && l == 6 then 15
      else if b == 0 && l == 5 then 20
      else 5 * (8 - b - l) - 1
  {
    TailCases(a, b, l);
    hide *;
    var ws := Words(a);
    JoinOne("");
    if b + l == 8 {
    } else if Embedded(ws, b, l) {
      var q := QuadText(a[12..]);
      EmbeddedLength(ws, b, l);
      QuadRoundTrip(a[12..]);
      JoinOne(q);
      if l == 5 {
        JoinAppend(HexFields(ws[l..6]), [q], ':');
        FieldsLength(ws[l..6]);
      } else {
        assert HexFields(ws[l..6]) + [q] == [q];
      }
    } else {
      FieldsLength(ws[b + l..]);
    }
  }

  lemma EmbeddedLength(ws: seq<Word>, b: int, l: int)
    requires |ws| == 8 && Embedded(ws, b, l)
    ensures b == 0 && (l == 5 || l == 6)
  {}

  /** The printed text never exceeds 39 characters, so it fits the 46-byte temporary. */
  lemma FormatLength(a: seq<Byte>, b: int, l: int)
    requires |a| == 16 && (b == -1 || (0 <= b && 2 <= l && b + l <= 8))
    ensures 2 <= |Format(a, b, l)| <= 39
  {
    hide *;
    var ws := Words(a);
    if b == -1 {
      FormatFull(a, l);
      FieldsLength(ws);
      ManyFields(HexFields(ws));
    } else {
      FormatParts(a, b, l);
      LeftLength(a, b);
      TailLength(a, b, l);
    }
  }

  lemma LeftLength(a: seq<Byte>, b: nat)
    requires |a| == 16 && b <= 8
    ensures |LeftText(a, b)| <= if b == 0 then 0 else 5 * b - 1
  {
    hide Join, HexFields, Words;
    if b > 0 { FieldsLength(Words(a)[..b]); }
  }

  lemma ManyFields(fs: seq<string>)
    requires |fs| >= 3
    ensures |Join(fs, ':')| >= 2
  {
    assert Join(fs, ':') == fs[0] + [':'] + (fs[1] + [':'] + Join(fs[1..][1..], ':'));
  }

  lemma JoinOne(f: string)
    ensures Join([f], ':') == f
  {}

  lemma JoinEmptyFirst(tail: seq<string>)
    requires |tail| >= 1
    ensures Join([""] + tail, ':') == ":" + Join(tail, ':')
  {
    assert ([""] + tail)[1..] == tail;
  }

  /** The compressed form is the left groups, two colons, the right groups. */
  lemma CompressedSplits(left: seq<string>, tail: seq<string>)
    requires |tail| >= 1
    ensures left == [] ==> Join(left + [""] + tail, ':') == ":" + Join(tail, ':')
    ensures left != [] ==> Join(left + [""] + tail, ':') == Join(left, ':') + "::" + Join(tail, ':')
  {
    hide Join;
    JoinEmptyFirst(tail);
    if left == [] {
      assert left + [""] + tail == [""] + tail;
    } else {
      JoinAppend(left, [""] + tail, ':');
      assert left + [""] + tail == left + ([""] + tail);
      assert [':'] + (":" + Join(tail, ':')) == "::" + Join(tail, ':');
    }
  }

  // ---- the printing loop ----

  /** What is in the temporary when word `i` is about to be looked at. */
  function Printed(a: seq<Byte>, b: int, l: int, i: nat): string
    requires |a| == 16 && i <= 8 && (b == -1 || (0 <= b && 2 <= l && b + l <= 8))
  {
    var ws := Words(a);
    var e := if b == -1 || i <= b then i else b;
    var left := if e == 0 then "" else Join(HexFields(ws[..e]), ':');
    if b == -1 || i <= b then left
    else if i <= b + l then left + ":"
    else left + "::" + Join(HexFields(ws[b + l..i]), ':')
  }

  lemma PrintedLength(a: seq<Byte>, b: int, l: int, i: nat)
    requires |a| == 16 && i <= 8 && (b == -1 || (0 <= b && 2 <= l && b + l <= 8))
    ensures |Printed(a, b, l, i)| <= 5 * i
  {
    hide Text;
    var ws := Words(a);
    var e := if b == -1 || i <= b then i else b;
    PlainHexFields(ws[..e]);
    if e > 0 { JoinLength(HexFields(ws[..e]), ':'); }
    if b != -1 && i > b + l {
      PlainHexFields(ws[b + l..i]);
      JoinLength(HexFields(ws[b + l..i]), ':');
    }
  }

  /** A printed list of words grows by a colon (unless it was empty) and the digits of the next word. */
  lemma HexJoinStep(ws: seq<Word>, from: nat, i: nat)
    requires from <= i < |ws|
    ensures HexFields(ws[from..i + 1]) != []
    ensures from == i ==> Join(HexFields(ws[from..i + 1]), ':') == Text(ws[i], 16)
    ensures from < i ==> HexFields(ws[from..i]) != []
    ensures from < i ==>
      Join(HexFields(ws[from..i + 1]), ':') == Join(HexFields(ws[from..i]), ':') + ":" + Text(ws[i], 16)
  {
    hide Text;
    var t := Text(ws[i], 16);
    assert HexFields(ws[from..i + 1]) == HexFields(ws[from..i]) + [t];
    assert Join([t], ':') == t;
    hide Join;
    if from < i {
      JoinAppend(HexFields(ws[from..i]), [t], ':');
    } else {
      assert HexFields(ws[from..i]) + [t] == [t];
    }
  }

  /** A word outside the run adds a colon (unless it is the first) and its digits. */
  lemma PrintedStep(a: seq<Byte>, b: int, l: int, i: nat)
    requires |a| == 16 && i < 8 && (b == -1 || (0 <= b && 2 <= l && b + l <= 8))
    requires b == -1 || i < b || i >= b + l
    ensures Printed(a, b, l, i + 1) == Printed(a, b, l, i) + (if i == 0 then "" else ":") + Text(Words(a)[i], 16)
  {
    hide Text, Words, HexFields, Join;
    var ws := Words(a);
    if b == -1 || i < b {
      HexJoinStep(ws, 0, i);
      assert ws[0..i] == ws[..i] && ws[0..i + 1] == ws[..i + 1];
    } else {
      HexJoinStep(ws, b + l, i);
    }
  }

  /** A compressed text is the groups on the left, two colons, the fields on the right. */
  lemma FormatParts(a: seq<Byte>, b: nat, l: nat)
    requires |a| == 16 && 2 <= l && b + l <= 8
    ensures Format(a, b, l) == LeftText(a, b) + "::" + Join(TailFields(a, b, l), ':')
  {
    FormatRun(a, b, l);
    hide Join, HexFields, TailFields, Format, Words;
    var left, tail := HexFields(Words(a)[..b]), TailFields(a, b, l);
    CompressedSplits(left, tail);
    assert ":" + (":" + Join(tail, ':')) == "" + "::" + Join(tail, ':');
  }

  /** What the loop has printed in front of a run. */
  function LeftText(a: seq<Byte>, b: nat): string
    requires |a| == 16 && b <= 8
  {
    if b == 0 then "" else Join(HexFields(Words(a)[..b]), ':')
  }

  lemma PrintedPast(a: seq<Byte>, b: nat, l: nat, i: nat)
    requires |a| == 16 && 2 <= l && b + l <= i <= 8
    ensures Printed(a, b, l, i) ==
      if b + l == i then LeftText(a, b) + ":"
      else LeftText(a, b) + "::" + Join(HexFields(Words(a)[b + l..i]), ':')
  {
    hide Words, HexFields, Join;
  }

  lemma Assoc(x: string, y: string, z: string)
    ensures x + ":" + ":" == x + "::" + "" && x + "::" + y + "" == x + "::" + y
    ensures x + ":" + ":" + z == x + "::" + z
    ensures x + "::" + (y + [':'] + z) == x + "::" + y + ":" + z
  {}

  /** After the loop, with a trailing run closed by one more colon. */
  lemma PrintedAll(a: seq<Byte>, b: int, l: int)
    requires |a| == 16 && (b == -1 || (0 <= b && 2 <= l && b + l <= 8))
    requires !(b != -1 && Embedded(Words(a), b, l))
    ensures Format(a, b, l) == Printed(a, b, l, 8) + (if b != -1 && b + l == 8 then ":" else "")
  {
    if b == -1 {
      hide Words, HexFields, Join;
      assert Words(a)[..8] == Words(a);
    } else {
      hide *;
      FormatParts(a, b, l);
      PrintedPast(a, b, l, 8);
      TailCases(a, b, l);
      JoinOne("");
      assert Words(a)[b + l..8] == Words(a)[b + l..];
      Assoc(LeftText(a, b), Join(TailFields(a, b, l), ':'), "");
    }
  }

  lemma PrintedEmbedded(a: seq<Byte>, l: int)
    requires |a| == 16 && Embedded(Words(a), 0, l)
    ensures Format(a, 0, l) == Printed(a, 0, l, 6) + ":" + QuadText(a[12..])
    ensures |Printed(a, 0, l, 6)| <= 6
  {
    EmbeddedLength(Words(a), 0, l);
    hide *;
    FormatParts(a, 0, l);
    TailCases(a, 0, l);
    PrintedPast(a, 0, l, 6);
    assert LeftText(a, 0) == "" by { NoLeft(a); }
    var q, h := QuadText(a[12..]), HexFields(Words(a)[l..6]);
    JoinOne(q);
    if l == 5 {
      FieldsLength(Words(a)[l..6]);
      JoinAppend(h, [q], ':');
      Assoc("", Join(h, ':'), q);
    } else {
      assert h + [q] == [q];
      Assoc("", "", q);
    }
  }

  lemma NoLeft(a: seq<Byte>)
    requires |a| == 16
    ensures LeftText(a, 0) == ""
  {}

  /** sprintf at `tp`: the characters and a terminating NUL; `tp` moves past the characters. */
  method Put(tmp: array<char>, tp: nat, s: string) returns (tp': nat)
    requires tp + |s| < tmp.Length
    modifies tmp
    ensures tp' == tp + |s| && tmp[..tp'] == old(tmp[..tp]) + s
    ensures tmp[tp'] == '\0'
  {
    forall k | 0 <= k < |s| { tmp[tp + k] := s[k]; }
    tp' := tp + |s|;
    tmp[tp'] := '\0';
  }

  method FillWords(src: seq<Byte>) returns (words: array<Word>)
    requires |src| == 16
    ensures fresh(words) && words[..] == Words(src)
  {
    words := new Word[8](i => 0);
    var i := 0;
    while i < 16
      invariant 0 <= i <= 16
      invariant forall k :: 0 <= k < 8 && 2 * k + 1 < i ==> words[k] == Words(src)[k]
      invariant i % 2 == 1 ==> words[i / 2] == src[i - 1] as int * 256
      invariant forall k :: 0 <= k < 8 && 2 * k >= i ==> words[k] == 0
    {
      if i % 2 == 0 {
        words[i / 2] := src[i] as int * 256;
      } else {
        words[i / 2] := words[i / 2] as int + src[i] as int;
      }
      i := i + 1;
    }
  }

  method Ntop6(src: seq<Byte>, dst: array<char>, size: nat) returns (ok: bool, ghost b: int, ghost l: int)
    requires |src| == 16 && size <= dst.Length
    modifies dst
    ensures Chosen(Words(src), b, l) && (b == -1 || (0 <= b && 2 <= l && b + l <= 8))
    ensures ok <==> |Format(src, b, l)| + 1 <= size
    ensures ok ==> dst[..] == Format(src, b, l) + ['\0'] + old(dst[|Format(src, b, l)| + 1..])
    ensures !ok ==> dst[..] == old(dst[..])
  {
    hide *;
    var words := FillWords(src);
    var base, len := FindRun(words);
    b, l := base, len;
    ChosenBounds(Words(src), b, l);
    var tmp := new char[46](i => '\0');
    var tp := Print(src, words, base, len, tmp);
    FormatLength(src, b, l);
    assert tp == |tmp[..tp]|;
    tmp[tp] := '\0';
    tp := tp + 1;
    if tp > size {
      return false, b, l;
    }
    assert tmp[..tp] == Format(src, b, l) + ['\0'];
    forall k | 0 <= k < tp { dst[k] := tmp[k]; }
    assert dst[..] == dst[..tp] + dst[tp..];
    assert dst[..tp] == tmp[..tp];
    assert dst[tp..] == old(dst[tp..]);
    ok := true;
  }

  /** The formatting loop of `inet_ntop6`. */
  method Print(src: seq<Byte>, words: array<Word>, base: int, len: int, tmp: array<char>) returns (tp: nat)
    requires |src| == 16 && words[..] == Words(src) && tmp.Length == 46
    requires base == -1 || (0 <= base && 2 <= len && base + len <= 8)
    modifies tmp
    ensures tp < 46 && tmp[..tp] == Format(src, base, len)
  {
    hide Text, Join, QuadText, Words, TailFields, HexFields, Format, Printed;
    tp := 0;
    PrintedStart(src, base, len);
    var i := 0;
    while i < 8
      invariant 0 <= i <= 8 && tp <= 5 * i
      invariant words[..] == Words(src)
      invariant base == 0 && i > 6 ==> !Embedded(Words(src), base, len)
      invariant tmp[..tp] == Printed(src, base, len, i)
    {
      assert words[i] == Words(src)[i] && words[5] == Words(src)[5];
      PrintedLength(src, base, len, i + 1);
      if base != -1 && base <= i < base + len {
        PrintedInside(src, base, len, i);
        if i == base {
          tmp[tp] := ':';
          tp := tp + 1;
          assert tmp[..tp] == tmp[..tp - 1] + ":";
        }
      } else {
        PrintedStep(src, base, len, i);
        if i != 0 {
          tmp[tp] := ':';
          tp := tp + 1;
          assert tmp[..tp] == tmp[..tp - 1] + ":";
        }
        if i == 6 && base == 0 && (len == 6 || (len == 5 && words[5] == 0xffff)) {
          PrintedEmbedded(src, len);
          QuadRoundTrip(src[12..]);
          tp := Put(tmp, tp, QuadText(src[12..]));
          return;
        }
        HexTextLength(words[i]);
        tp := Put(tmp, tp, Text(words[i], 16));
      }
      i := i + 1;
    }
    PrintedAll(src, base, len);
    if base != -1 && base + len == 8 {
      tmp[tp] := ':';
      tp := tp + 1;
      assert tmp[..tp] == tmp[..tp - 1] + ":";
    }
  }

  lemma PrintedStart(a: seq<Byte>, b: int, l: int)
    requires |a| == 16 && (b == -1 || (0 <= b && 2 <= l && b + l <= 8))
    ensures Printed(a, b, l, 0) == ""
  {}

  lemma PrintedInside(a: seq<Byte>, b: int, l: int, i: nat)
    requires |a| == 16 && 0 <= b <= i < b + l <= 8 && 2 <= l
    ensures Printed(a, b, l, i + 1) == Printed(a, b, l, i) + (if i == b then ":" else "")
  {}

  // ---- a documented promise that does not hold ----

  /**
    The header comment says a `::` in a full address is silently ignored. For a text with a `::`
    whose fields already give sixteen bytes that is so exactly when every byte behind the `::`
    is zero; otherwise those bytes are erased.
  */
  lemma FullAddressMarker(s: string)
    requires Accepts(s)
    requires HasMarker(Split(Body(s), ':')) && |Bytes(Split(Body(s), ':'))| == 16
    ensures var fs := Split(Body(s), ':');
      Parsed(s) == Bytes(fs) <==> forall k :: Before(fs) <= k < 16 ==> Bytes(fs)[k] == 0
  {
    hide Split, Bytes, WellFormed;
    var fs := Split(Body(s), ':');
    var bs, c := Bytes(fs), Before(fs);
    assert bs == bs[..c] + bs[c..];
    assert Parsed(s) == bs[..c] + Zeros(16 - c);
    if forall k :: c <= k < 16 ==> bs[k] == 0 {
      assert bs[c..] == Zeros(16 - c);
    }
    if Parsed(s) == bs {
      forall k | c <= k < 16 ensures bs[k] == 0 { assert Parsed(s)[k] == 0; }
    }
  }

  /** The failing family: all eight groups printed, with one colon too many after the first `p` of them. */
  lemma FullAddressErased(a: seq<Byte>, p: nat)
    requires |a| == 16 && 1 <= p <= 7
    ensures var s := Join(HexFields(Words(a)[..p]) + [""] + HexFields(Words(a)[p..]), ':');
      && Accepts(s)
      && Parsed(s) == a[..2 * p] + Zeros(16 - 2 * p)
      && (Parsed(s) == a <==> a[2 * p..] == Zeros(16 - 2 * p))
  {
    hide *;
    var left, right := HexFields(Words(a)[..p]), HexFields(Words(a)[p..]);
    PrintedGroups(a, p);
    GroupIsLast(right[|right| - 1]);
    MarkedText(left, right);
    ExpandParts(a[..2 * p], a[2 * p..]);
    assert "" + Join(left + [""] + right, ':') == Join(left + [""] + right, ':');
    Halves(a, 2 * p, Zeros(16 - 2 * p));
  }

  lemma Halves(a: seq<Byte>, n: nat, z: seq<Byte>)
    requires n <= |a|
    ensures a[..n] + z == a <==> a[n..] == z
  {
    assert (a[..n] + z)[n..] == z && a == a[..n] + a[n..];
  }
}
