/**
  The address texts of section 2.2 of RFC 1884 (now section 2.2 of RFC 4291), stated on their own,
  and what of them `inet_pton6` makes: it takes all of them, with the meaning the RFC gives, and
  exactly three kinds of text besides.
*/
module Inet6Grammar {
  import opened Machine
  import opened Fields
  import opened Inet4
  import opened Inet6Parse
  import opened Inet6Print

  // ---- the grammar ----

  /** One to four hexadecimal digits. */
  predicate Group(f: string) {
    1 <= |f| <= 4 && Numeral(f, 16)
  }

  predicate Groups(fs: seq<string>) {
    forall k :: 0 <= k < |fs| ==> Group(fs[k])
  }

  /** Groups, the last of which may be a dotted quad. */
  predicate Part(fs: seq<string>) {
    && (forall k :: 0 <= k < |fs| - 1 ==> Group(fs[k]))
    && (fs != [] ==> Group(fs[|fs| - 1]) || IsQuad(fs[|fs| - 1]))
  }

  /** How many 16-bit pieces of the address the fields stand for. */
  function Worth(fs: seq<string>): nat {
    |fs| + if fs != [] && IsQuad(fs[|fs| - 1]) then 1 else 0
  }

  function Written(fs: seq<string>): string {
    if fs == [] then "" else Join(fs, ':')
  }

  predicate IsFull(s: string, fs: seq<string>) {
    Part(fs) && Worth(fs) == 8 && s == Written(fs)
  }

  predicate IsShort(s: string, left: seq<string>, right: seq<string>) {
    Groups(left) && Part(right) && |left| + Worth(right) <= 7 && s == Written(left) + "::" + Written(right)
  }

  ghost predicate Rfc(s: string) {
    (exists fs :: IsFull(s, fs)) || (exists left, right :: IsShort(s, left, right))
  }

  /**
    What separates the RFC's texts from the others the code takes: no group of more than four digits,
    no lone colon at the end, and no `::` that stands for nothing.
  */
  ghost predicate Strict(s: string) {
    var fs := Split(Body(s), ':');
    && (forall k :: 0 <= k < |fs| && !IsQuad(fs[k]) ==> |fs[k]| <= 4)
    && (fs[|fs| - 1] == "" ==> |fs| >= 2 && fs[|fs| - 2] == "")
    && (HasMarker(fs) ==> |Bytes(fs)| < 16)
  }

  // ---- groups and their bytes ----

  lemma {:induction false} ShortValue(f: string)
    requires Numeral(f, 16)
    ensures |f| <= 0 ==> Value(f, 16) < 0x1
    ensures |f| <= 1 ==> Value(f, 16) < 0x10
    ensures |f| <= 2 ==> Value(f, 16) < 0x100
    ensures |f| <= 3 ==> Value(f, 16) < 0x1000
    ensures |f| <= 4 ==> Value(f, 16) < 0x10000
  {
    if f == "" {
    } else {
      ShortValue(f[..|f| - 1]);
    }
  }

  /** A group of the grammar is one of the code with at most four digits. */
  lemma GroupIs(f: string)
    ensures Group(f) <==> HexGroup(f) && |f| <= 4
    ensures Group(f) ==> ':' !in f && !IsQuad(f) && |FieldBytes(f)| == 2
  {
    if Group(f) {
      ShortValue(f);
      NumeralNoSep(f, ':');
    }
    hide Numeral, Value, IsQuad;
    if IsQuad(f) { QuadNotHex(f); }
  }

  lemma {:induction false} HexBytes(fs: seq<string>)
    requires forall k :: 0 <= k < |fs| ==> HexGroup(fs[k])
    ensures |Bytes(fs)| == 2 * |fs|
  {
    hide *;
    NoBytes();
    if fs == [] {
    } else {
      var fs', f := fs[..|fs| - 1], fs[|fs| - 1];
      HexBytes(fs');
      BytesSnoc(fs', f);
      TwoBytes(f);
      assert fs == fs' + [f];
    }
  }

  lemma TwoBytes(f: string)
    requires HexGroup(f)
    ensures |FieldBytes(f)| == 2
  {}

  lemma GroupsBytes(fs: seq<string>)
    requires Groups(fs)
    ensures |Bytes(fs)| == 2 * |fs|
  {
    hide HexGroup, Bytes;
    forall k | 0 <= k < |fs| ensures HexGroup(fs[k]) { GroupIs(fs[k]); }
    HexBytes(fs);
  }

  /** Every part has fields the parser takes, and two bytes for each piece it is worth. */
  lemma PartFields(fs: seq<string>)
    requires Part(fs)
    ensures forall k :: 0 <= k < |fs| - 1 ==> HexGroup(fs[k])
    ensures forall k :: 0 <= k < |fs| ==> ':' !in fs[k] && fs[k] != "" && (IsQuad(fs[k]) || |fs[k]| <= 4)
    ensures fs != [] ==> LastField(fs[|fs| - 1])
    ensures |Bytes(fs)| == 2 * Worth(fs)
  {
    hide Numeral, Value, IsQuad, HexGroup, Bytes, FieldBytes;
    forall k | 0 <= k < |fs|
      ensures ':' !in fs[k] && fs[k] != "" && (IsQuad(fs[k]) || |fs[k]| <= 4)
      ensures HexGroup(fs[k]) || (k == |fs| - 1 && IsQuad(fs[k]))
    {
      GroupIs(fs[k]);
      if IsQuad(fs[k]) { QuadNotHex(fs[k]); }
    }
    NoBytes();
    if fs != [] {
      var f := fs[|fs| - 1];
      GroupsBytes(fs[..|fs| - 1]);
      BytesSnoc(fs[..|fs| - 1], f);
      assert fs == fs[..|fs| - 1] + [f];
      GroupIs(f);
      if IsQuad(f) { QuadNotHex(f); }
    }
  }

  // ---- every text of the grammar is taken, with its meaning ----

  lemma FullIsTaken(s: string, fs: seq<string>)
    requires IsFull(s, fs)
    ensures Accepts(s) && Strict(s) && Parsed(s) == Bytes(fs)
  {
    PartFields(fs);
    hide Numeral, Value, IsQuad, HexGroup, Bytes, Accepts, Parsed, Split, LastField, Part, Join;
    ParseFull(fs);
    SplitJoin(fs, ':');
    HeadField(s);
    assert Body(s) == s;
  }

  /** A text starts with a colon exactly when its first field is empty and not its only one. */
  lemma HeadField(t: string)
    ensures t != "" && t[0] == ':' <==> |Split(t, ':')| >= 2 && Split(t, ':')[0] == ""
  {}

  /** The fields behind a `::`; none there is one empty field. */
  function Behind(right: seq<string>): (fs: seq<string>)
    ensures |fs| >= 1
  {
    if right == [] then [""] else right
  }

  lemma ShortText(left: seq<string>, right: seq<string>)
    ensures Written(left) + "::" + Written(right)
         == (if left == [] then ":" else "") + Join(left + [""] + Behind(right), ':')
  {
    hide Join;
    CompressedSplits(left, Behind(right));
    JoinOne("");
    var tail := Written(right);
    assert Join(Behind(right), ':') == tail;
    assert "" + "::" + tail == ":" + (":" + tail);
  }

  lemma BehindFields(right: seq<string>)
    requires Part(right)
    ensures var fs := Behind(right);
      && (forall k :: 0 <= k < |fs| ==> ':' !in fs[k] && (IsQuad(fs[k]) || |fs[k]| <= 4))
      && (forall k :: 0 <= k < |fs| - 1 ==> HexGroup(fs[k]))
      && LastField(fs[|fs| - 1])
      && Bytes(fs) == Bytes(right)
      && (fs[|fs| - 1] == "" <==> right == [])
  {
    PartFields(right);
    hide Bytes, IsQuad, HexGroup;
    NoBytes();
    EmptyField();
    BytesSnoc([], "");
    assert [] + [""] == [""];
  }

  /** What the two sides of the `::` are made of. */
  lemma ShortSides(s: string, left: seq<string>, right: seq<string>)
    requires IsShort(s, left, right)
    ensures var tail := Behind(right);
      && s == Written(left) + "::" + Written(right)
      && (forall k :: 0 <= k < |left| ==> HexGroup(left[k]) && ':' !in left[k] && |left[k]| <= 4)
      && (forall k :: 0 <= k < |tail| ==> ':' !in tail[k] && (IsQuad(tail[k]) || |tail[k]| <= 4))
      && (forall k :: 0 <= k < |tail| - 1 ==> HexGroup(tail[k]))
      && LastField(tail[|tail| - 1])
      && (tail[|tail| - 1] == "" ==> |tail| == 1)
      && |Bytes(left)| + |Bytes(right)| < 16 && Bytes(tail) == Bytes(right)
  {
    GroupsBytes(left);
    PartFields(right);
    BehindFields(right);
    hide HexGroup, IsQuad, Bytes, Part, LastField, Written, Numeral;
    forall k | 0 <= k < |left| ensures HexGroup(left[k]) && ':' !in left[k] && |left[k]| <= 4 { GroupIs(left[k]); }
  }

  lemma ShortIsAccepted(s: string, left: seq<string>, right: seq<string>)
    requires IsShort(s, left, right)
    ensures Accepts(s)
    ensures |Bytes(left)| + |Bytes(right)| < 16
    ensures Parsed(s) == Bytes(left) + Zeros(16 - |Bytes(left)| - |Bytes(right)|) + Bytes(right)
  {
    hide *;
    ShortSides(s, left, right);
    ShortText(left, right);
    ParseCompressed(left, Behind(right));
  }

  lemma ShortIsTaken(s: string, left: seq<string>, right: seq<string>)
    requires IsShort(s, left, right)
    ensures Accepts(s) && Strict(s)
    ensures |Bytes(left)| + |Bytes(right)| < 16
    ensures Parsed(s) == Bytes(left) + Zeros(16 - |Bytes(left)| - |Bytes(right)|) + Bytes(right)
  {
    hide *;
    ShortIsAccepted(s, left, right);
    ShortSides(s, left, right);
    ShortText(left, right);
    LeadingColons(left, Behind(right));
    ShortIsStrict(left, Behind(right));
    StrictIs(s, left + [""] + Behind(right));
  }

  lemma StrictIs(s: string, fs: seq<string>)
    requires fs != [] && (forall k :: 0 <= k < |fs| ==> ':' !in fs[k]) && Body(s) == Join(fs, ':')
    requires forall k :: 0 <= k < |fs| && !IsQuad(fs[k]) ==> |fs[k]| <= 4
    requires fs[|fs| - 1] == "" ==> |fs| >= 2 && fs[|fs| - 2] == ""
    requires |Bytes(fs)| < 16
    ensures Strict(s)
  {
    hide IsQuad, Bytes, Split, Join, HasMarker;
    SplitJoin(fs, ':');
  }

  lemma ShortIsStrict(left: seq<string>, tail: seq<string>)
    requires |tail| >= 1 && |Bytes(left)| + |Bytes(tail)| < 16
    requires forall k :: 0 <= k < |left| ==> ':' !in left[k] && |left[k]| <= 4
    requires forall k :: 0 <= k < |tail| ==> ':' !in tail[k] && (IsQuad(tail[k]) || |tail[k]| <= 4)
    requires tail[|tail| - 1] == "" ==> |tail| == 1
    ensures var fs := left + [""] + tail;
      && (forall k :: 0 <= k < |fs| ==> ':' !in fs[k] && (IsQuad(fs[k]) || |fs[k]| <= 4))
      && (fs[|fs| - 1] == "" ==> |fs| >= 2 && fs[|fs| - 2] == "")
      && |Bytes(fs)| < 16
  {
    hide IsQuad, Bytes;
    CompressedBytes(left, tail);
    var fs := left + [""] + tail;
    forall k | 0 <= k < |fs| ensures ':' !in fs[k] && (IsQuad(fs[k]) || |fs[k]| <= 4) {
      assert fs[k] == if k < |left| then left[k] else if k == |left| then "" else tail[k - |left| - 1];
    }
    assert fs[|fs| - 1] == tail[|tail| - 1];
  }

  // ---- every strict text the code takes is one of the grammar ----

  /** A field of a strict, well-formed text that is not empty is a group, or the dotted quad at the end. */
  lemma StrictField(fs: seq<string>, k: nat)
    requires WellFormed(fs) && k < |fs| && fs[k] != ""
    requires forall j :: 0 <= j < |fs| && !IsQuad(fs[j]) ==> |fs[j]| <= 4
    ensures Group(fs[k]) || (k == |fs| - 1 && IsQuad(fs[k]))
  {
    hide Numeral, Value, IsQuad, HexGroup, Group;
    if IsQuad(fs[k]) { QuadNotHex(fs[k]); }
    GroupIs(fs[k]);
    assert k < |fs| - 1 ==> InnerField(fs[k]);
  }

  lemma PlainIsFull(s: string)
    requires Accepts(s) && Strict(s) && !HasMarker(Split(Body(s), ':'))
    ensures exists fs :: IsFull(s, fs)
  {
    hide Split, Join, IsQuad, Numeral, Value, Bytes, HexGroup, WellFormed, Group;
    var fs := Split(Body(s), ':');
    HeadField(Body(s));
    JoinSplit(Body(s), ':');
    assert forall k :: 0 <= k < |fs| - 1 ==> !Marker(fs, k);
    forall k | 0 <= k < |fs| ensures Group(fs[k]) || (k == |fs| - 1 && IsQuad(fs[k])) {
      assert !Marker(fs, k) && !Marker(fs, |fs| - 2);
      StrictField(fs, k);
    }
    assert !Marker(fs, 0);
    assert Body(s) == s;
    PartFields(fs);
    assert IsFull(s, fs);
  }

  lemma MarkedIsShort(s: string)
    requires Accepts(s) && Strict(s) && HasMarker(Split(Body(s), ':'))
    ensures exists left, right :: IsShort(s, left, right)
  {
    hide Split, IsQuad, Bytes, WellFormed, Body;
    var fs := Split(Body(s), ':');
    var m := MarkerOf(fs);
    var left, right := Sides(fs, m);
    hide *;
    JoinSplit(Body(s), ':');
    LeadIs(s, m);
    ShortText(left, right);
    SidesWorth(fs, left, right);
    ShortIntro(s, left, right);
  }

  lemma ShortIntro(s: string, left: seq<string>, right: seq<string>)
    requires Groups(left) && Part(right) && |left| + Worth(right) <= 7 && s == Written(left) + "::" + Written(right)
    ensures IsShort(s, left, right)
  {}

  /** The fields around the marker as the two sides of the grammar. */
  lemma Sides(fs: seq<string>, m: nat) returns (left: seq<string>, right: seq<string>)
    requires WellFormed(fs) && Marker(fs, m)
    requires forall j :: 0 <= j < |fs| && !IsQuad(fs[j]) ==> |fs[j]| <= 4
    requires fs[|fs| - 1] == "" ==> |fs| >= 2 && fs[|fs| - 2] == ""
    ensures Groups(left) && Part(right) && |left| == m && fs == left + [""] + Behind(right)
  {
    hide IsQuad, Group, WellFormed;
    OnlyMarker(fs, m);
    left := fs[..m];
    right := if fs[m + 1..] == [""] then [] else fs[m + 1..];
  }

  lemma SidesWorth(fs: seq<string>, left: seq<string>, right: seq<string>)
    requires Groups(left) && Part(right) && fs == left + [""] + Behind(right) && |Bytes(fs)| < 16
    ensures |left| + Worth(right) <= 7
  {
    hide *;
    GroupsBytes(left);
    PartFields(right);
    BehindFields(right);
    CompressedBytes(left, Behind(right));
  }

  /** Around the marker all fields are groups, but for a dotted quad or nothing at the end. */
  lemma OnlyMarker(fs: seq<string>, m: nat)
    requires WellFormed(fs) && Marker(fs, m)
    requires forall j :: 0 <= j < |fs| && !IsQuad(fs[j]) ==> |fs[j]| <= 4
    requires fs[|fs| - 1] == "" ==> |fs| >= 2 && fs[|fs| - 2] == ""
    ensures forall k :: 0 <= k < m ==> Group(fs[k])
    ensures forall k :: m < k < |fs| - 1 ==> Group(fs[k])
    ensures fs[|fs| - 1] == "" ==> m == |fs| - 2
    ensures fs[|fs| - 1] != "" ==> Group(fs[|fs| - 1]) || IsQuad(fs[|fs| - 1])
  {
    hide IsQuad, HexGroup, Group, LastField;
    forall k | 0 <= k < |fs| && k != m && fs[k] != "" ensures Group(fs[k]) || (k == |fs| - 1 && IsQuad(fs[k])) {
      StrictField(fs, k);
    }
    forall k | 0 <= k < |fs| - 1 && k != m ensures fs[k] != "" {
      assert Marker(fs, k) ==> k == m;
    }
  }

  /** The skipped colon is there exactly when the text starts with the `::`. */
  lemma LeadIs(s: string, m: nat)
    requires LeadOk(s) && WellFormed(Split(Body(s), ':')) && Marker(Split(Body(s), ':'), m)
    ensures s == (if m == 0 then ":" else "") + Body(s)
  {
    hide Split;
    var fs := Split(Body(s), ':');
    HeadField(Body(s));
    if s != "" && s[0] == ':' {
      assert Body(s)[0] == ':';
      assert Marker(fs, 0);
      assert s == [s[0]] + s[1..];
    }
  }

  /**
    The theorem: the code takes every text of the grammar, and those it takes besides are exactly
    the ones that are not strict.
  */
  lemma RfcIff(s: string)
    ensures Rfc(s) <==> Accepts(s) && Strict(s)
  {
    hide Accepts, Strict, IsFull, IsShort, Split;
    if fs :| IsFull(s, fs) { FullIsTaken(s, fs); }
    if left, right :| IsShort(s, left, right) { ShortIsTaken(s, left, right); }
    if Accepts(s) && Strict(s) {
      if HasMarker(Split(Body(s), ':')) { MarkedIsShort(s); } else { PlainIsFull(s); }
    }
  }

  // ---- the texts beyond the grammar: each clause of Strict has its family ----

  /** Eight groups as the code reads them, of any number of digits. */
  predicate EightGroups(fs: seq<string>) {
    |fs| == 8 && forall k :: 0 <= k < 8 ==> HexGroup(fs[k]) && ':' !in fs[k]
  }

  lemma EightFacts(fs: seq<string>)
    requires EightGroups(fs)
    ensures |fs| == 8
    ensures forall k :: 0 <= k < 8 ==> HexGroup(fs[k]) && ':' !in fs[k] && fs[k] != "" && !IsQuad(fs[k])
    ensures LastField(fs[7]) && |Bytes(fs)| == 16
  {
    hide Numeral, Value, IsQuad, Bytes;
    HexBytes(fs);
    forall k | 0 <= k < 8 ensures !IsQuad(fs[k]) {
      if IsQuad(fs[k]) { QuadNotHex(fs[k]); }
    }
  }

  /** A colon after the eighth group is ignored. */
  lemma TrailingColon(fs: seq<string>)
    requires EightGroups(fs)
    ensures var s := Join(fs + [""], ':'); Accepts(s) && Parsed(s) == Bytes(fs) && !Rfc(s)
  {
    hide *;
    EightFacts(fs);
    EmptyField();
    EmptyIsLast();
    BytesSnoc(fs, "");
    assert Bytes(fs) + [] == Bytes(fs);
    ParseFull(fs + [""]);
    NotStrict(Join(fs + [""], ':'), fs + [""], 0);
  }

  /** Leading zeros are free. */
  lemma ManyDigits(fs: seq<string>, k: nat)
    requires EightGroups(fs) && k < 8 && |fs[k]| > 4
    ensures var s := Join(fs, ':'); Accepts(s) && Parsed(s) == Bytes(fs) && !Rfc(s)
  {
    hide *;
    EightFacts(fs);
    ParseFull(fs);
    NotStrict(Join(fs, ':'), fs, k);
  }

  /** A `::` between eight groups is taken, and erases those behind it. */
  lemma IdleMarker(fs: seq<string>, p: nat)
    requires EightGroups(fs) && 1 <= p <= 7
    ensures var s := Join(fs[..p] + [""] + fs[p..], ':');
      Accepts(s) && Parsed(s) == Bytes(fs[..p]) + Zeros(16 - 2 * p) && !Rfc(s)
  {
    hide *;
    EightFacts(fs);
    var left, right := fs[..p], fs[p..];
    EightSplit(fs, p);
    MarkedText(left, right);
    ExpandParts(Bytes(left), Bytes(right));
    CompressedBytes(left, right);
    var all := left + [""] + right;
    assert "" + Join(all, ':') == Join(all, ':');
    assert Marker(all, p) by { MarkerAt(left, right); }
    NotStrict(Join(all, ':'), all, p);
  }

  lemma EightSplit(fs: seq<string>, p: nat)
    requires EightGroups(fs) && 1 <= p <= 7
    ensures var left, right := fs[..p], fs[p..];
      && (forall k :: 0 <= k < p ==> HexGroup(left[k]) && ':' !in left[k])
      && (forall k :: 0 <= k < 8 - p ==> HexGroup(right[k]) && ':' !in right[k])
      && LastField(right[|right| - 1])
      && |Bytes(left)| == 2 * p && |Bytes(right)| == 16 - 2 * p
  {
    hide HexGroup, Bytes, IsQuad;
    HexBytes(fs[..p]);
    HexBytes(fs[p..]);
  }

  lemma MarkerAt(left: seq<string>, right: seq<string>)
    requires |right| >= 1
    ensures Marker(left + [""] + right, |left|)
  {}

  /** A text whose fields break a clause of Strict, at field `k` where it matters, is not one of the grammar. */
  lemma NotStrict(s: string, fs: seq<string>, k: nat)
    requires k < |fs| && fs[0] != "" && s == Join(fs, ':') && forall j :: 0 <= j < |fs| ==> ':' !in fs[j]
    requires || (fs[|fs| - 1] == "" && |fs| >= 2 && fs[|fs| - 2] != "")
             || (|fs[k]| > 4 && !IsQuad(fs[k]))
             || (Marker(fs, k) && |Bytes(fs)| == 16)
    ensures !Rfc(s)
  {
    hide Join, Split, Bytes, IsQuad, Rfc, Accepts;
    RfcIff(s);
    SplitJoin(fs, ':');
    HeadField(s);
    assert Body(s) == s;
    if |fs[k]| <= 4 && fs[|fs| - 1] != "" { assert HasMarker(fs); }
  }

  lemma TwoFours(xs: seq<string>, ys: seq<string>)
    requires |xs| == 4 && |ys| == 4
    ensures Join(xs + ys, ':') ==
      (xs[0] + ":" + xs[1] + ":" + xs[2] + ":" + xs[3]) + ":" + (ys[0] + ":" + ys[1] + ":" + ys[2] + ":" + ys[3])
  {
    hide Join;
    JoinAppend(xs, ys, ':');
    JoinFour(xs[0], xs[1], xs[2], xs[3], ':');
    JoinFour(ys[0], ys[1], ys[2], ys[3], ':');
    assert xs == [xs[0], xs[1], xs[2], xs[3]] && ys == [ys[0], ys[1], ys[2], ys[3]];
  }

  lemma ExampleTexts()
    ensures Join(["1", "2", "3", "4"] + ["5", "6", "7", "8"] + [""], ':') == "1:2:3:4:5:6:7:8:"
    ensures Join(["00001", "2", "3", "4"] + ["5", "6", "7", "8"], ':') == "00001:2:3:4:5:6:7:8"
    ensures Join(["1", "2", "3", "4"] + ["5", "6", "7", ""] + ["8"], ':') == "1:2:3:4:5:6:7::8"
  {
    hide *;
    TwoFours(["1", "2", "3", "4"], ["5", "6", "7", "8"]);
    JoinAppend(["1", "2", "3", "4"] + ["5", "6", "7", "8"], [""], ':');
    TwoFours(["00001", "2", "3", "4"], ["5", "6", "7", "8"]);
    TwoFours(["1", "2", "3", "4"], ["5", "6", "7", ""]);
    JoinAppend(["1", "2", "3", "4"] + ["5", "6", "7", ""], ["8"], ':');
    JoinOne("");
    JoinOne("8");
  }

  /** An example of each. */
  lemma BeyondTheGrammar()
    ensures Accepts("1:2:3:4:5:6:7:8:") && !Rfc("1:2:3:4:5:6:7:8:")
    ensures Accepts("00001:2:3:4:5:6:7:8") && !Rfc("00001:2:3:4:5:6:7:8")
    ensures Accepts("1:2:3:4:5:6:7::8") && !Rfc("1:2:3:4:5:6:7::8")
  {
    hide *;
    Digits();
    ExampleTexts();
    var fs := ["1", "2", "3", "4"] + ["5", "6", "7", "8"];
    TrailingColon(fs);
    ManyDigits(["00001", "2", "3", "4"] + ["5", "6", "7", "8"], 0);
    IdleMarker(fs, 7);
    assert fs[..7] + [""] + fs[7..] == ["1", "2", "3", "4"] + ["5", "6", "7", ""] + ["8"];
  }

  lemma Digits()
    ensures EightGroups(["1", "2", "3", "4"] + ["5", "6", "7", "8"])
    ensures EightGroups(["00001", "2", "3", "4"] + ["5", "6", "7", "8"])
  {
    hide HexGroup;
    DigitGroup("1"); DigitGroup("2"); DigitGroup("3"); DigitGroup("4");
    DigitGroup("5"); DigitGroup("6"); DigitGroup("7"); DigitGroup("8"); DigitGroup("00001");
  }

  lemma DigitGroup(f: string)
    requires f in {"1", "2", "3", "4", "5", "6", "7", "8", "00001"}
    ensures HexGroup(f) && ':' !in f
  {
    assert Value("", 16) == 0;
    forall i | 0 <= i < |f| ensures Digit(f[i]) < 9 {}
    SmallValue(f);
    NumeralNoSep(f, ':');
  }

  lemma SmallValue(f: string)
    requires f in {"1", "2", "3", "4", "5", "6", "7", "8"} || f == "00001"
    ensures Value(f, 16) < 9
  {
    if f == "00001" {
      var z := "0000";
      assert f[..4] == z && z[..3] == "000" && "000"[..2] == "00" && "00"[..1] == "0" && "0"[..0] == "";
      assert Value("0", 16) == 0 && Value("00", 16) == 0 && Value("000", 16) == 0 && Value(z, 16) == 0;
    } else {
      assert f[..0] == "";
    }
  }

  // ---- what inet_ntop6 prints is an address of the RFC ----

  lemma PrintedWords(ws: seq<Word>)
    ensures Groups(HexFields(ws))
  {
    hide Group, HexGroup, HexFields;
    PlainHexFields(ws);
    forall k | 0 <= k < |HexFields(ws)| ensures Group(HexFields(ws)[k]) {
      GroupIs(HexFields(ws)[k]);
    }
  }

  lemma GroupsArePart(fs: seq<string>)
    requires Groups(fs)
    ensures Part(fs) && Worth(fs) == |fs|
  {
    hide Group, IsQuad;
    if fs != [] { GroupIs(fs[|fs| - 1]); }
  }

  lemma GroupsThenQuad(fs: seq<string>, q: string)
    requires Groups(fs) && IsQuad(q)
    ensures Part(fs + [q]) && Worth(fs + [q]) == |fs| + 2
  {
    hide Group, IsQuad;
  }

  /** The fields behind the `::`, none when the run ends the address. */
  lemma PrintedRight(a: seq<Byte>, b: nat, l: nat) returns (right: seq<string>)
    requires |a| == 16 && 2 <= l && b + l <= 8
    ensures Part(right) && Worth(right) == 8 - b - l && Behind(right) == TailFields(a, b, l)
  {
    TailCases(a, b, l);
    hide *;
    var ws := Words(a);
    if b + l == 8 {
      right := [];
      NoFields();
    } else if Embedded(ws, b, l) {
      var hs, q := HexFields(ws[l..6]), QuadText(a[12..]);
      PrintedWords(ws[l..6]);
      QuadRoundTrip(a[12..]);
      GroupsThenQuad(hs, q);
      right := hs + [q];
      BehindSome(right);
    } else {
      right := HexFields(ws[b + l..]);
      PrintedWords(ws[b + l..]);
      GroupsArePart(right);
      BehindSome(right);
    }
  }

  lemma NoFields()
    ensures Part([]) && Worth([]) == 0 && Behind([]) == [""]
  {}

  lemma BehindSome(right: seq<string>)
    requires right != []
    ensures Behind(right) == right
  {}

  /** Whatever the address, the text printed for it is one of the grammar. */
  lemma PrintedIsRfc(a: seq<Byte>, b: int, l: int)
    requires |a| == 16 && Chosen(Words(a), b, l)
    ensures Rfc(Format(a, b, l))
  {
    hide *;
    ChosenBounds(Words(a), b, l);
    if b == -1 {
      var fs := HexFields(Words(a));
      FormatFull(a, l);
      PrintedWords(Words(a));
      GroupsArePart(fs);
      FullIsRfc(fs);
    } else {
      var left := HexFields(Words(a)[..b]);
      var right := PrintedRight(a, b, l);
      FormatRun(a, b, l);
      PrintedWords(Words(a)[..b]);
      ShortText(left, right);
      ShortIntro(Format(a, b, l), left, right);
      ShortIsRfc(Format(a, b, l), left, right);
    }
  }

  lemma FullIsRfc(fs: seq<string>)
    requires |fs| >= 1 && Part(fs) && Worth(fs) == 8
    ensures Rfc(Join(fs, ':'))
  {
    hide Part, Worth, Join;
    assert IsFull(Join(fs, ':'), fs);
  }

  lemma ShortIsRfc(s: string, left: seq<string>, right: seq<string>)
    requires IsShort(s, left, right)
    ensures Rfc(s)
  {
    hide IsShort;
  }

  // ---- what the printed text looks like ----

  /** The `::` stands for the chosen run: it is there exactly if there is one, at its place, and elides its words. */
  lemma CompressedRun(a: seq<Byte>, b: int, l: int)
    requires |a| == 16 && Chosen(Words(a), b, l)
    ensures b == -1 || (0 <= b && 2 <= l && b + l <= 8)
    ensures var fs := Split(Body(Format(a, b, l)), ':');
      && (HasMarker(fs) <==> b != -1)
      && (b != -1 ==> RunAt(fs, 2 * b, 16 - 2 * l))
  {
    hide *;
    ChosenBounds(Words(a), b, l);
    if b == -1 {
      FormatFull(a, l);
      PlainRun(a);
    } else {
      FormatRun(a, b, l);
      PrintedGroups(a, b);
      Tail(a, b, l);
      MarkedRun(HexFields(Words(a)[..b]), TailFields(a, b, l), Format(a, b, l));
      RunHasMarker(Split(Body(Format(a, b, l)), ':'), 2 * b, 16 - 2 * l);
    }
  }

  lemma RunHasMarker(fs: seq<string>, before: nat, all: nat)
    requires RunAt(fs, before, all)
    ensures HasMarker(fs)
  {}

  lemma PlainRun(a: seq<Byte>)
    requires |a| == 16
    ensures !HasMarker(Split(Body(Join(HexFields(Words(a)), ':')), ':'))
  {
    hide *;
    var fs := HexFields(Words(a));
    PlainHexFields(Words(a));
    SplitJoin(fs, ':');
    HeadField(Join(fs, ':'));
    NoMarker(fs, Join(fs, ':'));
  }

  lemma NoMarker(fs: seq<string>, s: string)
    requires |fs| >= 1 && (forall f :: f in fs ==> f != "") && Split(s, ':') == fs
    requires s != "" && s[0] == ':' <==> |fs| >= 2 && fs[0] == ""
    ensures !HasMarker(Split(Body(s), ':'))
  {
    hide Split;
    assert fs[0] in fs;
    forall k ensures !Marker(fs, k) {
      if 0 <= k < |fs| { assert fs[k] in fs; }
    }
  }

  lemma {:induction false} MarkedRun(left: seq<string>, tail: seq<string>, s: string)
    requires forall k :: 0 <= k < |left| ==> HexGroup(left[k]) && ':' !in left[k]
    requires |tail| >= 1
    requires forall k :: 0 <= k < |tail| ==> ':' !in tail[k]
    requires forall k :: 0 <= k < |tail| - 1 ==> HexGroup(tail[k])
    requires LastField(tail[|tail| - 1])
    requires s == (if left == [] then ":" else "") + Join(left + [""] + tail, ':')
    ensures RunAt(Split(Body(s), ':'), |Bytes(left)|, |Bytes(left)| + |Bytes(tail)|)
  {
    hide *;
    MarkedSplit(left, tail, s);
    MarkedFields(left, tail);
  }

  /** The fields have a `::` behind `before` bytes and stand for `all` of them. */
  ghost predicate RunAt(fs: seq<string>, before: nat, all: nat) {
    HasMarker(fs) && Before(fs) == before && |Bytes(fs)| == all
  }

  lemma {:induction false} MarkedFields(left: seq<string>, tail: seq<string>)
    requires forall k :: 0 <= k < |left| ==> HexGroup(left[k])
    requires |tail| >= 1
    requires forall k :: 0 <= k < |tail| - 1 ==> HexGroup(tail[k])
    requires LastField(tail[|tail| - 1])
    ensures RunAt(left + [""] + tail, |Bytes(left)|, |Bytes(left)| + |Bytes(tail)|)
  {
    hide *;
    CompressedFields(left, tail);
    CompressedCounts(left, tail);
    RunIntro(left + [""] + tail, |left|, |Bytes(left)|, |Bytes(left)| + |Bytes(tail)|);
  }

  lemma {:induction false} CompressedCounts(left: seq<string>, tail: seq<string>)
    ensures |left| <= |left + [""] + tail|
    ensures |Bytes((left + [""] + tail)[..|left|])| == |Bytes(left)|
    ensures |Bytes(left + [""] + tail)| == |Bytes(left)| + |Bytes(tail)|
  {
    hide Bytes;
    CompressedBytes(left, tail);
    assert (left + [""] + tail)[..|left|] == left;
  }

  lemma RunIntro(fs: seq<string>, k: nat, before: nat, all: nat)
    requires HasMarker(fs) && MarkerOf(fs) == k && k <= |fs| && |Bytes(fs[..k])| == before && |Bytes(fs)| == all
    ensures RunAt(fs, before, all)
  {
    hide Bytes;
  }

  lemma MarkedSplit(left: seq<string>, tail: seq<string>, s: string)
    requires forall k :: 0 <= k < |left| ==> HexGroup(left[k]) && ':' !in left[k]
    requires |tail| >= 1 && forall k :: 0 <= k < |tail| ==> ':' !in tail[k]
    requires s == (if left == [] then ":" else "") + Join(left + [""] + tail, ':')
    ensures Split(Body(s), ':') == left + [""] + tail
  {
    hide HexGroup, Split, Join, Body, LeadOk;
    LeadingColons(left, tail);
    SplitJoin(left + [""] + tail, ':');
  }

  lemma {:induction false} JoinLacks(fs: seq<string>, sep: char, c: char)
    requires |fs| >= 1 && c != sep && forall f :: f in fs ==> c !in f
    ensures c !in Join(fs, sep)
  {
    if |fs| == 1 {
      assert fs[0] in fs;
    } else {
      JoinLacks(fs[1..], sep, c);
      assert fs[0] in fs;
    }
  }

  lemma HexFieldsPlain(ws: seq<Word>)
    ensures forall f :: f in HexFields(ws) ==> '.' !in f
  {
    hide HexGroup, HexFields;
    PlainHexFields(ws);
    forall f | f in HexFields(ws) ensures '.' !in f {
      if '.' in f { HexGroupChars(f, '.'); }
    }
  }

  lemma PlainFields(ws: seq<Word>)
    ensures |ws| >= 1 ==> '.' !in Join(HexFields(ws), ':')
  {
    hide *;
    if |ws| >= 1 {
      HexFieldsPlain(ws);
      DotIsNoDigit();
      JoinLacks(HexFields(ws), ':', '.');
    }
  }

  lemma DotIsNoDigit()
    ensures Digit('.') == 16
  {}

  /** A dot is printed exactly for the embedded forms, and then the last four bytes end the text. */
  lemma DotIffEmbedded(a: seq<Byte>, b: int, l: int)
    requires |a| == 16 && Chosen(Words(a), b, l)
    ensures b == -1 || (0 <= b && 2 <= l && b + l <= 8)
    ensures '.' in Format(a, b, l) <==> b != -1 && b + l < 8 && Embedded(Words(a), b, l)
    ensures '.' in Format(a, b, l) ==> exists front :: Format(a, b, l) == Followed(front, QuadText(a[12..]))
  {
    hide *;
    ChosenBounds(Words(a), b, l);
    var ws := Words(a);
    if b == -1 {
      FormatFull(a, l);
      PlainFields(ws);
    } else if b + l < 8 && Embedded(ws, b, l) {
      EmbeddedLength(ws, b, l);
      PrintedEmbedded(a, l);
      QuadRoundTrip(a[12..]);
      QuadNotHex(QuadText(a[12..]));
      FollowedBy(Printed(a, 0, l, 6), QuadText(a[12..]));
    } else {
      FormatParts(a, b, l);
      LeftPlain(a, b);
      TailCases(a, b, l);
      JoinOne("");
      PlainFields(ws[b + l..]);
    }
  }

  function Followed(front: string, q: string): string {
    front + ":" + q
  }

  lemma FollowedBy(front: string, q: string)
    requires '.' in q
    ensures '.' in front + ":" + q && front + ":" + q == Followed(front, q)
  {}

  lemma LeftPlain(a: seq<Byte>, b: nat)
    requires |a| == 16 && b <= 8
    ensures '.' !in LeftText(a, b)
  {
    hide Join, HexFields, Words;
    if b > 0 { PlainFields(Words(a)[..b]); }
  }

  lemma SixZeros(ws: seq<Word>, b: int, l: int)
    requires |ws| == 8 && Chosen(ws, b, l)
    ensures b == 0 && l == 6 <==> (forall k :: 0 <= k < 6 ==> ws[k] == 0) && ws[6] != 0
  {
    if b == 0 && l == 6 {
      assert ws[6] == 0 ==> ZeroRun(ws, 0, 7);
    }
    if (forall k :: 0 <= k < 6 ==> ws[k] == 0) && ws[6] != 0 {
      assert ZeroRun(ws, 0, 6);
      forall b', l' | ZeroRun(ws, b', l') ensures b' + l' <= 6 || b' >= 7 { assert !(b' <= 6 < b' + l'); }
      ChosenUnique(ws, b, l, 0, 6);
    }
  }

  lemma FiveZeros(ws: seq<Word>, b: int, l: int)
    requires |ws| == 8 && Chosen(ws, b, l) && ws[5] == 0xffff
    ensures b == 0 && l == 5 <==> forall k :: 0 <= k < 5 ==> ws[k] == 0
  {
    if forall k :: 0 <= k < 5 ==> ws[k] == 0 {
      assert ZeroRun(ws, 0, 5);
      forall b', l' | ZeroRun(ws, b', l') ensures b' + l' <= 5 || b' >= 6 { assert !(b' <= 5 < b' + l'); }
      ChosenUnique(ws, b, l, 0, 5);
    }
  }

  lemma WordIs(a: seq<Byte>, k: nat)
    requires |a| == 16 && k < 8
    ensures Words(a)[k] == 0 <==> a[2 * k] == 0 && a[2 * k + 1] == 0
    ensures Words(a)[k] == 0xffff <==> a[2 * k] == 255 && a[2 * k + 1] == 255
  {}

  lemma ZeroWords(a: seq<Byte>, n: nat)
    requires |a| == 16 && n <= 8
    ensures (forall k :: 0 <= k < n ==> Words(a)[k] == 0) <==> forall k :: 0 <= k < 2 * n ==> a[k] == 0
  {
    hide Words;
    if forall k :: 0 <= k < n ==> Words(a)[k] == 0 {
      forall k | 0 <= k < 2 * n ensures a[k] == 0 {
        WordIs(a, k / 2);
        assert k == 2 * (k / 2) || k == 2 * (k / 2) + 1;
        assert Words(a)[k / 2] == 0;
      }
    }
    if forall k :: 0 <= k < 2 * n ==> a[k] == 0 {
      forall k | 0 <= k < n ensures Words(a)[k] == 0 {
        assert a[2 * k] == 0 && a[2 * k + 1] == 0;
        WordIs(a, k);
      }
    }
  }

  /**
    Which addresses are printed with a dotted quad: those with twelve zero bytes and not fourteen, and
    those with ten zero bytes and then ff ff.
  */
  lemma QuadPrintedIff(a: seq<Byte>, b: int, l: int)
    requires |a| == 16 && Chosen(Words(a), b, l)
    ensures b == -1 || (0 <= b && 2 <= l && b + l <= 8)
    ensures '.' in Format(a, b, l) <==>
      || ((forall k :: 0 <= k < 12 ==> a[k] == 0) && !(a[12] == 0 && a[13] == 0))
      || ((forall k :: 0 <= k < 10 ==> a[k] == 0) && a[10] == 255 && a[11] == 255)
  {
    hide Words, Format, Chosen;
    var ws := Words(a);
    DotIffEmbedded(a, b, l);
    SixZeros(ws, b, l);
    if ws[5] == 0xffff { FiveZeros(ws, b, l); }
    ZeroWords(a, 6);
    ZeroWords(a, 5);
    WordIs(a, 6);
    WordIs(a, 5);
  }

  // ---- a known answer ----

  lemma KnownFields()
    ensures Group("fe80") && Value("fe80", 16) == 0xfe80
    ensures Group("aB") && Value("aB", 16) == 0xab
  {
    assert "fe80"[..3] == "fe8" && "fe8"[..2] == "fe" && "fe"[..1] == "f" && "f"[..0] == "";
    assert Value("f", 16) == 15 && Value("fe", 16) == 0xfe && Value("fe8", 16) == 0xfe8;
    assert "aB"[..1] == "a" && "a"[..0] == "" && Value("a", 16) == 10;
  }

  lemma KnownQuad()
    ensures IsQuad("1.2.3.4") && QuadBytes("1.2.3.4") == [1, 2, 3, 4]
  {
    var bs: seq<Byte> := [1, 2, 3, 4];
    DigitTable(1); DigitTable(2); DigitTable(3); DigitTable(4);
    assert Text(1, 10) == "1" && Text(2, 10) == "2" && Text(3, 10) == "3" && Text(4, 10) == "4";
    hide Text, Split, Value, Join, IsQuad, QuadBytes;
    JoinFour("1", "2", "3", "4", '.');
    assert QuadText(bs) == "1.2.3.4";
    QuadRoundTrip(bs);
  }

  lemma KnownGroup(f: string, w: nat)
    requires Group(f) && Value(f, 16) == w
    ensures w <= 0xffff && Bytes([f]) == [w / 256, w % 256]
  {
    GroupIs(f);
    hide Value, Numeral, IsQuad, Group;
    NoBytes();
    BytesSnoc([], f);
    assert [] + [f] == [f];
  }

  lemma KnownBytes()
    ensures Bytes(["fe80"]) == [0xfe, 0x80]
    ensures Bytes(["aB", "1.2.3.4"]) == [0, 0xab, 1, 2, 3, 4]
  {
    hide *;
    KnownFields();
    KnownQuad();
    KnownGroup("fe80", 0xfe80);
    KnownGroup("aB", 0xab);
    QuadNotHex("1.2.3.4");
    BytesSnoc(["aB"], "1.2.3.4");
    assert ["aB"] + ["1.2.3.4"] == ["aB", "1.2.3.4"];
  }

  lemma KnownShort()
    ensures IsShort("fe80::aB:1.2.3.4", ["fe80"], ["aB", "1.2.3.4"])
  {
    KnownFields();
    KnownQuad();
    KnownTexts();
    hide Value, Numeral, IsQuad, Group, Written;
  }

  lemma KnownTexts()
    ensures Written(["fe80"]) + "::" + Written(["aB", "1.2.3.4"]) == "fe80::aB:1.2.3.4"
  {
    assert ["aB", "1.2.3.4"][1..] == ["1.2.3.4"];
    assert Written(["aB", "1.2.3.4"]) == "aB:1.2.3.4" && Written(["fe80"]) == "fe80";
  }

  lemma KnownSum()
    ensures [0xfe, 0x80] + Zeros(8) + [0, 0xab, 1, 2, 3, 4] == [0xfe, 0x80, 0, 0, 0, 0, 0, 0, 0, 0, 0, 0xab, 1, 2, 3, 4]
  {}

  /** Digits of both cases, byte order, the gap and the dotted quad in one text. */
  lemma KnownAddress()
    ensures Accepts("fe80::aB:1.2.3.4")
    ensures Parsed("fe80::aB:1.2.3.4") == [0xfe, 0x80, 0, 0, 0, 0, 0, 0, 0, 0, 0, 0xab, 1, 2, 3, 4]
  {
    hide *;
    KnownShort();
    KnownBytes();
    KnownSum();
    var s := "fe80::aB:1.2.3.4";
    ShortIsTaken(s, ["fe80"], ["aB", "1.2.3.4"]);
    Known(s, Bytes(["fe80"]), Bytes(["aB", "1.2.3.4"]));
  }

  lemma Known(s: string, xs: seq<Byte>, ys: seq<Byte>)
    requires Accepts(s) && |xs| + |ys| < 16 && Parsed(s) == xs + Zeros(16 - |xs| - |ys|) + ys
    requires |xs| == 2 && |ys| == 6
    ensures Parsed(s) == xs + Zeros(8) + ys
  {
    hide *;
  }
}
