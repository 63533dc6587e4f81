/**
  Text cut into fields by a separator, and numerals in a base: the vocabulary in which the
  address texts are specified, independent of how the C code scans them.
*/
module Fields {

  /** The fields of `s` between occurrences of `sep`; the empty text has one empty field. */
  function Split(s: string, sep: char): (fs: seq<string>)
    ensures |fs| >= 1
  {
    if s == "" then [""]
    else
      var rest := Split(s[1..], sep);
      if s[0] == sep then [""] + rest else [[s[0]] + rest[0]] + rest[1..]
  }

  function Join(fs: seq<string>, sep: char): string
    requires |fs| >= 1
  {
    if |fs| == 1 then fs[0] else fs[0] + [sep] + Join(fs[1..], sep)
  }

  /** Reading on inside a field only extends that field. */
  lemma SplitStep(c: char, s: string, sep: char)
    requires c != sep
    ensures Split([c] + s, sep) == [[c] + Split(s, sep)[0]] + Split(s, sep)[1..]
  {
    assert ([c] + s)[1..] == s;
  }

  lemma {:induction false} SplitPrefix(cur: string, rest: string, sep: char)
    requires sep !in cur
    ensures Split(cur + rest, sep) == [cur + Split(rest, sep)[0]] + Split(rest, sep)[1..]
  {
    if cur == "" {
      assert cur + rest == rest;
      assert cur + Split(rest, sep)[0] == Split(rest, sep)[0];
    } else {
      hide Split;
      SplitPrefix(cur[1..], rest, sep);
      SplitStep(cur[0], cur[1..] + rest, sep);
      assert cur + rest == [cur[0]] + (cur[1..] + rest);
      assert [cur[0]] + (cur[1..] + Split(rest, sep)[0]) == cur + Split(rest, sep)[0];
    }
  }

  /** A separator ends the current field. */
  lemma SplitAtSep(cur: string, rest: string, sep: char)
    requires sep !in cur
    ensures Split(cur + ([sep] + rest), sep) == [cur] + Split(rest, sep)
  {
    SplitPrefix(cur, [sep] + rest, sep);
    assert ([sep] + rest)[1..] == rest;
    assert cur + "" == cur;
  }

  lemma SplitWhole(cur: string, sep: char)
    requires sep !in cur
    ensures Split(cur, sep) == [cur]
  {
    SplitPrefix(cur, "", sep);
    assert cur + "" == cur;
  }

  lemma {:induction false} SplitJoin(fs: seq<string>, sep: char)
    requires |fs| >= 1
    requires forall f :: f in fs ==> sep !in f
    ensures Split(Join(fs, sep), sep) == fs
  {
    if |fs| == 1 {
      SplitWhole(fs[0], sep);
    } else {
      SplitJoin(fs[1..], sep);
      SplitAtSep(fs[0], Join(fs[1..], sep), sep);
      assert fs[0] + [sep] + Join(fs[1..], sep) == fs[0] + ([sep] + Join(fs[1..], sep));
    }
  }

  lemma {:induction false} JoinSplit(t: string, sep: char)
    ensures Join(Split(t, sep), sep) == t
  {
    if t == "" {
    } else {
      JoinSplit(t[1..], sep);
      var fs := Split(t[1..], sep);
      assert t == [t[0]] + t[1..];
      if t[0] == sep {
        assert ([""] + fs)[1..] == fs;
      } else {
        JoinHead(t[0], fs, sep);
      }
    }
  }

  lemma JoinHead(c: char, fs: seq<string>, sep: char)
    requires |fs| >= 1
    ensures Join([[c] + fs[0]] + fs[1..], sep) == [c] + Join(fs, sep)
  {
    assert ([[c] + fs[0]] + fs[1..])[1..] == fs[1..];
    if |fs| > 1 {
      assert ([c] + fs[0]) + [sep] + Join(fs[1..], sep) == [c] + (fs[0] + [sep] + Join(fs[1..], sep));
    }
  }

  /** Every character of a text is the separator or lies in one of the fields. */
  lemma {:induction false} SplitCovers(s: string, sep: char, c: char)
    requires c in s && c != sep
    ensures exists k :: 0 <= k < |Split(s, sep)| && c in Split(s, sep)[k]
  {
    var rest := Split(s[1..], sep);
    if s[0] == c {
      assert c in Split(s, sep)[0];
    } else {
      SplitCovers(s[1..], sep, c);
      var k :| 0 <= k < |rest| && c in rest[k];
      if s[0] == sep {
        assert Split(s, sep)[k + 1] == rest[k];
      } else if k == 0 {
        assert Split(s, sep)[0] == [s[0]] + rest[0];
      } else {
        assert Split(s, sep)[k] == rest[k];
      }
    }
  }

  lemma {:induction false} JoinAppend(xs: seq<string>, ys: seq<string>, sep: char)
    requires |xs| >= 1 && |ys| >= 1
    ensures Join(xs + ys, sep) == Join(xs, sep) + [sep] + Join(ys, sep)
  {
    assert (xs + ys)[1..] == xs[1..] + ys;
    if |xs| == 1 {
      assert (xs + ys)[1..] == ys;
    } else {
      JoinAppend(xs[1..], ys, sep);
    }
  }

  lemma JoinFour(a: string, b: string, c: string, d: string, sep: char)
    ensures Join([a, b, c, d], sep) == a + [sep] + b + [sep] + c + [sep] + d
  {
    assert [a, b, c, d][1..] == [b, c, d] && [b, c, d][1..] == [c, d] && [c, d][1..] == [d];
    assert Join([c, d], sep) == c + [sep] + d;
    assert Join([b, c, d], sep) == b + [sep] + (c + [sep] + d);
  }

  /** The length of a text joined from fields of at most four characters. */
  lemma {:induction false} JoinLength(fs: seq<string>, sep: char)
    requires |fs| >= 1
    requires forall f :: f in fs ==> |f| <= 4
    ensures |Join(fs, sep)| <= 5 * |fs| - 1
  {
    if |fs| == 1 {
    } else {
      JoinLength(fs[1..], sep);
    }
  }

  // ---- numerals ----

  const XDIGITS_L := "0123456789abcdef"
  const XDIGITS_U := "0123456789ABCDEF"
  const DIGITS := "0123456789"

  /** strchr, as an index: where the character first stands, or the length of the text. */
  function Find(s: string, c: char): (i: nat)
    ensures i <= |s| && (i < |s| ==> s[i] == c) && forall j :: 0 <= j < i ==> s[j] != c
  {
    if s == "" then 0
    else if s[0] == c then 0
    else
      var i := Find(s[1..], c);
      assert forall j :: 1 <= j <= i ==> s[j] == s[1..][j - 1];
      i + 1
  }

  /** The value of a hexadecimal digit of either case, 16 for any other character. */
  function Digit(c: char): (d: nat)
    ensures d <= 16
  {
    if '0' <= c <= '9' then c as int - '0' as int
    else if 'a' <= c <= 'f' then c as int - 'a' as int + 10
    else if 'A' <= c <= 'F' then c as int - 'A' as int + 10
    else 16
  }

  /** Which character has which value, in both cases, and which is printed. */
  lemma DigitTable(d: nat)
    requires d < 16
    ensures Digit("0123456789abcdef"[d]) == d && Digit("0123456789ABCDEF"[d]) == d
    ensures DigitChar(d) == "0123456789abcdef"[d]
  {
    assert d == 0 || d == 1 || d == 2 || d == 3 || d == 4 || d == 5 || d == 6 || d == 7
        || d == 8 || d == 9 || d == 10 || d == 11 || d == 12 || d == 13 || d == 14 || d == 15;
  }

  lemma DigitBack(c: char)
    requires Digit(c) < 16
    ensures c == "0123456789abcdef"[Digit(c)] || c == "0123456789ABCDEF"[Digit(c)]
  {
    var d := Digit(c);
    assert d == 0 || d == 1 || d == 2 || d == 3 || d == 4 || d == 5 || d == 6 || d == 7
        || d == 8 || d == 9 || d == 10 || d == 11 || d == 12 || d == 13 || d == 14 || d == 15;
  }

  /** A character has a value exactly if it stands in one of the two strings; its place there is the value. */
  lemma DigitIs(c: char)
    ensures Digit(c) == if Find(XDIGITS_L, c) < 16 then Find(XDIGITS_L, c) else Find(XDIGITS_U, c)
    ensures Digit(c) == 16 <==> c !in "0123456789abcdef" && c !in "0123456789ABCDEF"
    ensures Find(XDIGITS_L, c) <= 16 && Find(XDIGITS_U, c) <= 16
  {
    hide Digit, DigitChar, Find;
    var l, u := Find("0123456789abcdef", c), Find("0123456789ABCDEF", c);
    if l < 16 {
      DigitTable(l);
    } else if u < 16 {
      DigitTable(u);
    } else if Digit(c) < 16 {
      DigitBack(c);
    }
    if i :| 0 <= i < 16 && "0123456789abcdef"[i] == c { DigitTable(i); }
    if i :| 0 <= i < 16 && "0123456789ABCDEF"[i] == c { DigitTable(i); }
  }

  lemma DecimalIs(c: char)
    ensures Digit(c) < 10 <==> Find(DIGITS, c) < 10
    ensures Digit(c) < 10 ==> Digit(c) == Find(DIGITS, c)
  {
    var i := Find(DIGITS, c);
    if i < 10 {
      assert DIGITS[i] == "0123456789abcdef"[i];
      DigitTable(i);
    }
    if Digit(c) < 10 {
      DigitTable(Digit(c));
      assert c == DIGITS[Digit(c)];
    }
  }

  predicate Numeral(s: string, base: nat) {
    forall i :: 0 <= i < |s| ==> Digit(s[i]) < base
  }

  function Value(s: string, base: nat): nat {
    if s == "" then 0 else Value(s[..|s| - 1], base) * base + Digit(s[|s| - 1])
  }

  lemma ValueSnoc(s: string, c: char, base: nat)
    ensures Value(s + [c], base) == Value(s, base) * base + Digit(c)
  {
    assert (s + [c])[..|s|] == s;
  }

  /** Reading more digits never lowers the value. */
  lemma {:induction false} ValuePrefix(s: string, t: string, base: nat)
    requires base >= 1
    ensures Value(s, base) <= Value(s + t, base)
  {
    if t == "" {
      assert s + t == s;
    } else {
      var t' := t[..|t| - 1];
      ValuePrefix(s, t', base);
      assert (s + t)[..|s + t| - 1] == s + t';
      MulGrows(Value(s + t', base), base);
    }
  }

  lemma MulGrows(a: nat, b: nat)
    requires b >= 1
    ensures a <= a * b
  {
    if b > 1 { assert a * b == a * (b - 1) + a; assert a * (b - 1) >= 0; }
  }

  function DigitChar(d: nat): (c: char)
    requires d < 16
    ensures Digit(c) == d
  {
    if d < 10 then '0' + d as char else 'a' + (d - 10) as char
  }

  /** What printf writes for `%u` (base 10) and `%x` (base 16). */
  function Text(n: nat, base: nat): string
    requires 2 <= base <= 16
    decreases n
  {
    if n < base then [DigitChar(n)] else DivLess(n, base); Text(n / base, base) + [DigitChar(n % base)]
  }

  lemma Doubles(q: int, base: nat)
    requires base >= 2
    ensures q >= 0 ==> q * base >= 2 * q
    ensures q <= 0 ==> q * base <= 0
  {
    assert q * base == 2 * q + q * (base - 2);
  }

  lemma DivLess(n: nat, base: nat)
    requires 2 <= base <= n
    ensures 0 < n / base < n
    ensures n == (n / base) * base + n % base
  {
    var q, r := n / base, n % base;
    assert n == q * base + r;
    Doubles(q, base);
  }

  lemma {:induction false} TextValue(n: nat, base: nat)
    requires 2 <= base <= 16
    ensures Text(n, base) != ""
    ensures Numeral(Text(n, base), base)
    ensures Value(Text(n, base), base) == n
    decreases n
  {
    if n < base {
      assert Value([DigitChar(n)], base) == Value("", base) * base + Digit(DigitChar(n));
    } else {
      DivLess(n, base);
      TextValue(n / base, base);
      ValueSnoc(Text(n / base, base), DigitChar(n % base), base);
    }
  }

  /** Printed without leading zeros. */
  lemma {:induction false} TextShortest(n: nat, base: nat)
    requires 2 <= base <= 16
    ensures n == 0 ==> Text(n, base) == "0"
    ensures n > 0 ==> Text(n, base) != "" && Text(n, base)[0] != '0'
    decreases n
  {
    if n < base {
      if n > 0 { DigitTable(n); }
    } else {
      DivLess(n, base);
      TextShortest(n / base, base);
    }
  }

  lemma HexTextLength(n: nat)
    requires n < 65536
    ensures 1 <= |Text(n, 16)| <= 4
  {
    assert n / 16 < 4096 && n / 16 / 16 < 256 && n / 16 / 16 / 16 < 16;
    if n >= 16 {
      if n / 16 >= 16 {
        if n / 16 / 16 >= 16 {
          assert |Text(n / 16 / 16 / 16, 16)| == 1;
          assert |Text(n / 16 / 16, 16)| == 2;
        }
        assert |Text(n / 16, 16)| <= 3;
      }
    }
  }

  lemma DecTextLength(n: nat)
    requires n < 256
    ensures 1 <= |Text(n, 10)| <= 3
  {
    if n >= 10 {
      if n / 10 >= 10 {
        assert |Text(n / 10 / 10, 10)| == 1;
      }
      assert |Text(n / 10, 10)| <= 2;
    }
  }
}
