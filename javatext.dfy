/** The pieces of the Java library the program's text handling relies on:
    the 32-bit `int`, Integer.toString (and `"" + i`), Integer.parseInt,
    String.trim and String.split on a one-character separator. */
module JavaText {
  import opened Wrappers

  /** Java's `int`. */
  newtype int32 = x: int | -0x8000_0000 <= x < 0x8000_0000

  /** Java `int` arithmetic: the exact result reduced to 32 bits, two's
      complement. */
  function Wrap32(x: int): (r: int32)
    ensures (r as int - x) % 0x1_0000_0000 == 0
    ensures -0x8000_0000 <= x < 0x8000_0000 ==> r as int == x
  {
    var m := x % 0x1_0000_0000;
    if m >= 0x8000_0000 then (m - 0x1_0000_0000) as int32 else m as int32
  }

  // ---------------------------------------------------------------------------
  // Integer.toString
  // ---------------------------------------------------------------------------

  predicate IsDigit(c: char) {
    '0' <= c <= '9'
  }

  predicate AllDigits(s: string) {
    forall i :: 0 <= i < |s| ==> IsDigit(s[i])
  }

  function DigitChar(d: int): (c: char)
    requires 0 <= d < 10
    ensures IsDigit(c) && c as int - '0' as int == d
  {
    ('0' as int + d) as char
  }

  /** The decimal digits of n, most significant first, without leading zeros. */
  function NatToString(n: nat): (s: string)
    ensures |s| >= 1 && AllDigits(s)
    ensures n >= 10 ==> s[0] != '0'
  {
    if n < 10 then [DigitChar(n)] else NatToString(n / 10) + [DigitChar(n % 10)]
  }

  /** Integer.toString(i): a minus sign for a negative number, then its digits. */
  function IntToString(i: int): string {
    if i < 0 then "-" + NatToString(-i) else NatToString(i)
  }

  // ---------------------------------------------------------------------------
  // Integer.parseInt
  // ---------------------------------------------------------------------------

  /** The value of a string of decimal digits; None when one of its
      characters is not a digit. */
  function Digits(s: string): Option<nat> {
    if s == [] then Some(0)
    else if !IsDigit(s[|s| - 1]) then None
    else
      match Digits(s[..|s| - 1])
      case None => None
      case Some(v) => Some(v * 10 + (s[|s| - 1] as int - '0' as int))
  }

  lemma {:induction false} DigitsAll(s: string)
    ensures Digits(s).Some? <==> AllDigits(s)
    decreases |s|
  {
    if s != [] {
      var init := s[..|s| - 1];
      DigitsAll(init);
      assert forall k :: 0 <= k < |init| ==> init[k] == s[k];
    }
  }

  /** Integer.parseInt(s): an optional sign, at least one digit, nothing else,
      and a value that fits an `int`; None where Java throws
      NumberFormatException. */
  function ParseInt(s: string): Option<int32> {
    if |s| == 0 then None
    else
      var digits := if s[0] == '-' || s[0] == '+' then s[1..] else s;
      if |digits| == 0 then None
      else
        match Digits(digits)
        case None => None
        case Some(n) =>
          var v: int := if s[0] == '-' then -(n as int) else n as int;
          if -0x8000_0000 <= v < 0x8000_0000 then Some(v as int32) else None
  }

  /** parseInt accepts only a sign followed by digits. */
  lemma ParseIntAccepts(s: string)
    ensures ParseInt(s).Some? ==> |s| >= 2 || (|s| == 1 && IsDigit(s[0]))
    ensures ParseInt(s).Some? ==> AllDigits(if s[0] == '-' || s[0] == '+' then s[1..] else s)
  {
    if |s| > 0 {
      DigitsAll(if s[0] == '-' || s[0] == '+' then s[1..] else s);
    }
  }

  lemma {:induction false} DigitsOfNat(n: nat)
    ensures Digits(NatToString(n)) == Some(n)
    decreases n
  {
    if n >= 10 {
      var s := NatToString(n);
      assert s[..|s| - 1] == NatToString(n / 10);
      DigitsOfNat(n / 10);
    }
  }

  /** Integer.parseInt reads back what Integer.toString writes. */
  lemma ParseIntToString(i: int32)
    ensures ParseInt(IntToString(i as int)) == Some(i)
  {
    var s := IntToString(i as int);
    if i < 0 {
      var digits := NatToString(-(i as int));
      assert s[0] == '-' && s[1..] == digits;
      DigitsOfNat(-(i as int));
      assert Digits(s[1..]) == Some(-(i as int));
    } else {
      assert IsDigit(s[0]);
      DigitsOfNat(i as int);
    }
  }

  /** Integer.toString never writes a comma or a character String.trim
      removes. */
  lemma IntToStringPlain(i: int)
    ensures |IntToString(i)| >= 1
    ensures forall k :: 0 <= k < |IntToString(i)| ==> IntToString(i)[k] != ',' && IntToString(i)[k] > ' '
  {
  }

  // ---------------------------------------------------------------------------
  // String.trim
  // ---------------------------------------------------------------------------

  /** String.trim: drop every character up to U+0020 from both ends. */
  function Trim(s: string): (r: string)
    ensures |r| <= |s|
    ensures r == [] || (r[0] > ' ' && r[|r| - 1] > ' ')
    ensures (s == [] || (s[0] > ' ' && s[|s| - 1] > ' ')) ==> r == s
    decreases |s|
  {
    if |s| > 0 && s[0] <= ' ' then Trim(s[1..])
    else if |s| > 0 && s[|s| - 1] <= ' ' then Trim(s[..|s| - 1])
    else s
  }

  // ---------------------------------------------------------------------------
  // String.split
  // ---------------------------------------------------------------------------

  /** String.indexOf: the first position of c in s. */
  function IndexOf(s: string, c: char): (i: nat)
    requires c in s
    ensures i < |s| && s[i] == c && c !in s[..i]
  {
    if s[0] == c then 0
    else
      var i := 1 + IndexOf(s[1..], c);
      assert s[..i] == [s[0]] + s[1..][..i - 1];
      i
  }

  /** The text between consecutive occurrences of `sep`, all of them kept: one
      more field than there are separators. */
  function Fields(s: string, sep: char): (fs: seq<string>)
    ensures |fs| >= 1
    ensures forall k :: 0 <= k < |fs| ==> sep !in fs[k]
    decreases |s|
  {
    if sep !in s then [s]
    else
      var i := IndexOf(s, sep);
      [s[..i]] + Fields(s[i + 1..], sep)
  }

  function DropTrailingEmpty(fs: seq<string>): (r: seq<string>)
    ensures |r| <= |fs| && r == fs[..|r|]
    ensures r == [] || r[|r| - 1] != ""
    ensures forall k :: |r| <= k < |fs| ==> fs[k] == ""
  {
    if |fs| > 0 && fs[|fs| - 1] == "" then DropTrailingEmpty(fs[..|fs| - 1]) else fs
  }

  /** s.split(String.valueOf(sep)): the whole string when `sep` does not occur
      in it, otherwise its fields with the empty ones at the end dropped. */
  function Split(s: string, sep: char): (parts: seq<string>)
    ensures forall k :: 0 <= k < |parts| ==> sep !in parts[k]
  {
    if sep !in s then [s] else DropTrailingEmpty(Fields(s, sep))
  }

  /** The first separator after a text without one is the one right after it. */
  lemma IndexAfter(a: string, sep: char, rest: string)
    ensures sep in a + [sep] + rest
    ensures sep !in a ==> IndexOf(a + [sep] + rest, sep) == |a|
  {
    var s := a + [sep] + rest;
    assert s[|a|] == sep;
    if sep !in a {
      var i := IndexOf(s, sep);
      assert i >= |a| by {
        assert forall k :: 0 <= k < |a| ==> s[k] == a[k];
      }
      assert i <= |a| by {
        assert s[..|a| + 1] == a + [sep];
      }
    }
  }

  /** A separator after a text without one starts the next field. */
  lemma FieldsAfter(a: string, sep: char, rest: string)
    requires sep !in a
    ensures Fields(a + [sep] + rest, sep) == [a] + Fields(rest, sep)
  {
    var s := a + [sep] + rest;
    IndexAfter(a, sep, rest);
    assert s[..|a|] == a && s[|a| + 1..] == rest;
  }

  lemma JoinAssociates(a: string, b: string, c: string, d: string, sep: char)
    ensures a + [sep] + b + [sep] + c + [sep] + d == a + [sep] + (b + [sep] + (c + [sep] + d))
  {
    var ab := a + [sep] + b + [sep];
    assert ab + c + [sep] + d == ab + (c + [sep] + d);
  }

  /** Four texts without the separator, joined by it, split back into the same
      four when the last is not empty. */
  lemma SplitJoin4(a: string, b: string, c: string, d: string, sep: char)
    requires sep !in a && sep !in b && sep !in c && sep !in d && d != ""
    ensures Split(a + [sep] + b + [sep] + c + [sep] + d, sep) == [a, b, c, d]
  {
    var cd := c + [sep] + d;
    var bcd := b + [sep] + cd;
    var line := a + [sep] + bcd;
    assert Fields(d, sep) == [d];
    FieldsAfter(c, sep, d);
    FieldsAfter(b, sep, cd);
    FieldsAfter(a, sep, bcd);
    assert Fields(line, sep) == [a, b, c, d];
    assert sep in line by {
      assert line[|a|] == sep;
    }
    assert DropTrailingEmpty([a, b, c, d]) == [a, b, c, d];
    assert Split(line, sep) == [a, b, c, d];
    JoinAssociates(a, b, c, d, sep);
  }

  /** Every field is empty exactly when the string is separators only. */
  lemma {:induction false} FieldsAllEmpty(s: string, sep: char)
    ensures (forall k :: 0 <= k < |Fields(s, sep)| ==> Fields(s, sep)[k] == "") <==>
            (forall k :: 0 <= k < |s| ==> s[k] == sep)
    decreases |s|
  {
    if sep in s {
      var i := IndexOf(s, sep);
      var t := s[i + 1..];
      FieldsAllEmpty(t, sep);
      var fs := Fields(s, sep);
      assert fs == [s[..i]] + Fields(t, sep);
      if i == 0 {
        if forall k :: 0 <= k < |t| ==> t[k] == sep {
          forall k | 0 <= k < |s|
            ensures s[k] == sep
          {
            if k > 0 { assert s[k] == t[k - 1]; }
          }
        } else {
          var k :| 0 <= k < |t| && t[k] != sep;
          assert s[k + 1] != sep;
          var j :| 0 <= j < |Fields(t, sep)| && Fields(t, sep)[j] != "";
          assert fs[j + 1] != "";
        }
      } else {
        assert fs[0] == s[..i] && s[..i][0] == s[0];
        assert fs[0] != "" && s[0] != sep;
      }
    } else if |s| > 0 {
      assert Fields(s, sep) == [s] && Fields(s, sep)[0] != "";
      assert s[0] != sep;
    }
  }

  /** columns[0] of line.split(","): the text before the first comma; None
      where Java throws ArrayIndexOutOfBoundsException because split returned
      no field. */
  function FirstColumn(line: string): (col: Option<string>)
    ensures col.Some? ==> ',' !in col.value
  {
    var parts := Split(line, ',');
    if |parts| == 0 then None else Some(parts[0])
  }

  /** A line with a comma after a non-empty text without one has that text
      as its first column. */
  lemma FirstColumnBefore(a: string, rest: string)
    requires ',' !in a && a != ""
    ensures FirstColumn(a + [','] + rest) == Some(a)
  {
    var s := a + [','] + rest;
    FieldsAfter(a, ',', rest);
    assert s[|a|] == ',';
    assert Fields(s, ',')[0] == a;
  }

  /** split yields no field exactly for a non-empty line of commas only, and
      otherwise its first field is the text before the first comma. */
  lemma FirstColumnSpec(line: string)
    ensures FirstColumn(line).None? <==> |line| > 0 && forall k :: 0 <= k < |line| ==> line[k] == ','
    ensures FirstColumn(line).Some? ==> FirstColumn(line).value == Fields(line, ',')[0]
  {
    var fs := Fields(line, ',');
    FieldsAllEmpty(line, ',');
    if ',' in line {
      var r := DropTrailingEmpty(fs);
      if |r| == 0 {
        assert forall k :: 0 <= k < |fs| ==> fs[k] == "";
      } else {
        assert r[0] == fs[0];
        assert fs[|r| - 1] != "";
      }
    } else if |line| > 0 {
      assert line[0] != ',';
    }
  }
}
