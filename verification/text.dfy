/**
 * The pieces of java.lang.String and of the UTF-8 charset that the upload
 * code relies on: substring search, trim, character removal, decimal
 * rendering of an int, and the two ways of measuring a string's length
 * (UTF-16 code units for String.length(), UTF-8 bytes for getBytes).
 */
module Text {

  newtype byte = x: int | 0 <= x < 256

  // ---------------------------------------------------------------------
  // String.contains
  // ---------------------------------------------------------------------

  /** `sub` occurs in `s` starting at index `i`. */
  ghost predicate OccursAt(s: string, sub: string, i: int)
  {
    0 <= i && i + |sub| <= |s| && s[i..i + |sub|] == sub
  }

  /** String.contains, computed by sliding a prefix test along `s`. */
  predicate Contains(s: string, sub: string)
    decreases |s|
  {
    sub <= s || (s != [] && Contains(s[1..], sub))
  }

  /** A string that contains `sub` has an occurrence of it at some index. */
  lemma {:induction false} ContainsOccurs(s: string, sub: string)
    requires Contains(s, sub)
    ensures exists i {:trigger OccursAt(s, sub, i)} :: OccursAt(s, sub, i)
    decreases |s|
  {
    if sub <= s {
      assert OccursAt(s, sub, 0);
    } else {
      ContainsOccurs(s[1..], sub);
      var i :| OccursAt(s[1..], sub, i);
      assert s[i + 1..i + 1 + |sub|] == s[1..][i..i + |sub|];
      assert OccursAt(s, sub, i + 1);
    }
  }

  /** An occurrence of `sub` at any index makes `s` contain it. */
  lemma {:induction false} OccursContains(s: string, sub: string, i: int)
    requires OccursAt(s, sub, i)
    ensures Contains(s, sub)
    decreases i
  {
    if i == 0 {
      assert s[..|sub|] == sub;
    } else {
      assert s[1..][i - 1..i - 1 + |sub|] == s[i..i + |sub|];
      OccursContains(s[1..], sub, i - 1);
    }
  }

  /** Contains means exactly "occurs at some index". */
  lemma ContainsIffOccurs(s: string, sub: string)
    ensures Contains(s, sub) <==> exists i {:trigger OccursAt(s, sub, i)} :: OccursAt(s, sub, i)
  {
    if Contains(s, sub) {
      ContainsOccurs(s, sub);
    }
    if exists i {:trigger OccursAt(s, sub, i)} :: OccursAt(s, sub, i) {
      var i :| OccursAt(s, sub, i);
      OccursContains(s, sub, i);
    }
  }

  /** An occurrence at the very start of `b` is an occurrence in `a + b`. */
  lemma {:induction false} ContainsAfter(a: string, b: string, sub: string)
    requires sub <= b
    ensures Contains(a + b, sub)
    decreases |a|
  {
    if a == [] {
      assert a + b == b;
    } else {
      assert (a + b)[1..] == a[1..] + b;
      ContainsAfter(a[1..], b, sub);
    }
  }

  /** A string that lacks the first char of `sub` does not contain `sub`. */
  lemma {:induction false} MissingFirstChar(s: string, sub: string)
    requires sub != [] && sub[0] !in s
    ensures !Contains(s, sub)
    decreases |s|
  {
    if s != [] {
      assert s[0] in s;
      assert forall c :: c in s[1..] ==> c in s;
      MissingFirstChar(s[1..], sub);
    }
  }

  // ---------------------------------------------------------------------
  // String.indexOf(char, from)
  // ---------------------------------------------------------------------

  /** First index at or after `from` holding `c`, or |s| when there is none. */
  function IndexOf(s: string, c: char, from: nat): (i: nat)
    requires from <= |s|
    ensures from <= i <= |s|
    ensures i < |s| ==> s[i] == c
    ensures forall j :: from <= j < i ==> s[j] != c
    decreases |s| - from
  {
    if from == |s| || s[from] == c then from else IndexOf(s, c, from + 1)
  }

  // ---------------------------------------------------------------------
  // String.trim
  // ---------------------------------------------------------------------

  /** String.trim removes every char whose code is at most U+0020. */
  predicate IsTrimmable(c: char)
  {
    c <= ' '
  }

  predicate AllTrimmable(s: string)
  {
    forall i :: 0 <= i < |s| ==> IsTrimmable(s[i])
  }

  /** Drops the leading trimmable chars. */
  function TrimStart(s: string): string
    decreases |s|
  {
    if s != [] && IsTrimmable(s[0]) then TrimStart(s[1..]) else s
  }

  /** Drops the trailing trimmable chars. */
  function TrimEnd(s: string): string
    decreases |s|
  {
    if s != [] && IsTrimmable(s[|s| - 1]) then TrimEnd(s[..|s| - 1]) else s
  }

  /** String.trim */
  function Trim(s: string): string
  {
    TrimEnd(TrimStart(s))
  }

  /** TrimStart keeps a suffix of `s`, drops only trimmable chars, and stops at a visible one. */
  lemma {:induction false} TrimStartStrips(s: string)
    ensures var r := TrimStart(s);
            && |r| <= |s| && r == s[|s| - |r|..]
            && AllTrimmable(s[..|s| - |r|])
            && (r != [] ==> !IsTrimmable(r[0]))
    decreases |s|
  {
    if s != [] && IsTrimmable(s[0]) {
      TrimStartStrips(s[1..]);
      var r := TrimStart(s[1..]);
      assert s[1..][|s| - 1 - |r|..] == s[|s| - |r|..];
    }
  }

  /** TrimEnd keeps a prefix of `s`, drops only trimmable chars, and stops at a visible one. */
  lemma {:induction false} TrimEndStrips(s: string)
    ensures var r := TrimEnd(s);
            && |r| <= |s| && r == s[..|r|]
            && AllTrimmable(s[|r|..])
            && (r != [] ==> !IsTrimmable(r[|r| - 1]))
    decreases |s|
  {
    if s != [] && IsTrimmable(s[|s| - 1]) {
      var p := s[..|s| - 1];
      TrimEndStrips(p);
      var r := TrimEnd(p);
      assert p[..|r|] == s[..|r|];
      assert forall i :: |r| <= i < |s| ==> i == |s| - 1 || s[i] == p[i];
    }
  }

  lemma {:induction false} TrimStartPadded(a: string, t: string)
    requires AllTrimmable(a)
    requires t != [] && !IsTrimmable(t[0])
    ensures TrimStart(a + t) == t
    decreases |a|
  {
    if a == [] {
      assert a + t == t;
    } else {
      assert (a + t)[1..] == a[1..] + t;
      TrimStartPadded(a[1..], t);
    }
  }

  lemma {:induction false} TrimEndPadded(t: string, b: string)
    requires AllTrimmable(b)
    requires t != [] && !IsTrimmable(t[|t| - 1])
    ensures TrimEnd(t + b) == t
    decreases |b|
  {
    if b == [] {
      assert t + b == t;
    } else {
      assert (t + b)[..|t + b| - 1] == t + b[..|b| - 1];
      TrimEndPadded(t, b[..|b| - 1]);
    }
  }

  /**
   * Trimming strips exactly the white-space padding around a core that
   * starts and ends with a visible char.
   */
  lemma TrimPadded(a: string, core: string, b: string)
    requires AllTrimmable(a) && AllTrimmable(b)
    requires core != [] && !IsTrimmable(core[0]) && !IsTrimmable(core[|core| - 1])
    ensures Trim(a + core + b) == core
  {
    assert a + core + b == a + (core + b);
    TrimStartPadded(a, core + b);
    TrimEndPadded(core, b);
  }

  /** Conversely, every string is its trimmed core with trimmable padding on both sides. */
  lemma TrimmedFrom(s: string)
    ensures exists a, b :: AllTrimmable(a) && AllTrimmable(b) && s == a + Trim(s) + b
  {
    var u := TrimStart(s);
    TrimStartSplits(s);
    TrimEndSplits(u);
    var a := s[..|s| - |u|];
    var b := u[|TrimEnd(u)|..];
    PaddedWitness(s, a, TrimEnd(u), b);
  }

  lemma TrimStartSplits(s: string)
    ensures |TrimStart(s)| <= |s| && AllTrimmable(s[..|s| - |TrimStart(s)|])
    ensures s == s[..|s| - |TrimStart(s)|] + TrimStart(s)
  {
    TrimStartStrips(s);
    var u := TrimStart(s);
    assert u == s[|s| - |u|..];
  }

  lemma TrimEndSplits(u: string)
    ensures |TrimEnd(u)| <= |u| && AllTrimmable(u[|TrimEnd(u)|..])
    ensures u == TrimEnd(u) + u[|TrimEnd(u)|..]
  {
    TrimEndStrips(u);
    var t := TrimEnd(u);
    assert t == u[..|t|];
  }

  lemma PaddedWitness(s: string, a: string, t: string, b: string)
    requires AllTrimmable(a) && AllTrimmable(b) && t == Trim(s)
    requires s == a + (t + b)
    ensures exists a, b :: AllTrimmable(a) && AllTrimmable(b) && s == a + Trim(s) + b
  {
    assert s == a + t + b;
  }

  // ---------------------------------------------------------------------
  // String.replaceAll("[...]*", "") : removal of every char of a set
  // ---------------------------------------------------------------------

  /** `s` with every char of `drop` removed, the others kept in order. */
  function Remove(s: string, drop: set<char>): (r: string)
    ensures |r| <= |s|
    ensures forall i :: 0 <= i < |r| ==> r[i] !in drop
    decreases |s|
  {
    if s == [] then [] else (if s[0] in drop then [] else [s[0]]) + Remove(s[1..], drop)
  }

  /** Every char outside `drop` survives removal as often as it occurred. */
  lemma {:induction false} RemoveKeepsOthers(s: string, drop: set<char>, c: char)
    requires c !in drop
    ensures multiset(Remove(s, drop))[c] == multiset(s)[c]
    decreases |s|
  {
    if s != [] {
      assert s == [s[0]] + s[1..];
      RemoveKeepsOthers(s[1..], drop, c);
    }
  }

  lemma {:induction false} RemoveAppend(a: string, b: string, drop: set<char>)
    ensures Remove(a + b, drop) == Remove(a, drop) + Remove(b, drop)
    decreases |a|
  {
    if a == [] {
      assert a + b == b;
    } else {
      var head := if a[0] in drop then [] else [a[0]];
      assert (a + b)[0] == a[0];
      assert (a + b)[1..] == a[1..] + b;
      assert Remove(a + b, drop) == head + Remove(a[1..] + b, drop);
      assert Remove(a, drop) == head + Remove(a[1..], drop);
      RemoveAppend(a[1..], b, drop);
    }
  }

  /** Removal leaves a string that holds none of the dropped chars unchanged. */
  lemma {:induction false} RemoveNothing(s: string, drop: set<char>)
    requires forall i :: 0 <= i < |s| ==> s[i] !in drop
    ensures Remove(s, drop) == s
    decreases |s|
  {
    if s != [] {
      RemoveNothing(s[1..], drop);
    }
  }

  // ---------------------------------------------------------------------
  // Integer.toString for the non-negative values used as Content-Length
  // ---------------------------------------------------------------------

  predicate IsDigit(c: char)
  {
    '0' <= c <= '9'
  }

  predicate AllDigits(s: string)
  {
    forall i :: 0 <= i < |s| ==> IsDigit(s[i])
  }

  function DigitChar(d: nat): (c: char)
    requires d < 10
    ensures IsDigit(c) && c as int - '0' as int == d
  {
    ('0' as int + d) as char
  }

  /** The decimal text of `n`, without leading zeros. */
  function Decimal(n: nat): (r: string)
    ensures r != [] && AllDigits(r)
    ensures |r| > 1 ==> r[0] != '0'
    decreases n
  {
    if n < 10 then [DigitChar(n)] else Decimal(n / 10) + [DigitChar(n % 10)]
  }

  /** Reads a run of decimal digits back into a number. */
  function ParseDecimal(s: string): nat
    requires AllDigits(s)
    decreases |s|
  {
    if s == [] then 0
    else ParseDecimal(s[..|s| - 1]) * 10 + (s[|s| - 1] as int - '0' as int)
  }

  lemma {:induction false} DecimalRoundTrip(n: nat)
    ensures ParseDecimal(Decimal(n)) == n
    decreases n
  {
    if n >= 10 {
      var r := Decimal(n);
      assert r[..|r| - 1] == Decimal(n / 10);
      DecimalRoundTrip(n / 10);
    }
  }

  // ---------------------------------------------------------------------
  // Length in UTF-16 code units (String.length) and UTF-8 encoding (getBytes)
  // ---------------------------------------------------------------------

  /** Every char is below U+0080. */
  predicate IsAscii(s: string)
  {
    forall i :: 0 <= i < |s| ==> s[i] as int < 0x80
  }

  /** A string is ASCII exactly when its first char and the rest are. */
  lemma AsciiCons(s: string)
    requires s != []
    ensures IsAscii(s) <==> s[0] as int < 0x80 && IsAscii(s[1..])
  {
    if s[0] as int < 0x80 && IsAscii(s[1..]) {
      forall i | 1 <= i < |s|
        ensures s[i] as int < 0x80
      {
        assert s[i] == s[1..][i - 1];
      }
    }
  }

  lemma AsciiAppend(a: string, b: string)
    ensures IsAscii(a + b) <==> IsAscii(a) && IsAscii(b)
  {
    if IsAscii(a + b) {
      assert forall i :: 0 <= i < |a| ==> a[i] == (a + b)[i];
      assert forall i :: 0 <= i < |b| ==> b[i] == (a + b)[|a| + i];
    }
  }

  /** Code units one char takes in a Java String: a surrogate pair above U+FFFF. */
  function Utf16Units(c: char): nat
  {
    if c as int < 0x1_0000 then 1 else 2
  }

  /** String.length() of the Java string holding the chars of `s`. */
  function Utf16Length(s: string): nat
    decreases |s|
  {
    if s == [] then 0 else Utf16Units(s[0]) + Utf16Length(s[1..])
  }

  /** The UTF-8 encoding of one Unicode scalar value. */
  function EncodeChar(c: char): (r: seq<byte>)
    ensures 1 <= |r| <= 4
    ensures |r| == 1 <==> c as int < 0x80
    ensures |r| >= Utf16Units(c)
    ensures c as int < 0x80 ==> r[0] as int == c as int
  {
    var n := c as int;
    if n < 0x80 then
      [n as byte]
    else if n < 0x800 then
      [(0xC0 + n / 0x40) as byte, (0x80 + n % 0x40) as byte]
    else if n < 0x1_0000 then
      [(0xE0 + n / 0x1000) as byte, (0x80 + n / 0x40 % 0x40) as byte, (0x80 + n % 0x40) as byte]
    else
      [(0xF0 + n / 0x4_0000) as byte, (0x80 + n / 0x1000 % 0x40) as byte,
       (0x80 + n / 0x40 % 0x40) as byte, (0x80 + n % 0x40) as byte]
  }

  /** String.getBytes(UTF-8) */
  function Utf8(s: string): seq<byte>
    decreases |s|
  {
    if s == [] then [] else EncodeChar(s[0]) + Utf8(s[1..])
  }

  lemma {:induction false} Utf8Append(a: string, b: string)
    ensures Utf8(a + b) == Utf8(a) + Utf8(b)
    decreases |a|
  {
    if a == [] {
      assert a + b == b;
    } else {
      assert (a + b)[0] == a[0];
      assert (a + b)[1..] == a[1..] + b;
      Utf8Append(a[1..], b);
    }
  }

  lemma {:induction false} Utf16Append(a: string, b: string)
    ensures Utf16Length(a + b) == Utf16Length(a) + Utf16Length(b)
    decreases |a|
  {
    if a == [] {
      assert a + b == b;
    } else {
      assert (a + b)[0] == a[0];
      assert (a + b)[1..] == a[1..] + b;
      Utf16Append(a[1..], b);
    }
  }

  /**
   * String.length() never exceeds the UTF-8 byte count, and the two agree
   * exactly when every char is ASCII.
   */
  lemma {:induction false} LengthMatchesBytesIffAscii(s: string)
    ensures Utf16Length(s) <= |Utf8(s)|
    ensures Utf16Length(s) == |Utf8(s)| <==> IsAscii(s)
    decreases |s|
  {
    if s != [] {
      LengthMatchesBytesIffAscii(s[1..]);
      AsciiCons(s);
      assert Utf8(s) == EncodeChar(s[0]) + Utf8(s[1..]);
    }
  }

  /** UTF-8 never takes fewer bytes than there are chars. */
  lemma {:induction false} Utf8NotShorter(s: string)
    ensures |Utf8(s)| >= |s|
    decreases |s|
  {
    if s != [] {
      Utf8NotShorter(s[1..]);
      assert Utf8(s) == EncodeChar(s[0]) + Utf8(s[1..]);
    }
  }

  /** An ASCII string encodes to one byte per char, each byte the char's code. */
  lemma {:induction false} AsciiBytes(s: string)
    requires IsAscii(s)
    ensures |Utf8(s)| == |s|
    ensures forall i :: 0 <= i < |s| ==> Utf8(s)[i] as int == s[i] as int
    decreases |s|
  {
    if s != [] {
      AsciiCons(s);
      AsciiBytes(s[1..]);
      var e := EncodeChar(s[0]);
      assert Utf8(s) == e + Utf8(s[1..]);
      forall i | 0 <= i < |s|
        ensures Utf8(s)[i] as int == s[i] as int
      {
        if i > 0 {
          assert Utf8(s)[i] == Utf8(s[1..])[i - 1];
          assert s[i] == s[1..][i - 1];
        }
      }
    }
  }
}
