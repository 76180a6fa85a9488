/**
 * Bytes, fixed-width integers, timestamps and the string operations the source relies on:
 * Rust's `str::contains` and the UTF-8 encoding under which the relational driver hands a
 * text value to a `from_sql` decoder.
 */
module Strings {

  type byte = x: int | 0 <= x < 0x100

  /** Rust's `i32`. */
  type int32 = x: int | -0x8000_0000 <= x < 0x8000_0000

  /** chrono's `DateTime<Utc>`, kept opaque: it is carried by its RFC 3339 text. */
  datatype Timestamp = Timestamp(rfc3339: string)

  predicate StartsWith(s: string, p: string) {
    |p| <= |s| && s[..|p|] == p
  }

  /** `s.contains(p)`: `p` occurs in `s` at some position. */
  predicate Contains(s: string, p: string)
    decreases |s|
  {
    StartsWith(s, p) || (s != [] && Contains(s[1..], p))
  }

  lemma {:induction false} ContainsAt(s: string, p: string, i: nat)
    requires i <= |s| && StartsWith(s[i..], p)
    ensures Contains(s, p)
  {
    if i > 0 {
      assert s[1..][i - 1..] == s[i..];
      ContainsAt(s[1..], p, i - 1);
    }
  }

  /** An occurrence of `p + q` is an occurrence of `p`. */
  lemma {:induction false} ContainsLongerPattern(s: string, p: string, q: string)
    requires Contains(s, p + q)
    ensures Contains(s, p)
  {
    if StartsWith(s, p + q) {
      assert s[..|p|] == (p + q)[..|p|] == p;
    } else {
      ContainsLongerPattern(s[1..], p, q);
    }
  }

  /** A pattern one of whose characters never occurs in `s` does not occur in `s`. */
  lemma {:induction false} AbsentCharExcludes(s: string, p: string, j: nat)
    requires j < |p|
    requires forall i :: 0 <= i < |s| ==> s[i] != p[j]
    ensures !Contains(s, p)
  {
    if |p| <= |s| {
      assert s[..|p|][j] == s[j];
    }
    if s != [] {
      AbsentCharExcludes(s[1..], p, j);
    }
  }

  /** A pattern two of whose adjacent characters never stand side by side in `s` does not occur in `s`. */
  lemma {:induction false} AbsentPairExcludes(s: string, p: string, j: nat)
    requires j + 1 < |p|
    requires forall i :: 0 <= i < |s| - 1 ==> !(s[i] == p[j] && s[i + 1] == p[j + 1])
    ensures !Contains(s, p)
  {
    if |p| <= |s| {
      assert s[..|p|][j] == s[j] && s[..|p|][j + 1] == s[j + 1];
    }
    if s != [] {
      forall i | 0 <= i < |s[1..]| - 1 ensures !(s[1..][i] == p[j] && s[1..][i + 1] == p[j + 1]) {
        assert s[1..][i] == s[i + 1] && s[1..][i + 1] == s[i + 2];
      }
      AbsentPairExcludes(s[1..], p, j);
    }
  }

  /**
   * When `b` starts with a character that the pattern does not use, no occurrence can straddle
   * the border between `a` and `b`.
   */
  lemma {:induction false} ContainsAcrossSeparator(a: string, b: string, p: string)
    requires b != []
    requires forall k :: 0 <= k < |p| ==> p[k] != b[0]
    ensures Contains(a + b, p) <==> Contains(a, p) || Contains(b, p)
  {
    if a == [] {
      assert a + b == b;
    } else {
      assert (a + b)[1..] == a[1..] + b;
      ContainsAcrossSeparator(a[1..], b, p);
      if |p| <= |a| {
        assert (a + b)[..|p|] == a[..|p|];
      } else if |p| <= |a + b| {
        assert (a + b)[..|p|][|a|] == b[0];
      }
    }
  }

  /** The UTF-8 encoding of one Unicode scalar value. */
  function Utf8Char(c: char): (bs: seq<byte>)
    ensures 1 <= |bs| <= 4
    ensures (c as int < 0x80) <==> (bs[0] < 0x80)
  {
    var n := c as int;
    if n < 0x80 then [n]
    else if n < 0x800 then [0xC0 + n / 0x40, 0x80 + n % 0x40]
    else if n < 0x1_0000 then [0xE0 + n / 0x1000, 0x80 + (n / 0x40) % 0x40, 0x80 + n % 0x40]
    else [0xF0 + (n / 0x4_0000) % 0x8, 0x80 + (n / 0x1000) % 0x40, 0x80 + (n / 0x40) % 0x40, 0x80 + n % 0x40]
  }

  /** The UTF-8 encoding of a string: the bytes of a TEXT or VARCHAR value on the wire. */
  function Utf8(s: string): (bs: seq<byte>)
    ensures |bs| >= |s|
  {
    if s == [] then [] else Utf8Char(s[0]) + Utf8(s[1..])
  }

  predicate IsAscii(s: string) {
    forall i :: 0 <= i < |s| ==> s[i] as int < 0x80
  }

  /** An ASCII string encodes to its own code points, one byte each. */
  lemma {:induction false} Utf8OfAscii(s: string)
    requires IsAscii(s)
    ensures |Utf8(s)| == |s|
    ensures forall i :: 0 <= i < |s| ==> Utf8(s)[i] == s[i] as int
  {
    if s != [] {
      assert IsAscii(s[1..]) by {
        forall i | 0 <= i < |s[1..]| ensures s[1..][i] as int < 0x80 {
          assert s[1..][i] == s[i + 1];
        }
      }
      Utf8OfAscii(s[1..]);
      forall i | 1 <= i < |s| ensures Utf8(s)[i] == s[i] as int {
        assert Utf8(s)[i] == Utf8(s[1..])[i - 1];
        assert s[1..][i - 1] == s[i];
      }
    }
  }

  /** A string encodes to the bytes of an ASCII string only if it is that string. */
  lemma {:induction false} Utf8MatchesAscii(s: string, t: string)
    requires IsAscii(t) && Utf8(s) == Utf8(t)
    ensures s == t
  {
    if s == [] {
      assert |Utf8(t)| == 0;
    } else if t != [] {
      var a := Utf8Char(t[0]);
      assert a == [t[0] as int];
      assert Utf8(s)[0] == Utf8(t)[0] == t[0] as int < 0x80;
      assert Utf8Char(s[0])[0] == Utf8(s)[0];
      assert Utf8Char(s[0]) == [s[0] as int];
      assert s[0] == t[0];
      assert Utf8(s[1..]) == Utf8(s)[1..] == Utf8(t)[1..] == Utf8(t[1..]);
      assert IsAscii(t[1..]) by {
        forall i | 0 <= i < |t[1..]| ensures t[1..][i] as int < 0x80 {
          assert t[1..][i] == t[i + 1];
        }
      }
      Utf8MatchesAscii(s[1..], t[1..]);
      assert s == [s[0]] + s[1..] && t == [t[0]] + t[1..];
    }
  }
}
