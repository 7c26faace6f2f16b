// Text helpers the Python code relies on: decimal printing and parsing of
// integers, lower-case hexadecimal, and the last component of a path.

module Basics {
  type byte = x: int | 0 <= x < 256

  datatype Option<+T> = None | Some(value: T)

  datatype Result<+T, +E> = Ok(value: T) | Err(error: E)

  function Max(a: int, b: int): int {
    if a < b then b else a
  }

  function Min(a: int, b: int): int {
    if a < b then a else b
  }
}

module Text {
  import opened Basics

  predicate IsDigit(c: char) {
    '0' <= c <= '9'
  }

  predicate AllDigits(s: string) {
    forall i :: 0 <= i < |s| ==> IsDigit(s[i])
  }

  function Digit(d: nat): (c: char)
    requires d < 10
    ensures IsDigit(c) && DigitValue(c) == d
  {
    '0' + d as char
  }

  function DigitValue(c: char): (d: nat)
    requires IsDigit(c)
    ensures d < 10
  {
    c as int - '0' as int
  }

  /** Python's str(n) for a non-negative integer. */
  function Str(n: nat): (s: string)
    ensures s != "" && AllDigits(s)
  {
    if n < 10 then [Digit(n)] else Str(n / 10) + [Digit(n % 10)]
  }

  /** Python's int(s) for a string of ASCII digits. */
  function Int(s: string): nat
    requires AllDigits(s)
  {
    if s == "" then 0 else 10 * Int(s[..|s| - 1]) + DigitValue(s[|s| - 1])
  }

  lemma {:induction false} IntOfStr(n: nat)
    ensures Int(Str(n)) == n
  {
    if n >= 10 {
      IntOfStr(n / 10);
      assert Str(n)[..|Str(n)| - 1] == Str(n / 10);
    }
  }

  /** Distinct numbers print differently. */
  lemma StrInjective(m: nat, n: nat)
    requires Str(m) == Str(n)
    ensures m == n
  {
    IntOfStr(m);
    IntOfStr(n);
  }

  lemma {:induction false} IntPositive(s: string)
    requires AllDigits(s) && s != "" && s[0] != '0'
    ensures Int(s) >= 1
  {
    if |s| > 1 {
      IntPositive(s[..|s| - 1]);
    }
  }

  /** str(int(s)) gives s back exactly when s has no superfluous leading zero. */
  lemma {:induction false} StrOfInt(s: string)
    requires AllDigits(s) && s != ""
    ensures Str(Int(s)) == s <==> |s| == 1 || s[0] != '0'
  {
    var init := s[..|s| - 1];
    if |s| == 1 {
      assert Int(init) == 0;
    } else {
      StrOfInt(init);
      assert s == init + [s[|s| - 1]];
      if s[0] != '0' {
        IntPositive(init);
      } else {
        if Int(s) >= 10 {
          assert Str(Int(s))[..|Str(Int(s))| - 1] == Str(Int(init));
        }
      }
    }
  }

  // ---- Hexadecimal ----

  function HexDigit(d: nat): (c: char)
    requires d < 16
    ensures ('0' <= c <= '9' || 'a' <= c <= 'f') && HexValue(c) == Some(d)
  {
    if d < 10 then '0' + d as char else 'a' + (d - 10) as char
  }

  function HexValue(c: char): (d: Option<nat>)
    ensures d.Some? ==> d.value < 16
  {
    if '0' <= c <= '9' then Some(c as int - '0' as int)
    else if 'a' <= c <= 'f' then Some(c as int - 'a' as int + 10)
    else None
  }

  /** bytes.hex(). */
  function Hex(bytes: seq<byte>): (s: string)
    ensures |s| == 2 * |bytes|
  {
    if bytes == [] then "" else [HexDigit(bytes[0] / 16), HexDigit(bytes[0] % 16)] + Hex(bytes[1..])
  }

  lemma {:induction false} HexInjective(a: seq<byte>, b: seq<byte>)
    requires Hex(a) == Hex(b)
    ensures a == b
  {
    if a != [] {
      assert |b| == |a|;
      assert Hex(a)[0] == Hex(b)[0] && Hex(a)[1] == Hex(b)[1];
      assert Hex(a)[2..] == Hex(a[1..]) && Hex(b)[2..] == Hex(b[1..]);
      HexInjective(a[1..], b[1..]);
      assert a[0] == b[0];
      assert a == [a[0]] + a[1..] && b == [b[0]] + b[1..];
    }
  }

  // ---- Paths ----

  /** os.path.basename: what follows the last '/'. */
  function Basename(path: string): (name: string)
    ensures '/' !in name
  {
    if path == "" then ""
    else if path[|path| - 1] == '/' then ""
    else Basename(path[..|path| - 1]) + [path[|path| - 1]]
  }

  lemma {:induction false} BasenameAppend(path: string, suffix: string)
    requires '/' !in suffix
    ensures Basename(path + suffix) == Basename(path) + suffix
  {
    if suffix == "" {
      assert path + suffix == path;
    } else {
      var n := |suffix| - 1;
      var whole := path + suffix;
      assert whole[..|whole| - 1] == path + suffix[..n];
      BasenameAppend(path, suffix[..n]);
      assert whole[|whole| - 1] == suffix[n];
      assert suffix == suffix[..n] + [suffix[n]];
    }
  }

  // ---- Splitting ----

  predicate StartsWith(s: string, prefix: string) {
    prefix <= s
  }

  /** s.split(c)[0]. */
  function UpTo(s: string, c: char): string {
    if s == "" || s[0] == c then "" else [s[0]] + UpTo(s[1..], c)
  }

  lemma {:induction false} UpToAppend(s: string, c: char, rest: string)
    requires c !in s
    ensures UpTo(s + [c] + rest, c) == s
  {
    if s != "" {
      UpToAppend(s[1..], c, rest);
      assert (s + [c] + rest)[1..] == s[1..] + [c] + rest;
    } else {
      assert (s + [c] + rest)[0] == c;
    }
  }

  lemma {:induction false} UpToKeepsPrefix(s: string, c: char, prefix: string)
    requires c !in prefix
    ensures prefix <= UpTo(s, c) <==> prefix <= s
  {
    if prefix != "" && s != "" {
      UpToKeepsPrefix(s[1..], c, prefix[1..]);
      assert prefix == [prefix[0]] + prefix[1..] && s == [s[0]] + s[1..];
      if s[0] != c {
        assert UpTo(s, c) == [s[0]] + UpTo(s[1..], c) && UpTo(s, c)[1..] == UpTo(s[1..], c);
      }
    }
  }

  lemma {:induction false} UpToNone(s: string, c: char)
    requires c !in s
    ensures UpTo(s, c) == s
  {
    if s != "" {
      UpToNone(s[1..], c);
    }
  }
}
