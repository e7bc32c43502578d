/** Character classes, decimal text and string helpers shared by the model.
    Strings are sequences of characters; Ruby's byte-wise `String#<=>` is the
    code-point order `StrLe` below. */
module Text {

  import opened Wrappers

  predicate IsDigit(c: char) { '0' <= c <= '9' }

  predicate AllDigits(s: string) { forall i | 0 <= i < |s| :: IsDigit(s[i]) }

  predicate IsUpper(c: char) { 'A' <= c <= 'Z' }

  predicate IsLower(c: char) { 'a' <= c <= 'z' }

  predicate IsLetter(c: char) { IsUpper(c) || IsLower(c) }

  predicate IsAlnum(c: char) { IsLetter(c) || IsDigit(c) }

  /** Every character of `s` satisfies `p`, and there is at least one. */
  predicate NonEmptyOver(s: string, p: char -> bool) { |s| > 0 && forall i | 0 <= i < |s| :: p(s[i]) }

  function DigitValue(c: char): (v: int)
    requires IsDigit(c)
    ensures 0 <= v <= 9
  {
    c as int - '0' as int
  }

  function DigitChar(v: int): (c: char)
    requires 0 <= v <= 9
    ensures IsDigit(c) && DigitValue(c) == v
  {
    ('0' as int + v) as char
  }

  function Pow10(n: nat): (p: nat)
    ensures p >= 1
  {
    if n == 0 then 1 else 10 * Pow10(n - 1)
  }

  /** The number written by a string of decimal digits, most significant first. */
  function DecimalValue(s: string): nat
    requires AllDigits(s)
    decreases |s|
  {
    if s == [] then 0 else DecimalValue(s[..|s| - 1]) * 10 + DigitValue(s[|s| - 1])
  }

  /** `n` written with exactly `width` digits, zero-padded on the left (`%0<width>d`). */
  function PaddedDecimal(n: nat, width: nat): string
    decreases width
  {
    if width == 0 then [] else PaddedDecimal(n / 10, width - 1) + [DigitChar(n % 10)]
  }

  lemma {:induction false} PaddedDecimalRoundTrip(n: nat, width: nat)
    requires n < Pow10(width)
    ensures |PaddedDecimal(n, width)| == width
    ensures AllDigits(PaddedDecimal(n, width))
    ensures DecimalValue(PaddedDecimal(n, width)) == n
  {
    if width > 0 {
      var s := PaddedDecimal(n / 10, width - 1);
      PaddedDecimalRoundTrip(n / 10, width - 1);
      var t := s + [DigitChar(n % 10)];
      assert t[..|t| - 1] == s;
    }
  }

  /** Ruby's `Integer#to_s` for a non-negative integer. */
  function NatToString(n: nat): (s: string)
    ensures |s| >= 1 && AllDigits(s)
    decreases n
  {
    if n < 10 then [DigitChar(n)] else NatToString(n / 10) + [DigitChar(n % 10)]
  }

  /** Ruby's `Integer#to_s`. */
  function IntToString(i: int): string
  {
    if i < 0 then "-" + NatToString(-i) else NatToString(i)
  }

  /** Digit text without superfluous leading zeros: what `Integer#to_s` prints for a natural number. */
  predicate CanonicalNat(s: string)
  {
    |s| >= 1 && AllDigits(s) && (s[0] != '0' || |s| == 1)
  }

  /** The integer a string denotes when the string is exactly what `Integer#to_s`
      prints for it, and `None` otherwise. */
  function ParseCanonicalInt(s: string): Option<int>
  {
    if |s| >= 2 && s[0] == '-' && CanonicalNat(s[1..]) && s[1..] != "0" then Some(-(DecimalValue(s[1..]) as int))
    else if CanonicalNat(s) then Some(DecimalValue(s) as int)
    else None
  }

  lemma {:induction false} LeadingNonZeroValue(s: string)
    requires |s| >= 1 && AllDigits(s) && s[0] != '0'
    ensures DecimalValue(s) >= Pow10(|s| - 1)
    decreases |s|
  {
    if |s| > 1 {
      var p := s[..|s| - 1];
      assert p[0] == s[0];
      LeadingNonZeroValue(p);
    }
  }

  lemma {:induction false} NatToStringOfValue(s: string)
    requires CanonicalNat(s)
    ensures NatToString(DecimalValue(s)) == s
    decreases |s|
  {
    if |s| == 1 {
      assert s[..0] == [];
    } else {
      var p := s[..|s| - 1];
      assert p[0] == s[0];
      LeadingNonZeroValue(p);
      NatToStringOfValue(p);
      var v := DecimalValue(s);
      assert v / 10 == DecimalValue(p) && v % 10 == DigitValue(s[|s| - 1]);
      assert s == p + [s[|s| - 1]];
    }
  }

  lemma {:induction false} ValueOfNatToString(n: nat)
    ensures CanonicalNat(NatToString(n))
    ensures DecimalValue(NatToString(n)) == n
    decreases n
  {
    if n >= 10 {
      ValueOfNatToString(n / 10);
      var p := NatToString(n / 10);
      var s := p + [DigitChar(n % 10)];
      assert s[..|s| - 1] == p;
      assert s[0] == p[0];
    }
  }

  /** Ruby's `s.to_s == s.to_i.to_s`, for a String `s`, holds exactly when `s`
      is the `Integer#to_s` text of some integer; `ParseCanonicalInt` recognises
      exactly those texts and recovers the integer. */
  lemma ParseCanonicalIntOfText(i: int)
    ensures ParseCanonicalInt(IntToString(i)) == Some(i)
  {
    if i < 0 {
      ValueOfNatToString(-i);
      var s := IntToString(i);
      assert s[1..] == NatToString(-i);
      assert s[0] == '-';
    } else {
      ValueOfNatToString(i);
      assert NatToString(i)[0] != '-';
    }
  }

  lemma ParseCanonicalIntIsText(s: string, i: int)
    requires ParseCanonicalInt(s) == Some(i)
    ensures IntToString(i) == s
  {
    if |s| >= 2 && s[0] == '-' && CanonicalNat(s[1..]) && s[1..] != "0" {
      NatToStringOfValue(s[1..]);
      assert DecimalValue(s[1..]) != 0;
      assert s == "-" + s[1..];
    } else {
      NatToStringOfValue(s);
    }
  }

  /** Ruby's string interpolation `"#{x}"` of a string that may be `nil` (which interpolates as ""). */
  function Interpolate(x: Option<string>): string
  {
    if x.Some? then x.value else ""
  }

  /** Ruby's `Array#join(sep)` on strings. */
  function Join(parts: seq<string>, sep: string): string
  {
    if parts == [] then "" else if |parts| == 1 then parts[0] else parts[0] + sep + Join(parts[1..], sep)
  }

  /** `File.join(dir, name)` for a name that does not start with a separator: one `/`
      between the two parts. */
  function JoinPath(dir: string, name: string): string
  {
    if |dir| > 0 && dir[|dir| - 1] == '/' then dir + name else dir + "/" + name
  }

  /** Splits at every occurrence of `c`, keeping empty fields (`s.split(c, -1)`). */
  function SplitOn(s: string, c: char): (r: seq<string>)
    ensures |r| >= 1
    ensures forall k | 0 <= k < |r| :: c !in r[k]
    decreases |s|
  {
    if s == [] then [""]
    else
      var rest := SplitOn(s[1..], c);
      if s[0] == c then [""] + rest else [[s[0]] + rest[0]] + rest[1..]
  }

  /** A string without the separator is one field. */
  lemma {:induction false} SplitOnFree(s: string, c: char)
    requires c !in s
    ensures SplitOn(s, c) == [s]
    decreases |s|
  {
    if s != [] {
      assert c !in s[1..] by {
        forall k | 0 <= k < |s[1..]| ensures s[1..][k] != c {
          assert s[1..][k] == s[k + 1];
        }
      }
      SplitOnFree(s[1..], c);
      assert s[0] != c && s == [s[0]] + s[1..];
    }
  }

  /** A first field without the separator, then the separator, then the rest. */
  lemma {:induction false} SplitOnAt(a: string, b: string, c: char)
    requires c !in a
    ensures SplitOn(a + [c] + b, c) == [a] + SplitOn(b, c)
    decreases |a|
  {
    var s := a + [c] + b;
    if a == [] {
      assert s[1..] == b;
    } else {
      assert c !in a[1..] by {
        forall k | 0 <= k < |a[1..]| ensures a[1..][k] != c {
          assert a[1..][k] == a[k + 1];
        }
      }
      SplitOnAt(a[1..], b, c);
      assert s[1..] == a[1..] + [c] + b;
      assert [s[0]] + a[1..] == a;
    }
  }

  /** Two fields are the text before and after the one separator. */
  lemma {:induction false} SplitOnTwo(s: string, c: char)
    requires |SplitOn(s, c)| == 2
    ensures s == SplitOn(s, c)[0] + [c] + SplitOn(s, c)[1]
    decreases |s|
  {
    var rest := SplitOn(s[1..], c);
    if s[0] == c {
      assert |rest| == 1;
      SplitOnOne(s[1..], c);
      assert s == [c] + s[1..];
    } else {
      SplitOnTwo(s[1..], c);
      assert s == [s[0]] + s[1..];
    }
  }

  /** One field is the whole text. */
  lemma {:induction false} SplitOnOne(s: string, c: char)
    requires |SplitOn(s, c)| == 1
    ensures SplitOn(s, c) == [s]
    decreases |s|
  {
    if s != [] {
      var rest := SplitOn(s[1..], c);
      SplitOnOne(s[1..], c);
      assert s == [s[0]] + s[1..];
    }
  }

  /** The lines of `s`: the maximal segments between newline characters. These are the
      places a Ruby pattern written `^...$` can match, since Ruby's `^` and `$` match at
      every line start and line end. */
  function Lines(s: string): seq<string> { SplitOn(s, '\n') }

  /** Some line of `s` satisfies `p` entirely: the meaning of `s =~ /^X$/` when `X`
      never matches a newline and `p` recognises exactly the texts `X` matches. */
  predicate SomeLine(s: string, p: string -> bool)
  {
    exists k | 0 <= k < |Lines(s)| :: p(Lines(s)[k])
  }

  /** A text without a newline is its only line. */
  lemma SomeLineOfOneLine(s: string, p: string -> bool)
    requires '\n' !in s
    ensures SomeLine(s, p) <==> p(s)
  {
    SplitOnFree(s, '\n');
    assert Lines(s)[0] == s;
  }

  predicate StartsWith(s: string, prefix: string) { |prefix| <= |s| && s[..|prefix|] == prefix }

  predicate EndsWith(s: string, suffix: string) { |suffix| <= |s| && s[|s| - |suffix|..] == suffix }

  /** Code-point lexicographic order on strings: Ruby's `String#<=>` on UTF-8 text. */
  predicate StrLe(a: string, b: string)
    decreases |a|
  {
    a == [] || (b != [] && (a[0] < b[0] || (a[0] == b[0] && StrLe(a[1..], b[1..]))))
  }

  lemma {:induction false} StrLeTotal(a: string, b: string)
    ensures StrLe(a, b) || StrLe(b, a)
    decreases |a|
  {
    if a != [] && b != [] && a[0] == b[0] {
      StrLeTotal(a[1..], b[1..]);
    }
  }

  lemma {:induction false} StrLeAntisymmetric(a: string, b: string)
    requires StrLe(a, b) && StrLe(b, a)
    ensures a == b
    decreases |a|
  {
    if a != [] && b != [] {
      StrLeAntisymmetric(a[1..], b[1..]);
      assert a == [a[0]] + a[1..] && b == [b[0]] + b[1..];
    }
  }

  lemma {:induction false} StrLeTransitive(a: string, b: string, c: string)
    requires StrLe(a, b) && StrLe(b, c)
    ensures StrLe(a, c)
    decreases |a|
  {
    if a != [] && a[0] == b[0] && b[0] == c[0] {
      StrLeTransitive(a[1..], b[1..], c[1..]);
    }
  }
}
