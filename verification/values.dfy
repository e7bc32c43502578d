/** Configuration values as the YAML loader hands them to the configuration code: `nil`,
    booleans, integers, strings, arrays and hashes with string keys. A Ruby `Hash` is an
    ordered association list here: it enumerates in insertion order, and storing under a
    key it already holds keeps that key's position. */
module Values {

  import opened Wrappers
  import opened Text

  datatype Value =
    | Nil
    | Bool(b: bool)
    | Int(i: int)
    | Str(s: string)
    | Arr(items: seq<Value>)
    | Hash(pairs: seq<(string, Value)>)

  /** Ruby truthiness: everything but `nil` and `false`. */
  predicate Truthy(v: Value)
  {
    !v.Nil? && v != Bool(false)
  }

  function Keys(h: seq<(string, Value)>): (r: seq<string>)
    ensures |r| == |h|
    ensures forall k | 0 <= k < |h| :: r[k] == h[k].0
  {
    seq(|h|, k requires 0 <= k < |h| => h[k].0)
  }

  predicate HasKey(h: seq<(string, Value)>, key: string)
  {
    exists k | 0 <= k < |h| :: h[k].0 == key
  }

  /** A Ruby hash never holds a key twice. */
  predicate UniqueKeys(h: seq<(string, Value)>)
  {
    forall i, j | 0 <= i < j < |h| :: h[i].0 != h[j].0
  }

  /** `h.fetch(key)` without a default: the value under `key`, if any. */
  function Fetch(h: seq<(string, Value)>, key: string): (r: Option<Value>)
    ensures r.Some? <==> HasKey(h, key)
    ensures r.Some? ==> exists k | 0 <= k < |h| :: h[k] == (key, r.value)
    decreases |h|
  {
    if h == [] then None
    else if h[0].0 == key then Some(h[0].1)
    else
      var r := Fetch(h[1..], key);
      assert HasKey(h, key) <==> HasKey(h[1..], key) by {
        if HasKey(h, key) {
          var k :| 0 <= k < |h| && h[k].0 == key;
          assert h[1..][k - 1] == h[k];
        }
        if HasKey(h[1..], key) {
          var k :| 0 <= k < |h[1..]| && h[1..][k].0 == key;
          assert h[k + 1] == h[1..][k];
        }
      }
      if r.Some? then
        var k :| 0 <= k < |h[1..]| && h[1..][k] == (key, r.value);
        assert h[k + 1] == h[1..][k];
        r
      else r
  }

  /** `h.fetch(key, nil)`: the value under `key`, or `nil`. */
  function FetchOrNil(h: seq<(string, Value)>, key: string): Value
  {
    match Fetch(h, key)
    case Some(v) => v
    case None => Nil
  }

  /** `h[key] = v`: replaces the value of a key already present, in place, and appends a
      new key at the end. */
  function Store(h: seq<(string, Value)>, key: string, v: Value): seq<(string, Value)>
    decreases |h|
  {
    if h == [] then [(key, v)]
    else if h[0].0 == key then [(key, v)] + h[1..]
    else [h[0]] + Store(h[1..], key, v)
  }

  lemma UniqueKeysTail(h: seq<(string, Value)>)
    requires h != [] && UniqueKeys(h)
    ensures UniqueKeys(h[1..]) && !HasKey(h[1..], h[0].0)
  {
    forall i, j | 0 <= i < j < |h[1..]| ensures h[1..][i].0 != h[1..][j].0 {
      assert h[1..][i] == h[i + 1] && h[1..][j] == h[j + 1];
    }
    forall k | 0 <= k < |h[1..]| ensures h[1..][k].0 != h[0].0 {
      assert h[1..][k] == h[k + 1];
    }
  }

  lemma HasKeyCons(h: seq<(string, Value)>, key: string)
    requires h != []
    ensures HasKey(h, key) <==> h[0].0 == key || HasKey(h[1..], key)
  {
    if HasKey(h, key) && h[0].0 != key {
      var k :| 0 <= k < |h| && h[k].0 == key;
      assert h[1..][k - 1] == h[k];
    }
    if HasKey(h[1..], key) {
      var k :| 0 <= k < |h[1..]| && h[1..][k].0 == key;
      assert h[k + 1] == h[1..][k];
    }
  }

  /** After `h[key] = v`, `key` holds `v` and every other key what it held. */
  lemma {:induction false} StoreFetch(h: seq<(string, Value)>, key: string, v: Value, k': string)
    ensures Fetch(Store(h, key, v), k') == if k' == key then Some(v) else Fetch(h, k')
    decreases |h|
  {
    if h != [] && h[0].0 != key {
      StoreFetch(h[1..], key, v, k');
      assert Store(h, key, v)[1..] == Store(h[1..], key, v);
    } else if h != [] {
      assert Store(h, key, v)[1..] == h[1..];
    }
  }

  /** `h[key] = v` keeps the order of the keys and appends a new key at the end. */
  lemma {:induction false} StoreKeys(h: seq<(string, Value)>, key: string, v: Value)
    requires UniqueKeys(h)
    ensures Keys(Store(h, key, v)) == if HasKey(h, key) then Keys(h) else Keys(h) + [key]
    decreases |h|
  {
    if h != [] {
      HasKeyCons(h, key);
      UniqueKeysTail(h);
      if h[0].0 != key {
        StoreKeys(h[1..], key, v);
        assert Keys(Store(h, key, v)) == [h[0].0] + Keys(Store(h[1..], key, v));
        assert Keys(h) == [h[0].0] + Keys(h[1..]);
      } else {
        assert Keys(Store(h, key, v)) == Keys(h);
      }
    }
  }

  /** `h[key] = v` for a key `h` does not hold appends the pair at the end. */
  lemma {:induction false} StoreAppends(h: seq<(string, Value)>, key: string, v: Value)
    requires !HasKey(h, key)
    ensures Store(h, key, v) == h + [(key, v)]
    decreases |h|
  {
    if h != [] {
      HasKeyCons(h, key);
      StoreAppends(h[1..], key, v);
      assert h == [h[0]] + h[1..];
    }
  }

  /** `h[key] = v` never makes a key occur twice. */
  lemma StoreUnique(h: seq<(string, Value)>, key: string, v: Value)
    requires UniqueKeys(h)
    ensures UniqueKeys(Store(h, key, v))
  {
    var s := Store(h, key, v);
    StoreKeys(h, key, v);
    forall i, j | 0 <= i < j < |s| ensures s[i].0 != s[j].0 {
      assert Keys(s)[i] == s[i].0 && Keys(s)[j] == s[j].0;
      if j < |h| {
        assert Keys(h)[i] == h[i].0 && Keys(h)[j] == h[j].0;
      } else {
        assert !HasKey(h, key) && s[j].0 == key;
        assert Keys(h)[i] == h[i].0;
      }
    }
  }

  /** `a.merge!(b)`: every entry of `b`, in order, stored into `a`. */
  function MergeInto(a: seq<(string, Value)>, b: seq<(string, Value)>): seq<(string, Value)>
    decreases |b|
  {
    if b == [] then a else MergeInto(Store(a, b[0].0, b[0].1), b[1..])
  }

  /** After `a.merge!(b)` a key of `b` holds its value in `b` and any other key its value
      in `a`; the keys of `a` keep their place and those only `b` has follow. */
  lemma {:induction false} MergeFacts(a: seq<(string, Value)>, b: seq<(string, Value)>)
    requires UniqueKeys(a) && UniqueKeys(b)
    ensures var m := MergeInto(a, b);
      && UniqueKeys(m)
      && (forall k :: Fetch(m, k) == if HasKey(b, k) then Fetch(b, k) else Fetch(a, k))
      && |m| >= |a| && Keys(m)[..|a|] == Keys(a)
    decreases |b|
  {
    if b != [] {
      var a' := Store(a, b[0].0, b[0].1);
      StoreUnique(a, b[0].0, b[0].1);
      StoreKeys(a, b[0].0, b[0].1);
      UniqueKeysTail(b);
      MergeFacts(a', b[1..]);
      var m := MergeInto(a, b);
      forall k ensures Fetch(m, k) == if HasKey(b, k) then Fetch(b, k) else Fetch(a, k) {
        HasKeyCons(b, k);
        StoreFetch(a, b[0].0, b[0].1, k);
      }
      assert Keys(a')[..|a|] == Keys(a);
      assert Keys(m)[..|a|] == Keys(m)[..|a'|][..|a|];
    }
  }

  /** Ruby's `#{v}` of a value, with arrays and hashes in `inspect` form. */
  function Show(v: Value): string
  {
    match v
    case Nil => ""
    case Bool(b) => if b then "true" else "false"
    case Int(i) => IntToString(i)
    case Str(s) => s
    case Arr(items) => "[" + ShowItems(items) + "]"
    case Hash(pairs) => "{" + ShowPairs(pairs) + "}"
  }

  /** Ruby's `v.inspect`: strings are quoted, `nil` is spelled out. */
  function Inspect(v: Value): string
  {
    match v
    case Nil => "nil"
    case Bool(b) => if b then "true" else "false"
    case Int(i) => IntToString(i)
    case Str(s) => Quote(s)
    case Arr(items) => "[" + ShowItems(items) + "]"
    case Hash(pairs) => "{" + ShowPairs(pairs) + "}"
  }

  /** `String#inspect`: the text between double quotes, with the quote, the backslash,
      the named control characters and an interpolation-like `#` escaped. */
  function Quote(s: string): string
  {
    "\"" + Escaped(s) + "\""
  }

  /** One character as `String#inspect` writes it, `rest` being what follows it. */
  function EscapedChar(c: char, rest: string): string
  {
    if c == '"' then "\\\""
    else if c == '\\' then "\\\\"
    else if c == '\n' then "\\n"
    else if c == '\t' then "\\t"
    else if c == '\r' then "\\r"
    else if c == '\U{000C}' then "\\f"
    else if c == '\U{000B}' then "\\v"
    else if c == '\U{0008}' then "\\b"
    else if c == '\U{0007}' then "\\a"
    else if c == '\U{001B}' then "\\e"
    else if c == '#' && |rest| > 0 && (rest[0] == '{' || rest[0] == '$' || rest[0] == '@') then "\\#"
    else [c]
  }

  function Escaped(s: string): string
    decreases |s|
  {
    if s == [] then "" else EscapedChar(s[0], s[1..]) + Escaped(s[1..])
  }

  /** A character `String#inspect` writes as it is. */
  predicate PlainChar(c: char)
  {
    c != '"' && c != '\\' && c != '#' && !('\0' <= c < ' ')
  }

  /** A string of plain characters is written as it is, and no written string holds a
      line break or an unescaped quote: the text of `inspect` is one line and ends at its
      closing quote. */
  lemma {:induction false} EscapedFacts(s: string)
    ensures (forall i | 0 <= i < |s| :: PlainChar(s[i])) ==> Escaped(s) == s
    ensures '\n' !in Escaped(s)
    ensures forall i | 0 <= i < |Escaped(s)| && Escaped(s)[i] == '"' :: i > 0 && Escaped(s)[i - 1] == '\\'
    decreases |s|
  {
    if s != [] {
      EscapedFacts(s[1..]);
      var head := EscapedChar(s[0], s[1..]);
      var tail := Escaped(s[1..]);
      assert Escaped(s) == head + tail;
      assert '\n' !in head;
      forall i | 0 <= i < |head + tail| && (head + tail)[i] == '"' ensures i > 0 && (head + tail)[i - 1] == '\\' {
        if i >= |head| {
          assert tail[i - |head|] == '"';
          if i - |head| > 0 {
            assert (head + tail)[i - 1] == tail[i - |head| - 1];
          } else {
            assert false;
          }
        }
      }
    }
  }

  function ShowItems(items: seq<Value>): string
    decreases items
  {
    if items == [] then ""
    else Inspect(items[0]) + (if |items| == 1 then "" else ", " + ShowItems(items[1..]))
  }

  function ShowPairs(pairs: seq<(string, Value)>): string
    decreases pairs
  {
    if pairs == [] then ""
    else
      assert pairs[0].1 < pairs[0];
      Quote(pairs[0].0) + " => " + Inspect(pairs[0].1)
      + (if |pairs| == 1 then "" else ", " + ShowPairs(pairs[1..]))
  }
}
