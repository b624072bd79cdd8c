/**
 * The PHP string functions the generator relies on, as total functions on
 * `string` (a sequence of characters, one per byte of the generated text).
 */
module PhpStrings {

  /** PHP's conversion of a string to bool: only "" and "0" are false. */
  predicate Truthy(s: string) {
    s != "" && s != "0"
  }

  /** `empty($s)` for a string value. */
  predicate IsEmpty(s: string) {
    !Truthy(s)
  }

  /** `0 === strpos($s, $prefix)` (for a non-empty `prefix`). */
  predicate StartsWith(s: string, prefix: string) {
    |prefix| <= |s| && s[..|prefix|] == prefix
  }

  predicate EndsWith(s: string, suffix: string) {
    |suffix| <= |s| && s[|s| - |suffix|..] == suffix
  }

  /** `strpos($s, $t) !== false`: `t` occurs somewhere in `s`. */
  predicate Contains(s: string, t: string) {
    StartsWith(s, t) || (s != [] && Contains(s[1..], t))
  }

  /** A text that is spliced between two others is contained in the result. */
  lemma {:induction false} ContainsMiddle(a: string, t: string, b: string)
    ensures Contains(a + t + b, t)
    decreases |a|
  {
    var s := a + t + b;
    if a == [] {
      assert s[..|t|] == t;
    } else {
      ContainsMiddle(a[1..], t, b);
      assert s[1..] == a[1..] + t + b;
    }
  }

  /** `strtr($s, $from, $to)` with one-character arguments. */
  function StrTr(s: string, from: char, to: char): (r: string)
    ensures |r| == |s|
    ensures forall i :: 0 <= i < |s| && s[i] != from ==> r[i] == s[i]
    ensures forall i :: 0 <= i < |s| && s[i] == from ==> r[i] == to
    ensures from != to ==> from !in r
  {
    if s == [] then [] else [if s[0] == from then to else s[0]] + StrTr(s[1..], from, to)
  }

  /** `ltrim($s, $chars)`: `s` without its longest prefix made of `chars`. */
  function TrimLeft(s: string, chars: set<char>): (r: string)
    ensures |r| <= |s|
    ensures forall i :: 0 <= i < |r| ==> r[i] == s[|s| - |r| + i]
    ensures r != [] ==> r[0] !in chars
    ensures forall i :: 0 <= i < |s| - |r| ==> s[i] in chars
  {
    if s != [] && s[0] in chars then TrimLeft(s[1..], chars) else s
  }

  /** `rtrim($s, $chars)`: `s` without its longest suffix made of `chars`. */
  function TrimRight(s: string, chars: set<char>): (r: string)
    ensures |r| <= |s|
    ensures forall i :: 0 <= i < |r| ==> r[i] == s[i]
    ensures r != [] ==> r[|r| - 1] !in chars
    ensures forall i :: |r| <= i < |s| ==> s[i] in chars
  {
    if s != [] && s[|s| - 1] in chars then TrimRight(s[..|s| - 1], chars) else s
  }

  /** `trim($s, $chars)`: both ends stripped of `chars`. */
  function Trim(s: string, chars: set<char>): (r: string)
    ensures |r| <= |s|
    ensures r != [] ==> r[0] !in chars && r[|r| - 1] !in chars
  {
    TrimRight(TrimLeft(s, chars), chars)
  }

  /** Trimming only removes padding: a text with clean ends survives any padding around it. */
  lemma {:induction false} TrimRemovesPadding(left: string, s: string, right: string, chars: set<char>)
    requires forall c :: c in left ==> c in chars
    requires forall c :: c in right ==> c in chars
    requires s != [] ==> s[0] !in chars && s[|s| - 1] !in chars
    ensures Trim(left + s + right, chars) == s
  {
    var padded := left + s + right;
    if s == [] {
      assert padded == (left + right) + s;
      TrimLeftPadding(left + right, s, chars);
      assert TrimLeft(padded, chars) == [];
    } else {
      assert padded == left + (s + right);
      assert (s + right)[0] == s[0];
      TrimLeftPadding(left, s + right, chars);
      assert TrimLeft(padded, chars) == s + right;
      TrimRightPadding(s, right, chars);
    }
  }

  lemma {:induction false} TrimLeftPadding(left: string, s: string, chars: set<char>)
    requires forall c :: c in left ==> c in chars
    requires s != [] ==> s[0] !in chars
    ensures TrimLeft(left + s, chars) == s
    decreases |left|
  {
    if left == [] {
      assert left + s == s;
    } else {
      assert (left + s)[0] == left[0];
      assert (left + s)[1..] == left[1..] + s;
      TrimLeftPadding(left[1..], s, chars);
    }
  }

  lemma {:induction false} TrimRightPadding(s: string, right: string, chars: set<char>)
    requires forall c :: c in right ==> c in chars
    requires s != [] ==> s[|s| - 1] !in chars
    ensures TrimRight(s + right, chars) == s
    decreases |right|
  {
    if right == [] {
      assert s + right == s;
    } else {
      var t := s + right;
      assert t[|t| - 1] == right[|right| - 1];
      assert t[..|t| - 1] == s + right[..|right| - 1];
      TrimRightPadding(s, right[..|right| - 1], chars);
    }
  }

  /** The characters PHP's `rtrim($s)` strips when no list is given. */
  const Whitespace: set<char> := {' ', '\t', '\n', '\r', '\0', '\U{B}'}

  /** `implode($sep, $parts)`. */
  function Implode(sep: string, parts: seq<string>): string {
    if parts == [] then ""
    else if |parts| == 1 then parts[0]
    else parts[0] + sep + Implode(sep, parts[1..])
  }

  /** Where `parts[i]` starts inside `Implode(sep, parts)`. */
  function ImplodeOffset(sep: string, parts: seq<string>, i: nat): nat
    requires i <= |parts|
  {
    if i == 0 then 0 else |parts[0]| + |sep| + ImplodeOffset(sep, parts[1..], i - 1)
  }

  /** Every part of an `implode` sits at its offset. */
  lemma ImplodeAllParts(sep: string, parts: seq<string>)
    ensures forall i :: 0 <= i < |parts| ==>
      && ImplodeOffset(sep, parts, i) + |parts[i]| <= |Implode(sep, parts)|
      && Implode(sep, parts)[ImplodeOffset(sep, parts, i)..ImplodeOffset(sep, parts, i) + |parts[i]|] == parts[i]
  {
    forall i | 0 <= i < |parts|
      ensures ImplodeOffset(sep, parts, i) + |parts[i]| <= |Implode(sep, parts)|
      ensures Implode(sep, parts)[ImplodeOffset(sep, parts, i)..ImplodeOffset(sep, parts, i) + |parts[i]|] == parts[i]
    {
      ImplodePartAt(sep, parts, i);
    }
  }

  /** `implode` keeps every part, in order: part `i` sits after parts `0..i-1`, each followed by `sep`. */
  lemma {:induction false} ImplodePartAt(sep: string, parts: seq<string>, i: nat)
    requires i < |parts|
    ensures ImplodeOffset(sep, parts, i) + |parts[i]| <= |Implode(sep, parts)|
    ensures Implode(sep, parts)[ImplodeOffset(sep, parts, i)..ImplodeOffset(sep, parts, i) + |parts[i]|] == parts[i]
  {
    if |parts| == 1 {
    } else if i == 0 {
      var s := Implode(sep, parts);
      assert s == parts[0] + sep + Implode(sep, parts[1..]);
      assert s[..|parts[0]|] == parts[0];
    } else {
      var rest := Implode(sep, parts[1..]);
      var k := |parts[0]| + |sep|;
      ImplodePartAt(sep, parts[1..], i - 1);
      assert Implode(sep, parts) == parts[0] + sep + rest;
      assert Implode(sep, parts)[k..] == rest;
    }
  }

  /** The number of occurrences of `c` in `s`. */
  function Count(c: char, s: string): nat {
    if s == [] then 0 else (if s[0] == c then 1 else 0) + Count(c, s[1..])
  }

  /** `explode($sep, $s)` for a one-character separator. */
  function Explode(sep: char, s: string): (parts: seq<string>)
    ensures |parts| >= 1
  {
    if s == [] then [""]
    else
      var rest := Explode(sep, s[1..]);
      if s[0] == sep then [""] + rest else [[s[0]] + rest[0]] + rest[1..]
  }

  /** `explode` yields one more part than there are separators. */
  lemma {:induction false} ExplodeCount(sep: char, s: string)
    ensures |Explode(sep, s)| == Count(sep, s) + 1
  {
    if s != [] {
      ExplodeCount(sep, s[1..]);
    }
  }

  /** No part of `explode` contains the separator. */
  lemma {:induction false} ExplodeParts(sep: char, s: string)
    ensures forall p :: p in Explode(sep, s) ==> sep !in p
  {
    if s != [] {
      ExplodeParts(sep, s[1..]);
      var rest := Explode(sep, s[1..]);
      if s[0] != sep {
        assert forall p :: p in rest[1..] ==> p in rest;
      }
    }
  }

  /** `implode` undoes `explode`. */
  lemma {:induction false} ImplodeExplode(sep: char, s: string)
    ensures Implode([sep], Explode(sep, s)) == s
  {
    if s != [] {
      ImplodeExplode(sep, s[1..]);
      var rest := Explode(sep, s[1..]);
      var parts := Explode(sep, s);
      SplitHead(s);
      if s[0] == sep {
        assert parts == [""] + rest;
        assert parts[1..] == rest;
        assert Implode([sep], parts) == "" + [sep] + Implode([sep], rest);
        assert "" + [sep] + s[1..] == [sep] + s[1..];
      } else {
        assert parts == [[s[0]] + rest[0]] + rest[1..];
        if |rest| == 1 {
          assert Implode([sep], parts) == [s[0]] + rest[0];
        } else {
          assert parts[1..] == rest[1..];
          assert Implode([sep], parts) == [s[0]] + rest[0] + [sep] + Implode([sep], rest[1..]);
          assert Implode([sep], rest) == rest[0] + [sep] + Implode([sep], rest[1..]);
          ConsAssociates(s[0], rest[0], [sep], Implode([sep], rest[1..]));
        }
      }
    }
  }

  lemma SplitHead(s: string)
    requires s != []
    ensures s == [s[0]] + s[1..]
  {
  }

  lemma ConsAssociates(c: char, x: string, y: string, z: string)
    ensures [c] + x + y + z == [c] + (x + y + z)
  {
  }


  /** `explode` undoes `implode` when no part contains the separator. */
  lemma {:induction false} ExplodeImplode(sep: char, parts: seq<string>)
    requires |parts| >= 1
    requires forall p :: p in parts ==> sep !in p
    ensures Explode(sep, Implode([sep], parts)) == parts
  {
    if |parts| == 1 {
      ExplodeNoSeparator(sep, parts[0], "");
      assert parts[0] + "" == parts[0];
    } else {
      ExplodeImplode(sep, parts[1..]);
      var rest := Implode([sep], parts[1..]);
      ExplodeNoSeparator(sep, parts[0], [sep] + rest);
      assert Implode([sep], parts) == parts[0] + ([sep] + rest);
      var e := Explode(sep, [sep] + rest);
      assert e == [""] + Explode(sep, rest) by {
        assert ([sep] + rest)[1..] == rest;
      }
      assert e[0] == "" && e[1..] == parts[1..];
      assert parts[0] + e[0] == parts[0];
      assert [parts[0]] + parts[1..] == parts;
    }
  }

  /** A separator-free prefix glues onto the first part of what follows. */
  lemma {:induction false} ExplodeNoSeparator(sep: char, p: string, t: string)
    requires sep !in p
    ensures Explode(sep, p + t) == [p + Explode(sep, t)[0]] + Explode(sep, t)[1..]
    decreases |p|
  {
    var e := Explode(sep, t);
    if p == [] {
      assert p + t == t;
      assert p + e[0] == e[0];
      assert e == [e[0]] + e[1..];
    } else {
      ExplodeNoSeparator(sep, p[1..], t);
      var rest := Explode(sep, p[1..] + t);
      assert (p + t)[0] == p[0];
      assert (p + t)[1..] == p[1..] + t;
      assert p[0] != sep by { assert p[0] in p; }
      assert Explode(sep, p + t) == [[p[0]] + rest[0]] + rest[1..];
      assert rest[0] == p[1..] + e[0] && rest[1..] == e[1..];
      assert [p[0]] + (p[1..] + e[0]) == p + e[0];
    }
  }

  /** The concatenation of `parts`, in order (a loop of `$s .= $part`). */
  function Concat(parts: seq<string>): string {
    if parts == [] then "" else Concat(parts[..|parts| - 1]) + parts[|parts| - 1]
  }

  /** Concatenation distributes over joining the lists of parts. */
  lemma {:induction false} ConcatAppend(a: seq<string>, b: seq<string>)
    ensures Concat(a + b) == Concat(a) + Concat(b)
    decreases |b|
  {
    if b == [] {
      assert a + b == a;
    } else {
      var init, last := b[..|b| - 1], b[|b| - 1];
      ConcatAppend(a, init);
      assert Concat(a + b) == Concat(a + init) + last by {
        DropLast(a, b);
      }
      TextAssociates(Concat(a), Concat(init), last);
    }
  }

  lemma DropLast(a: seq<string>, b: seq<string>)
    requires b != []
    ensures (a + b)[..|a + b| - 1] == a + b[..|b| - 1]
    ensures (a + b)[|a + b| - 1] == b[|b| - 1]
  {
  }

  lemma TextAssociates(x: string, y: string, z: string)
    ensures (x + y) + z == x + (y + z)
  {
  }

  /** One more part appended to a prefix of `parts`: the step of an `.=` loop. */
  lemma ConcatStep(parts: seq<string>, i: nat)
    requires i < |parts|
    ensures Concat(parts[..i + 1]) == Concat(parts[..i]) + parts[i]
  {
    assert parts[..i + 1][..i] == parts[..i];
  }

  /** A prefix stays a prefix when more text follows. */
  lemma StartsWithAppend(x: string, y: string, prefix: string)
    requires StartsWith(x, prefix)
    ensures StartsWith(x + y, prefix)
  {
    assert (x + y)[..|prefix|] == x[..|prefix|];
  }

  /** Text found in a string is still found once more text follows it. */
  lemma {:induction false} ContainsAppend(x: string, y: string, t: string)
    requires Contains(x, t)
    ensures Contains(x + y, t)
    decreases |x|
  {
    if StartsWith(x, t) {
      assert (x + y)[..|t|] == x[..|t|];
    } else {
      ContainsAppend(x[1..], y, t);
      assert (x + y)[1..] == x[1..] + y;
    }
  }

  /** Text found in a string is still found once more text precedes it. */
  lemma {:induction false} ContainsPrepend(x: string, y: string, t: string)
    requires Contains(y, t)
    ensures Contains(x + y, t)
    decreases |x|
  {
    if x != [] {
      ContainsPrepend(x[1..], y, t);
      assert (x + y)[1..] == x[1..] + y;
    } else {
      assert x + y == y;
    }
  }

  /** Every part occurs in the concatenation of the parts. */
  lemma {:induction false} ConcatContains(parts: seq<string>, i: nat)
    requires i < |parts|
    ensures Contains(Concat(parts), parts[i])
    decreases |parts|
  {
    var init := parts[..|parts| - 1];
    if i == |parts| - 1 {
      ContainsMiddle(Concat(init), parts[i], "");
      assert Concat(init) + parts[i] + "" == Concat(parts);
    } else {
      ConcatContains(init, i);
      ContainsAppend(Concat(init), parts[|parts| - 1], parts[i]);
    }
  }

  /** The concatenation starts with the first part and ends with the last. */
  lemma {:induction false} ConcatEnds(parts: seq<string>)
    requires parts != []
    ensures StartsWith(Concat(parts), parts[0])
    ensures EndsWith(Concat(parts), parts[|parts| - 1])
    decreases |parts|
  {
    var init := parts[..|parts| - 1];
    var last := parts[|parts| - 1];
    if |parts| > 1 {
      ConcatEnds(init);
      assert (Concat(init) + last)[..|parts[0]|] == Concat(init)[..|parts[0]|];
    } else {
      assert Concat(parts) == "" + last;
    }
    assert (Concat(init) + last)[|Concat(init) + last| - |last|..] == last;
  }

  /** Appending line `i` to a text that ends with the first `i` lines extends it by that line. */
  lemma ConcatExtend(head: string, lines: seq<string>, i: nat, text: string, line: string)
    requires i < |lines| && text == head + Concat(lines[..i]) && line == lines[i]
    ensures text + line == head + Concat(lines[..i + 1])
  {
    ConcatStep(lines, i);
  }

  /** A decimal digit. */
  function DigitChar(d: nat): (c: char)
    requires d < 10
    ensures '0' <= c <= '9' && (c as int) - ('0' as int) == d
  {
    (('0' as int) + d) as char
  }

  /** The decimal text PHP produces when it interpolates a non-negative integer. */
  function NatToString(n: nat): (s: string)
    ensures |s| >= 1
    ensures forall i :: 0 <= i < |s| ==> '0' <= s[i] <= '9'
  {
    if n < 10 then [DigitChar(n)] else NatToString(n / 10) + [DigitChar(n % 10)]
  }

  /** The value of a string of decimal digits. */
  function ParseDecimal(s: string): nat
    requires forall i :: 0 <= i < |s| ==> '0' <= s[i] <= '9'
  {
    if s == [] then 0
    else 10 * ParseDecimal(s[..|s| - 1]) + ((s[|s| - 1] as int) - ('0' as int))
  }

  /** The printed number reads back as the number printed. */
  lemma {:induction false} ParseNatToString(n: nat)
    ensures ParseDecimal(NatToString(n)) == n
  {
    if n >= 10 {
      ParseNatToString(n / 10);
      var s := NatToString(n);
      assert s[..|s| - 1] == NatToString(n / 10);
    }
  }
}
