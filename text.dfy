/**
 * The Python string and list primitives the tag code relies on: `str.split`
 * with an explicit separator, `str.split(c, 1)[1]`, `startswith`, `strip` and
 * `lstrip(chars)`, `int()` on a decimal string, list indexing with negative
 * indices, and the ordering Python uses when it compares two strings.
 */
module Text {

  /** Python's `s.startswith(prefix)`. */
  predicate StartsWith(s: string, prefix: string) {
    |prefix| <= |s| && s[..|prefix|] == prefix
  }

  /**
   * Python's `s.split(c)` with an explicit one-character separator: every
   * occurrence of `c` ends a part, empty parts are kept, and even the empty
   * string yields one (empty) part.
   */
  function Split(s: string, c: char): (parts: seq<string>)
    ensures |parts| >= 1
    ensures forall k :: 0 <= k < |parts| ==> c !in parts[k]
    decreases |s|
  {
    if |s| == 0 then [""]
    else
      var rest := Split(s[1..], c);
      if s[0] == c then [""] + rest else [[s[0]] + rest[0]] + rest[1..]
  }

  /** Python's `c.join(parts)`: the inverse of `Split`. */
  function Join(parts: seq<string>, c: char): string
    requires |parts| >= 1
    decreases |parts|
  {
    if |parts| == 1 then parts[0] else parts[0] + [c] + Join(parts[1..], c)
  }

  /** Joining the parts of a split restores the original string. */
  lemma {:induction false} JoinSplit(s: string, c: char)
    ensures Join(Split(s, c), c) == s
    decreases |s|
  {
    if |s| > 0 {
      var rest := Split(s[1..], c);
      JoinSplit(s[1..], c);
      if s[0] == c {
        assert Split(s, c) == [""] + rest;
        assert ([""] + rest)[1..] == rest;
      } else if |rest| == 1 {
        assert Split(s, c) == [[s[0]] + rest[0]];
        assert s == [s[0]] + s[1..];
      } else {
        var parts := Split(s, c);
        assert parts == [[s[0]] + rest[0]] + rest[1..];
        assert parts[1..] == rest[1..];
        assert Join(rest, c) == rest[0] + [c] + Join(rest[1..], c);
        assert s == [s[0]] + s[1..];
      }
    }
  }

  /** A separator-free prefix only lengthens the first part of a split. */
  lemma {:induction false} SplitAfterPrefix(p: string, t: string, c: char)
    requires c !in p
    ensures Split(p + t, c) == [p + Split(t, c)[0]] + Split(t, c)[1..]
    decreases |p|
  {
    if |p| == 0 {
      var parts := Split(t, c);
      assert p + t == t;
      assert p + parts[0] == parts[0];
      assert [parts[0]] + parts[1..] == parts;
    } else {
      assert (p + t)[1..] == p[1..] + t;
      assert (p + t)[0] == p[0];
      SplitAfterPrefix(p[1..], t, c);
      assert [p[0]] + (p[1..] + Split(t, c)[0]) == p + Split(t, c)[0];
    }
  }

  /** Splitting a join of separator-free parts gives the parts back. */
  lemma {:induction false} SplitJoin(parts: seq<string>, c: char)
    requires |parts| >= 1
    requires forall k :: 0 <= k < |parts| ==> c !in parts[k]
    ensures Split(Join(parts, c), c) == parts
    decreases |parts|
  {
    if |parts| == 1 {
      SplitAfterPrefix(parts[0], "", c);
      assert parts[0] + "" == parts[0];
    } else {
      var tail := Join(parts[1..], c);
      SplitJoin(parts[1..], c);
      assert ([c] + tail)[1..] == tail;
      assert Split([c] + tail, c) == [""] + Split(tail, c);
      assert parts[0] + [c] + tail == parts[0] + ([c] + tail);
      SplitAfterPrefix(parts[0], [c] + tail, c);
      assert Join(parts, c) == parts[0] + ([c] + tail);
      assert parts[0] + "" == parts[0];
      assert parts == [parts[0]] + parts[1..];
    }
  }

  /** A string without the separator splits into itself alone. */
  lemma SplitWithoutSeparator(s: string, c: char)
    requires c !in s
    ensures Split(s, c) == [s]
  {
    SplitJoin([s], c);
  }

  /**
   * Python's `s.split(c, 1)[1]`: what follows the first occurrence of `c`.
   * The result is the unique tail such that `s` is a separator-free prefix,
   * then `c`, then the tail.
   */
  function AfterFirst(s: string, c: char): (rest: string)
    requires c in s
    ensures |rest| < |s|
    ensures s == s[..|s| - |rest| - 1] + [c] + rest
    ensures c !in s[..|s| - |rest| - 1]
    decreases |s|
  {
    if s[0] == c then s[1..] else AfterFirst(s[1..], c)
  }

  /** What follows the first separator is determined by where that separator is. */
  lemma {:induction false} AfterFirstOf(p: string, c: char, rest: string)
    requires c !in p
    ensures AfterFirst(p + [c] + rest, c) == rest
    decreases |p|
  {
    var s := p + [c] + rest;
    if |p| > 0 {
      assert s[0] == p[0];
      assert s[1..] == p[1..] + [c] + rest;
      AfterFirstOf(p[1..], c, rest);
    } else {
      assert s == [c] + rest;
    }
  }

  /** The characters Python's `str.isspace` accepts in the ASCII range. */
  const Whitespace: set<char> :=
    {' ', '\t', '\n', '\U{0B}', '\U{0C}', '\r', '\U{1C}', '\U{1D}', '\U{1E}', '\U{1F}'}

  /**
   * Python's `s.lstrip(chars)`: the longest suffix of `s` that does not start
   * with a character of `chars`.
   */
  function TrimLeft(s: string, chars: set<char>): (r: string)
    ensures r == [] || r[0] !in chars
    decreases |s|
  {
    if |s| > 0 && s[0] in chars then TrimLeft(s[1..], chars) else s
  }

  /**
   * Python's `s.rstrip(chars)`: the longest prefix of `s` that does not end
   * with a character of `chars`.
   */
  function TrimRight(s: string, chars: set<char>): (r: string)
    ensures |r| <= |s|
    ensures r == [] || r[|r| - 1] !in chars
    ensures r == [] || r[0] == s[0]
    decreases |s|
  {
    if |s| > 0 && s[|s| - 1] in chars then TrimRight(s[..|s| - 1], chars) else s
  }

  /** `TrimLeft` removes exactly the leading characters of `chars`. */
  lemma {:induction false} TrimLeftRemovesPrefix(s: string, chars: set<char>)
    ensures |TrimLeft(s, chars)| <= |s| && TrimLeft(s, chars) == s[|s| - |TrimLeft(s, chars)|..]
    ensures forall k :: 0 <= k < |s| - |TrimLeft(s, chars)| ==> s[k] in chars
    decreases |s|
  {
    if |s| > 0 && s[0] in chars {
      TrimLeftRemovesPrefix(s[1..], chars);
      var r := TrimLeft(s[1..], chars);
      assert s[1..][|s| - 1 - |r|..] == s[|s| - |r|..];
      forall k | 0 <= k < |s| - |r| ensures s[k] in chars {
        if k > 0 {
          assert s[k] == s[1..][k - 1];
        }
      }
    }
  }

  /** `TrimRight` removes exactly the trailing characters of `chars`. */
  lemma {:induction false} TrimRightRemovesSuffix(s: string, chars: set<char>)
    ensures |TrimRight(s, chars)| <= |s| && TrimRight(s, chars) == s[..|TrimRight(s, chars)|]
    ensures forall k :: |TrimRight(s, chars)| <= k < |s| ==> s[k] in chars
    decreases |s|
  {
    if |s| > 0 && s[|s| - 1] in chars {
      var init := s[..|s| - 1];
      TrimRightRemovesSuffix(init, chars);
      var r := TrimRight(init, chars);
      assert init[..|r|] == s[..|r|];
      forall k | |r| <= k < |s| ensures s[k] in chars {
        if k < |s| - 1 {
          assert s[k] == init[k];
        }
      }
    }
  }

  /** `TrimLeft` skips one leading character of `chars`. */
  lemma TrimLeftSkips(c: char, s: string, chars: set<char>)
    requires c in chars
    ensures TrimLeft([c] + s, chars) == TrimLeft(s, chars)
  {
    assert ([c] + s)[1..] == s;
  }

  /** A string that neither starts nor ends with whitespace is its own `Strip`. */
  lemma StripUnchanged(s: string)
    requires s == [] || (s[0] !in Whitespace && s[|s| - 1] !in Whitespace)
    ensures Strip(s) == s
  {
  }

  /** Python's `s.strip()`, restricted to ASCII whitespace. */
  function Strip(s: string): (r: string)
    ensures r == [] || (r[0] !in Whitespace && r[|r| - 1] !in Whitespace)
  {
    TrimRight(TrimLeft(s, Whitespace), Whitespace)
  }

  /** Every character is an ASCII decimal digit. */
  predicate IsDigits(s: string) {
    forall k :: 0 <= k < |s| ==> '0' <= s[k] <= '9'
  }

  /** Python's `int(s)` for a string of decimal digits (leading zeros allowed). */
  function DecimalValue(s: string): (n: nat)
    requires IsDigits(s)
    decreases |s|
  {
    if |s| == 0 then 0
    else DecimalValue(s[..|s| - 1]) * 10 + (s[|s| - 1] as int - '0' as int)
  }

  /** Whether Python's `xs[i]` names an element rather than raising `IndexError`. */
  predicate InRange<T>(xs: seq<T>, i: int) {
    -|xs| <= i < |xs|
  }

  /** Python's `xs[i]`: a negative index counts from the end. */
  function PyIndex<T>(xs: seq<T>, i: int): T
    requires InRange(xs, i)
  {
    if i >= 0 then xs[i] else xs[|xs| + i]
  }

  /** Python's `a < b` on strings: lexicographic by code point, a proper prefix first. */
  predicate LexLess(a: string, b: string)
    decreases |a|
  {
    if |a| == 0 then |b| > 0
    else if |b| == 0 then false
    else if a[0] != b[0] then a[0] < b[0]
    else LexLess(a[1..], b[1..])
  }

  lemma {:induction false} LexLessIrreflexive(a: string)
    ensures !LexLess(a, a)
    decreases |a|
  {
    if |a| > 0 {
      LexLessIrreflexive(a[1..]);
    }
  }

  lemma {:induction false} LexLessAsymmetric(a: string, b: string)
    requires LexLess(a, b)
    ensures !LexLess(b, a)
    decreases |a|
  {
    if |a| > 0 && |b| > 0 && a[0] == b[0] {
      LexLessAsymmetric(a[1..], b[1..]);
    }
  }

  lemma {:induction false} LexLessTransitive(a: string, b: string, c: string)
    requires LexLess(a, b) && LexLess(b, c)
    ensures LexLess(a, c)
    decreases |a|
  {
    if |a| > 0 && |b| > 0 && |c| > 0 && a[0] == b[0] && b[0] == c[0] {
      LexLessTransitive(a[1..], b[1..], c[1..]);
    }
  }

  lemma {:induction false} LexLessTotal(a: string, b: string)
    requires a != b
    ensures LexLess(a, b) || LexLess(b, a)
    decreases |a|
  {
    if |a| > 0 && |b| > 0 && a[0] == b[0] {
      assert a == [a[0]] + a[1..] && b == [b[0]] + b[1..];
      LexLessTotal(a[1..], b[1..]);
    }
  }
}
