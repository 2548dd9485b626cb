/**
  String primitives the application relies on, restricted to ASCII:
  the whitespace class of regular expressions and of `trim`, lower-casing,
  counting a character, and joining a list of strings with no separator.
 */
module Text {

  /** The ASCII members of the whitespace class: space, tab, line feed, vertical tab, form feed, carriage return. */
  predicate IsSpace(c: char)
  {
    c == ' ' || c == '\t' || c == '\n' || c == '\U{000B}' || c == '\U{000C}' || c == '\r'
  }

  predicate NoSpace(s: string)
  {
    forall i :: 0 <= i < |s| ==> !IsSpace(s[i])
  }

  /** A string is blank when every character is whitespace (the empty string included). */
  predicate IsBlank(s: string)
  {
    forall i :: 0 <= i < |s| ==> IsSpace(s[i])
  }

  predicate IsUpper(c: char)
  {
    'A' <= c <= 'Z'
  }

  /** ASCII lower-casing of one character; every other character is left alone. */
  function ToLower(c: char): (r: char)
    ensures !IsUpper(r)
    ensures IsSpace(r) <==> IsSpace(c)
    ensures !IsUpper(c) ==> r == c
    ensures IsUpper(c) ==> r == "abcdefghijklmnopqrstuvwxyz"[c as int - 'A' as int]
  {
    if IsUpper(c) then (c as int + 32) as char else c
  }

  /** `toLowerCase` on ASCII text: character by character. */
  function Lower(s: string): (r: string)
    ensures |r| == |s|
    ensures forall i :: 0 <= i < |s| ==> r[i] == ToLower(s[i])
  {
    seq(|s|, i requires 0 <= i < |s| => ToLower(s[i]))
  }

  /** Lower-casing neither creates nor removes whitespace. */
  lemma LowerKeepsSpaces(s: string)
    ensures NoSpace(Lower(s)) <==> NoSpace(s)
  {
  }

  /** `trimStart`: drops the leading whitespace. */
  function TrimStart(s: string): (r: string)
    ensures |r| <= |s|
  {
    if s != [] && IsSpace(s[0]) then TrimStart(s[1..]) else s
  }

  /** What is left is a suffix that is empty or starts with a non-space, and what was dropped is all whitespace. */
  lemma {:induction false} TrimStartSuffix(s: string)
    ensures TrimStart(s) == s[|s| - |TrimStart(s)|..]
    ensures IsBlank(s[..|s| - |TrimStart(s)|])
    ensures TrimStart(s) == [] || !IsSpace(TrimStart(s)[0])
  {
    if s != [] && IsSpace(s[0]) {
      TrimStartSuffix(s[1..]);
      var k := |s| - |TrimStart(s)|;
      assert s[1..][k - 1..] == s[k..];
      assert forall i :: 1 <= i < k ==> s[..k][i] == s[1..][..k - 1][i - 1];
    }
  }

  /** Trimming only removes characters. */
  lemma TrimStartElements(s: string)
    ensures forall x :: x in TrimStart(s) ==> x in s
  {
    var t := TrimStart(s);
    var k := |s| - |t|;
    TrimStartSuffix(s);
    forall x | x in t ensures x in s {
      var j :| 0 <= j < |t| && t[j] == x;
      assert s[k + j] == x;
    }
  }

  /** Leading whitespace followed by a non-space is dropped whole. */
  lemma {:induction false} TrimStartBlankPrefix(run: string, rest: string)
    requires IsBlank(run)
    requires rest == [] || !IsSpace(rest[0])
    ensures TrimStart(run + rest) == rest
  {
    if run != [] {
      assert (run + rest)[1..] == run[1..] + rest;
      TrimStartBlankPrefix(run[1..], rest);
    }
  }

  /** `trimEnd`: drops the trailing whitespace. */
  function TrimEnd(s: string): (r: string)
    ensures |r| <= |s|
  {
    if s != [] && IsSpace(s[|s| - 1]) then TrimEnd(s[..|s| - 1]) else s
  }

  /** What is left is a prefix that is empty or ends with a non-space, and what was dropped is all whitespace. */
  lemma {:induction false} TrimEndPrefix(s: string)
    ensures TrimEnd(s) == s[..|TrimEnd(s)|]
    ensures IsBlank(s[|TrimEnd(s)|..])
    ensures TrimEnd(s) == [] || !IsSpace(TrimEnd(s)[|TrimEnd(s)| - 1])
  {
    if s != [] && IsSpace(s[|s| - 1]) {
      var p := s[..|s| - 1];
      TrimEndPrefix(p);
      var n := |TrimEnd(s)|;
      assert p[..n] == s[..n];
      assert forall i :: 0 <= i < |s| - 1 - n ==> s[n..][i] == p[n..][i];
    }
  }

  /** `trim`: both ends. */
  function Trim(s: string): (r: string)
  {
    TrimEnd(TrimStart(s))
  }

  /** The trimmed string is the contiguous part of the input that starts after the leading whitespace. */
  lemma TrimIsInfix(s: string)
    ensures |s| - |TrimStart(s)| + |Trim(s)| <= |s|
    ensures Trim(s) == s[|s| - |TrimStart(s)|..|s| - |TrimStart(s)| + |Trim(s)|]
    ensures Trim(s) == [] || (!IsSpace(Trim(s)[0]) && !IsSpace(Trim(s)[|Trim(s)| - 1]))
  {
    var t := TrimStart(s);
    TrimStartSuffix(s);
    TrimEndPrefix(t);
    TrimmedInfix(s, t, TrimEnd(t));
  }

  /**
    A prefix `u` of a suffix `t` of `s` is the infix of `s` that starts where
    `t` does, and its first character is that of `t`.
   */
  lemma TrimmedInfix(s: string, t: string, u: string)
    requires |t| <= |s| && t == s[|s| - |t|..]
    requires |u| <= |t| && u == t[..|u|]
    requires t == [] || !IsSpace(t[0])
    requires u == [] || !IsSpace(u[|u| - 1])
    ensures |s| - |t| + |u| <= |s|
    ensures u == s[|s| - |t|..|s| - |t| + |u|]
    ensures u == [] || (!IsSpace(u[0]) && !IsSpace(u[|u| - 1]))
  {
    if u != [] {
      assert u[0] == t[0];
    }
  }

  lemma {:induction false} TrimStartEmptyIffBlank(s: string)
    ensures TrimStart(s) == [] <==> IsBlank(s)
  {
    if s != [] && IsSpace(s[0]) {
      TrimStartEmptyIffBlank(s[1..]);
      assert IsBlank(s) <==> IsBlank(s[1..]) by {
        assert forall i :: 0 <= i < |s| - 1 ==> s[1..][i] == s[i + 1];
      }
    }
  }

  lemma {:induction false} TrimEndEmptyIffBlank(s: string)
    ensures TrimEnd(s) == [] <==> IsBlank(s)
  {
    if s != [] && IsSpace(s[|s| - 1]) {
      TrimEndEmptyIffBlank(s[..|s| - 1]);
      assert IsBlank(s) <==> IsBlank(s[..|s| - 1]) by {
        assert forall i :: 0 <= i < |s| - 1 ==> s[..|s| - 1][i] == s[i];
      }
    }
  }

  /** The empty-input test of the app: a string trims to nothing exactly when it is blank. */
  lemma {:induction false} TrimEmptyIffBlank(s: string)
    ensures Trim(s) == "" <==> IsBlank(s)
  {
    var t := TrimStart(s);
    TrimStartEmptyIffBlank(s);
    TrimStartSuffix(s);
    TrimEndEmptyIffBlank(t);
    assert t != [] ==> !IsBlank(t);
  }

  /** The number of times `c` occurs in `s`. */
  function Occurrences(s: string, c: char): (n: nat)
    ensures n <= |s|
    ensures n == 0 <==> c !in s
  {
    if s == [] then 0 else (if s[0] == c then 1 else 0) + Occurrences(s[1..], c)
  }

  lemma {:induction false} OccurrencesAppend(a: string, b: string, c: char)
    ensures Occurrences(a + b, c) == Occurrences(a, c) + Occurrences(b, c)
  {
    if a != [] {
      assert (a + b)[1..] == a[1..] + b;
      OccurrencesAppend(a[1..], b, c);
    } else {
      assert a + b == b;
    }
  }

  /**
    `replace(/c/g, rep)` for a one-character pattern: every occurrence of `c`
    becomes `rep`, every other character is copied in order.
   */
  function ReplaceAll(s: string, c: char, rep: string): (r: string)
    ensures c !in s ==> r == s
    ensures c !in rep ==> c !in r
  {
    if s == [] then "" else (if s[0] == c then rep else [s[0]]) + ReplaceAll(s[1..], c, rep)
  }

  /** Every character of the result is a character of `s` other than `c`, or comes from `rep`. */
  lemma {:induction false} ReplaceAllElements(s: string, c: char, rep: string)
    ensures forall x :: x in ReplaceAll(s, c, rep) ==> (x in s && x != c) || x in rep
  {
    if s != [] {
      ReplaceAllElements(s[1..], c, rep);
      var head := if s[0] == c then rep else [s[0]];
      assert ReplaceAll(s, c, rep) == head + ReplaceAll(s[1..], c, rep);
      forall x | x in s[1..] ensures x in s {
        var j :| 0 <= j < |s[1..]| && s[1..][j] == x;
        assert s[j + 1] == x;
      }
    }
  }

  /** Each replaced occurrence changes the length by `|rep| - 1`. */
  lemma {:induction false} ReplaceAllLength(s: string, c: char, rep: string)
    ensures |ReplaceAll(s, c, rep)| == |s| + Occurrences(s, c) * (|rep| - 1)
  {
    if s != [] {
      ReplaceAllLength(s[1..], c, rep);
      var n := Occurrences(s[1..], c);
      if s[0] == c {
        calc {
          |ReplaceAll(s, c, rep)|;
          |rep| + |s| - 1 + n * (|rep| - 1);
          |s| + (n + 1) * (|rep| - 1);
        }
      }
    }
  }

  lemma {:induction false} ReplaceAllAppend(a: string, b: string, c: char, rep: string)
    ensures ReplaceAll(a + b, c, rep) == ReplaceAll(a, c, rep) + ReplaceAll(b, c, rep)
  {
    if a == [] {
      assert a + b == b;
    } else {
      assert (a + b)[1..] == a[1..] + b;
      ReplaceAllAppend(a[1..], b, c, rep);
    }
  }

  /** Replacing `c` leaves the count of another character `d` alone when `rep` has no `d`. */
  lemma {:induction false} ReplaceAllKeepsOthers(s: string, c: char, rep: string, d: char)
    requires d != c && d !in rep
    ensures Occurrences(ReplaceAll(s, c, rep), d) == Occurrences(s, d)
  {
    if s != [] {
      ReplaceAllKeepsOthers(s[1..], c, rep, d);
      OccurrencesAppend(if s[0] == c then rep else [s[0]], ReplaceAll(s[1..], c, rep), d);
    }
  }

  /** `join('')`: the parts one after another. */
  function Concat(parts: seq<string>): string
  {
    if parts == [] then "" else parts[0] + Concat(parts[1..])
  }

  /** The joined string is empty exactly when every part is. */
  lemma {:induction false} ConcatEmptyIff(parts: seq<string>)
    ensures Concat(parts) == "" <==> forall i :: 0 <= i < |parts| ==> parts[i] == ""
  {
    if parts != [] {
      ConcatEmptyIff(parts[1..]);
      assert forall i :: 1 <= i < |parts| ==> parts[i] == parts[1..][i - 1];
    }
  }

  lemma {:induction false} ConcatAppend(a: seq<string>, b: seq<string>)
    ensures Concat(a + b) == Concat(a) + Concat(b)
  {
    if a == [] {
      assert a + b == b;
    } else {
      assert (a + b)[1..] == a[1..] + b;
      ConcatAppend(a[1..], b);
    }
  }

  /** `xs.map(f)`: one string per element, in order. */
  function Map<T>(f: T -> string, xs: seq<T>): (r: seq<string>)
    ensures |r| == |xs|
    ensures forall i :: 0 <= i < |xs| ==> r[i] == f(xs[i])
  {
    seq(|xs|, i requires 0 <= i < |xs| => f(xs[i]))
  }

  /** Mapping and then joining distributes over concatenation of the input. */
  lemma ConcatMapAppend<T>(f: T -> string, a: seq<T>, b: seq<T>)
    ensures Concat(Map(f, a + b)) == Concat(Map(f, a)) + Concat(Map(f, b))
  {
    assert Map(f, a + b) == Map(f, a) + Map(f, b);
    ConcatAppend(Map(f, a), Map(f, b));
  }

  /** Mapping a single element and joining gives that element's string. */
  lemma ConcatMapSingle<T>(f: T -> string, x: T)
    ensures Concat(Map(f, [x])) == f(x)
  {
    var m := Map(f, [x]);
    assert m[1..] == [];
    assert f(x) + "" == f(x);
  }

  /** Counting over three concatenated pieces. */
  lemma OccurrencesJoin3(a: string, b: string, d: string, c: char)
    ensures Occurrences(a + b + d, c) == Occurrences(a, c) + Occurrences(b, c) + Occurrences(d, c)
  {
    OccurrencesAppend(a + b, d, c);
    OccurrencesAppend(a, b, c);
  }

  /** Counting over five concatenated pieces. */
  lemma OccurrencesJoin5(a: string, b: string, d: string, e: string, g: string, c: char)
    ensures Occurrences(a + b + d + e + g, c)
      == Occurrences(a, c) + Occurrences(b, c) + Occurrences(d, c) + Occurrences(e, c) + Occurrences(g, c)
  {
    OccurrencesAppend(a + b + d + e, g, c);
    OccurrencesAppend(a + b + d, e, c);
    OccurrencesJoin3(a, b, d, c);
  }

  /** When every part holds `k` copies of `c`, the joined string holds `k` per part. */
  lemma {:induction false} ConcatUniformCount(parts: seq<string>, c: char, k: nat)
    requires forall i :: 0 <= i < |parts| ==> Occurrences(parts[i], c) == k
    ensures Occurrences(Concat(parts), c) == k * |parts|
  {
    if parts != [] {
      var rest := parts[1..];
      forall i | 0 <= i < |rest| ensures Occurrences(rest[i], c) == k {
        assert rest[i] == parts[i + 1];
      }
      ConcatUniformCount(rest, c, k);
      OccurrencesAppend(parts[0], Concat(rest), c);
      MulSucc(k, |rest|);
    }
  }

  /** If `f` gives `k` copies of a character for every element, the joined results hold `k` per element. */
  lemma MapUniformCount<T>(f: T -> string, xs: seq<T>, c: char, k: nat)
    requires forall i :: 0 <= i < |xs| ==> Occurrences(f(xs[i]), c) == k
    ensures Occurrences(Concat(Map(f, xs)), c) == k * |xs|
  {
    var parts := Map(f, xs);
    forall i | 0 <= i < |parts| ensures Occurrences(parts[i], c) == k {
      assert parts[i] == f(xs[i]);
    }
    ConcatUniformCount(parts, c, k);
  }

  lemma MulSucc(k: nat, m: nat)
    ensures k * (m + 1) == k + k * m
  {
  }

  /**
    Evaluation of a template literal: the fixed strings with the substituted
    values between them, `strings[0] + values[0] + strings[1] + ... + strings[n]`.
   */
  function Interpolate(strings: seq<string>, values: seq<string>): (r: string)
    requires |strings| == |values| + 1
    decreases |values|
  {
    if values == [] then strings[0]
    else strings[0] + values[0] + Interpolate(strings[1..], values[1..])
  }

  /** Where the `i`-th value starts: after the first `i + 1` strings and the first `i` values. */
  function ValueOffset(strings: seq<string>, values: seq<string>, i: nat): nat
    requires |strings| == |values| + 1 && i < |values|
  {
    |Interpolate(strings[..i + 1], values[..i])|
  }

  /** The evaluated template splits at the `i`-th value. */
  lemma {:induction false} InterpolateSplit(strings: seq<string>, values: seq<string>, i: nat)
    requires |strings| == |values| + 1 && i < |values|
    ensures Interpolate(strings, values)
         == Interpolate(strings[..i + 1], values[..i]) + values[i] + Interpolate(strings[i + 1..], values[i + 1..])
  {
    if i == 0 {
      assert strings[..1] == [strings[0]] && values[..0] == [];
    } else {
      InterpolateSplit(strings[1..], values[1..], i - 1);
      assert strings[1..][..i] == strings[1..i + 1] && values[1..][..i - 1] == values[1..i];
      assert strings[1..][i..] == strings[i + 1..] && values[1..][i..] == values[i + 1..];
      assert strings[..i + 1][1..] == strings[1..i + 1] && values[..i][1..] == values[1..i];
      assert strings[..i + 1][0] == strings[0] && values[..i][0] == values[0];
    }
  }

  /**
    Every value appears in the result at its offset, and the values appear in
    order: the fixed string `strings[i + 1]` lies between value `i` and value `i + 1`.
   */
  lemma InterpolateEmbeds(strings: seq<string>, values: seq<string>, i: nat)
    requires |strings| == |values| + 1 && i < |values|
    ensures ValueOffset(strings, values, i) + |values[i]| <= |Interpolate(strings, values)|
    ensures Interpolate(strings, values)[ValueOffset(strings, values, i)..ValueOffset(strings, values, i) + |values[i]|] == values[i]
    ensures i + 1 < |values| ==>
      ValueOffset(strings, values, i) + |values[i]| + |strings[i + 1]| == ValueOffset(strings, values, i + 1)
  {
    InterpolateSplit(strings, values, i);
    if i + 1 < |values| {
      InterpolateNext(strings, values, i);
    }
  }

  lemma InterpolateNext(strings: seq<string>, values: seq<string>, i: nat)
    requires |strings| == |values| + 1 && i + 1 < |values|
    ensures Interpolate(strings[..i + 2], values[..i + 1])
         == Interpolate(strings[..i + 1], values[..i]) + values[i] + strings[i + 1]
  {
    var s', v' := strings[..i + 2], values[..i + 1];
    InterpolateSplit(s', v', i);
    assert s'[..i + 1] == strings[..i + 1] && v'[..i] == values[..i];
    assert s'[i + 1..] == [strings[i + 1]] && v'[i + 1..] == [];
  }

  /** Values with the same number of `c` give evaluated templates with the same number of `c`. */
  lemma {:induction false} InterpolateSameCount(strings: seq<string>, v1: seq<string>, v2: seq<string>, c: char)
    requires |strings| == |v1| + 1 && |v1| == |v2|
    requires forall i :: 0 <= i < |v1| ==> Occurrences(v1[i], c) == Occurrences(v2[i], c)
    ensures Occurrences(Interpolate(strings, v1), c) == Occurrences(Interpolate(strings, v2), c)
  {
    if v1 != [] {
      InterpolateSameCount(strings[1..], v1[1..], v2[1..], c);
      var rest1, rest2 := Interpolate(strings[1..], v1[1..]), Interpolate(strings[1..], v2[1..]);
      OccurrencesAppend(strings[0] + v1[0], rest1, c);
      OccurrencesAppend(strings[0], v1[0], c);
      OccurrencesAppend(strings[0] + v2[0], rest2, c);
      OccurrencesAppend(strings[0], v2[0], c);
    }
  }
}
