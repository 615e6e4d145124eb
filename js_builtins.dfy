/**
 * Models of the JavaScript built-ins the storefront relies on: `Array.prototype.findIndex`,
 * `some`, `filter` (by id and by predicate), `splice(i, 1)`, `slice`, `String.prototype.split(sep).pop()`,
 * `parseInt` with no radix (white space, a sign, a `0x` prefix, the digit run, NaN), and `Math.ceil(n / d)`.
 */
module JsBuiltins {
  import opened Wrappers

  // ---------------------------------------------------------------- records keyed by id

  /** `s.findIndex(x => idOf(x) === id)`: the first index whose id matches, or -1. */
  function FindIndexById<T>(s: seq<T>, idOf: T -> string, id: string): (r: int)
    ensures -1 <= r < |s|
    ensures r >= 0 ==> idOf(s[r]) == id && forall j :: 0 <= j < r ==> idOf(s[j]) != id
    ensures r == -1 <==> forall j :: 0 <= j < |s| ==> idOf(s[j]) != id
  {
    if |s| == 0 then -1
    else if idOf(s[0]) == id then 0
    else
      var k := FindIndexById(s[1..], idOf, id);
      if k == -1 then -1 else k + 1
  }

  /** `s.some(x => idOf(x) === id)`. */
  predicate HasId<T>(s: seq<T>, idOf: T -> string, id: string)
  {
    exists i :: 0 <= i < |s| && idOf(s[i]) == id
  }

  /** `s.filter(x => idOf(x) !== id)`: every element whose id differs, in order. */
  function WithoutId<T(!new)>(s: seq<T>, idOf: T -> string, id: string): (r: seq<T>)
    ensures |r| <= |s|
    ensures forall k :: 0 <= k < |r| ==> idOf(r[k]) != id
  {
    if |s| == 0 then []
    else
      var rest := WithoutId(s[..|s| - 1], idOf, id);
      if idOf(s[|s| - 1]) == id then rest else rest + [s[|s| - 1]]
  }

  /** Number of elements whose id is `id`. */
  function CountId<T>(s: seq<T>, idOf: T -> string, id: string): nat
  {
    if |s| == 0 then 0
    else CountId(s[..|s| - 1], idOf, id) + (if idOf(s[|s| - 1]) == id then 1 else 0)
  }

  /** At most one element per id. */
  ghost predicate UniqueIds<T>(s: seq<T>, idOf: T -> string)
  {
    forall i, j :: 0 <= i < j < |s| ==> idOf(s[i]) != idOf(s[j])
  }

  /** The sequence of ids, in order. */
  function Ids<T>(s: seq<T>, idOf: T -> string): (r: seq<string>)
    ensures |r| == |s| && forall k :: 0 <= k < |s| ==> r[k] == idOf(s[k])
  {
    if |s| == 0 then [] else Ids(s[..|s| - 1], idOf) + [idOf(s[|s| - 1])]
  }

  /** `s.splice(i, 1)`: the sequence with the element at `i` taken out. */
  function SpliceOut<T>(s: seq<T>, i: nat): (r: seq<T>)
    requires i < |s|
    ensures |r| == |s| - 1
    ensures forall k :: 0 <= k < i ==> r[k] == s[k]
    ensures forall k :: i <= k < |r| ==> r[k] == s[k + 1]
  {
    s[..i] + s[i + 1..]
  }

  /** A sequence is the part before `i`, the element at `i` and the part after; splicing drops the middle. */
  lemma SplitAround<T>(s: seq<T>, i: nat)
    requires i < |s|
    ensures s == (s[..i] + [s[i]]) + s[i + 1..]
    ensures SpliceOut(s, i) == s[..i] + s[i + 1..]
    ensures SpliceOut(s, i)[..i] == s[..i] && SpliceOut(s, i)[i..] == s[i + 1..]
  {
  }

  // ---------------------------------------------------------------- facts about the id operations

  /** The filter keeps exactly the elements whose id differs. */
  lemma {:induction false} WithoutIdMembers<T(!new)>(s: seq<T>, idOf: T -> string, id: string)
    ensures forall x :: x in WithoutId(s, idOf, id) <==> x in s && idOf(x) != id
  {
    if |s| > 0 {
      var init := s[..|s| - 1];
      WithoutIdMembers(init, idOf, id);
      assert s == init + [s[|s| - 1]];
    }
  }

  /** Filtering out an id that no element has changes nothing. */
  lemma {:induction false} WithoutAbsentId<T(!new)>(s: seq<T>, idOf: T -> string, id: string)
    requires !HasId(s, idOf, id)
    ensures WithoutId(s, idOf, id) == s
  {
    if |s| > 0 {
      var init := s[..|s| - 1];
      assert !HasId(init, idOf, id) by {
        forall i | 0 <= i < |init| ensures idOf(init[i]) != id { assert init[i] == s[i]; }
      }
      WithoutAbsentId(init, idOf, id);
      assert idOf(s[|s| - 1]) != id;
      assert WithoutId(s, idOf, id) == WithoutId(init, idOf, id) + [s[|s| - 1]];
      assert init + [s[|s| - 1]] == s;
    }
  }

  /** `filter` distributes over concatenation. */
  lemma {:induction false} WithoutIdConcat<T(!new)>(s: seq<T>, t: seq<T>, idOf: T -> string, id: string)
    ensures WithoutId(s + t, idOf, id) == WithoutId(s, idOf, id) + WithoutId(t, idOf, id)
    decreases |t|
  {
    if |t| == 0 {
      assert s + t == s;
    } else {
      var st := s + t;
      var tInit, last := t[..|t| - 1], t[|t| - 1];
      assert st[..|st| - 1] == s + tInit;
      assert st[|st| - 1] == last;
      WithoutIdConcat(s, tInit, idOf, id);
      var left, a, b := WithoutId(s + tInit, idOf, id), WithoutId(s, idOf, id), WithoutId(tInit, idOf, id);
      assert left == a + b;
      if idOf(last) == id {
        assert WithoutId(st, idOf, id) == left;
        assert WithoutId(t, idOf, id) == b;
      } else {
        assert WithoutId(st, idOf, id) == left + [last];
        assert WithoutId(t, idOf, id) == b + [last];
        assert (a + b) + [last] == a + (b + [last]);
      }
    }
  }

  /** Filtering out an id twice is the same as once. */
  lemma WithoutIdIdempotent<T(!new)>(s: seq<T>, idOf: T -> string, id: string)
    ensures WithoutId(WithoutId(s, idOf, id), idOf, id) == WithoutId(s, idOf, id)
  {
    var r := WithoutId(s, idOf, id);
    WithoutAbsentId(r, idOf, id);
  }

  /** Exactly the elements carrying `id` are dropped. */
  lemma {:induction false} WithoutIdLength<T(!new)>(s: seq<T>, idOf: T -> string, id: string)
    ensures |WithoutId(s, idOf, id)| == |s| - CountId(s, idOf, id)
  {
    if |s| > 0 {
      WithoutIdLength(s[..|s| - 1], idOf, id);
    }
  }

  /** Filtering keeps "one element per id". */
  lemma {:induction false} WithoutIdKeepsUnique<T(!new)>(s: seq<T>, idOf: T -> string, id: string)
    requires UniqueIds(s, idOf)
    ensures UniqueIds(WithoutId(s, idOf, id), idOf)
  {
    if |s| > 0 {
      var init := s[..|s| - 1];
      var last := s[|s| - 1];
      assert UniqueIds(init, idOf) by {
        forall i, j | 0 <= i < j < |init| ensures idOf(init[i]) != idOf(init[j]) {
          assert init[i] == s[i] && init[j] == s[j];
        }
      }
      WithoutIdKeepsUnique(init, idOf, id);
      if idOf(last) != id {
        var rest := WithoutId(init, idOf, id);
        WithoutIdMembers(init, idOf, id);
        forall x | x in rest ensures idOf(x) != idOf(last) {
          assert x in init;
          var i :| 0 <= i < |init| && init[i] == x;
          assert s[i] == x;
        }
        AppendFreshIdKeepsUnique(rest, idOf, last);
      }
    }
  }

  /** Appending an element whose id is new keeps "one element per id". */
  lemma AppendFreshIdKeepsUnique<T>(s: seq<T>, idOf: T -> string, x: T)
    requires UniqueIds(s, idOf)
    requires forall k :: 0 <= k < |s| ==> idOf(s[k]) != idOf(x)
    ensures UniqueIds(s + [x], idOf)
  {
    var t := s + [x];
    forall i, j | 0 <= i < j < |t| ensures idOf(t[i]) != idOf(t[j]) {
      if j < |s| { assert t[i] == s[i] && t[j] == s[j]; }
      else { assert t[i] == s[i] && t[j] == x; }
    }
  }

  /** Replacing an element by one with the same id keeps "one element per id". */
  lemma ReplaceSameIdKeepsUnique<T>(s: seq<T>, idOf: T -> string, i: nat, x: T)
    requires i < |s| && idOf(x) == idOf(s[i])
    requires UniqueIds(s, idOf)
    ensures UniqueIds(s[i := x], idOf)
  {
  }

  /** On a list with one element per id, splicing out the first match is the same as filtering the id out. */
  lemma {:induction false} SpliceFirstIsWithout<T(!new)>(s: seq<T>, idOf: T -> string, id: string)
    requires UniqueIds(s, idOf)
    requires FindIndexById(s, idOf, id) >= 0
    ensures SpliceOut(s, FindIndexById(s, idOf, id) as nat) == WithoutId(s, idOf, id)
  {
    var i := FindIndexById(s, idOf, id) as nat;
    var before, after := s[..i], s[i + 1..];
    SplitAround(s, i);
    assert !HasId(before, idOf, id) by {
      forall k | 0 <= k < |before| ensures idOf(before[k]) != id { assert before[k] == s[k]; }
    }
    assert !HasId(after, idOf, id) by {
      forall k | 0 <= k < |after| ensures idOf(after[k]) != id { assert after[k] == s[i + 1 + k]; }
    }
    WithoutIdConcat(before + [s[i]], after, idOf, id);
    WithoutIdConcat(before, [s[i]], idOf, id);
    WithoutAbsentId(before, idOf, id);
    WithoutAbsentId(after, idOf, id);
    assert WithoutId([s[i]], idOf, id) == [] by {
      assert [s[i]][..0] == [];
    }
  }

  /** The first index of another id is not disturbed by replacing an element with one of the same id. */
  lemma FindIndexAfterReplace<T>(s: seq<T>, idOf: T -> string, i: nat, x: T, other: string)
    requires i < |s| && idOf(x) == idOf(s[i])
    ensures FindIndexById(s[i := x], idOf, other) == FindIndexById(s, idOf, other)
  {
    var t := s[i := x];
    var a, b := FindIndexById(s, idOf, other), FindIndexById(t, idOf, other);
    assert forall k :: 0 <= k < |s| ==> idOf(t[k]) == idOf(s[k]);
  }

  /** Appending an element leaves the first index of every id it does not carry, and of every id already present. */
  lemma FindIndexAfterAppend<T>(s: seq<T>, idOf: T -> string, x: T, other: string)
    requires idOf(x) != other || FindIndexById(s, idOf, other) >= 0
    ensures FindIndexById(s + [x], idOf, other) == FindIndexById(s, idOf, other)
  {
    var t := s + [x];
    var a, b := FindIndexById(s, idOf, other), FindIndexById(t, idOf, other);
    assert forall k :: 0 <= k < |s| ==> t[k] == s[k];
  }

  /** Splicing out an element that does not carry `other` keeps the element found first for `other`. */
  lemma FindIndexAfterSplice<T>(s: seq<T>, idOf: T -> string, i: nat, other: string)
    requires i < |s| && idOf(s[i]) != other
    ensures var k, r := FindIndexById(s, idOf, other), FindIndexById(SpliceOut(s, i), idOf, other);
      (k == -1 <==> r == -1) && (k >= 0 ==> SpliceOut(s, i)[r] == s[k])
  {
    var t := SpliceOut(s, i);
    var k, r := FindIndexById(s, idOf, other), FindIndexById(t, idOf, other);
    if k == -1 {
      assert forall j :: 0 <= j < |t| ==> idOf(t[j]) != other by {
        forall j | 0 <= j < |t| ensures idOf(t[j]) != other {
          if j < i { assert t[j] == s[j]; } else { assert t[j] == s[j + 1]; }
        }
      }
    } else if k < i {
      assert t[k] == s[k];
      assert forall j :: 0 <= j < k ==> t[j] == s[j];
      assert r == k;
    } else {
      assert t[k - 1] == s[k];
      assert forall j :: 0 <= j < k - 1 ==> idOf(t[j]) != other by {
        forall j | 0 <= j < k - 1 ensures idOf(t[j]) != other {
          if j < i { assert t[j] == s[j]; } else { assert t[j] == s[j + 1]; }
        }
      }
      assert r == k - 1;
    }
  }

  // ---------------------------------------------------------------- subsequences and filter

  /** `r` is `s` with some elements deleted, the rest kept in order. */
  predicate IsSubsequence<T(==)>(r: seq<T>, s: seq<T>)
    decreases |s|
  {
    if |r| == 0 then true
    else if |s| == 0 then false
    else if r[|r| - 1] == s[|s| - 1] then IsSubsequence(r[..|r| - 1], s[..|s| - 1])
    else IsSubsequence(r, s[..|s| - 1])
  }

  /** `s.filter(keep)`. */
  function Filter<T(!new)>(s: seq<T>, keep: T -> bool): (r: seq<T>)
    ensures |r| <= |s|
    ensures forall x :: x in r <==> x in s && keep(x)
  {
    if |s| == 0 then []
    else
      var rest := Filter(s[..|s| - 1], keep);
      if keep(s[|s| - 1]) then rest + [s[|s| - 1]] else rest
  }

  lemma {:induction false} FilterIsSubsequence<T(!new)>(s: seq<T>, keep: T -> bool)
    ensures IsSubsequence(Filter(s, keep), s)
  {
    if |s| > 0 {
      var init := s[..|s| - 1];
      FilterIsSubsequence(init, keep);
      if !keep(s[|s| - 1]) {
        SubsequenceOfLonger(Filter(init, keep), init, s[|s| - 1]);
      } else {
        var r := Filter(s, keep);
        assert r[..|r| - 1] == Filter(init, keep);
      }
    }
  }

  lemma {:induction false} WithoutIdIsSubsequence<T(!new)>(s: seq<T>, idOf: T -> string, id: string)
    ensures IsSubsequence(WithoutId(s, idOf, id), s)
  {
    if |s| > 0 {
      var init := s[..|s| - 1];
      WithoutIdIsSubsequence(init, idOf, id);
      if idOf(s[|s| - 1]) == id {
        SubsequenceOfLonger(WithoutId(init, idOf, id), init, s[|s| - 1]);
      } else {
        var r := WithoutId(s, idOf, id);
        assert r[..|r| - 1] == WithoutId(init, idOf, id);
      }
    }
  }

  /** A subsequence of `s` is also a subsequence of `s + [x]`. */
  lemma {:induction false} SubsequenceOfLonger<T>(r: seq<T>, s: seq<T>, x: T)
    requires IsSubsequence(r, s)
    ensures IsSubsequence(r, s + [x])
    decreases |s|, 1
  {
    var t := s + [x];
    assert t[..|t| - 1] == s;
    if |r| > 0 && r[|r| - 1] == x {
      SubsequenceOfPrefix(r, s);
    }
  }

  /** Dropping the last element of a subsequence keeps it a subsequence. */
  lemma {:induction false} SubsequenceOfPrefix<T>(r: seq<T>, s: seq<T>)
    requires |r| > 0 && IsSubsequence(r, s)
    ensures IsSubsequence(r[..|r| - 1], s)
    decreases |s|, 0
  {
    var init := s[..|s| - 1];
    if r[|r| - 1] == s[|s| - 1] {
      if |r| > 1 {
        SubsequenceOfPrefix(r[..|r| - 1], init);
        assert r[..|r| - 1][..|r| - 2] == r[..|r| - 2];
        SubsequenceOfLonger(r[..|r| - 1], init, s[|s| - 1]);
        assert init + [s[|s| - 1]] == s;
      }
    } else {
      SubsequenceOfPrefix(r, init);
      SubsequenceOfLonger(r[..|r| - 1], init, s[|s| - 1]);
      assert init + [s[|s| - 1]] == s;
    }
  }

  /** Every sequence is a subsequence of itself. */
  lemma {:induction false} SubsequenceReflexive<T>(s: seq<T>)
    ensures IsSubsequence(s, s)
  {
    if |s| > 0 {
      SubsequenceReflexive(s[..|s| - 1]);
    }
  }

  /** A subsequence of a subsequence of `c` is a subsequence of `c`. */
  lemma {:induction false} SubsequenceTransitive<T>(a: seq<T>, b: seq<T>, c: seq<T>)
    requires IsSubsequence(a, b) && IsSubsequence(b, c)
    ensures IsSubsequence(a, c)
    decreases |c|
  {
    if |a| > 0 {
      var c0, cl := c[..|c| - 1], c[|c| - 1];
      assert c0 + [cl] == c;
      var b0, bl := b[..|b| - 1], b[|b| - 1];
      if bl == cl {
        if a[|a| - 1] == bl {
          SubsequenceTransitive(a[..|a| - 1], b0, c0);
        } else {
          SubsequenceTransitive(a, b0, c0);
          SubsequenceOfLonger(a, c0, cl);
        }
      } else {
        SubsequenceTransitive(a, b, c0);
        SubsequenceOfLonger(a, c0, cl);
      }
    }
  }

  /** Every prefix of a subsequence of `s` is a subsequence of `s`. */
  lemma {:induction false} SubsequenceTake<T>(r: seq<T>, s: seq<T>, n: nat)
    requires n <= |r| && IsSubsequence(r, s)
    ensures IsSubsequence(r[..n], s)
    decreases |r| - n
  {
    if n < |r| {
      SubsequenceTake(r, s, n + 1);
      SubsequenceOfPrefix(r[..n + 1], s);
      assert r[..n + 1][..n] == r[..n];
    } else {
      assert r[..n] == r;
    }
  }

  // ---------------------------------------------------------------- slice, split, parseInt, ceil

  /** The index JavaScript's `slice` uses for an argument: negative counts from the end, clamped to `0..len`. */
  function RelativeIndex(i: int, len: nat): (r: nat)
    ensures r <= len
    ensures 0 <= i ==> r == if i <= len then i else len
  {
    if i < 0 then (if len + i < 0 then 0 else len + i)
    else if i > len then len
    else i
  }

  /** `s.slice(start, end)`. */
  function Slice<T>(s: seq<T>, start: int, end: int): (r: seq<T>)
    ensures |r| <= |s|
    ensures 0 <= start ==> forall k :: 0 <= k < |r| ==> start + k < |s| && r[k] == s[start + k]
    ensures 0 <= start <= end ==>
      |r| == (if end <= |s| then end else |s|) - (if start <= |s| then start else |s|)
  {
    var from, to := RelativeIndex(start, |s|), RelativeIndex(end, |s|);
    if from < to then s[from..to] else []
  }

  /** `s.split(sep).pop()`: the text after the last `sep`, or all of `s` when it has none. */
  function LastSegment(s: string, sep: char): (r: string)
    ensures |r| <= |s| && r == s[|s| - |r|..]
    ensures sep !in r
    ensures |r| < |s| ==> s[|s| - |r| - 1] == sep
  {
    if |s| == 0 then ""
    else if s[|s| - 1] == sep then ""
    else LastSegment(s[..|s| - 1], sep) + [s[|s| - 1]]
  }

  /** The text after the only separator that has no separator after it. */
  lemma LastSegmentAfter(s: string, sep: char, i: nat)
    requires i < |s| && s[i] == sep && sep !in s[i + 1..]
    ensures LastSegment(s, sep) == s[i + 1..]
  {
  }

  predicate IsDigit(c: char)
  {
    '0' <= c <= '9'
  }

  /** The white space and line terminators `parseInt` skips before the number (ECMAScript's StrWhiteSpaceChar). */
  predicate IsJsSpace(c: char)
  {
    c == '\t' || c == '\n' || c == '\U{000B}' || c == '\U{000C}' || c == '\r' || c == ' ' || c == '\U{00A0}' ||
    c == '\U{1680}' || ('\U{2000}' <= c <= '\U{200A}') || c == '\U{2028}' || c == '\U{2029}' ||
    c == '\U{202F}' || c == '\U{205F}' || c == '\U{3000}' || c == '\U{FEFF}'
  }

  /** `s` without its leading white space. */
  function TrimStart(s: string): (r: string)
    ensures |r| <= |s| && r == s[|s| - |r|..]
    ensures |r| > 0 ==> !IsJsSpace(r[0])
  {
    if |s| > 0 && IsJsSpace(s[0]) then TrimStart(s[1..]) else s
  }

  /** A text that does not start with white space is its own trimmed form. */
  lemma TrimStartNoSpace(s: string)
    requires |s| == 0 || !IsJsSpace(s[0])
    ensures TrimStart(s) == s
  {
  }

  /** The value of `c` as a digit of a base up to 36: `0`-`9`, then `a`-`z` in either case; 36 for any other character. */
  function DigitValue(c: char): nat
  {
    if '0' <= c <= '9' then c as int - '0' as int
    else if 'a' <= c <= 'z' then c as int - 'a' as int + 10
    else if 'A' <= c <= 'Z' then c as int - 'A' as int + 10
    else 36
  }

  predicate IsRadixDigit(c: char, radix: nat)
  {
    DigitValue(c) < radix
  }

  /** The value of a run of digits in base `radix` (applied only to runs of base-`radix` digits). */
  function DigitsValue(ds: string, radix: nat): nat
  {
    if |ds| == 0 then 0 else DigitsValue(ds[..|ds| - 1], radix) * radix + DigitValue(ds[|ds| - 1])
  }

  /** Length of the run of base-`radix` digits that starts `s`. */
  function DigitRunLength(s: string, radix: nat): (n: nat)
    ensures n <= |s|
    ensures forall k :: 0 <= k < n ==> IsRadixDigit(s[k], radix)
    ensures n < |s| ==> !IsRadixDigit(s[n], radix)
  {
    if |s| == 0 || !IsRadixDigit(s[0], radix) then 0 else 1 + DigitRunLength(s[1..], radix)
  }

  /** `t` starts with `0x` or `0X`. */
  predicate HasHexPrefix(t: string)
  {
    |t| >= 2 && t[0] == '0' && (t[1] == 'x' || t[1] == 'X')
  }

  /** The value of the run of base-`radix` digits that starts `w`; None (NaN) when the run is empty. */
  function ParseDigits(w: string, radix: nat): (r: Option<nat>)
    ensures r.Some? <==> |w| > 0 && IsRadixDigit(w[0], radix)
  {
    var n := DigitRunLength(w, radix);
    if n == 0 then None else Some(DigitsValue(w[..n], radix))
  }

  /** `parseInt(s)` with no radix argument: leading white space is skipped, one `+` or `-` is read, a `0x` or `0X`
      prefix selects base 16 (base 10 otherwise), and the longest run of digits after that is the value;
      NaN (None) when that run is empty. */
  function ParseInt(s: string): Option<int>
  {
    ParseSigned(TrimStart(s))
  }

  /** `parseInt` after the white space: the sign, then the unsigned number. */
  function ParseSigned(t: string): Option<int>
  {
    Signed(|t| > 0 && t[0] == '-', ParseUnsigned(if |t| > 0 && (t[0] == '+' || t[0] == '-') then t[1..] else t))
  }

  /** The unsigned number, negated after a `-`; NaN stays NaN. */
  function Signed(negative: bool, v: Option<nat>): Option<int>
  {
    if v.None? then None else if negative then Some(-(v.value as int)) else Some(v.value as int)
  }

  /** `parseInt` after the sign: the base the prefix selects, then the digits. */
  function ParseUnsigned(u: string): Option<nat>
  {
    if HasHexPrefix(u) then ParseDigits(u[2..], 16) else ParseDigits(u, 10)
  }

  lemma DecimalDigitValue(c: char)
    ensures IsRadixDigit(c, 10) <==> IsDigit(c)
  {
  }

  /** A text with no decimal digit at all is NaN: even a hex number needs the `0` of its prefix. */
  lemma {:induction false} ParseIntNeedsDigit(s: string)
    requires forall k :: 0 <= k < |s| ==> !IsDigit(s[k])
    ensures ParseInt(s).None?
  {
    var t := TrimStart(s);
    var u := if |t| > 0 && (t[0] == '+' || t[0] == '-') then t[1..] else t;
    assert u == s[|s| - |u|..];
    if |u| > 0 {
      assert u[0] == s[|s| - |u|];
      DecimalDigitValue(u[0]);
    }
    assert ParseUnsigned(u).None?;
  }

  /** Without a sign the value is the unsigned number. */
  lemma ParseSignedNoSign(s: string)
    requires |s| == 0 || (s[0] != '+' && s[0] != '-')
    ensures ParseSigned(s) == Signed(false, ParseUnsigned(s))
  {
  }

  /** A sign in front of the unsigned number: `+` keeps it and `-` negates it. */
  lemma ParseSignedSign(sign: char, s: string)
    requires sign == '+' || sign == '-'
    ensures ParseSigned([sign] + s) == Signed(sign == '-', ParseUnsigned(s))
  {
    assert ([sign] + s)[1..] == s;
  }

  /** Leading white space does not change the value. */
  lemma {:induction false} ParseIntSkipsSpace(c: char, s: string)
    requires IsJsSpace(c)
    ensures ParseInt([c] + s) == ParseInt(s)
  {
    assert ([c] + s)[1..] == s;
    assert TrimStart([c] + s) == TrimStart(s);
  }

  /** In front of a text that starts with neither white space nor a sign, `+` keeps the value. */
  lemma {:induction false} ParseIntPlus(s: string)
    requires |s| == 0 || (!IsJsSpace(s[0]) && s[0] != '+' && s[0] != '-')
    ensures ParseInt(['+'] + s) == ParseInt(s)
  {
    ParseIntUnsigned(s);
    ParseIntSigned('+', s);
  }

  /** In front of a text that starts with neither white space nor a sign, `-` negates the value. */
  lemma {:induction false} ParseIntMinus(s: string)
    requires |s| == 0 || (!IsJsSpace(s[0]) && s[0] != '+' && s[0] != '-')
    ensures ParseInt(['-'] + s) == Negate(ParseInt(s))
  {
    ParseIntUnsigned(s);
    ParseIntSigned('-', s);
    SignedNegate(ParseUnsigned(s));
  }

  lemma SignedNegate(v: Option<nat>)
    ensures Signed(true, v) == Negate(Signed(false, v))
  {
  }

  /** The negation of a number, and NaN for NaN. */
  function Negate(v: Option<int>): Option<int>
  {
    if v.None? then None else Some(-v.value)
  }

  lemma ParseIntUnsigned(s: string)
    requires |s| == 0 || (!IsJsSpace(s[0]) && s[0] != '+' && s[0] != '-')
    ensures ParseInt(s) == Signed(false, ParseUnsigned(s))
  {
    TrimStartNoSpace(s);
    ParseSignedNoSign(s);
  }

  lemma ParseIntSigned(sign: char, s: string)
    requires sign == '+' || sign == '-'
    ensures ParseInt([sign] + s) == Signed(sign == '-', ParseUnsigned(s))
  {
    TrimStartNoSpace([sign] + s);
    ParseSignedSign(sign, s);
  }

  /** A text that starts with a decimal digit and no `0x` prefix has the value of its leading decimal digit run. */
  lemma {:induction false} ParseIntDecimal(s: string)
    requires |s| > 0 && IsDigit(s[0]) && !HasHexPrefix(s)
    ensures ParseInt(s) == Some(DigitsValue(s[..DigitRunLength(s, 10)], 10) as int)
  {
    TrimStartNoSpace(s);
    ParseSignedNoSign(s);
    DecimalDigitValue(s[0]);
    assert ParseUnsigned(s) == ParseDigits(s, 10);
  }

  /** After `0x` or `0X` the digits are read in base 16, and a prefix with no hex digit after it is NaN. */
  lemma {:induction false} ParseIntHex(x: char, s: string)
    requires x == 'x' || x == 'X'
    ensures var n := DigitRunLength(s, 16);
      ParseInt(['0', x] + s) == if n == 0 then None else Some(DigitsValue(s[..n], 16) as int)
  {
    var t := ['0', x] + s;
    TrimStartNoSpace(t);
    ParseSignedNoSign(t);
    assert t[2..] == s;
    assert ParseUnsigned(t) == ParseDigits(s, 16);
  }

  /** A `0x` prefix reads hex ("0x1A" is 26), and a bare prefix is NaN. */
  lemma ParseIntHexExamples()
    ensures ParseInt("0x1A") == Some(26) && ParseInt("0x") == None
  {
    assert "0x1A" == ['0', 'x'] + "1A" && "0x" == ['0', 'x'] + "";
    assert DigitRunLength("1A", 16) == 2 by {
      assert "1A"[1..] == "A";
      assert DigitRunLength("A", 16) == 1;
    }
    assert "1A"[..2] == "1A" && "1A"[..1] == "1";
    assert DigitsValue("1A", 16) == 26;
    ParseIntHex('x', "1A");
    ParseIntHex('x', "");
  }

  /** Decimal reading stops at the first non-digit: "12ab" is 12. */
  lemma ParseIntStopsAtLetter()
    ensures ParseInt("12ab") == Some(12)
  {
    assert DigitRunLength("12ab", 10) == 2 by {
      assert "12ab"[1..] == "2ab";
      assert "2ab"[1..] == "ab";
    }
    assert "12ab"[..2] == "12" && "12"[..1] == "1";
    assert DigitsValue("12", 10) == 12;
    ParseIntDecimal("12ab");
  }

  /** `Math.ceil(n / d)` for a non-negative `n` and positive `d`. */
  function CeilDiv(n: nat, d: nat): (r: nat)
    requires d > 0
    ensures r * d >= n
    ensures r > 0 ==> (r - 1) * d < n
  {
    (n + d - 1) / d
  }
}
