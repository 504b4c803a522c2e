/** String primitives with the semantics of the JavaScript built-ins the helpers use:
    `indexOf`, `split` on a literal separator, `join`, `replaceAll` on a literal
    pattern, `startsWith`/`endsWith`, `Number.prototype.toString` on naturals and
    `padStart`. Each operation is tied to an independent characterisation. */
module Strings {
  import opened Wrappers

  /** `p` occurs in `s` starting at position `i`. */
  predicate OccursAt(s: string, p: string, i: int) {
    0 <= i && i + |p| <= |s| && s[i..i + |p|] == p
  }

  predicate Contains(s: string, p: string) {
    exists i :: 0 <= i <= |s| && OccursAt(s, p, i)
  }

  predicate StartsWith(s: string, p: string) {
    |p| <= |s| && s[..|p|] == p
  }

  predicate EndsWith(s: string, p: string) {
    |p| <= |s| && s[|s| - |p|..] == p
  }

  /** First occurrence of `p` in `s` at or after `from`, or -1 (`String.prototype.indexOf`). */
  function IndexOfFrom(s: string, p: string, from: nat): (r: int)
    requires |p| > 0
    ensures r == -1 || (from <= r && OccursAt(s, p, r))
    ensures r == -1 ==> forall k :: from <= k ==> !OccursAt(s, p, k)
    ensures r != -1 ==> forall k :: from <= k < r ==> !OccursAt(s, p, k)
    decreases |s| - from
  {
    if from + |p| > |s| then -1
    else if s[from..from + |p|] == p then from
    else IndexOfFrom(s, p, from + 1)
  }

  function IndexOf(s: string, p: string): (r: int)
    requires |p| > 0
    ensures r == -1 || OccursAt(s, p, r)
    ensures r == -1 ==> forall k :: 0 <= k ==> !OccursAt(s, p, k)
    ensures r != -1 ==> forall k :: 0 <= k < r ==> !OccursAt(s, p, k)
  {
    IndexOfFrom(s, p, 0)
  }

  /** `s.split(sep)` for a non-empty literal separator: the pieces between the
      non-overlapping occurrences found from left to right. */
  function Split(s: string, sep: string): (r: seq<string>)
    requires |sep| > 0
    ensures |r| >= 1
    decreases |s|
  {
    var i := IndexOf(s, sep);
    if i < 0 then [s] else [s[..i]] + Split(s[i + |sep|..], sep)
  }

  /** `parts.join(sep)`. */
  function Join(parts: seq<string>, sep: string): string
  {
    if |parts| == 0 then ""
    else if |parts| == 1 then parts[0]
    else parts[0] + sep + Join(parts[1..], sep)
  }

  lemma JoinCons(x: string, t: seq<string>, sep: string)
    requires |t| >= 1
    ensures Join([x] + t, sep) == x + sep + Join(t, sep)
  {
    assert ([x] + t)[1..] == t;
  }

  /** Splitting and joining again with the same separator gives back the input. */
  lemma {:induction false} JoinSplit(s: string, sep: string)
    requires |sep| > 0
    ensures Join(Split(s, sep), sep) == s
    decreases |s|
  {
    var i := IndexOf(s, sep);
    if i >= 0 {
      var rest := s[i + |sep|..];
      var head := s[..i];
      var tail := Split(rest, sep);
      SplitStep(s, sep, i);
      JoinSplit(rest, sep);
      JoinCons(head, tail, sep);
      SplitAtOccurrence(s, sep, i);
      Associates(head, sep, rest);
    }
  }

  /** No piece of a split contains the separator. */
  lemma {:induction false} SplitPiecesAvoidSeparator(s: string, sep: string)
    requires |sep| > 0
    ensures forall k :: 0 <= k < |Split(s, sep)| ==> !Contains(Split(s, sep)[k], sep)
    decreases |s|
  {
    var i := IndexOf(s, sep);
    if i >= 0 {
      SplitPiecesAvoidSeparator(s[i + |sep|..], sep);
      var head := s[..i];
      forall j | OccursAt(head, sep, j)
        ensures false
      {
        assert s[j..j + |sep|] == head[j..j + |sep|];
        assert OccursAt(s, sep, j);
      }
    }
  }

  /** `s.replaceAll(p, r)` for a non-empty literal pattern and a replacement
      without `$` patterns: scan from the left, replace each occurrence, resume after it. */
  function ReplaceAll(s: string, p: string, r: string): string
    requires |p| > 0
    decreases |s|
  {
    if |s| < |p| then s
    else if s[..|p|] == p then r + ReplaceAll(s[|p|..], p, r)
    else [s[0]] + ReplaceAll(s[1..], p, r)
  }

  lemma OccursAtShift(s: string, t: string, p: string, k: int)
    requires |s| >= 1 && t == s[1..]
    requires OccursAt(t, p, k)
    ensures OccursAt(s, p, k + 1)
  {
    assert s[k + 1..k + 1 + |p|] == t[k..k + |p|];
  }

  lemma OccursAtPrefix(s: string, u: string, p: string, k: int)
    requires OccursAt(s, p, k) && k + |p| <= |u| <= |s| && u == s[..|u|]
    ensures OccursAt(u, p, k)
  {
    assert u[k..k + |p|] == s[k..k + |p|];
  }

  /** Where the pattern does not start the text, `replaceAll` keeps the first
      character and carries on after it. */
  lemma ReplaceAllStep(s: string, p: string, r: string)
    requires |p| > 0 && |s| >= |p| && !OccursAt(s, p, 0)
    ensures ReplaceAll(s, p, r) == [s[0]] + ReplaceAll(s[1..], p, r)
  {
  }

  lemma ReplaceAllSkipsClearPrefix(a: string, b: string, p: string, r: string)
    requires |p| > 0
    requires forall k :: 0 <= k < |a| ==> !OccursAt(a + b, p, k)
    ensures ReplaceAll(a + b, p, r) == a + ReplaceAll(b, p, r)
  {
    ReplaceAllSkips(a + b, p, r, |a|);
    assert (a + b)[..|a|] == a && (a + b)[|a|..] == b;
  }

  /** Positions before the first occurrence are copied unchanged. */
  lemma {:induction false} ReplaceAllSkips(s: string, p: string, r: string, n: nat)
    requires |p| > 0 && n <= |s|
    requires forall k :: 0 <= k < n ==> !OccursAt(s, p, k)
    ensures ReplaceAll(s, p, r) == s[..n] + ReplaceAll(s[n..], p, r)
    decreases n
  {
    if n == 0 {
      assert s[..0] == "" && s[0..] == s;
    } else if |s| < |p| {
      ReplaceAllShort(s, p, r);
      ReplaceAllShort(s[n..], p, r);
      assert s[..n] + s[n..] == s;
    } else {
      var t := s[1..];
      ClearPositionsShift(s, p, n);
      ReplaceAllSkips(t, p, r, n - 1);
      assert !OccursAt(s, p, 0);
      ReplaceAllStep(s, p, r);
      assert t[..n - 1] == s[1..n] && t[n - 1..] == s[n..];
      var rest := ReplaceAll(s[n..], p, r);
      ConsAssociates(s[0], s[1..n], rest);
      assert [s[0]] + s[1..n] == s[..n];
    }
  }

  /** Positions free of occurrences stay free once the first character is dropped. */
  lemma ClearPositionsShift(s: string, p: string, n: nat)
    requires 1 <= n <= |s|
    requires forall k :: 0 <= k < n ==> !OccursAt(s, p, k)
    ensures forall k :: 0 <= k < n - 1 ==> !OccursAt(s[1..], p, k)
  {
    forall k | 0 <= k < n - 1
      ensures !OccursAt(s[1..], p, k)
    {
      if OccursAt(s[1..], p, k) {
        OccursAtShift(s, s[1..], p, k);
      }
    }
  }

  lemma ReplaceAllShort(s: string, p: string, r: string)
    requires |p| > 0 && |s| < |p|
    ensures ReplaceAll(s, p, r) == s
  {
  }

  /** Where the first occurrence of `p` is at `i`, `replaceAll` keeps what precedes it,
      emits `r`, and carries on after the occurrence. */
  lemma SplitAtOccurrence(s: string, p: string, i: int)
    requires OccursAt(s, p, i)
    ensures s == s[..i] + (p + s[i + |p|..])
  {
    assert s[i..] == s[i..i + |p|] + s[i + |p|..];
    assert s == s[..i] + s[i..];
  }

  lemma ReplaceAllLeading(p: string, rest: string, r: string)
    requires |p| > 0
    ensures ReplaceAll(p + rest, p, r) == r + ReplaceAll(rest, p, r)
  {
    assert (p + rest)[..|p|] == p;
    assert (p + rest)[|p|..] == rest;
  }

  lemma ReplaceAllAtFirst(s: string, p: string, r: string, i: int)
    requires |p| > 0 && OccursAt(s, p, i)
    requires forall k :: 0 <= k < i ==> !OccursAt(s, p, k)
    ensures ReplaceAll(s, p, r) == s[..i] + r + ReplaceAll(s[i + |p|..], p, r)
  {
    var rest := s[i + |p|..];
    ReplaceAllSkips(s, p, r, i);
    assert s[i..] == p + rest;
    ReplaceAllLeading(p, rest, r);
    Associates(s[..i], r, ReplaceAll(rest, p, r));
  }

  lemma ReplaceAllNoOccurrence(s: string, p: string, r: string)
    requires |p| > 0 && IndexOf(s, p) < 0
    ensures ReplaceAll(s, p, r) == s
  {
    ReplaceAllSkips(s, p, r, |s|);
    ReplaceAllShort(s[|s|..], p, r);
    assert s[..|s|] == s && s[|s|..] == "";
  }

  /** `replaceAll` is split-then-join: every occurrence, found left to right and
      without overlap, is replaced, and everything between occurrences is kept. */
  lemma {:induction false} ReplaceAllIsSplitJoin(s: string, p: string, r: string)
    requires |p| > 0
    ensures ReplaceAll(s, p, r) == Join(Split(s, p), r)
    decreases |s|
  {
    var i := IndexOf(s, p);
    if i < 0 {
      ReplaceAllNoOccurrence(s, p, r);
    } else {
      var rest := s[i + |p|..];
      var tail := Split(rest, p);
      assert Split(s, p) == [s[..i]] + tail;
      ReplaceAllIsSplitJoin(rest, p, r);
      JoinCons(s[..i], tail, r);
      ReplaceAllAtFirst(s, p, r, i);
    }
  }

  /** A pattern that does not occur leaves the string unchanged. */
  lemma ReplaceAllAbsent(s: string, p: string, r: string)
    requires |p| > 0 && !Contains(s, p)
    ensures ReplaceAll(s, p, r) == s
  {
    ReplaceAllIsSplitJoin(s, p, r);
  }

  // ----- decimal rendering of naturals and padding -----

  predicate IsDigit(c: char) {
    '0' <= c <= '9'
  }

  predicate AllDigits(s: string) {
    forall i :: 0 <= i < |s| ==> IsDigit(s[i])
  }

  function DigitChar(d: nat): (c: char)
    requires d < 10
    ensures IsDigit(c) && c as int - '0' as int == d
  {
    ('0' as int + d) as char
  }

  /** `n.toString()` for a non-negative integer: decimal, no leading zeros. */
  function NatToString(n: nat): (r: string)
    ensures |r| >= 1 && AllDigits(r)
    ensures |r| == 1 <==> n < 10
    ensures n >= 10 ==> r[0] != '0'
    decreases n
  {
    if n < 10 then [DigitChar(n)] else NatToString(n / 10) + [DigitChar(n % 10)]
  }

  /** Value of a string of decimal digits: the inverse of `NatToString`. */
  function DigitsValue(s: string): nat
    requires AllDigits(s)
  {
    if |s| == 0 then 0 else DigitsValue(s[..|s| - 1]) * 10 + (s[|s| - 1] as int - '0' as int)
  }

  lemma {:induction false} NatToStringRoundTrip(n: nat)
    ensures DigitsValue(NatToString(n)) == n
    decreases n
  {
    if n >= 10 {
      NatToStringRoundTrip(n / 10);
      var r := NatToString(n);
      assert r[..|r| - 1] == NatToString(n / 10);
    }
  }

  lemma {:induction false} NatToStringLength(n: nat)
    ensures n < 10 ==> |NatToString(n)| == 1
    ensures 10 <= n < 100 ==> |NatToString(n)| == 2
    ensures 100 <= n < 1000 ==> |NatToString(n)| == 3
    ensures 1000 <= n < 10000 ==> |NatToString(n)| == 4
  {
    if n >= 10 {
      NatToStringLength(n / 10);
    }
  }

  /** `s.padStart(width, fill)`: prepend copies of `fill` up to `width` characters. */
  function PadStart(s: string, width: nat, fill: char): (r: string)
    ensures |r| == if |s| >= width then |s| else width
    ensures EndsWith(r, s)
    ensures forall i :: 0 <= i < |r| - |s| ==> r[i] == fill
  {
    if |s| >= width then s else seq(width - |s|, _ => fill) + s
  }

  /** Two-character zero padding of a natural (`n.toString().padStart(2, '0')`). */
  function Pad2(n: nat): (r: string)
    ensures n < 100 ==> |r| == 2
    ensures AllDigits(r)
    ensures DigitsValue(r) == n
  {
    NatToStringLength(n);
    NatToStringRoundTrip(n);
    var r := PadStart(NatToString(n), 2, '0');
    PaddedValue(NatToString(n), r);
    r
  }

  lemma PaddedValue(s: string, r: string)
    requires AllDigits(s) && |s| >= 1
    requires r == PadStart(s, 2, '0')
    ensures AllDigits(r) && DigitsValue(r) == DigitsValue(s)
  {
    if |s| < 2 {
      assert r == ['0'] + s;
      assert r[..1] == ['0'];
    }
  }

  predicate IsAsciiLetter(c: char) {
    ('a' <= c <= 'z') || ('A' <= c <= 'Z')
  }

  /** ASCII lower case of one character. */
  function LowerChar(c: char): (r: char)
    ensures 'A' <= c <= 'Z' ==> r as int == c as int + 32
    ensures !('A' <= c <= 'Z') ==> r == c
  {
    if 'A' <= c <= 'Z' then (c as int + 32) as char else c
  }

  /** ASCII `toLowerCase`. */
  function Lower(s: string): (r: string)
    ensures |r| == |s|
    ensures forall i :: 0 <= i < |s| ==> r[i] == LowerChar(s[i])
  {
    seq(|s|, i requires 0 <= i < |s| => LowerChar(s[i]))
  }

  // ----- scanning -----

  /** The length of the longest prefix of `u` whose characters all pass `accept`. */
  function Run(accept: char -> bool, u: string): (n: nat)
    ensures n <= |u|
    ensures forall i :: 0 <= i < n ==> accept(u[i])
    ensures n < |u| ==> !accept(u[n])
  {
    if |u| == 0 || !accept(u[0]) then 0 else 1 + Run(accept, u[1..])
  }

  /** The leftmost position at or after `from` whose suffix satisfies `found`: how a
      regular expression search tries its start positions. */
  function Leftmost(found: string -> bool, s: string, from: nat): (r: Option<nat>)
    requires from <= |s|
    ensures r.Some? ==> from <= r.value <= |s| && found(s[r.value..])
    ensures r.Some? ==> forall q :: from <= q < r.value ==> !found(s[q..])
    ensures r.None? ==> forall q :: from <= q <= |s| ==> !found(s[q..])
    decreases |s| - from
  {
    if found(s[from..]) then Some(from)
    else if from == |s| then None
    else Leftmost(found, s, from + 1)
  }

  // ----- character classes: `\s`, `trim` and splitting on single characters -----

  /** JavaScript's `\s` class, which `trim` also strips: the white space and line
      terminator characters of ECMAScript. */
  predicate IsSpace(c: char) {
    var n := c as int;
    n == 9 || n == 10 || n == 11 || n == 12 || n == 13 || n == 32 || n == 0xA0 || n == 0x1680
    || (0x2000 <= n <= 0x200A) || n == 0x2028 || n == 0x2029 || n == 0x202F || n == 0x205F
    || n == 0x3000 || n == 0xFEFF
  }

  predicate NoSpace(s: string) {
    forall i :: 0 <= i < |s| ==> !IsSpace(s[i])
  }

  /** Drops the characters `accept` takes from the end. */
  function DropEnd(accept: char -> bool, s: string): (r: string)
    ensures |r| <= |s| && r == s[..|r|]
    ensures |r| > 0 ==> !accept(r[|r| - 1])
    ensures forall i :: |r| <= i < |s| ==> accept(s[i])
  {
    if |s| > 0 && accept(s[|s| - 1]) then DropEnd(accept, s[..|s| - 1]) else s
  }

  /** Drops the white space at the end. */
  function TrimEnd(s: string): (r: string)
    ensures |r| <= |s| && r == s[..|r|]
    ensures |r| > 0 ==> !IsSpace(r[|r| - 1])
    ensures forall i :: |r| <= i < |s| ==> IsSpace(s[i])
  {
    DropEnd(IsSpace, s)
  }

  /** `s.trim()`: the text between the leading and the trailing white space. */
  function Trim(s: string): (r: string)
    ensures |r| > 0 ==> !IsSpace(r[0]) && !IsSpace(r[|r| - 1])
    ensures var i := Run(IsSpace, s);
      && i + |r| <= |s| && r == s[i..i + |r|]
      && (forall k :: i + |r| <= k < |s| ==> IsSpace(s[k]))
  {
    TrimShape(s);
    TrimEnd(s[Run(IsSpace, s)..])
  }

  lemma TrimShape(s: string)
    ensures var i := Run(IsSpace, s);
      var r := TrimEnd(s[i..]);
      && (|r| > 0 ==> !IsSpace(r[0]) && !IsSpace(r[|r| - 1]))
      && i + |r| <= |s| && r == s[i..i + |r|]
      && (forall k :: i + |r| <= k < |s| ==> IsSpace(s[k]))
  {
    DropBothShape(IsSpace, s);
  }

  lemma DropBothShape(accept: char -> bool, s: string)
    ensures var i := Run(accept, s);
      var r := DropEnd(accept, s[i..]);
      && (|r| > 0 ==> !accept(r[0]) && !accept(r[|r| - 1]))
      && i + |r| <= |s| && r == s[i..i + |r|]
      && (forall k :: i + |r| <= k < |s| ==> accept(s[k]))
  {
    var i := Run(accept, s);
    var t := s[i..];
    DropFromSuffix(accept, s, i);
    DropFromSuffixTail(accept, s, i);
    if |DropEnd(accept, t)| > 0 {
      DropFromSuffixHead(accept, s, i);
    }
  }

  lemma DropFromSuffix(accept: char -> bool, s: string, i: nat)
    requires i <= |s|
    ensures var r := DropEnd(accept, s[i..]); i + |r| <= |s| && r == s[i..i + |r|]
  {
    var t := s[i..];
    var r := DropEnd(accept, t);
    assert forall j :: 0 <= j < |r| ==> r[j] == t[j] == s[i + j];
  }

  lemma DropFromSuffixTail(accept: char -> bool, s: string, i: nat)
    requires i <= |s|
    ensures var r := DropEnd(accept, s[i..]); forall k :: i + |r| <= k < |s| ==> accept(s[k])
  {
    var t := s[i..];
    var r := DropEnd(accept, t);
    forall k | i + |r| <= k < |s|
      ensures accept(s[k])
    {
      assert s[k] == t[k - i];
    }
  }

  lemma DropFromSuffixHead(accept: char -> bool, s: string, i: nat)
    requires i < |s| && !accept(s[i])
    ensures var r := DropEnd(accept, s[i..]); |r| > 0 && r[0] == s[i]
  {
    var t := s[i..];
    assert t[0] == s[i];
  }

  /** The characters `f` rejects. */
  function Complement(f: char -> bool): char -> bool {
    c => !f(c)
  }

  /** `s.split(re)` for a regular expression matching exactly one character of a
      class: the pieces between the separator characters, empty ones included. */
  function SplitWhere(isSep: char -> bool, s: string): (r: seq<string>)
    ensures |r| >= 1
    ensures forall k :: 0 <= k < |r| ==> forall i :: 0 <= i < |r[k]| ==> !isSep(r[k][i])
    decreases |s|
  {
    var n := Run(Complement(isSep), s);
    if n == |s| then [s] else [s[..n]] + SplitWhere(isSep, s[n + 1..])
  }

  /** Joining pieces that hold no separator with a separator character and splitting
      again gives the pieces back. */
  lemma {:induction false} SplitWhereJoin(isSep: char -> bool, parts: seq<string>, c: char)
    requires |parts| >= 1 && isSep(c)
    requires forall k :: 0 <= k < |parts| ==> forall i :: 0 <= i < |parts[k]| ==> !isSep(parts[k][i])
    ensures SplitWhere(isSep, Join(parts, [c])) == parts
    decreases |parts|
  {
    var s := Join(parts, [c]);
    var x := parts[0];
    var n := Run(Complement(isSep), s);
    if |parts| == 1 {
      assert s == x;
    } else {
      var t := parts[1..];
      JoinCons(x, t, [c]);
      assert parts == [x] + t;
      assert s == x + [c] + Join(t, [c]);
      assert s[|x|] == c;
      assert forall i :: 0 <= i < |x| ==> s[i] == x[i];
      assert n == |x|;
      assert s[..n] == x;
      assert s[n + 1..] == Join(t, [c]);
      SplitWhereJoin(isSep, t, c);
      assert SplitWhere(isSep, s) == [x] + SplitWhere(isSep, Join(t, [c]));
    }
  }

  /** `xs.filter(Boolean)` on strings: the non-empty ones, in order. */
  function NonEmpty(xs: seq<string>): (r: seq<string>)
    ensures |r| <= |xs|
    ensures forall k :: 0 <= k < |r| ==> r[k] != "" && r[k] in xs
    ensures forall k :: 0 <= k < |xs| && xs[k] != "" ==> xs[k] in r
  {
    if |xs| == 0 then []
    else if xs[0] == "" then NonEmpty(xs[1..])
    else [xs[0]] + NonEmpty(xs[1..])
  }

  /** Filtering keeps a list with no empty strings as it is. */
  lemma {:induction false} NonEmptyKeeps(xs: seq<string>)
    requires forall k :: 0 <= k < |xs| ==> xs[k] != ""
    ensures NonEmpty(xs) == xs
  {
    if |xs| > 0 {
      NonEmptyKeeps(xs[1..]);
    }
  }

  /** A run over an accepted prefix stops where the first rejected character is. */
  lemma {:induction false} RunOver(accept: char -> bool, a: string, b: string)
    requires forall i :: 0 <= i < |a| ==> accept(a[i])
    requires |b| > 0 ==> !accept(b[0])
    ensures Run(accept, a + b) == |a|
    decreases |a|
  {
    if |a| > 0 {
      assert (a + b)[0] == a[0];
      assert (a + b)[1..] == a[1..] + b;
      RunOver(accept, a[1..], b);
    } else {
      assert a + b == b;
    }
  }

  lemma OccursAtChar(s: string, c: char, k: int)
    ensures OccursAt(s, [c], k) <==> 0 <= k < |s| && s[k] == c
  {
    if 0 <= k < |s| {
      assert s[k..k + 1] == [s[k]];
    }
  }

  /** Splitting on a one-character separator undoes joining with it, when no piece
      holds that character. */
  lemma {:induction false} SplitJoinChar(parts: seq<string>, c: char)
    requires |parts| >= 1
    requires forall k :: 0 <= k < |parts| ==> forall i :: 0 <= i < |parts[k]| ==> parts[k][i] != c
    ensures Split(Join(parts, [c]), [c]) == parts
    decreases |parts|
  {
    var s := Join(parts, [c]);
    var x := parts[0];
    if |parts| == 1 {
      assert s == x;
      forall k | 0 <= k
        ensures !OccursAt(s, [c], k)
      {
        OccursAtChar(s, c, k);
      }
    } else {
      var t := parts[1..];
      JoinCons(x, t, [c]);
      assert parts == [x] + t;
      assert s == x + [c] + Join(t, [c]);
      assert OccursAt(s, [c], |x|);
      forall k | 0 <= k < |x|
        ensures !OccursAt(s, [c], k)
      {
        OccursAtChar(s, c, k);
      }
      var i := IndexOf(s, [c]);
      assert i == |x|;
      assert s[..i] == x;
      assert s[i + 1..] == Join(t, [c]);
      SplitJoinChar(t, c);
    }
  }

  lemma OccursAtHead(s: string, p: string, k: int)
    requires |p| > 0
    ensures OccursAt(s, p, k) ==> s[k] == p[0]
  {
    if OccursAt(s, p, k) {
      assert s[k..k + |p|][0] == s[k];
    }
  }

  /** `s.split(sep)` has a second piece exactly when `sep` occurs in `s`. */
  lemma SplitHasSecond(s: string, sep: string)
    requires |sep| > 0
    ensures |Split(s, sep)| >= 2 <==> Contains(s, sep)
  {
    var i := IndexOf(s, sep);
    if i >= 0 {
      assert OccursAt(s, sep, i);
    }
  }

  /** When no character of `a` starts the separator, the first piece of the split
      begins with `a`. */
  lemma SplitHead(s: string, sep: string, a: string)
    requires |sep| > 0 && StartsWith(s, a)
    requires forall i :: 0 <= i < |a| ==> a[i] != sep[0]
    ensures StartsWith(Split(s, sep)[0], a)
  {
    forall k | 0 <= k < |a|
      ensures !OccursAt(s, sep, k)
    {
      assert s[k] == s[..|a|][k] == a[k];
      OccursAtHead(s, sep, k);
    }
  }

  /** When, in addition, the separator follows `a`, the first piece is `a` and the
      rest of the split is the split of what follows the separator. */
  lemma SplitAtFirst(s: string, sep: string, a: string)
    requires |sep| > 0 && StartsWith(s, a) && OccursAt(s, sep, |a|)
    requires forall i :: 0 <= i < |a| ==> a[i] != sep[0]
    ensures Split(s, sep) == [a] + Split(s[|a| + |sep|..], sep)
  {
    SplitHead(s, sep, a);
    assert IndexOf(s, sep) == |a|;
  }

  /** Splitting on single separator characters: a first piece, one separator, and
      the rest. */
  lemma SplitWhereCons(isSep: char -> bool, a: string, c: char, rest: string)
    requires forall i :: 0 <= i < |a| ==> !isSep(a[i])
    requires isSep(c)
    ensures SplitWhere(isSep, a + [c] + rest) == [a] + SplitWhere(isSep, rest)
  {
    var s := a + [c] + rest;
    assert s == a + ([c] + rest);
    RunOver(Complement(isSep), a, [c] + rest);
    assert s[..|a|] == a;
    assert s[|a| + 1..] == rest;
  }

  /** `s.replace(/\/+$/g, '')`: the trailing run of slashes removed. */
  function StripSlashes(s: string): (r: string)
    ensures |r| <= |s| && r == s[..|r|]
    ensures |r| > 0 ==> r[|r| - 1] != '/'
    ensures forall i :: |r| <= i < |s| ==> s[i] == '/'
  {
    if |s| > 0 && s[|s| - 1] == '/' then StripSlashes(s[..|s| - 1]) else s
  }

  /** A joined text has a property of characters that every piece and the separator
      have. */
  lemma {:induction false} JoinKeeps(ok: char -> bool, ws: seq<string>, sep: string)
    requires forall i :: 0 <= i < |sep| ==> ok(sep[i])
    requires forall k :: 0 <= k < |ws| ==> forall i :: 0 <= i < |ws[k]| ==> ok(ws[k][i])
    ensures forall i :: 0 <= i < |Join(ws, sep)| ==> ok(Join(ws, sep)[i])
    decreases |ws|
  {
    if |ws| > 1 {
      JoinKeeps(ok, ws[1..], sep);
      JoinCons(ws[0], ws[1..], sep);
      assert ws == [ws[0]] + ws[1..];
    }
  }

  /** A joined list starts with the first piece and ends with the last. */
  lemma {:induction false} JoinEnds(ws: seq<string>, sep: string)
    requires |ws| >= 1
    ensures StartsWith(Join(ws, sep), ws[0])
    ensures EndsWith(Join(ws, sep), ws[|ws| - 1])
    decreases |ws|
  {
    if |ws| > 1 {
      JoinEnds(ws[1..], sep);
      JoinCons(ws[0], ws[1..], sep);
      assert ws == [ws[0]] + ws[1..];
    }
  }

  /** A text ends with every tail of each of its endings. */
  /** Ending with a one-character text is having that character last. */
  lemma EndsWithChar(s: string, c: char)
    ensures EndsWith(s, [c]) <==> |s| > 0 && s[|s| - 1] == c
  {
    if |s| > 0 {
      assert s[|s| - 1..] == [s[|s| - 1]];
    }
  }

  lemma EndsWithTail(s: string, t: string, n: nat)
    requires EndsWith(s, t) && n <= |t|
    ensures EndsWith(s, t[|t| - n..])
  {
    assert s[|s| - n..] == s[|s| - |t|..][|t| - n..];
  }

  lemma {:induction false} NonEmptyAppend(a: seq<string>, b: seq<string>)
    ensures NonEmpty(a + b) == NonEmpty(a) + NonEmpty(b)
    decreases |a|
  {
    if |a| == 0 {
      assert a + b == b;
    } else {
      assert (a + b)[1..] == a[1..] + b;
      NonEmptyAppend(a[1..], b);
    }
  }

  /** Joining two non-empty lists is joining each and putting the separator
      between. */
  lemma {:induction false} JoinAppend(a: seq<string>, b: seq<string>, sep: string)
    requires |a| >= 1 && |b| >= 1
    ensures Join(a + b, sep) == Join(a, sep) + sep + Join(b, sep)
    decreases |a|
  {
    if |a| == 1 {
      JoinCons(a[0], b, sep);
      assert a + b == [a[0]] + b;
    } else {
      JoinAppend(a[1..], b, sep);
      assert a + b == [a[0]] + (a[1..] + b);
      JoinCons(a[0], a[1..] + b, sep);
      JoinCons(a[0], a[1..], sep);
      assert a == [a[0]] + a[1..];
    }
  }

  /** Occurrences of a character inside `x` are the same in any extension of `x`. */
  lemma SameOccurrences(x: string, c: char, z: string)
    ensures forall k :: 0 <= k < |x| ==> (OccursAt(x + z, [c], k) <==> OccursAt(x, [c], k))
  {
    forall k | 0 <= k < |x|
      ensures OccursAt(x + z, [c], k) <==> OccursAt(x, [c], k)
    {
      OccursAtChar(x + z, c, k);
      OccursAtChar(x, c, k);
      assert (x + z)[k] == x[k];
    }
  }

  lemma IndexOfInPrefix(x: string, c: char, z: string)
    requires IndexOf(x, [c]) >= 0
    ensures IndexOf(x + z, [c]) == IndexOf(x, [c])
  {
    SameOccurrences(x, c, z);
    var i := IndexOf(x, [c]);
    assert OccursAt(x, [c], i);
  }

  lemma IndexOfAfterPrefix(x: string, c: char, y: string)
    requires IndexOf(x, [c]) < 0
    ensures IndexOf(x + [c] + y, [c]) == |x|
  {
    SameOccurrences(x, c, [c] + y);
    assert x + [c] + y == x + ([c] + y);
    OccursAtChar(x + [c] + y, c, |x|);
  }

  /** Splitting on a one-character separator splits both sides of one of its
      occurrences. */
  lemma {:induction false} SplitAroundChar(x: string, c: char, y: string)
    ensures Split(x + [c] + y, [c]) == Split(x, [c]) + Split(y, [c])
    decreases |x|
  {
    var s := x + [c] + y;
    var i := IndexOf(x, [c]);
    if i < 0 {
      IndexOfAfterPrefix(x, c, y);
      AroundSeparator(x, c, y);
      SplitStep(s, [c], |x|);
      assert Split(x, [c]) == [x];
    } else {
      IndexOfInPrefix(x, c, [c] + y);
      assert s == x + ([c] + y);
      var x' := x[i + 1..];
      AroundOccurrence(x, c, y, i);
      SplitAroundChar(x', c, y);
      SplitStep(s, [c], i);
      SplitStep(x, [c], i);
      ConsAssociates(x[..i], Split(x', [c]), Split(y, [c]));
    }
  }

  lemma AroundOccurrence(x: string, c: char, y: string, i: int)
    requires 0 <= i < |x|
    ensures (x + [c] + y)[..i] == x[..i]
    ensures (x + [c] + y)[i + 1..] == x[i + 1..] + [c] + y
  {
  }

  lemma AroundSeparator(x: string, c: char, y: string)
    ensures (x + [c] + y)[..|x|] == x
    ensures (x + [c] + y)[|x| + 1..] == y
  {
  }

  lemma SplitStep(s: string, sep: string, i: int)
    requires |sep| > 0 && i >= 0 && IndexOf(s, sep) == i
    ensures Split(s, sep) == [s[..i]] + Split(s[i + |sep|..], sep)
  {
  }

  lemma Associates<T>(a: seq<T>, b: seq<T>, c: seq<T>)
    ensures a + b + c == a + (b + c)
  {
  }

  lemma ConsAssociates<T>(h: T, a: seq<T>, b: seq<T>)
    ensures ([h] + a) + b == [h] + (a + b)
  {
  }
}
