/**
 * The parts of Go's `strings`, `unicode` and `fmt` packages that the modelled
 * routines call, with Go's semantics, on strings seen as sequences of runes.
 */
module GoStrings {

  /** White space as Go's `unicode.IsSpace` defines it. */
  predicate IsSpace(c: char) {
    ('\t' <= c && c <= '\r') || c == ' ' || c == '\U{0085}' || c == '\U{00A0}'
    || c == '\U{1680}' || ('\U{2000}' <= c && c <= '\U{200A}')
    || c == '\U{2028}' || c == '\U{2029}' || c == '\U{202F}' || c == '\U{205F}'
    || c == '\U{3000}'
  }

  predicate AllSpace(s: string) {
    forall k :: 0 <= k < |s| ==> IsSpace(s[k])
  }

  /**
   * `strings.TrimSpace`: the leading and the trailing white space cut off
   * (TrimSpaceSlice says which slice of `s` is left).
   */
  function TrimSpace(s: string): (r: string)
    ensures |r| <= |s| && (|r| == |s| ==> r == s)
    ensures r != [] ==> !IsSpace(r[0]) && !IsSpace(r[|r| - 1])
    ensures r == [] <==> AllSpace(s)
    decreases |s|
  {
    if s != [] && IsSpace(s[0]) then TrimSpace(s[1..])
    else if s != [] && IsSpace(s[|s| - 1]) then TrimSpace(s[..|s| - 1])
    else s
  }

  /** White space put around a string with no white space at its ends is exactly what TrimSpace removes. */
  lemma {:induction false} TrimPadded(w1: string, x: string, w2: string)
    requires AllSpace(w1) && AllSpace(w2)
    requires x != [] ==> !IsSpace(x[0]) && !IsSpace(x[|x| - 1])
    ensures TrimSpace(w1 + x + w2) == x
    decreases |w1|
  {
    if w1 != [] {
      var s := w1 + x + w2;
      assert s[0] == w1[0];
      assert s[1..] == w1[1..] + x + w2;
      TrimPadded(w1[1..], x, w2);
    } else {
      assert w1 + x + w2 == x + w2;
      TrimTrailingPad(x, w2);
    }
  }

  // The trailing half of TrimPadded.
  lemma {:induction false} TrimTrailingPad(x: string, w2: string)
    requires AllSpace(w2)
    requires x != [] ==> !IsSpace(x[0]) && !IsSpace(x[|x| - 1])
    ensures TrimSpace(x + w2) == x
    decreases |w2|
  {
    var s := x + w2;
    if x == [] {
      assert s == w2;
    } else if w2 != [] {
      assert s[0] == x[0];
      assert s[|s| - 1] == w2[|w2| - 1];
      assert s[..|s| - 1] == x + w2[..|w2| - 1];
      TrimTrailingPad(x, w2[..|w2| - 1]);
    } else {
      assert s == x;
    }
  }

  /** What TrimSpace keeps is a slice of `s`, with only white space around it. */
  lemma {:induction false} TrimSpaceSlice(s: string) returns (i: nat, j: nat)
    ensures i <= j <= |s| && TrimSpace(s) == s[i..j]
    ensures AllSpace(s[..i]) && AllSpace(s[j..])
    decreases |s|
  {
    if s != [] && IsSpace(s[0]) {
      var i', j' := TrimSpaceSlice(s[1..]);
      TrimSpaceLeadingStep(s);
      SliceAfterLeadingSpace(s, i', j');
      i, j := i' + 1, j' + 1;
    } else if s != [] && IsSpace(s[|s| - 1]) {
      i, j := TrimSpaceSlice(s[..|s| - 1]);
      TrimSpaceTrailingStep(s);
      SliceBeforeTrailingSpace(s, i, j);
    } else {
      TrimSpaceStops(s);
      i, j := 0, |s|;
      assert s[0..|s|] == s;
    }
  }

  // One step of TrimSpace: a leading space is cut off.
  lemma TrimSpaceLeadingStep(s: string)
    requires s != [] && IsSpace(s[0])
    ensures TrimSpace(s) == TrimSpace(s[1..])
  {
  }

  // One step of TrimSpace: with no leading space, a trailing space is cut off.
  lemma TrimSpaceTrailingStep(s: string)
    requires s != [] && !IsSpace(s[0]) && IsSpace(s[|s| - 1])
    ensures TrimSpace(s) == TrimSpace(s[..|s| - 1])
  {
  }

  // The last step of TrimSpace: no space at either end, nothing is cut off.
  lemma TrimSpaceStops(s: string)
    requires s == [] || (!IsSpace(s[0]) && !IsSpace(s[|s| - 1]))
    ensures TrimSpace(s) == s
  {
  }

  // The slices of `s[1..]` as slices of `s`, when `s[0]` is white space.
  lemma SliceAfterLeadingSpace(s: string, i: nat, j: nat)
    requires s != [] && IsSpace(s[0])
    requires i <= j <= |s| - 1 && AllSpace(s[1..][..i]) && AllSpace(s[1..][j..])
    ensures s[1..][i..j] == s[i + 1..j + 1]
    ensures AllSpace(s[..i + 1]) && AllSpace(s[j + 1..])
  {
    var t := s[1..];
    var head := s[..i + 1];
    forall k | 0 < k < |head| ensures IsSpace(head[k]) {
      assert head[k] == t[..i][k - 1];
    }
    assert s[j + 1..] == t[j..];
  }

  // The slices of `s[..|s| - 1]` as slices of `s`, when the last rune of `s` is white space.
  lemma SliceBeforeTrailingSpace(s: string, i: nat, j: nat)
    requires s != [] && IsSpace(s[|s| - 1])
    requires i <= j <= |s| - 1 && AllSpace(s[..|s| - 1][..i]) && AllSpace(s[..|s| - 1][j..])
    ensures s[..|s| - 1][i..j] == s[i..j]
    ensures AllSpace(s[..i]) && AllSpace(s[j..])
  {
    var t := s[..|s| - 1];
    assert s[..i] == t[..i];
    var tail := s[j..];
    forall k | 0 <= k < |tail| ensures IsSpace(tail[k]) {
      if k < |t| - j {
        assert tail[k] == t[j..][k];
      } else {
        assert k == |s| - 1 - j;
        assert tail[k] == s[|s| - 1];
      }
    }
  }

  /** TrimSpace leaves exactly the strings that neither start nor end with white space. */
  lemma TrimSpaceFixpoint(s: string)
    ensures TrimSpace(s) == s <==> (s == [] || (!IsSpace(s[0]) && !IsSpace(s[|s| - 1])))
  {
  }

  /** `k` is a position where `sep` occurs in `s`. */
  predicate OccursAt(s: string, sep: string, k: int) {
    0 <= k && k + |sep| <= |s| && s[k..k + |sep|] == sep
  }

  /** `strings.Index`: the first position where `sep` occurs in `s`, or -1. */
  function Index(s: string, sep: string): (r: int)
    ensures -1 <= r <= |s|
    ensures r >= 0 ==> OccursAt(s, sep, r)
    ensures forall k :: 0 <= k && (r < 0 || k < r) ==> !OccursAt(s, sep, k)
    decreases |s|
  {
    if |s| < |sep| then -1
    else if s[..|sep|] == sep then 0
    else
      var k := Index(s[1..], sep);
      ShiftOccurrences(s, sep, k);
      if k < 0 then -1 else k + 1
  }

  // Relates the occurrences in `s[1..]` to those in `s` past position 0.
  lemma ShiftOccurrences(s: string, sep: string, k: int)
    requires s != [] && !OccursAt(s, sep, 0)
    requires forall j :: 0 <= j && (k < 0 || j < k) ==> !OccursAt(s[1..], sep, j)
    ensures forall j :: 0 <= j && (k < 0 || j < k + 1) ==> !OccursAt(s, sep, j)
  {
    forall j | 0 < j && (k < 0 || j < k + 1) ensures !OccursAt(s, sep, j) {
      assert !OccursAt(s[1..], sep, j - 1);
      if j + |sep| <= |s| {
        assert s[1..][j - 1..j - 1 + |sep|] == s[j..j + |sep|];
      }
    }
  }

  /** `strings.Split` for a non-empty separator. */
  function Split(s: string, sep: string): (r: seq<string>)
    requires sep != []
    ensures |r| >= 1
    decreases |s|
  {
    var i := Index(s, sep);
    if i < 0 then [s] else [s[..i]] + Split(s[i + |sep|..], sep)
  }

  /** `strings.Join`. */
  function Join(parts: seq<string>, sep: string): string {
    if |parts| == 0 then ""
    else if |parts| == 1 then parts[0]
    else parts[0] + sep + Join(parts[1..], sep)
  }

  /** Splitting and joining again gives back the original string. */
  lemma {:induction false} JoinSplit(s: string, sep: string)
    requires sep != []
    ensures Join(Split(s, sep), sep) == s
    decreases |s|
  {
    var i := Index(s, sep);
    if i >= 0 {
      var rest := s[i + |sep|..];
      JoinSplit(rest, sep);
      JoinSplitStep(s, sep, i, Split(rest, sep));
    }
  }

  // The step of JoinSplit: the piece before the first separator, the separator, the rest.
  lemma JoinSplitStep(s: string, sep: string, i: nat, tail: seq<string>)
    requires OccursAt(s, sep, i) && |tail| >= 1 && Join(tail, sep) == s[i + |sep|..]
    ensures Join([s[..i]] + tail, sep) == s
  {
    JoinCons(s[..i], tail, sep);
    SliceAround(s, sep, i);
  }

  // A string is the part before an occurrence, the occurrence and the part after it.
  lemma SliceAround(s: string, sep: string, i: nat)
    requires OccursAt(s, sep, i)
    ensures s[..i] + sep + s[i + |sep|..] == s
  {
    var t := s[..i] + sep + s[i + |sep|..];
    forall k | 0 <= k < |s| ensures t[k] == s[k] {
      if k < i {
      } else if k < i + |sep| {
        assert t[k] == sep[k - i] == s[i..i + |sep|][k - i];
      }
    }
  }

  // Join of a part put in front of a non-empty list.
  lemma JoinCons(p: string, tail: seq<string>, sep: string)
    requires |tail| >= 1
    ensures Join([p] + tail, sep) == p + sep + Join(tail, sep)
  {
    assert ([p] + tail)[1..] == tail;
  }

  /** Every piece of a split is made of characters of the split string. */
  lemma {:induction false} SplitPiecesWithin(s: string, sep: string, c: char)
    requires sep != [] && c !in s
    ensures forall p :: p in Split(s, sep) ==> c !in p
    decreases |s|
  {
    var i := Index(s, sep);
    if i >= 0 {
      var rest := s[i + |sep|..];
      SliceAvoids(s, i + |sep|, |s|, c);
      SplitPiecesWithin(rest, sep, c);
      SliceAvoids(s, 0, i, c);
    }
  }

  lemma SliceAvoids(s: string, i: int, j: int, c: char)
    requires 0 <= i <= j <= |s| && c !in s
    ensures c !in s[i..j]
  {
    forall k | 0 <= k < j - i ensures s[i..j][k] != c {
      assert s[i..j][k] == s[i + k];
    }
  }

  /** None of the first `i` runes of `s` is `c` when `c` does not occur before `i`. */
  lemma PrefixAvoids(s: string, i: int, c: char)
    requires 0 <= i <= |s|
    requires forall k :: 0 <= k < i ==> !OccursAt(s, [c], k)
    ensures c !in s[..i]
  {
    forall k | 0 <= k < i ensures s[..i][k] != c {
      OccursAtRune(s, c, k);
    }
  }

  /** For a one-rune separator, `sep` occurs exactly where that rune stands. */
  lemma OccursAtRune(s: string, c: char, k: int)
    ensures OccursAt(s, [c], k) <==> 0 <= k < |s| && s[k] == c
  {
    if 0 <= k < |s| && s[k] == c { assert s[k..k + 1] == [c]; }
  }

  /** No piece of a split on a one-rune separator contains that rune. */
  lemma {:induction false} SplitPiecesAvoidSeparator(s: string, c: char)
    ensures forall p :: p in Split(s, [c]) ==> c !in p
    decreases |s|
  {
    var i := Index(s, [c]);
    if i < 0 {
      PrefixAvoids(s, |s|, c);
      assert s[..|s|] == s;
    } else {
      SplitPiecesAvoidSeparator(s[i + 1..], c);
      PrefixAvoids(s, i, c);
    }
  }

  /** Splitting a join on a one-rune separator absent from the parts gives back the parts. */
  lemma {:induction false} SplitJoin(parts: seq<string>, c: char)
    requires |parts| >= 1
    requires forall p :: p in parts ==> c !in p
    ensures Split(Join(parts, [c]), [c]) == parts
    decreases |parts|
  {
    var s := Join(parts, [c]);
    var p0 := parts[0];
    forall k | 0 <= k < |p0| ensures !OccursAt(s, [c], k) {
      OccursAtRune(s, c, k);
      assert p0[k] in p0;
    }
    if |parts| == 1 {
      assert Index(s, [c]) < 0;
    } else {
      var rest := Join(parts[1..], [c]);
      assert s == p0 + [c] + rest;
      OccursAtRune(s, c, |p0|);
      assert Index(s, [c]) == |p0|;
      assert s[..|p0|] == p0;
      assert s[|p0| + 1..] == rest;
      SplitJoin(parts[1..], c);
    }
  }

  /** `strings.Count` for a one-rune substring. */
  function CountRune(s: string, c: char): (n: nat)
    ensures n <= |s|
    ensures n == 0 <==> c !in s
  {
    if s == [] then 0 else (if s[0] == c then 1 else 0) + CountRune(s[1..], c)
  }

  lemma {:induction false} CountRuneAppend(a: string, b: string, c: char)
    ensures CountRune(a + b, c) == CountRune(a, c) + CountRune(b, c)
    decreases |a|
  {
    if a != [] {
      assert (a + b)[0] == a[0];
      assert (a + b)[1..] == a[1..] + b;
      CountRuneAppend(a[1..], b, c);
    } else {
      assert a + b == b;
    }
  }

  /** A split on a one-rune separator has one piece more than the rune has occurrences. */
  lemma {:induction false} SplitCount(s: string, c: char)
    ensures |Split(s, [c])| == 1 + CountRune(s, c)
    decreases |s|
  {
    var i := Index(s, [c]);
    if i < 0 {
      PrefixAvoids(s, |s|, c);
      assert s[..|s|] == s;
    } else {
      OccursAtRune(s, c, i);
      PrefixAvoids(s, i, c);
      assert s == s[..i] + ([s[i]] + s[i + 1..]);
      CountRuneAppend(s[..i], [s[i]] + s[i + 1..], c);
      CountRuneAppend([s[i]], s[i + 1..], c);
      SplitCount(s[i + 1..], c);
    }
  }

  /** `strings.ReplaceAll(s, from, to)` for one-rune `from` and `to`. */
  function ReplaceAllRune(s: string, from: char, to: char): (r: string)
    ensures |r| == |s|
    ensures forall k :: 0 <= k < |s| ==> r[k] == if s[k] == from then to else s[k]
  {
    if s == [] then [] else [if s[0] == from then to else s[0]] + ReplaceAllRune(s[1..], from, to)
  }

  lemma {:induction false} ReplaceAllRuneCount(s: string, from: char, to: char)
    requires from != to
    ensures CountRune(ReplaceAllRune(s, from, to), to) == CountRune(s, to) + CountRune(s, from)
    ensures from !in ReplaceAllRune(s, from, to)
    decreases |s|
  {
    if s != [] {
      ReplaceAllRuneCount(s[1..], from, to);
      assert ReplaceAllRune(s, from, to)[1..] == ReplaceAllRune(s[1..], from, to);
    }
  }

  /** Replacing a rune that does not occur changes nothing. */
  lemma ReplaceAllRuneAbsent(s: string, from: char, to: char)
    requires from !in s
    ensures ReplaceAllRune(s, from, to) == s
  {
  }

  lemma {:induction false} ReplaceAllRuneAppend(a: string, b: string, from: char, to: char)
    ensures ReplaceAllRune(a + b, from, to) == ReplaceAllRune(a, from, to) + ReplaceAllRune(b, from, to)
  {
    var r := ReplaceAllRune(a + b, from, to);
    var r' := ReplaceAllRune(a, from, to) + ReplaceAllRune(b, from, to);
    forall k | 0 <= k < |a + b| ensures r[k] == r'[k] {
      if k < |a| {
        assert (a + b)[k] == a[k];
      } else {
        assert (a + b)[k] == b[k - |a|];
      }
    }
  }

  /** Replacing the separator of a join, when the parts do not contain it, joins with the new separator. */
  lemma {:induction false} ReplaceAllRuneJoin(parts: seq<string>, from: char, to: char)
    requires forall p :: p in parts ==> from !in p
    ensures ReplaceAllRune(Join(parts, [from]), from, to) == Join(parts, [to])
    decreases |parts|
  {
    if |parts| >= 1 {
      assert parts[0] in parts;
      ReplaceAllRuneAbsent(parts[0], from, to);
    }
    if |parts| >= 2 {
      ReplaceAllRuneJoin(parts[1..], from, to);
      var rest := Join(parts[1..], [from]);
      ReplaceAllRuneAppend(parts[0] + [from], rest, from, to);
      ReplaceAllRuneAppend(parts[0], [from], from, to);
    }
  }

  /** A join starts with its first part, or with the separator after an empty first part. */
  lemma JoinFirst(parts: seq<string>, sep: char)
    requires |parts| >= 1
    ensures parts[0] != [] ==> Join(parts, [sep]) != [] && Join(parts, [sep])[0] == parts[0][0]
    ensures parts[0] == [] && |parts| >= 2 ==> Join(parts, [sep]) != [] && Join(parts, [sep])[0] == sep
  {
  }

  /** A join ends with its last part, or with the separator before an empty last part. */
  lemma {:induction false} JoinLast(parts: seq<string>, sep: char)
    requires |parts| >= 1
    ensures var last := parts[|parts| - 1]; var s := Join(parts, [sep]);
      (last != [] ==> s != [] && s[|s| - 1] == last[|last| - 1]) &&
      (last == [] && |parts| >= 2 ==> s != [] && s[|s| - 1] == sep)
    decreases |parts|
  {
    if |parts| >= 2 {
      assert parts[1..][|parts| - 2] == parts[|parts| - 1];
      JoinLast(parts[1..], sep);
    }
  }

  /** The decimal digit for `d`. */
  function Digit(d: nat): (c: char)
    requires d < 10
    ensures '0' <= c <= '9' && c as int - '0' as int == d
  {
    (d + '0' as int) as char
  }

  predicate IsDigit(c: char) { '0' <= c <= '9' }

  /** `fmt.Sprintf("%d", n)` for a non-negative `n`: decimal digits without leading zeros. */
  function FormatNat(n: nat): (r: string)
    ensures |r| >= 1 && forall k :: 0 <= k < |r| ==> IsDigit(r[k])
    ensures |r| > 1 ==> r[0] != '0'
  {
    if n < 10 then [Digit(n)] else FormatNat(n / 10) + [Digit(n % 10)]
  }

  /** The value of a string of decimal digits. */
  function ParseNat(s: string): nat
    requires forall k :: 0 <= k < |s| ==> IsDigit(s[k])
  {
    if s == [] then 0
    else
      assert IsDigit(s[|s| - 1]);
      ParseNat(s[..|s| - 1]) * 10 + (s[|s| - 1] as int - '0' as int)
  }

  lemma {:induction false} ParseFormatNat(n: nat)
    ensures ParseNat(FormatNat(n)) == n
  {
    if n >= 10 {
      ParseFormatNat(n / 10);
      var r := FormatNat(n);
      assert r[..|r| - 1] == FormatNat(n / 10);
    }
  }

  /** Distinct numbers are printed differently. */
  lemma FormatNatInjective(a: nat, b: nat)
    ensures FormatNat(a) == FormatNat(b) ==> a == b
  {
    ParseFormatNat(a);
    ParseFormatNat(b);
  }
}
