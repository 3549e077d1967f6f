/** The handful of Python string and sequence primitives the bot relies on
    (slicing, str.find/str.rfind, str.replace, str.split, str.join,
    str.startswith, str(int)), each with CPython's semantics written out. */
module PyText {

  datatype Option<T> = None | Some(value: T)

  function Min(a: int, b: int): int { if a < b then a else b }

  /** `p` occurs in `s` starting at index `i`. */
  predicate OccursAt(s: string, p: string, i: int)
  {
    0 <= i && i + |p| <= |s| && s[i..i + |p|] == p
  }

  /** A one-character pattern occurs exactly where that character stands. */
  lemma OccursAtChar(s: string, c: char, i: int)
    ensures OccursAt(s, [c], i) <==> 0 <= i < |s| && s[i] == c
  {
    if 0 <= i < |s| {
      assert s[i..i + 1] == [s[i]];
    }
  }

  /** `rfind` of a one-character pattern gives the last position holding that character. */
  lemma RFindLastChar(s: string, c: char, p: nat)
    requires p < |s| && s[p] == c
    requires forall j :: p < j < |s| ==> s[j] != c
    ensures RFind(s, [c], 0, |s|) == p
  {
    OccursAtChar(s, c, p);
    forall j | p < j < |s| ensures !OccursAt(s, [c], j) { OccursAtChar(s, c, j); }
  }

  /** `rfind` of a character that does not occur gives -1. */
  lemma RFindAbsentChar(s: string, c: char)
    requires forall j :: 0 <= j < |s| ==> s[j] != c
    ensures RFind(s, [c], 0, |s|) == -1
  {
    forall j | 0 <= j < |s| ensures !OccursAt(s, [c], j) { OccursAtChar(s, c, j); }
  }

  /** Past the last occurrence of a character there is none. */
  lemma AfterRFindChar(s: string, c: char)
    ensures var r := RFind(s, [c], 0, |s|);
            -1 <= r < |s| && forall j :: r < j < |s| ==> s[j] != c
  {
    var r := RFind(s, [c], 0, |s|);
    forall j | r < j < |s| ensures s[j] != c { OccursAtChar(s, c, j); }
  }

  /** A string none of whose characters is `c` does not contain `c`. */
  lemma NotContainsChar(s: string, c: char)
    requires forall j :: 0 <= j < |s| ==> s[j] != c
    ensures !Contains(s, [c])
  {
    forall j | 0 <= j <= |s| ensures !OccursAt(s, [c], j) { OccursAtChar(s, c, j); }
  }

  /** `s.startswith(p)` */
  predicate StartsWith(s: string, p: string)
  {
    |p| <= |s| && s[..|p|] == p
  }

  /** `p in s` */
  predicate Contains(s: string, p: string)
  {
    exists i :: 0 <= i <= |s| && OccursAt(s, p, i)
  }

  /** Python's normalisation of one slice bound against a length `n`:
      negative bounds count from the end, and both ends are clamped. */
  function SliceBound(i: int, n: nat): (r: nat)
    ensures r <= n
    ensures 0 <= i <= n ==> r == i
    ensures i < 0 && -i <= n ==> r == n + i
    ensures i > n ==> r == n
    ensures i < 0 && -i > n ==> r == 0
  {
    if i < 0 then (if i + n < 0 then 0 else i + n) else if i > n then n else i
  }

  /** `s[a:b]` with a step of one. */
  function PySlice<T>(s: seq<T>, a: int, b: int): seq<T>
  {
    var lo := SliceBound(a, |s|);
    var hi := SliceBound(b, |s|);
    if lo < hi then s[lo..hi] else []
  }

  /** With two non-negative bounds a slice is the clamped sub-sequence. */
  lemma PySliceNonNegative<T>(s: seq<T>, a: nat, b: nat)
    requires a <= b
    ensures PySlice(s, a, b) == s[Min(a, |s|)..Min(b, |s|)]
  {
  }

  /** The slice `xs[-n:-1]` for n >= 1: the (at most n - 1) items just before
      the last one, and nothing when there are fewer than two items. */
  lemma {:induction false} PySliceLastButOne<T>(xs: seq<T>, n: int)
    requires 1 <= n
    ensures var k := Min(|xs|, n);
            PySlice(xs, -n, -1) == if |xs| == 0 then [] else xs[|xs| - k..|xs| - 1]
    ensures |PySlice(xs, -n, -1)| == if |xs| == 0 then 0 else Min(|xs|, n) - 1
  {
    var lo := SliceBound(-n, |xs|);
    var hi := SliceBound(-1, |xs|);
    if |xs| == 0 {
      assert hi == 0;
    } else {
      assert hi == |xs| - 1;
      assert lo == |xs| - Min(|xs|, n);
    }
  }

  /** `xs[-0:-1]` is `xs[0:-1]`: everything except the last item. */
  lemma PySliceZeroWindow<T>(xs: seq<T>)
    requires |xs| >= 1
    ensures PySlice(xs, -0, -1) == xs[..|xs| - 1]
  {
  }

  /** `s.find(p, lo, hi)`: the lowest index at which `p` lies wholly inside
      `s[lo:hi]`, or -1. */
  function Find(s: string, p: string, lo: nat, hi: nat): (r: int)
    ensures r == -1 || (lo <= r && r + |p| <= Min(hi, |s|) && OccursAt(s, p, r))
    ensures forall j :: lo <= j && j + |p| <= Min(hi, |s|) && (r == -1 || j < r) ==> !OccursAt(s, p, j)
    decreases |s| - lo
  {
    if lo + |p| > Min(hi, |s|) then -1
    else if OccursAt(s, p, lo) then lo
    else Find(s, p, lo + 1, hi)
  }

  /** Downward scan used by RFind: the highest `j` in `[lo, i]` where `p` occurs. */
  function RFindFrom(s: string, p: string, lo: nat, i: int): (r: int)
    ensures r == -1 || (lo <= r <= i && OccursAt(s, p, r))
    ensures forall j :: lo <= j <= i && r < j ==> !OccursAt(s, p, j)
    decreases i - lo
  {
    if i < lo then -1
    else if OccursAt(s, p, i) then i
    else RFindFrom(s, p, lo, i - 1)
  }

  /** `s.rfind(p, lo, hi)`: the highest index at which `p` lies wholly inside
      `s[lo:hi]`, or -1. */
  function RFind(s: string, p: string, lo: nat, hi: nat): (r: int)
    ensures r == -1 || (lo <= r && r + |p| <= Min(hi, |s|) && OccursAt(s, p, r))
    ensures forall j :: lo <= j && j + |p| <= Min(hi, |s|) && r < j ==> !OccursAt(s, p, j)
  {
    RFindFrom(s, p, lo, Min(hi, |s|) - |p|)
  }

  /** Every index at or after `from` where `p` occurs, in increasing order. */
  function Occurrences(s: string, p: string, from: nat): (r: seq<nat>)
    requires |p| > 0
    ensures forall m :: m in r <==> from <= m && OccursAt(s, p, m)
    ensures forall i :: 0 <= i < |r| ==> from <= r[i]
    ensures forall i, j :: 0 <= i < j < |r| ==> r[i] < r[j]
    decreases |s| - from
  {
    if from + |p| > |s| then []
    else (if OccursAt(s, p, from) then [from] else []) + Occurrences(s, p, from + 1)
  }

  /** Left-to-right, non-overlapping replacement: `s.replace(p, r)`. */
  function ReplaceAll(s: string, p: string, r: string): (out: string)
    requires |p| > 0
    ensures |r| >= |p| ==> |out| >= |s|
    ensures |r| == |p| ==> |out| == |s|
    decreases |s|
  {
    if |s| < |p| then s
    else if s[..|p|] == p then r + ReplaceAll(s[|p|..], p, r)
    else [s[0]] + ReplaceAll(s[1..], p, r)
  }

  /** `s.split(p)` for a non-empty separator. */
  function SplitOn(s: string, p: string): (r: seq<string>)
    requires |p| > 0
    ensures |r| >= 1
    decreases |s|
  {
    if |s| < |p| then [s]
    else if s[..|p|] == p then [""] + SplitOn(s[|p|..], p)
    else
      var rest := SplitOn(s[1..], p);
      [[s[0]] + rest[0]] + rest[1..]
  }

  /** `sep.join(parts)` */
  function Join(sep: string, parts: seq<string>): string
    decreases |parts|
  {
    if |parts| == 0 then ""
    else if |parts| == 1 then parts[0]
    else parts[0] + sep + Join(sep, parts[1..])
  }

  /** `"".join(parts)` */
  function Concat(parts: seq<string>): string
    decreases |parts|
  {
    if parts == [] then "" else parts[0] + Concat(parts[1..])
  }

  lemma {:induction false} JoinConsHead(sep: string, c: char, head: string, rest: seq<string>)
    ensures Join(sep, [[c] + head] + rest) == [c] + Join(sep, [head] + rest)
  {
    if |rest| == 0 {
      assert [[c] + head] + rest == [[c] + head];
      assert [head] + rest == [head];
    } else {
      assert ([[c] + head] + rest)[1..] == rest;
      assert ([head] + rest)[1..] == rest;
    }
  }

  /** `s.replace(p, r) == r.join(s.split(p))`: replacement agrees with the
      independent split-then-join definition. */
  lemma {:induction false} ReplaceAllIsJoinOfSplit(s: string, p: string, r: string)
    requires |p| > 0
    ensures ReplaceAll(s, p, r) == Join(r, SplitOn(s, p))
    decreases |s|
  {
    if |s| < |p| {
    } else if s[..|p|] == p {
      ReplaceAllIsJoinOfSplit(s[|p|..], p, r);
      var rest := SplitOn(s[|p|..], p);
      assert SplitOn(s, p) == [""] + rest;
      assert ([""] + rest)[1..] == rest;
    } else {
      ReplaceAllIsJoinOfSplit(s[1..], p, r);
      var rest := SplitOn(s[1..], p);
      assert rest == [rest[0]] + rest[1..];
      JoinConsHead(r, s[0], rest[0], rest[1..]);
    }
  }

  /** Replacing a pattern that does not occur leaves the text as it is. */
  lemma {:induction false} ReplaceAllAbsent(s: string, p: string, r: string)
    requires |p| > 0
    requires !Contains(s, p)
    ensures ReplaceAll(s, p, r) == s
    decreases |s|
  {
    if |s| >= |p| {
      assert !OccursAt(s, p, 0);
      assert s[..|p|] == s[0..0 + |p|];
      assert !Contains(s[1..], p) by {
        forall i | OccursAt(s[1..], p, i) ensures OccursAt(s, p, i + 1) {
          assert s[1..][i..i + |p|] == s[i + 1..i + 1 + |p|];
        }
      }
      ReplaceAllAbsent(s[1..], p, r);
      assert s == [s[0]] + s[1..];
    }
  }

  function DigitChar(d: nat): char
    requires d < 10
  {
    "0123456789"[d]
  }

  /** The number a string of decimal digits spells, most significant first. */
  function DigitsValue(s: string): nat
    requires forall i :: 0 <= i < |s| ==> '0' <= s[i] <= '9'
    decreases |s|
  {
    if s == [] then 0 else 10 * DigitsValue(s[..|s| - 1]) + (s[|s| - 1] as int - '0' as int)
  }

  /** `str(n)` for a non-negative integer: the digits that spell `n`, with no
      leading zero. */
  function Decimal(n: nat): (r: string)
    ensures |r| >= 1
    ensures forall i :: 0 <= i < |r| ==> '0' <= r[i] <= '9'
    ensures DigitsValue(r) == n
    ensures r[0] == '0' ==> n == 0
    decreases n
  {
    if n < 10 then [DigitChar(n)]
    else
      var init := Decimal(n / 10);
      var r := init + [DigitChar(n % 10)];
      assert r[..|r| - 1] == init;
      r
  }

  /** Different numbers are written differently. */
  lemma DecimalInjective(a: nat, b: nat)
    requires a != b
    ensures Decimal(a) != Decimal(b)
  {
  }
}
