/** The reply segmenter of discord_bot.py: `split_content` (nested in
    `chunk_reply`) cuts a long answer into parts at preferred break points and
    keeps markdown code fences (CommonMark section 4.5) balanced by adding
    synthetic fence lines; `chunk_reply` decides between one message and the
    parts. The regular expressions of the source are spelled out as scans. */
module Segmenter {
  import opened PyText

  /** A fence line start as `split_content` counts it: a newline then three backticks. */
  const Fence := "\n```"
  /** The adjacent literals `r'\n###'` and `r'\n\*\*'` concatenate into ONE pattern. */
  const TitleBreak := "\n###\n**"
  /** The hard-coded far edge of both search windows (it ignores `max_length`). */
  const Window := 2000
  /** Discord's message size limit used by `chunk_reply`. */
  const ChunkSize := 2000

  /** A regular expression of the break-pattern list: a literal text, or `\n\d+\.\s`. */
  datatype BreakPattern = Literal(text: string) | NumberedItem

  const BreakPatterns: seq<BreakPattern> := [Literal(TitleBreak), NumberedItem]
  const SoftBreaks: seq<string> := ["\n", ". ", " "]

  predicate Admissible(pat: BreakPattern)
  {
    pat.Literal? ==> |pat.text| > 0
  }

  predicate IsDigit(c: char)
  {
    '0' <= c <= '9'
  }

  /** The characters `\s` matches in a Python str pattern. */
  predicate IsSpace(c: char)
  {
    ('\t' <= c <= '\r') || ('\U{1C}' <= c <= '\U{1F}') || c == ' ' || c == '\U{85}' || c == '\U{A0}'
    || c == '\U{1680}' || ('\U{2000}' <= c <= '\U{200A}') || c == '\U{2028}' || c == '\U{2029}'
    || c == '\U{202F}' || c == '\U{205F}' || c == '\U{3000}'
  }

  /** Length of the run of digits starting at `j`. */
  function DigitRun(w: string, j: nat): (k: nat)
    ensures j + k <= |w| || k == 0
    ensures forall i :: j <= i < j + k ==> IsDigit(w[i])
    ensures j + k < |w| ==> !IsDigit(w[j + k])
    decreases |w| - j
  {
    if j < |w| && IsDigit(w[j]) then 1 + DigitRun(w, j + 1) else 0
  }

  /** Length of the match of `\n\d+\.\s` at `i`. `\d+` is greedy, and backing
      off cannot help since the next character must be the non-digit '.'. */
  function NumberedMatch(w: string, i: nat): Option<nat>
  {
    if i < |w| && w[i] == '\n' then
      var k := DigitRun(w, i + 1);
      if k >= 1 && i + k + 2 < |w| && w[i + 1 + k] == '.' && IsSpace(w[i + 2 + k]) then Some(k + 3)
      else None
    else None
  }

  /** `\n\d+\.\s` read off the text: a newline at `i`, `k` digits, a full stop
      and a white-space character. */
  predicate NumberedShape(w: string, i: nat, k: nat)
  {
    k >= 1 && i + k + 2 < |w| && w[i] == '\n' && (forall j :: i < j <= i + k ==> IsDigit(w[j]))
    && w[i + 1 + k] == '.' && IsSpace(w[i + 2 + k])
  }

  /** A digit run that ends before a non-digit has exactly the length of the run. */
  lemma DigitRunExact(w: string, j: nat, k: nat)
    requires j + k < |w| && !IsDigit(w[j + k])
    requires forall i :: j <= i < j + k ==> IsDigit(w[i])
    ensures DigitRun(w, j) == k
  {
  }

  /** Length of the match of `pat` at `i`, if it matches there. */
  function MatchAt(w: string, pat: BreakPattern, i: nat): (r: Option<nat>)
    requires Admissible(pat)
    ensures r.Some? ==> 1 <= r.value && i + r.value <= |w|
    ensures pat.Literal? ==> (r.Some? <==> OccursAt(w, pat.text, i)) && (r.Some? ==> r.value == |pat.text|)
  {
    match pat
    case Literal(t) => if OccursAt(w, t, i) then Some(|t|) else None
    case NumberedItem => NumberedMatch(w, i)
  }

  /** `\n\d+\.\s` matches at `i` exactly when the text there has its shape,
      and the match spans the newline, the digits, the stop and the space. */
  lemma MatchAtNumbered(w: string, i: nat)
    ensures MatchAt(w, NumberedItem, i).Some? <==> exists k :: NumberedShape(w, i, k)
    ensures var r := MatchAt(w, NumberedItem, i);
            r.Some? ==> r.value >= 3 && NumberedShape(w, i, r.value - 3)
  {
    assert MatchAt(w, NumberedItem, i) == NumberedMatch(w, i);
    if k :| NumberedShape(w, i, k) {
      DigitRunExact(w, i + 1, k);
    }
    if NumberedMatch(w, i).Some? {
      var k := DigitRun(w, i + 1);
      assert NumberedMatch(w, i).value - 3 == k;
      forall j | i < j <= i + k ensures IsDigit(w[j]) {
        assert i + 1 <= j < i + 1 + k;
      }
      assert NumberedShape(w, i, k);
    }
  }

  /** Start offsets of `re.finditer(pat, w)` from `from`: a left-to-right scan
      that resumes after the end of each match, so matches never overlap. */
  function FindIter(w: string, pat: BreakPattern, from: nat): (ms: seq<nat>)
    requires Admissible(pat)
    ensures forall i :: 0 <= i < |ms| ==> from <= ms[i] < |w| && MatchAt(w, pat, ms[i]).Some?
    decreases |w| - from
  {
    if from >= |w| then []
    else match MatchAt(w, pat, from)
      case Some(n) => [from] + FindIter(w, pat, from + n)
      case None => FindIter(w, pat, from + 1)
  }

  /** Each match in `ms` starts at or after the end of the one before it. */
  predicate InOrder(w: string, pat: BreakPattern, ms: seq<nat>)
    requires Admissible(pat)
  {
    forall i :: 0 <= i < |ms| - 1 ==> MatchAt(w, pat, ms[i]).Some? && ms[i] + MatchAt(w, pat, ms[i]).value <= ms[i + 1]
  }

  /** The matches come left to right and never overlap. */
  lemma {:induction false} FindIterOrdered(w: string, pat: BreakPattern, from: nat)
    requires Admissible(pat)
    ensures InOrder(w, pat, FindIter(w, pat, from))
    decreases |w| - from
  {
    if from < |w| {
      var next := FindIterStep(w, pat, from);
      FindIterOrdered(w, pat, next);
      if MatchAt(w, pat, from).Some? {
        InOrderCons(w, pat, from, FindIter(w, pat, next));
      }
    }
  }

  lemma InOrderCons(w: string, pat: BreakPattern, x: nat, rest: seq<nat>)
    requires Admissible(pat) && MatchAt(w, pat, x).Some?
    requires InOrder(w, pat, rest)
    requires |rest| > 0 ==> x + MatchAt(w, pat, x).value <= rest[0]
    ensures InOrder(w, pat, [x] + rest)
  {
    var ms := [x] + rest;
    forall i | 0 <= i < |ms| - 1 ensures MatchAt(w, pat, ms[i]).Some? && ms[i] + MatchAt(w, pat, ms[i]).value <= ms[i + 1] {
      if i > 0 {
        assert ms[i] == rest[i - 1] && ms[i + 1] == rest[i];
      }
    }
  }

  /** Some match in `ms` spans position `j`. */
  predicate Covers(w: string, pat: BreakPattern, ms: seq<nat>, j: nat)
    requires Admissible(pat)
  {
    exists i :: 0 <= i < |ms| && MatchAt(w, pat, ms[i]).Some? && ms[i] <= j < ms[i] + MatchAt(w, pat, ms[i]).value
  }

  /** No match is skipped: every position where the pattern matches lies in
      the span of a match the scan reports. */
  lemma {:induction false} FindIterComplete(w: string, pat: BreakPattern, from: nat, j: nat)
    requires Admissible(pat)
    requires from <= j < |w| && MatchAt(w, pat, j).Some?
    ensures Covers(w, pat, FindIter(w, pat, from), j)
    decreases |w| - from
  {
    var next := FindIterStep(w, pat, from);
    if MatchAt(w, pat, from).Some? {
      if next <= j {
        FindIterComplete(w, pat, next, j);
      }
      CoversCons(w, pat, from, FindIter(w, pat, next), j);
    } else {
      assert j != from;
      FindIterComplete(w, pat, next, j);
    }
  }

  /** One step of the scan: where it resumes after `from`. */
  lemma FindIterStep(w: string, pat: BreakPattern, from: nat) returns (next: nat)
    requires Admissible(pat) && from < |w|
    ensures from < next
    ensures MatchAt(w, pat, from).Some? ==> next == from + MatchAt(w, pat, from).value
                                            && FindIter(w, pat, from) == [from] + FindIter(w, pat, next)
    ensures MatchAt(w, pat, from).None? ==> next == from + 1 && FindIter(w, pat, from) == FindIter(w, pat, next)
  {
    next := if MatchAt(w, pat, from).Some? then from + MatchAt(w, pat, from).value else from + 1;
  }

  lemma CoversCons(w: string, pat: BreakPattern, x: nat, rest: seq<nat>, j: nat)
    requires Admissible(pat) && MatchAt(w, pat, x).Some?
    requires x <= j < x + MatchAt(w, pat, x).value || Covers(w, pat, rest, j)
    ensures Covers(w, pat, [x] + rest, j)
  {
    var ms := [x] + rest;
    if x <= j < x + MatchAt(w, pat, x).value {
      assert ms[0] == x;
    } else {
      var i :| 0 <= i < |rest| && MatchAt(w, pat, rest[i]).Some? && rest[i] <= j < rest[i] + MatchAt(w, pat, rest[i]).value;
      assert ms[i + 1] == rest[i];
    }
  }

  predicate HasMatch(w: string, pat: BreakPattern, from: nat)
    requires Admissible(pat)
  {
    exists j :: from <= j < |w| && MatchAt(w, pat, j).Some?
  }

  /** `re.finditer` finds something exactly when the pattern matches somewhere. */
  lemma {:induction false} FindIterEmptyIff(w: string, pat: BreakPattern, from: nat)
    requires Admissible(pat)
    ensures FindIter(w, pat, from) == [] <==> !HasMatch(w, pat, from)
    decreases |w| - from
  {
    if from < |w| {
      var next := FindIterStep(w, pat, from);
      if MatchAt(w, pat, from).None? {
        FindIterEmptyIff(w, pat, next);
        if HasMatch(w, pat, from) {
          var j :| from <= j < |w| && MatchAt(w, pat, j).Some?;
          assert j != from;
          assert HasMatch(w, pat, from + 1);
        }
      }
    }
  }

  /** The suffix of `t` from `k` is also a prefix of `t`. */
  predicate SelfOverlapAt(t: string, k: nat)
    requires k <= |t|
  {
    t[k..] == t[..|t| - k]
  }

  /** No proper suffix of `t` is also a prefix of it, so two occurrences of `t`
      can never overlap. */
  predicate BorderFree(t: string)
  {
    forall k: nat :: 0 < k < |t| ==> !SelfOverlapAt(t, k)
  }

  lemma BorderFreeFence()
    ensures BorderFree(Fence)
  {
    forall k: nat | 0 < k < |Fence| ensures !SelfOverlapAt(Fence, k) {
      assert Fence[k..][0] == '`';
    }
  }

  lemma BorderFreeTitle()
    ensures BorderFree(TitleBreak)
  {
    forall k: nat | 0 < k < |TitleBreak| ensures !SelfOverlapAt(TitleBreak, k) {
      if k == 4 {
        assert TitleBreak[k..][1] == '*';
      } else {
        assert TitleBreak[k..][0] != '\n';
      }
    }
  }

  lemma BorderFreeApart(w: string, t: string, i: nat, j: nat)
    requires BorderFree(t) && OccursAt(w, t, i) && OccursAt(w, t, j) && i < j
    ensures i + |t| <= j
  {
    if j < i + |t| {
      var k := j - i;
      forall m | 0 <= m < |t| - k ensures t[k..][m] == t[..|t| - k][m] {
        assert t[k + m] == w[i + k + m];
        assert t[m] == w[j + m];
      }
      assert SelfOverlapAt(t, k);
      assert false;
    }
  }

  lemma {:induction false} OccurrencesSkip(w: string, t: string, a: nat, b: nat)
    requires |t| > 0 && a <= b
    requires forall j :: a <= j < b ==> !OccursAt(w, t, j)
    ensures Occurrences(w, t, a) == Occurrences(w, t, b)
    decreases b - a
  {
    if a < b {
      OccurrencesMiss(w, t, a);
      OccurrencesSkip(w, t, a + 1, b);
    }
  }

  /** For a literal that cannot overlap itself, `re.finditer` sees every occurrence. */
  lemma {:induction false} FindIterLiteral(w: string, t: string, from: nat)
    requires |t| > 0 && BorderFree(t)
    ensures FindIter(w, Literal(t), from) == Occurrences(w, t, from)
    decreases |w| - from
  {
    if from >= |w| {
      assert Occurrences(w, t, from) == [];
    } else if OccursAt(w, t, from) {
      FindIterHit(w, t, from);
      OccurrencesHit(w, t, from);
      FindIterLiteral(w, t, from + |t|);
      OccurrencesPastHit(w, t, from);
    } else {
      FindIterMiss(w, t, from);
      OccurrencesMiss(w, t, from);
      FindIterLiteral(w, t, from + 1);
    }
  }

  /** `re.finditer` at an occurrence of a literal: record it and resume past it. */
  lemma FindIterHit(w: string, t: string, from: nat)
    requires |t| > 0 && from < |w| && OccursAt(w, t, from)
    ensures FindIter(w, Literal(t), from) == [from] + FindIter(w, Literal(t), from + |t|)
  {
    assert MatchAt(w, Literal(t), from) == Some(|t|);
  }

  /** `re.finditer` where a literal does not occur: move on by one. */
  lemma FindIterMiss(w: string, t: string, from: nat)
    requires |t| > 0 && from < |w| && !OccursAt(w, t, from)
    ensures FindIter(w, Literal(t), from) == FindIter(w, Literal(t), from + 1)
  {
    assert MatchAt(w, Literal(t), from) == None;
  }

  lemma OccurrencesHit(w: string, t: string, from: nat)
    requires |t| > 0 && OccursAt(w, t, from)
    ensures Occurrences(w, t, from) == [from] + Occurrences(w, t, from + 1)
  {
  }

  lemma OccurrencesMiss(w: string, t: string, from: nat)
    requires |t| > 0 && !OccursAt(w, t, from)
    ensures Occurrences(w, t, from) == Occurrences(w, t, from + 1)
  {
    if from + |t| > |w| {
      assert Occurrences(w, t, from + 1) == [];
    } else {
      assert Occurrences(w, t, from) == [] + Occurrences(w, t, from + 1);
    }
  }

  /** Past an occurrence of a border-free literal, the next one starts no
      earlier than its end. */
  lemma OccurrencesPastHit(w: string, t: string, i: nat)
    requires |t| > 0 && BorderFree(t) && OccursAt(w, t, i)
    ensures Occurrences(w, t, i + 1) == Occurrences(w, t, i + |t|)
  {
    NoOccurrenceInside(w, t, i);
    OccurrencesSkip(w, t, i + 1, i + |t|);
  }

  lemma NoOccurrenceInside(w: string, t: string, i: nat)
    requires BorderFree(t) && OccursAt(w, t, i)
    ensures forall j :: i < j < i + |t| ==> !OccursAt(w, t, j)
  {
    forall j | i < j < i + |t| ensures !OccursAt(w, t, j) {
      if OccursAt(w, t, j) { BorderFreeApart(w, t, i, j); }
    }
  }

  /** The last element of the occurrence list is the `rfind` position. */
  lemma LastOccurrenceIsRFind(w: string, t: string)
    requires |t| > 0
    ensures var occ := Occurrences(w, t, 0);
            occ != [] <==> Contains(w, t)
    ensures var occ := Occurrences(w, t, 0);
            occ != [] ==> occ[|occ| - 1] == RFind(w, t, 0, |w|)
  {
    OccurrencesNonEmpty(w, t);
    var occ := Occurrences(w, t, 0);
    if occ != [] {
      LastOccurrence(w, t, occ);
    }
  }

  lemma OccurrencesNonEmpty(w: string, t: string)
    requires |t| > 0
    ensures Occurrences(w, t, 0) != [] <==> Contains(w, t)
  {
    var occ := Occurrences(w, t, 0);
    if Contains(w, t) {
      var i :| 0 <= i <= |w| && OccursAt(w, t, i);
      assert i in occ;
    }
    if occ != [] {
      assert occ[0] in occ;
    }
  }

  lemma LastOccurrence(w: string, t: string, occ: seq<nat>)
    requires |t| > 0 && occ == Occurrences(w, t, 0) && occ != []
    ensures occ[|occ| - 1] == RFind(w, t, 0, |w|)
  {
    var last := occ[|occ| - 1];
    assert OccursAt(w, t, last) by { assert last in occ; }
    var r := RFind(w, t, 0, |w|);
    assert r >= last;
    assert r in occ;
    LastIsLargest(occ, r);
  }

  /** A concrete case of the non-overlapping scan: the trailing `\s` of the
      first numbered item eats the newline that starts the second, so only
      one match is reported although the second item would match on its own. */
  lemma NumberedItemsCanHideEachOther()
    ensures MatchAt("\n1.\n2. ", NumberedItem, 3).Some?
    ensures FindIter("\n1.\n2. ", NumberedItem, 0) == [0]
  {
    var w := "\n1.\n2. ";
    assert DigitRun(w, 1) == 1 by { assert DigitRun(w, 2) == 0; }
    assert DigitRun(w, 4) == 1 by { assert DigitRun(w, 5) == 0; }
    assert NumberedMatch(w, 0) == Some(4);
    assert NumberedMatch(w, 4) == None;
    assert NumberedMatch(w, 5) == None;
    assert NumberedMatch(w, 6) == None;
    assert FindIter(w, NumberedItem, 7) == [];
  }

  /** The first pattern of `pats` that matches anywhere in `w`, and where its
      last `finditer` match starts (the structural-break loop). */
  function LastMatchOfFirst(w: string, pats: seq<BreakPattern>): (r: Option<nat>)
    requires forall p <- pats :: Admissible(p)
    ensures r.Some? ==> r.value < |w|
  {
    if pats == [] then None
    else
      var ms := FindIter(w, pats[0], 0);
      if ms != [] then Some(ms[|ms| - 1]) else LastMatchOfFirst(w, pats[1..])
  }

  /** `content.rfind(s, lo, hi)` for the first separator `s` of `seps` found (the soft-break loop). */
  function LastSoftBreak(c: string, seps: seq<string>, lo: nat, hi: nat): (r: int)
    requires forall s <- seps :: |s| > 0
    ensures r == -1 || (lo <= r && r < Min(hi, |c|))
  {
    if seps == [] then -1
    else
      var t := RFind(c, seps[0], lo, hi);
      if t != -1 then t else LastSoftBreak(c, seps[1..], lo, hi)
  }

  /** The largest step one iteration can take. */
  function SpanBound(maxLength: nat): nat
  {
    if maxLength > Window then maxLength else Window
  }

  /** The split point before fence correction, from the last consumed offset `li`. */
  function ChooseSplit(c: string, li: nat, maxLength: nat): (ns: nat)
    requires 0 < maxLength && li + maxLength < |c|
    ensures li < ns < |c|
    ensures ns - li <= SpanBound(maxLength)
  {
    var w := PySlice(c, li + 500, li + Window);
    PySliceNonNegative(c, li + 500, li + Window);
    match LastMatchOfFirst(w, BreakPatterns)
    case Some(m) => li + 500 + m
    case None =>
      var t := LastSoftBreak(c, SoftBreaks, li + 1500, li + Window);
      if t != -1 then t else li + maxLength
  }

  /** The first rule's matches: `re.finditer` of the title break sees every
      occurrence of it, so its last match is the last occurrence. */
  lemma TitleMatchesAreOccurrences(w: string)
    ensures var titles := FindIter(w, Literal(TitleBreak), 0);
            (titles != [] <==> Contains(w, TitleBreak))
            && (titles != [] ==> titles[|titles| - 1] == RFind(w, TitleBreak, 0, |w|))
  {
    BorderFreeTitle();
    FindIterLiteral(w, TitleBreak, 0);
    LastOccurrenceIsRFind(w, TitleBreak);
  }

  lemma StructuralBreakOrder(w: string)
    ensures var titles := FindIter(w, Literal(TitleBreak), 0);
            var items := FindIter(w, NumberedItem, 0);
            LastMatchOfFirst(w, BreakPatterns)
              == if titles != [] then Some(titles[|titles| - 1])
                 else if items != [] then Some(items[|items| - 1])
                 else None
  {
    var titles := FindIter(w, Literal(TitleBreak), 0);
    var items := FindIter(w, NumberedItem, 0);
    assert BreakPatterns[0] == Literal(TitleBreak);
    assert BreakPatterns[1..] == [NumberedItem];
    assert LastMatchOfFirst(w, BreakPatterns)
        == if titles != [] then Some(titles[|titles| - 1]) else LastMatchOfFirst(w, [NumberedItem]);
    assert [NumberedItem][1..] == [];
    assert LastMatchOfFirst(w, [NumberedItem])
        == if items != [] then Some(items[|items| - 1]) else LastMatchOfFirst(w, []);
  }

  lemma SoftBreakOrder(c: string, lo: nat, hi: nat)
    ensures var nl := RFind(c, "\n", lo, hi);
            var dot := RFind(c, ". ", lo, hi);
            var sp := RFind(c, " ", lo, hi);
            LastSoftBreak(c, SoftBreaks, lo, hi)
              == if nl != -1 then nl else if dot != -1 then dot else sp
  {
    var nl := RFind(c, "\n", lo, hi);
    var dot := RFind(c, ". ", lo, hi);
    var sp := RFind(c, " ", lo, hi);
    assert SoftBreaks[0] == "\n";
    assert SoftBreaks[1..] == [". ", " "];
    assert LastSoftBreak(c, SoftBreaks, lo, hi)
        == if nl != -1 then nl else LastSoftBreak(c, [". ", " "], lo, hi);
    assert [". ", " "][1..] == [" "];
    assert LastSoftBreak(c, [". ", " "], lo, hi)
        == if dot != -1 then dot else LastSoftBreak(c, [" "], lo, hi);
    assert [" "][1..] == [];
    assert LastSoftBreak(c, [" "], lo, hi) == if sp != -1 then sp else LastSoftBreak(c, [], lo, hi);
  }

  /** The split point is chosen by priority, each rule consulted only when the
      ones before it find nothing: the last title break in the window
      `[li+500, li+2000)`; else the last `finditer` match of a numbered item
      there; else the last "\n", else ". ", else " " lying wholly in
      `[li+1500, li+2000)`; else `li + maxLength`. */
  lemma ChooseSplitPriority(c: string, li: nat, maxLength: nat)
    requires 0 < maxLength && li + maxLength < |c|
    ensures var w := PySlice(c, li + 500, li + Window);
            var ns := ChooseSplit(c, li, maxLength);
            var nl := RFind(c, "\n", li + 1500, li + Window);
            var dot := RFind(c, ". ", li + 1500, li + Window);
            var sp := RFind(c, " ", li + 1500, li + Window);
            var items := FindIter(w, NumberedItem, 0);
            (Contains(w, TitleBreak) ==> ns == li + 500 + RFind(w, TitleBreak, 0, |w|))
            && (!Contains(w, TitleBreak) && HasMatch(w, NumberedItem, 0) ==>
                  items != [] && ns == li + 500 + items[|items| - 1])
            && (!Contains(w, TitleBreak) && !HasMatch(w, NumberedItem, 0) ==>
                  ns == (if nl != -1 then nl
                         else if dot != -1 then dot
                         else if sp != -1 then sp
                         else li + maxLength))
  {
    var w := PySlice(c, li + 500, li + Window);
    TitleMatchesAreOccurrences(w);
    FindIterEmptyIff(w, NumberedItem, 0);
    StructuralBreakOrder(w);
    SoftBreakOrder(c, li + 1500, li + Window);
  }

  /** Python's `in_code_block`, `code_block_id` and `last_index`. */
  datatype SegState = SegState(lastIndex: nat, inCode: bool, codeId: string)

  const Initial := SegState(0, false, "")

  /** One emitted part: the raw slice `content[start..end]`, preceded by a
      synthetic fence header re-opening block `reopen` when that is present,
      and followed by a synthetic closing fence when `closes` holds. */
  datatype Segment = Segment(reopen: Option<string>, start: nat, end: nat, closes: bool)

  /** "\n```" + id + "\n": the header that re-opens a block in a new part. */
  function Header(id: string): string
  {
    Fence + id + "\n"
  }

  /** `content[li+4 : content.find('\n', li+4, ns)]`: the fence's info string.
      When no newline follows before `ns`, find gives -1 and this is `content[li+4:-1]`. */
  function CodeId(c: string, li: nat, ns: nat): (id: string)
    ensures li + 4 <= |c| ==> li + 4 + |id| <= |c| && id == c[li + 4..li + 4 + |id|]
  {
    PySlice(c, li + 4, Find(c, "\n", li + 4, ns))
  }

  /** The info string runs from after the fence to the next newline before
      `ns`; without one, it runs to the next-to-last character of the text. */
  lemma CodeIdIsInfoString(c: string, li: nat, ns: nat)
    requires OccursAt(c, Fence, li) && li + 4 <= ns <= |c|
    ensures var id := CodeId(c, li, ns);
            var nl := Find(c, "\n", li + 4, ns);
            (nl != -1 ==> id == c[li + 4..nl] && !Contains(id, "\n") && c[li + 4 + |id|] == '\n')
            && (nl == -1 ==> id == c[li + 4..if li + 4 <= |c| - 1 then |c| - 1 else li + 4])
  {
    var nl := Find(c, "\n", li + 4, ns);
    var id := CodeId(c, li, ns);
    if nl != -1 {
      assert id == c[li + 4..nl];
      forall j | 0 <= j < |id| ensures id[j] != '\n' {
        OccursAtChar(c, '\n', li + 4 + j);
      }
      NotContainsChar(id, '\n');
      OccursAtChar(c, '\n', nl);
    }
  }

  /** One pass of the `while` loop that does not finish the text. */
  function Step(c: string, maxLength: nat, st: SegState): (r: (Segment, SegState))
    requires 0 < maxLength && st.lastIndex + maxLength < |c|
    ensures r.0.start == st.lastIndex < r.0.end == r.1.lastIndex < |c|
    ensures r.0.end - r.0.start <= SpanBound(maxLength)
  {
    FenceStep(c, st, ChooseSplit(c, st.lastIndex, maxLength))
  }

  /** The fence handling of one pass, once the split point `ns` is chosen:
      the fences `re.finditer` reports in `content[li:ns]` decide whether the
      part is decorated, whether the split is pulled back, and whether the
      next part starts inside a block. */
  function FenceStep(c: string, st: SegState, ns: nat): (r: (Segment, SegState))
    requires st.lastIndex < ns <= |c|
    ensures r.0.start == st.lastIndex < r.0.end == r.1.lastIndex <= ns
  {
    var li := st.lastIndex;
    var fences := FindIter(c[li..ns], Literal(Fence), 0);
    if !st.inCode then
      if |fences| % 2 == 0 then
        (Segment(None, li, ns, false), SegState(ns, false, st.codeId))
      else if fences[|fences| - 1] == 0 then
        (Segment(None, li, ns, true), SegState(ns, true, CodeId(c, li, ns)))
      else
        var pulled := li + fences[|fences| - 1];
        (Segment(None, li, pulled, false), SegState(pulled, false, st.codeId))
    else if |fences| % 2 == 0 then
      (Segment(Some(st.codeId), li, ns, true), SegState(ns, true, st.codeId))
    else
      (Segment(Some(st.codeId), li, ns, false), SegState(ns, false, ""))
  }

  /** Inside a block the window's fence count decides: an even count keeps
      the block open past this part, which is wrapped in a re-opening header
      and a closing fence; an odd count closes it inside the part, which only
      gets the header, and forgets the info string. The split is never moved. */
  lemma StepInsideBlock(c: string, st: SegState, ns: nat)
    requires st.lastIndex < ns <= |c| && st.inCode
    ensures var li := st.lastIndex;
            var n := |Occurrences(c[li..ns], Fence, 0)|;
            FenceStep(c, st, ns)
              == if n % 2 == 0 then (Segment(Some(st.codeId), li, ns, true), SegState(ns, true, st.codeId))
                 else (Segment(Some(st.codeId), li, ns, false), SegState(ns, false, ""))
  {
    WindowFences(c, st.lastIndex, ns);
  }

  /** Outside a block an even fence count leaves the part plain and the split where it was. */
  lemma StepBalancedOutside(c: string, st: SegState, ns: nat)
    requires st.lastIndex < ns <= |c| && !st.inCode
    requires |Occurrences(c[st.lastIndex..ns], Fence, 0)| % 2 == 0
    ensures FenceStep(c, st, ns) == (Segment(None, st.lastIndex, ns, false), SegState(ns, false, st.codeId))
  {
    WindowFences(c, st.lastIndex, ns);
  }

  /** `segs` cut `c` into consecutive slices starting at `from`. */
  predicate Chain(c: string, segs: seq<Segment>, from: nat)
    decreases |segs|
  {
    segs == [] || (segs[0].start == from <= segs[0].end <= |c| && Chain(c, segs[1..], segs[0].end))
  }

  /** Where the slices of a chain stop. */
  function ChainEnd(segs: seq<Segment>, from: nat): nat
    decreases |segs|
  {
    if segs == [] then from else ChainEnd(segs[1..], segs[0].end)
  }

  /** The segments `split_content` produces from state `st` onward. */
  function Segments(c: string, maxLength: nat, st: SegState): (segs: seq<Segment>)
    requires 0 < maxLength && st.lastIndex <= |c|
    ensures Chain(c, segs, st.lastIndex)
    ensures st.lastIndex < |c| <==> segs != []
    decreases |c| - st.lastIndex
  {
    if st.lastIndex >= |c| then []
    else if st.lastIndex + maxLength >= |c| then
      // `content[last_index:next_split]` is empty here, since `next_split == last_index`
      if st.inCode then [Segment(Some(st.codeId), st.lastIndex, st.lastIndex, false)]
      else [Segment(None, st.lastIndex, |c|, false)]
    else
      var (seg, next) := Step(c, maxLength, st);
      [seg] + Segments(c, maxLength, next)
  }

  function Render(c: string, seg: Segment): string
    requires seg.start <= seg.end <= |c|
  {
    (if seg.reopen.Some? then Header(seg.reopen.value) else "")
    + c[seg.start..seg.end]
    + (if seg.closes then Fence else "")
  }

  function RenderAll(c: string, segs: seq<Segment>, from: nat): (parts: seq<string>)
    requires Chain(c, segs, from)
    ensures |parts| == |segs|
    decreases |segs|
  {
    if segs == [] then [] else [Render(c, segs[0])] + RenderAll(c, segs[1..], segs[0].end)
  }

  /** The raw slices of a chain, without any synthetic fence text. */
  function RawText(c: string, segs: seq<Segment>, from: nat): string
    requires Chain(c, segs, from)
    decreases |segs|
  {
    if segs == [] then "" else c[segs[0].start..segs[0].end] + RawText(c, segs[1..], segs[0].end)
  }

  /** `split_content(content, max_length)` */
  function Split(c: string, maxLength: nat): (parts: seq<string>)
    requires 0 < maxLength
    ensures parts == [] <==> c == []
  {
    RenderAll(c, Segments(c, maxLength, Initial), 0)
  }

  /** Short text passes through: a non-empty text of at most `maxLength`
      characters comes back as the one part `[c]`. */
  lemma SplitShort(c: string, maxLength: nat)
    requires 0 < |c| <= maxLength
    ensures Split(c, maxLength) == [c]
  {
    var seg := Segment(None, 0, |c|, false);
    assert Segments(c, maxLength, Initial) == [seg];
    assert Render(c, seg) == c[0..|c|] == c;
    assert RenderAll(c, [seg], 0) == [Render(c, seg)] + RenderAll(c, [], |c|);
  }

  lemma {:induction false} RawTextIsSlice(c: string, segs: seq<Segment>, from: nat)
    requires Chain(c, segs, from) && from <= |c|
    ensures from <= ChainEnd(segs, from) <= |c|
    ensures RawText(c, segs, from) == c[from..ChainEnd(segs, from)]
    decreases |segs|
  {
    if segs != [] {
      RawTextIsSlice(c, segs[1..], segs[0].end);
      assert c[from..ChainEnd(segs, from)]
          == c[from..segs[0].end] + c[segs[0].end..ChainEnd(segs[1..], segs[0].end)];
    }
  }

  /** The last part reached while still inside a block is only a header, and
      the text after it is lost. */
  predicate DropsTail(c: string, segs: seq<Segment>)
  {
    segs != [] && segs[|segs| - 1].reopen.Some? && !segs[|segs| - 1].closes
    && segs[|segs| - 1].start == segs[|segs| - 1].end < |c|
  }

  lemma {:induction false} SegmentsCover(c: string, maxLength: nat, st: SegState)
    requires 0 < maxLength && st.lastIndex <= |c|
    ensures var segs := Segments(c, maxLength, st);
            ChainEnd(segs, st.lastIndex) == |c| || DropsTail(c, segs)
    ensures var segs := Segments(c, maxLength, st);
            DropsTail(c, segs) ==> ChainEnd(segs, st.lastIndex) == segs[|segs| - 1].end
    decreases |c| - st.lastIndex
  {
    var segs := Segments(c, maxLength, st);
    if st.lastIndex >= |c| {
    } else if st.lastIndex + maxLength >= |c| {
    } else {
      var (seg, next) := Step(c, maxLength, st);
      SegmentsCover(c, maxLength, next);
      var rest := Segments(c, maxLength, next);
      assert segs == [seg] + rest;
      assert segs[1..] == rest;
      assert rest != [] ==> segs[|segs| - 1] == rest[|rest| - 1];
    }
  }

  /** Round trip: with the synthetic fence text stripped, the parts are
      consecutive slices of the text from its start, and they reproduce the
      whole text unless the final part was reached inside a block, in which
      case exactly the text after that part's offset is lost. */
  lemma SplitRoundTrip(c: string, maxLength: nat)
    requires 0 < maxLength
    ensures var segs := Segments(c, maxLength, Initial);
            var e := ChainEnd(segs, 0);
            e <= |c| && RawText(c, segs, 0) + c[e..] == c
            && (e < |c| ==> DropsTail(c, segs))
  {
    var segs := Segments(c, maxLength, Initial);
    RawTextIsSlice(c, segs, 0);
    SegmentsCover(c, maxLength, Initial);
    var e := ChainEnd(segs, 0);
    SliceJoin(c, e);
  }

  lemma SliceJoin(c: string, e: nat)
    requires e <= |c|
    ensures c[0..e] + c[e..] == c
  {
    assert c[0..e] == c[..e];
  }

  /** The segments with the final in-block part repaired: it takes the rest
      of the text, `content[last_index:]`, as the final plain part does,
      instead of the empty `content[last_index:next_split]`. Every other
      part is the one `Segments` yields. */
  function FixedSegments(c: string, maxLength: nat, st: SegState): (segs: seq<Segment>)
    requires 0 < maxLength && st.lastIndex <= |c|
    ensures Chain(c, segs, st.lastIndex)
    decreases |c| - st.lastIndex
  {
    if st.lastIndex >= |c| then []
    else if st.lastIndex + maxLength >= |c| then
      [Segment(if st.inCode then Some(st.codeId) else None, st.lastIndex, |c|, false)]
    else
      var (seg, next) := Step(c, maxLength, st);
      [seg] + FixedSegments(c, maxLength, next)
  }

  lemma {:induction false} FixedSegmentsCover(c: string, maxLength: nat, st: SegState)
    requires 0 < maxLength && st.lastIndex <= |c|
    ensures ChainEnd(FixedSegments(c, maxLength, st), st.lastIndex) == |c|
    decreases |c| - st.lastIndex
  {
    if st.lastIndex < |c| && st.lastIndex + maxLength < |c| {
      var (seg, next) := Step(c, maxLength, st);
      FixedSegmentsCover(c, maxLength, next);
      var segs := FixedSegments(c, maxLength, st);
      assert segs == [seg] + FixedSegments(c, maxLength, next);
      assert segs[1..] == FixedSegments(c, maxLength, next);
    }
  }

  /** Round trip of the repaired segmenter: with the synthetic fence text
      stripped, the parts reproduce the whole text, inside a block or not. */
  lemma FixedSplitRoundTrip(c: string, maxLength: nat)
    requires 0 < maxLength
    ensures RawText(c, FixedSegments(c, maxLength, Initial), 0) == c
  {
    var segs := FixedSegments(c, maxLength, Initial);
    FixedSegmentsCover(c, maxLength, Initial);
    RawTextIsSlice(c, segs, 0);
    assert c[0..|c|] == c;
  }

  /** Every raw slice is at most `bound` characters long. */
  predicate SpansBounded(segs: seq<Segment>, bound: nat)
  {
    forall i :: 0 <= i < |segs| ==> segs[i].end - segs[i].start <= bound
  }

  /** Every part but the last moves `last_index` strictly forward. */
  predicate Advancing(segs: seq<Segment>)
  {
    forall i :: 0 <= i < |segs| - 1 ==> segs[i].start < segs[i].end
  }

  /** Every loop iteration moves `last_index` forward by 1 to `SpanBound`
      characters (2000 for the default `max_length`), and every raw slice is
      at most that long; the synthetic fence text comes on top. */
  lemma {:induction false} SegmentsBounded(c: string, maxLength: nat, st: SegState)
    requires 0 < maxLength && st.lastIndex <= |c|
    ensures SpansBounded(Segments(c, maxLength, st), SpanBound(maxLength))
    ensures Advancing(Segments(c, maxLength, st))
    decreases |c| - st.lastIndex
  {
    if st.lastIndex < |c| && st.lastIndex + maxLength < |c| {
      var r := Step(c, maxLength, st);
      SegmentsBounded(c, maxLength, r.1);
      var rest := Segments(c, maxLength, r.1);
      var segs := [r.0] + rest;
      assert Segments(c, maxLength, st) == segs;
      forall i | 0 < i < |segs| ensures segs[i] == rest[i - 1] { }
    }
  }

  lemma FenceFreeWindow(c: string, a: nat, b: nat)
    requires a <= b <= |c| && !Contains(c, Fence)
    ensures FindIter(c[a..b], Literal(Fence), 0) == []
  {
    var w := c[a..b];
    FindIterEmptyIff(w, Literal(Fence), 0);
    if HasMatch(w, Literal(Fence), 0) {
      var j :| 0 <= j < |w| && MatchAt(w, Literal(Fence), j).Some?;
      WindowOccurrence(c, a, b, j);
      assert Contains(c, Fence);
    }
  }

  /** No part carries synthetic fence text. */
  predicate Undecorated(segs: seq<Segment>)
  {
    forall i :: 0 <= i < |segs| ==> segs[i].reopen.None? && !segs[i].closes
  }

  /** Outside a block, a window without fences yields a plain part. */
  lemma StepFenceFree(c: string, st: SegState, ns: nat)
    requires st.lastIndex < ns <= |c| && !st.inCode && !Contains(c, Fence)
    ensures FenceStep(c, st, ns) == (Segment(None, st.lastIndex, ns, false), SegState(ns, false, st.codeId))
  {
    FenceFreeWindow(c, st.lastIndex, ns);
  }

  /** Outside a block and without fences in the text, no part is decorated. */
  lemma {:induction false} FenceFreeParts(c: string, maxLength: nat, st: SegState)
    requires 0 < maxLength && st.lastIndex <= |c| && !st.inCode && !Contains(c, Fence)
    ensures Undecorated(Segments(c, maxLength, st))
    decreases |c| - st.lastIndex
  {
    if st.lastIndex < |c| && st.lastIndex + maxLength < |c| {
      var r := Step(c, maxLength, st);
      StepFenceFree(c, st, ChooseSplit(c, st.lastIndex, maxLength));
      FenceFreeParts(c, maxLength, r.1);
      var rest := Segments(c, maxLength, r.1);
      var segs := [r.0] + rest;
      assert Segments(c, maxLength, st) == segs;
      forall i | 0 < i < |segs| ensures segs[i] == rest[i - 1] { }
    }
  }

  /** Undecorated parts concatenate to the raw slices they render. */
  lemma {:induction false} ConcatUndecorated(c: string, segs: seq<Segment>, from: nat)
    requires Chain(c, segs, from) && Undecorated(segs)
    ensures Concat(RenderAll(c, segs, from)) == RawText(c, segs, from)
    decreases |segs|
  {
    if segs != [] {
      assert Undecorated(segs[1..]) by {
        forall i | 0 <= i < |segs| - 1 ensures segs[1..][i] == segs[i + 1] { }
      }
      ConcatUndecorated(c, segs[1..], segs[0].end);
      assert Render(c, segs[0]) == c[segs[0].start..segs[0].end];
    }
  }

  /** Without any "\n```" in the text nothing is decorated: the parts
      concatenate back to the text exactly, in order. */
  lemma SplitFenceFree(c: string, maxLength: nat)
    requires 0 < maxLength && !Contains(c, Fence)
    ensures Concat(Split(c, maxLength)) == c
  {
    var segs := Segments(c, maxLength, Initial);
    FenceFreeParts(c, maxLength, Initial);
    ConcatUndecorated(c, segs, 0);
    RawTextIsSlice(c, segs, 0);
    SegmentsCover(c, maxLength, Initial);
    assert !DropsTail(c, segs) by {
      if segs != [] { assert segs[|segs| - 1].reopen.None?; }
    }
  }

  /** The fences `re.finditer` counts in a window are exactly the
      occurrences of "\n```" in it, since that literal cannot overlap itself. */
  lemma WindowFences(c: string, li: nat, ns: nat)
    requires li <= ns <= |c|
    ensures FindIter(c[li..ns], Literal(Fence), 0) == Occurrences(c[li..ns], Fence, 0)
  {
    BorderFreeFence();
    FindIterLiteral(c[li..ns], Fence, 0);
  }

  /** Outside a block, an odd fence count whose last fence starts the window
      means that fence is the only one: the part opens that block, gets a
      closing fence, and the block's info string is remembered. */
  lemma StepOpensBlock(c: string, st: SegState, ns: nat)
    requires st.lastIndex < ns <= |c| && !st.inCode
    requires var occ := Occurrences(c[st.lastIndex..ns], Fence, 0);
             |occ| % 2 == 1 && occ[|occ| - 1] == 0
    ensures var li := st.lastIndex;
            |Occurrences(c[li..ns], Fence, 0)| == 1
            && FenceStep(c, st, ns) == (Segment(None, li, ns, true), SegState(ns, true, CodeId(c, li, ns)))
  {
    var li := st.lastIndex;
    WindowFences(c, li, ns);
    var occ := Occurrences(c[li..ns], Fence, 0);
    if |occ| >= 2 {
      assert false;
    }
  }

  /** Outside a block, an odd fence count whose last fence lies inside the
      window pulls the split back to that fence, which then starts the next
      part; the part cut off holds an even number of fences. */
  lemma StepPullsBack(c: string, st: SegState, ns: nat)
    requires st.lastIndex < ns <= |c| && !st.inCode
    requires var occ := Occurrences(c[st.lastIndex..ns], Fence, 0);
             |occ| % 2 == 1 && occ[|occ| - 1] != 0
    ensures var li := st.lastIndex;
            var occ := Occurrences(c[li..ns], Fence, 0);
            var pulled := li + occ[|occ| - 1];
            li < pulled < ns && OccursAt(c, Fence, pulled)
            && |Occurrences(c[li..pulled], Fence, 0)| % 2 == 0
            && FenceStep(c, st, ns) == (Segment(None, li, pulled, false), SegState(pulled, false, st.codeId))
  {
    PulledStep(c, st, ns);
    LastFenceInWindow(c, st.lastIndex, ns);
  }

  lemma PulledStep(c: string, st: SegState, ns: nat)
    requires st.lastIndex < ns <= |c| && !st.inCode
    requires var occ := Occurrences(c[st.lastIndex..ns], Fence, 0);
             |occ| % 2 == 1 && occ[|occ| - 1] != 0
    ensures var li := st.lastIndex;
            var occ := Occurrences(c[li..ns], Fence, 0);
            var pulled := li + occ[|occ| - 1];
            FenceStep(c, st, ns) == (Segment(None, li, pulled, false), SegState(pulled, false, st.codeId))
  {
    WindowFences(c, st.lastIndex, ns);
  }

  /** The last fence of a window with an odd, non-leading fence count is a
      fence of the text, and the window cut there holds an even count. */
  lemma LastFenceInWindow(c: string, li: nat, ns: nat)
    requires li <= ns <= |c|
    requires var occ := Occurrences(c[li..ns], Fence, 0);
             |occ| % 2 == 1 && occ[|occ| - 1] != 0
    ensures var occ := Occurrences(c[li..ns], Fence, 0);
            var m := occ[|occ| - 1];
            0 < m < ns - li && OccursAt(c, Fence, li + m)
            && |Occurrences(c[li..li + m], Fence, 0)| % 2 == 0
  {
    var occ := Occurrences(c[li..ns], Fence, 0);
    LastFence(c, li, ns, occ, occ[|occ| - 1]);
  }

  lemma LastFence(c: string, li: nat, ns: nat, occ: seq<nat>, m: nat)
    requires li <= ns <= |c| && occ == Occurrences(c[li..ns], Fence, 0)
    requires |occ| % 2 == 1 && m == occ[|occ| - 1] && m != 0
    ensures 0 < m < ns - li && OccursAt(c, Fence, li + m)
    ensures |Occurrences(c[li..li + m], Fence, 0)| % 2 == 0
  {
    var w := c[li..ns];
    assert OccursAt(w, Fence, m) by { assert m in occ; }
    WindowOccurrence(c, li, ns, m);
    PrefixFences(w, occ, m);
    EvenPrefix(c, li, ns, occ, m);
  }

  lemma EvenPrefix(c: string, li: nat, ns: nat, occ: seq<nat>, m: nat)
    requires li <= ns <= |c| && m <= ns - li && |occ| % 2 == 1
    requires Occurrences(c[li..ns][..m], Fence, 0) == occ[..|occ| - 1]
    ensures |Occurrences(c[li..li + m], Fence, 0)| % 2 == 0
  {
    assert c[li..li + m] == c[li..ns][..m];
  }

  /** A fence in a window is a fence of the text, shifted by the window start. */
  lemma WindowOccurrence(c: string, li: nat, ns: nat, m: nat)
    requires li <= ns <= |c| && OccursAt(c[li..ns], Fence, m)
    ensures OccursAt(c, Fence, li + m)
  {
    var w := c[li..ns];
    assert w[m] == c[li + m] && w[m + 1] == c[li + m + 1];
    assert w[m + 2] == c[li + m + 2] && w[m + 3] == c[li + m + 3];
    assert w[m..m + 4] == c[li + m..li + m + 4];
  }

  predicate Increasing(s: seq<nat>)
  {
    forall i, j :: 0 <= i < j < |s| ==> s[i] < s[j]
  }

  /** The head of an increasing sequence is its least element. */
  lemma HeadIsLeast(s: seq<nat>, x: nat)
    requires Increasing(s) && x in s
    ensures s[0] <= x
  {
    var i :| 0 <= i < |s| && s[i] == x;
    if i > 0 { assert s[0] < s[i]; }
  }

  /** The tail of an increasing sequence holds its elements other than the head. */
  lemma TailMembers(s: seq<nat>, x: nat)
    requires Increasing(s) && s != []
    ensures x in s[1..] <==> x in s && x != s[0]
  {
    if x in s[1..] {
      var j :| 0 <= j < |s| - 1 && s[1..][j] == x;
      assert s[j + 1] == x && s[0] < s[j + 1];
    }
    if x in s && x != s[0] {
      var i :| 0 <= i < |s| && s[i] == x;
      assert s[1..][i - 1] == x;
    }
  }

  /** Two strictly increasing sequences with the same elements are equal. */
  lemma {:induction false} IncreasingSameElements(a: seq<nat>, b: seq<nat>)
    requires Increasing(a) && Increasing(b)
    requires forall x :: x in a <==> x in b
    ensures a == b
    decreases |a|
  {
    assert b != [] ==> b[0] in a;
    if a != [] {
      assert a[0] in b;
      HeadIsLeast(a, b[0]);
      HeadIsLeast(b, a[0]);
      forall x ensures x in a[1..] <==> x in b[1..] {
        TailMembers(a, x);
        TailMembers(b, x);
      }
      IncreasingSameElements(a[1..], b[1..]);
      assert a == [a[0]] + a[1..] && b == [b[0]] + b[1..];
    }
  }

  /** The occurrences of "\n```" before the last one at `m` are exactly the
      occurrences inside `w[..m]`. */
  lemma PrefixFences(w: string, occ: seq<nat>, m: nat)
    requires occ == Occurrences(w, Fence, 0) && occ != [] && m == occ[|occ| - 1]
    requires m <= |w|
    ensures Occurrences(w[..m], Fence, 0) == occ[..|occ| - 1]
  {
    var pre := Occurrences(w[..m], Fence, 0);
    var want := occ[..|occ| - 1];
    assert OccursAt(w, Fence, m) by { assert m in occ; }
    forall j | j in pre ensures j in want {
      PrefixOccurrence(w, m, j);
      assert j in occ;
      LastIsLargest(occ, j);
    }
    forall j | j in want ensures j in pre {
      assert j in occ && j < m by { LastIsLargest(occ, j); }
      PrefixKeeps(w, m, j);
    }
    IncreasingSameElements(pre, want);
  }

  /** In a strictly increasing sequence every element other than the last
      is smaller than the last and remains once the last is dropped. */
  lemma LastIsLargest(s: seq<nat>, x: nat)
    requires s != [] && forall i, j :: 0 <= i < j < |s| ==> s[i] < s[j]
    ensures x in s && x != s[|s| - 1] ==> x in s[..|s| - 1] && x < s[|s| - 1]
    ensures x in s[..|s| - 1] ==> x in s && x < s[|s| - 1]
  {
    if x in s && x != s[|s| - 1] {
      var k :| 0 <= k < |s| && s[k] == x;
      assert s[..|s| - 1][k] == x;
    }
    if x in s[..|s| - 1] {
      var k :| 0 <= k < |s| - 1 && s[..|s| - 1][k] == x;
      assert s[k] == x;
    }
  }

  /** An occurrence inside a prefix is an occurrence in the whole text. */
  lemma PrefixOccurrence(w: string, m: nat, j: nat)
    requires m <= |w| && OccursAt(w[..m], Fence, j)
    ensures OccursAt(w, Fence, j) && j + |Fence| <= m
  {
    assert w[..m][j..j + 4] == w[j..j + 4];
  }

  /** A fence that starts before another fence ends before it, so it lies
      inside the prefix up to that other fence. */
  lemma PrefixKeeps(w: string, m: nat, j: nat)
    requires OccursAt(w, Fence, j) && OccursAt(w, Fence, m) && j < m
    ensures OccursAt(w[..m], Fence, j)
  {
    BorderFreeFence();
    BorderFreeApart(w, Fence, j, m);
    assert w[..m][j..j + 4] == w[j..j + 4];
  }

  /** The split-point search of one pass of `split_content`: the
      structural-break patterns, then the soft breaks, each list tried in
      order until one finds something, else `last_index + max_length`. */
  method FindGoodSplit(content: string, lastIndex: nat, maxLength: nat) returns (nextSplit: nat)
    requires 0 < maxLength && lastIndex + maxLength < |content|
    ensures nextSplit == ChooseSplit(content, lastIndex, maxLength)
  {
    var window := PySlice(content, lastIndex + 500, lastIndex + Window);
    var findGoodSplit, at := ScanBreakPatterns(window);
    if findGoodSplit {
      nextSplit := lastIndex + 500 + at;
    } else {
      var tmpSplit := ScanSoftBreaks(content, lastIndex + 1500, lastIndex + Window);
      nextSplit := if tmpSplit != -1 then tmpSplit else lastIndex + maxLength;
    }
  }

  /** The loop over the structural-break patterns: the last match of the
      first pattern that matches anywhere in the window. */
  method ScanBreakPatterns(window: string) returns (found: bool, at: nat)
    ensures found <==> LastMatchOfFirst(window, BreakPatterns).Some?
    ensures found ==> at == LastMatchOfFirst(window, BreakPatterns).value
  {
    found, at := false, 0;
    var k := 0;
    while k < |BreakPatterns| && !found
      invariant 0 <= k <= |BreakPatterns|
      invariant !found ==> LastMatchOfFirst(window, BreakPatterns) == LastMatchOfFirst(window, BreakPatterns[k..])
      invariant found ==> LastMatchOfFirst(window, BreakPatterns) == Some(at)
    {
      var matches := FindIter(window, BreakPatterns[k], 0);
      if matches != [] {
        at := matches[|matches| - 1];
        found := true;
      }
      assert BreakPatterns[k..][1..] == BreakPatterns[k + 1..];
      k := k + 1;
    }
  }

  /** The loop over the soft breaks: `rfind` of each separator in
      `[lo, hi)` until one is found, else -1. */
  method ScanSoftBreaks(content: string, lo: nat, hi: nat) returns (split: int)
    ensures split == LastSoftBreak(content, SoftBreaks, lo, hi)
  {
    split := -1;
    var k := 0;
    while k < |SoftBreaks| && split == -1
      invariant 0 <= k <= |SoftBreaks|
      invariant split == -1 ==> LastSoftBreak(content, SoftBreaks, lo, hi) == LastSoftBreak(content, SoftBreaks[k..], lo, hi)
      invariant split != -1 ==> split == LastSoftBreak(content, SoftBreaks, lo, hi)
    {
      split := RFind(content, SoftBreaks[k], lo, hi);
      assert SoftBreaks[k..][1..] == SoftBreaks[k + 1..];
      k := k + 1;
    }
  }

  /** One pass of the loop that does not finish the text emits the rendering
      of `Step`'s segment and continues from `Step`'s state. */
  lemma UnfoldStep(c: string, maxLength: nat, st: SegState)
    requires 0 < maxLength && st.lastIndex + maxLength < |c|
    ensures var (seg, next) := Step(c, maxLength, st);
            RenderAll(c, Segments(c, maxLength, st), st.lastIndex)
              == [Render(c, seg)] + RenderAll(c, Segments(c, maxLength, next), next.lastIndex)
  {
    var (seg, next) := Step(c, maxLength, st);
    var segs := Segments(c, maxLength, st);
    assert segs == [seg] + Segments(c, maxLength, next);
    assert segs[1..] == Segments(c, maxLength, next);
  }

  /** A pass that emits `Step`'s rendered segment keeps the loop invariant
      of `SplitContent`: the parts so far followed by the parts still to come
      are the whole split. */
  lemma PassKeepsSplit(c: string, maxLength: nat, st: SegState, parts: seq<string>, part: string)
    requires 0 < maxLength && st.lastIndex + maxLength < |c|
    requires parts + RenderAll(c, Segments(c, maxLength, st), st.lastIndex) == Split(c, maxLength)
    requires part == Render(c, Step(c, maxLength, st).0)
    ensures var next := Step(c, maxLength, st).1;
            (parts + [part]) + RenderAll(c, Segments(c, maxLength, next), next.lastIndex) == Split(c, maxLength)
  {
    var next := Step(c, maxLength, st).1;
    UnfoldStep(c, maxLength, st);
    assert parts + ([part] + RenderAll(c, Segments(c, maxLength, next), next.lastIndex))
        == (parts + [part]) + RenderAll(c, Segments(c, maxLength, next), next.lastIndex);
  }

  /** The pass that reaches the end of the text emits one final part. */
  lemma UnfoldLast(c: string, maxLength: nat, st: SegState, nextSplit: nat)
    requires 0 < maxLength && st.lastIndex < |c| <= st.lastIndex + maxLength
    requires st.inCode ==> nextSplit == st.lastIndex
    ensures RenderAll(c, Segments(c, maxLength, st), st.lastIndex)
              == [if st.inCode then Fence + st.codeId + "\n" + c[st.lastIndex..nextSplit]
                  else c[st.lastIndex..]]
  {
    var segs := Segments(c, maxLength, st);
    assert RenderAll(c, segs, st.lastIndex) == [Render(c, segs[0])] + RenderAll(c, [], segs[0].end);
    if st.inCode {
      assert segs[0] == Segment(Some(st.codeId), st.lastIndex, st.lastIndex, false);
      assert c[st.lastIndex..nextSplit] == [];
      assert Render(c, segs[0]) == Header(st.codeId) + c[st.lastIndex..st.lastIndex] + "";
      assert Header(st.codeId) + c[st.lastIndex..st.lastIndex] + ""
          == Fence + st.codeId + "\n" + c[st.lastIndex..nextSplit];
    } else {
      assert segs[0] == Segment(None, st.lastIndex, |c|, false);
      assert Render(c, segs[0]) == "" + c[st.lastIndex..|c|] + "";
      assert "" + c[st.lastIndex..|c|] + "" == c[st.lastIndex..];
    }
  }

  /** A concrete run showing two quirks at once (with `max_length` 4, so
      both search windows lie past the end and the hard cut is taken): the
      first part ends right after the opening fence, and since no newline
      follows it before the cut, `find` gives -1 and the info string becomes
      `content[4:-1]`, i.e. "x\na"; the remainder then fits while inside the
      block, so the last part is only the re-opening header and the text
      "x\nab" after the fence is never sent. */
  lemma TailDroppedExample()
    ensures Split("\n```x\nab", 4) == ["\n```\n```", "\n```x\na\n"]
  {
    var c := "\n```x\nab";
    assert |c| == 8;
    var w := PySlice(c, 500, Window);
    assert w == [];
    assert FindIter(w, Literal(TitleBreak), 0) == [];
    assert FindIter(w, NumberedItem, 0) == [];
    assert LastMatchOfFirst(w, BreakPatterns[1..]) == None by {
      assert BreakPatterns[1..][1..] == [];
    }
    assert LastMatchOfFirst(w, BreakPatterns) == None;
    assert RFind(c, "\n", 1500, Window) == -1;
    assert RFind(c, ". ", 1500, Window) == -1;
    assert RFind(c, " ", 1500, Window) == -1;
    assert LastSoftBreak(c, SoftBreaks, 1500, Window) == -1 by {
      SoftBreakOrder(c, 1500, Window);
    }
    assert ChooseSplit(c, 0, 4) == 4;
    var win := c[0..4];
    assert win == Fence;
    assert OccursAt(win, Fence, 0);
    assert FindIter(win, Literal(Fence), 4) == [];
    assert FindIter(win, Literal(Fence), 0) == [0];
    assert Find(c, "\n", 4, 4) == -1;
    assert CodeId(c, 0, 4) == "x\na";
    var seg1 := Segment(None, 0, 4, true);
    var st1 := SegState(4, true, "x\na");
    assert Step(c, 4, Initial) == (seg1, st1);
    var seg2 := Segment(Some("x\na"), 4, 4, false);
    assert Segments(c, 4, st1) == [seg2];
    assert Segments(c, 4, Initial) == [seg1, seg2];
    assert Render(c, seg1) == "\n```\n```";
    assert Render(c, seg2) == "\n```x\na\n";
    assert RenderAll(c, [seg2], 4) == [Render(c, seg2)] + RenderAll(c, [], 4);
    assert [seg1, seg2][1..] == [seg2];
  }

  /** `split_content` as the source writes it: a `while` loop over
      `last_index` that appends one part per pass. */
  method SplitContent(content: string, maxLength: nat) returns (parts: seq<string>)
    requires 0 < maxLength
    ensures parts == Split(content, maxLength)
  {
    parts := [];
    var lastIndex: nat := 0;
    var inCodeBlock := false;
    var codeBlockId := "";
    var nextSplit: nat := 0;
    while lastIndex < |content|
      invariant lastIndex <= |content|
      invariant inCodeBlock ==> nextSplit == lastIndex
      invariant parts + RenderAll(content, Segments(content, maxLength, SegState(lastIndex, inCodeBlock, codeBlockId)), lastIndex)
                == Split(content, maxLength)
      decreases |content| - lastIndex
    {
      ghost var st := SegState(lastIndex, inCodeBlock, codeBlockId);
      if lastIndex + maxLength >= |content| {
        UnfoldLast(content, maxLength, st, nextSplit);
        if inCodeBlock {
          parts := parts + [Fence + codeBlockId + "\n" + content[lastIndex..nextSplit]];
        } else {
          parts := parts + [content[lastIndex..]];
        }
        return;
      }
      nextSplit := FindGoodSplit(content, lastIndex, maxLength);
      var part;
      part, nextSplit, inCodeBlock, codeBlockId := FenceFix(content, lastIndex, nextSplit, inCodeBlock, codeBlockId);
      PassKeepsSplit(content, maxLength, st, parts, part);
      parts := parts + [part];
      lastIndex := nextSplit;
    }
  }

  /** The fence handling of one pass of `split_content`: count the "\n```"
      matches in `content[last_index:next_split]`, update `in_code_block` and
      `code_block_id`, possibly pull `next_split` back, and build the part. */
  method FenceFix(content: string, lastIndex: nat, split: nat, inCode: bool, codeId: string)
    returns (part: string, nextSplit: nat, inCodeBlock: bool, codeBlockId: string)
    requires lastIndex < split <= |content|
    ensures var (seg, next) := FenceStep(content, SegState(lastIndex, inCode, codeId), split);
            part == Render(content, seg) && next == SegState(nextSplit, inCodeBlock, codeBlockId)
  {
    nextSplit, inCodeBlock, codeBlockId := split, inCode, codeId;
    var codeBlocks := FindIter(content[lastIndex..nextSplit], Literal(Fence), 0);
    var blockType := 0;  // Python's `in_code_block_type`, with 0 standing for None
    if !inCodeBlock {
      if |codeBlocks| % 2 != 0 {
        if lastIndex + codeBlocks[|codeBlocks| - 1] == lastIndex {
          inCodeBlock := true;
          blockType := 1;
          var tmp := Find(content, "\n", lastIndex + 4, nextSplit);
          codeBlockId := PySlice(content, lastIndex + 4, tmp);
        } else {
          nextSplit := lastIndex + codeBlocks[|codeBlocks| - 1];
        }
      }
    } else {
      if |codeBlocks| % 2 == 0 {
        blockType := 2;
      } else {
        blockType := 3;
        inCodeBlock := false;
      }
    }

    if blockType == 0 {
      part := content[lastIndex..nextSplit];
    } else if blockType == 1 {
      part := content[lastIndex..nextSplit] + Fence;
    } else if blockType == 2 {
      part := Fence + codeBlockId + "\n" + content[lastIndex..nextSplit] + Fence;
    } else {
      part := Fence + codeBlockId + "\n" + content[lastIndex..nextSplit];
      codeBlockId := "";
    }
  }

  /** What `chunk_reply` delivers, in order: every "```" is first rewritten
      to "\n```"; the result goes out whole if it has at most 2000
      characters, otherwise as the parts of `split_content`. */
  function ChunkReply(message: string): (parts: seq<string>)
    ensures |parts| >= 1
    ensures !Contains(message, "```") && |message| <= ChunkSize ==> parts == [message]
  {
    var m := ReplaceAll(message, "```", Fence);
    if !Contains(message, "```") then
      ReplaceAllAbsent(message, "```", Fence);
      if |m| <= ChunkSize then [m] else Split(m, ChunkSize)
    else if |m| <= ChunkSize then [m] else Split(m, ChunkSize)
  }

  /** A reply without a code fence is delivered as parts of at most 2000
      characters that concatenate back to it exactly. */
  lemma ChunkReplyFenceFree(message: string)
    requires !Contains(message, "```")
    ensures Concat(ChunkReply(message)) == message
    ensures forall part <- ChunkReply(message) :: |part| <= ChunkSize
  {
    ReplaceAllAbsent(message, "```", Fence);
    assert !Contains(message, Fence) by {
      if Contains(message, Fence) {
        var i :| 0 <= i <= |message| && OccursAt(message, Fence, i);
        assert message[i + 1..i + 4] == Fence[1..];
        assert OccursAt(message, "```", i + 1);
      }
    }
    if |message| > ChunkSize {
      var segs := Segments(message, ChunkSize, Initial);
      FenceFreeParts(message, ChunkSize, Initial);
      SplitFenceFree(message, ChunkSize);
      SegmentsBounded(message, ChunkSize, Initial);
      RenderedLengths(message, segs, 0);
    }
  }

  /** Undecorated parts are exactly as long as their raw slices. */
  lemma {:induction false} RenderedLengths(c: string, segs: seq<Segment>, from: nat)
    requires Chain(c, segs, from)
    requires Undecorated(segs) && SpansBounded(segs, ChunkSize)
    ensures forall part <- RenderAll(c, segs, from) :: |part| <= ChunkSize
    decreases |segs|
  {
    if segs != [] {
      RenderedLengths(c, segs[1..], segs[0].end);
    }
  }
}
