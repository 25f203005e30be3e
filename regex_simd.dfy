/** The matching engine of src/regex_simd.c: compiled patterns, the growable
    match list, the per-position literal predicates, the scalar scan, the
    16- and 32-byte block kernels, the regex scan and the dispatcher.

    The vector hardware is modelled per byte: a block compare yields one
    lane flag per byte, and the vector loaded from the pattern holds the
    pattern bytes followed by its 0 terminator and the bytes after it,
    taken as arbitrary (`padding`). `regcomp` and `regexec` are oracles:
    compiling yields an optional matcher, and the matcher maps the buffer
    from a cursor on, read as a C string, to an optional relative span. */
module RegexSimd {
  import opened Base
  import opened FileReader

  /** INITIAL_MATCH_CAPACITY */
  const InitialMatchCapacity: nat := 1024

  datatype MatchType = MatchAscii | MatchRegex

  /** `regmatch_t`: start and end of a match relative to the searched suffix. */
  datatype Span = Span(so: int, eo: int)

  /** A compiled regex: `regexec` on the buffer from a cursor on. */
  type RegexExec = seq<byte> -> Option<Span>

  /** The flags handed to `regcomp`: REG_EXTENDED, and REG_ICASE on request. */
  datatype RegexFlags = RegexFlags(extended: bool, icase: bool)

  /** `regcomp`: a compiled matcher on success, `None` on a compile error. */
  type RegexCompiler = (seq<byte>, RegexFlags) -> Option<RegexExec>

  /** `Pattern`: the pattern string, its case flag, its kind and, when
      `regex.Some?`, the compiled regex (`is_regex_compiled == 1`). */
  datatype Pattern = Pattern(text: seq<byte>, caseInsensitive: bool, kind: MatchType, regex: Option<RegexExec>)

  /** `Match`: a byte span `[start, end)` of the buffer and a line number. */
  datatype Match = Match(start: nat, end: nat, line: nat)

  /** pattern_create. `None` for `str` stands for a null pointer; a C
      string holds no 0 byte, so its bytes are the ones `strlen` and
      `strdup` see. The empty string is accepted. Allocation failures are
      not modelled. */
  function PatternCreate(str: Option<seq<byte>>, caseInsensitive: bool, useRegex: bool,
                         regcomp: RegexCompiler): (r: Option<Pattern>)
    requires str.Some? ==> 0 !in str.value
    ensures str.None? ==> r.None?
    ensures str.Some? && !useRegex ==> r.Some?
    ensures str.Some? && useRegex ==> (r.Some? <==> regcomp(str.value, RegexFlags(true, caseInsensitive)).Some?)
    ensures r.Some? ==> r.value.text == str.value && |r.value.text| == |str.value|
    ensures r.Some? ==> r.value.caseInsensitive == caseInsensitive
    ensures r.Some? ==> (r.value.kind == MatchRegex <==> useRegex)
    ensures r.Some? ==> (r.value.regex.Some? <==> useRegex)
    ensures r.Some? && useRegex ==> r.value.regex == regcomp(str.value, RegexFlags(true, caseInsensitive))
  {
    if str.None? then None
    else if !useRegex then Some(Pattern(str.value, caseInsensitive, MatchAscii, None))
    else
      match regcomp(str.value, RegexFlags(true, caseInsensitive))
      case None => None
      case Some(re) => Some(Pattern(str.value, caseInsensitive, MatchRegex, Some(re)))
  }

  // ---------------------------------------------------------------------
  // MatchList: the growable array of matches

  class MatchList {
    var matches: array<Match>
    var count: nat
    /** The recorded matches, `matches[..count]`. */
    ghost var items: seq<Match>
    ghost var Repr: set<object>

    ghost predicate Valid()
      reads this, Repr
    {
      Repr == {this, matches} && 0 < matches.Length && count <= matches.Length &&
      |items| == count && forall i :: 0 <= i < count ==> items[i] == matches[i]
    }

    function Capacity(): nat
      reads this
    {
      matches.Length
    }

    /** The matches recorded so far, in insertion order. */
    ghost function Items(): seq<Match>
      reads this
    {
      items
    }

    /** The recorded matches, read out of the array. */
    method Contents() returns (ms: seq<Match>)
      requires Valid()
      ensures ms == Items()
    {
      ms := matches[..count];
    }

    /** matchlist_create (allocation failure is not modelled here). */
    constructor ()
      ensures Valid() && fresh(Repr)
      ensures Items() == [] && Capacity() == InitialMatchCapacity
    {
      matches := new Match[InitialMatchCapacity];
      count := 0;
      items := [];
      Repr := {this, matches};
    }

    /** matchlist_add; `reallocOk` is the outcome of the `realloc` done
        when the list is full. */
    method Add(start: nat, end: nat, line: nat, reallocOk: bool) returns (ok: bool)
      requires Valid()
      modifies Repr
      ensures Valid() && fresh(Repr - old(Repr))
      ensures ok <==> old(count) < old(Capacity()) || reallocOk
      ensures Items() == if ok then old(Items()) + [Match(start, end, line)] else old(Items())
      ensures Capacity() ==
        if old(count) >= old(Capacity()) && reallocOk then 2 * old(Capacity()) else old(Capacity())
    {
      if count >= matches.Length {
        if !reallocOk {
          return false;
        }
        var grown := Realloc(matches, 2 * matches.Length, Match(start, end, line));
        matches := grown;
        Repr := {this, matches};
      }
      matches[count] := Match(start, end, line);
      count := count + 1;
      items := items + [Match(start, end, line)];
      ok := true;
    }
  }

  /** Capacity of a match list after `n` successful additions to a fresh
      one: 1024, doubled each time a full list receives one more match. */
  function MatchCapacityAfter(n: nat): nat
  {
    if n == 0 then InitialMatchCapacity
    else
      var c := MatchCapacityAfter(n - 1);
      if n - 1 >= c then 2 * c else c
  }

  lemma {:induction false} MatchCapacityAfterFits(n: nat)
    ensures n <= MatchCapacityAfter(n)
    ensures n > 0 ==> MatchCapacityAfter(n) < 2 * n + 2 * InitialMatchCapacity
  {
    if n > 0 {
      MatchCapacityAfterFits(n - 1);
    }
  }

  /** Adding the 2001 matches of the unit test: every addition succeeds,
      the count is 2001 and the capacity has doubled once. */
  method AddMany(n: nat) returns (list: MatchList)
    ensures fresh(list.Repr) && list.Valid()
    ensures |list.Items()| == n && list.Capacity() == MatchCapacityAfter(n)
    ensures forall i :: 0 <= i < n ==> list.Items()[i] == Match(i, i + 5, i)
  {
    list := new MatchList();
    var i := 0;
    while i < n
      invariant 0 <= i <= n
      invariant list.Valid() && fresh(list.Repr)
      invariant |list.Items()| == i && list.Capacity() == MatchCapacityAfter(i)
      invariant forall j :: 0 <= j < i ==> list.Items()[j] == Match(j, j + 5, j)
    {
      var ok := list.Add(i, i + 5, i, true);
      i := i + 1;
    }
  }

  lemma MatchListTestCapacity()
    ensures MatchCapacityAfter(2001) == 2048
  {
    assert forall n :: 1 <= n <= 1024 ==> MatchCapacityAfter(n) == 1024 by {
      forall n | 1 <= n <= 1024 ensures MatchCapacityAfter(n) == 1024 {
        CapacityConstant(n);
      }
    }
    CapacityDoubled(2001);
  }

  lemma {:induction false} CapacityConstant(n: nat)
    requires n <= 1024
    ensures MatchCapacityAfter(n) == 1024
  {
    if n > 0 {
      CapacityConstant(n - 1);
    }
  }

  lemma {:induction false} CapacityDoubled(n: nat)
    requires 1025 <= n <= 2048
    ensures MatchCapacityAfter(n) == 2048
  {
    if n == 1025 {
      CapacityConstant(1024);
    } else {
      CapacityDoubled(n - 1);
    }
  }

  // ---------------------------------------------------------------------
  // Per-position literal predicates

  /** `tolower` in the C locale. */
  function ToLower(b: byte): byte
  {
    if 65 <= b <= 90 then b + 32 else b
  }

  /** The buffer with every byte folded by `ToLower`. */
  function Lower(s: seq<byte>): (r: seq<byte>)
    ensures |r| == |s|
  {
    seq(|s|, i requires 0 <= i < |s| => ToLower(s[i]))
  }

  /** pattern_match_ascii: `text` occurs at `pos` (the `memcmp` of the source). */
  predicate ExactMatchAt(text: seq<byte>, data: seq<byte>, pos: nat)
  {
    pos < |data| && pos + |text| <= |data| && data[pos..pos + |text|] == text
  }

  /** pattern_match_ascii_case: `text` occurs at `pos` once both sides are folded. */
  predicate FoldedMatchAt(text: seq<byte>, data: seq<byte>, pos: nat)
  {
    pos < |data| && pos + |text| <= |data| &&
    forall i :: 0 <= i < |text| ==> ToLower(text[i]) == ToLower(data[pos + i])
  }

  /** The literal predicate the scalar scan applies to a pattern. */
  predicate MatchesAt(p: Pattern, data: seq<byte>, pos: nat)
  {
    if p.caseInsensitive then FoldedMatchAt(p.text, data, pos) else ExactMatchAt(p.text, data, pos)
  }

  /** An exact occurrence compares byte for byte. */
  lemma ExactMatchAtBytes(text: seq<byte>, data: seq<byte>, pos: nat)
    ensures ExactMatchAt(text, data, pos) <==>
      pos < |data| && pos + |text| <= |data| && forall i :: 0 <= i < |text| ==> data[pos + i] == text[i]
  {
    if pos < |data| && pos + |text| <= |data| {
      if forall i :: 0 <= i < |text| ==> data[pos + i] == text[i] {
        assert data[pos..pos + |text|] == text;
      }
    }
  }

  /** The case-insensitive predicate is the exact one on folded inputs. */
  lemma FoldedIsExactOnLowered(text: seq<byte>, data: seq<byte>, pos: nat)
    ensures FoldedMatchAt(text, data, pos) <==> ExactMatchAt(Lower(text), Lower(data), pos)
  {
    ExactMatchAtBytes(Lower(text), Lower(data), pos);
    if pos < |data| && pos + |text| <= |data| {
      forall i | 0 <= i < |text|
        ensures Lower(data)[pos + i] == Lower(text)[i] <==> ToLower(text[i]) == ToLower(data[pos + i])
      {
      }
    }
  }

  /** An exact occurrence is also a case-insensitive one. */
  lemma ExactImpliesFolded(text: seq<byte>, data: seq<byte>, pos: nat)
    requires ExactMatchAt(text, data, pos)
    ensures FoldedMatchAt(text, data, pos)
  {
    ExactMatchAtBytes(text, data, pos);
  }

  /** pattern_match_ascii_case, with its comparison loop. */
  method PatternMatchAsciiCase(text: seq<byte>, data: seq<byte>, pos: nat) returns (found: bool)
    ensures found == FoldedMatchAt(text, data, pos)
    ensures found ==> ExactMatchAt(Lower(text), Lower(data), pos)
  {
    FoldedIsExactOnLowered(text, data, pos);
    if pos >= |data| || pos + |text| > |data| {
      return false;
    }
    var i := 0;
    while i < |text|
      invariant 0 <= i <= |text|
      invariant forall j :: 0 <= j < i ==> ToLower(text[j]) == ToLower(data[pos + j])
    {
      if ToLower(text[i]) != ToLower(data[pos + i]) {
        return false;
      }
      i := i + 1;
    }
    return true;
  }

  // ---------------------------------------------------------------------
  // Sequences of matches

  /** The start offsets of a sequence of matches. */
  function Starts(ms: seq<Match>): (r: seq<nat>)
    ensures |r| == |ms|
  {
    seq(|ms|, i requires 0 <= i < |ms| => ms[i].start)
  }

  /** Start offsets strictly increase along the sequence. */
  predicate Increasing(ms: seq<Match>)
  {
    forall i, j :: 0 <= i < j < |ms| ==> ms[i].start < ms[j].start
  }

  predicate StartsAtLeast(ms: seq<Match>, lo: nat)
  {
    forall i :: 0 <= i < |ms| ==> lo <= ms[i].start
  }

  /** Every match is an occurrence of the pattern inside the buffer,
      spanning the pattern's length. */
  predicate Genuine(p: Pattern, data: seq<byte>, ms: seq<Match>)
  {
    forall i :: 0 <= i < |ms| ==>
      ms[i].start < |data| && MatchesAt(p, data, ms[i].start) && ms[i].end == ms[i].start + |p.text|
  }

  /** Every match lies in the buffer and carries the line of its start. */
  predicate OnTheirLines(data: seq<byte>, ms: seq<Match>)
  {
    forall i :: 0 <= i < |ms| ==> ms[i].start < |data| && ms[i].line == LineOf(data, ms[i].start)
  }

  lemma StartsAppend(a: seq<Match>, b: seq<Match>)
    ensures Starts(a + b) == Starts(a) + Starts(b)
  {
  }

  lemma InStartsAppend(a: seq<Match>, b: seq<Match>, k: nat)
    requires k in Starts(a) || k in Starts(b)
    ensures k in Starts(a + b)
  {
    StartsAppend(a, b);
  }

  lemma IncreasingAppend(a: seq<Match>, b: seq<Match>, mid: nat)
    requires Increasing(a) && Increasing(b)
    requires forall i :: 0 <= i < |a| ==> a[i].start < mid
    requires StartsAtLeast(b, mid)
    ensures Increasing(a + b)
  {
  }

  // ---------------------------------------------------------------------
  // The scalar scan: search_pattern_ascii

  /** What search_pattern_ascii appends when it reaches `pos` with the
      running line counter at `line`. */
  function ScanFrom(p: Pattern, data: seq<byte>, pos: nat, line: nat): seq<Match>
    decreases |data| - pos
  {
    if pos >= |data| then []
    else if MatchesAt(p, data, pos) then [Match(pos, pos + |p.text|, line)] + ScanFrom(p, data, pos + 1, line)
    else ScanFrom(p, data, pos + 1, if data[pos] == NL then line + 1 else line)
  }

  /** The matches search_pattern_ascii appends to the list. */
  function ScalarScan(p: Pattern, data: seq<byte>): seq<Match>
  {
    ScanFrom(p, data, 0, 1)
  }

  /** Brute-force reference: every offset from `from` on, tested
      independently, in increasing order. */
  function Positions(p: Pattern, data: seq<byte>, from: nat): seq<nat>
    decreases |data| - from
  {
    if from >= |data| then []
    else (if MatchesAt(p, data, from) then [from] else []) + Positions(p, data, from + 1)
  }

  lemma {:induction false} PositionsMembership(p: Pattern, data: seq<byte>, from: nat, k: nat)
    ensures k in Positions(p, data, from) <==> from <= k < |data| && MatchesAt(p, data, k)
    decreases |data| - from
  {
    if from < |data| {
      PositionsMembership(p, data, from + 1, k);
    }
  }

  lemma {:induction false} ScanStarts(p: Pattern, data: seq<byte>, pos: nat, line: nat)
    ensures Starts(ScanFrom(p, data, pos, line)) == Positions(p, data, pos)
    decreases |data| - pos
  {
    if pos < |data| {
      if MatchesAt(p, data, pos) {
        ScanStarts(p, data, pos + 1, line);
        StartsAppend([Match(pos, pos + |p.text|, line)], ScanFrom(p, data, pos + 1, line));
      } else {
        ScanStarts(p, data, pos + 1, if data[pos] == NL then line + 1 else line);
      }
    }
  }

  /** Newline bytes in `[from, k)` at which no match starts: the only ones
      the scalar scan counts. */
  function SkippedNewlines(p: Pattern, data: seq<byte>, from: nat, k: nat): nat
    requires k <= |data|
    decreases k - from
  {
    if from >= k then 0
    else (if data[from] == NL && !MatchesAt(p, data, from) then 1 else 0) + SkippedNewlines(p, data, from + 1, k)
  }

  /** The lines the scalar scan gives, started at `pos` with counter `line`. */
  predicate ScanLines(p: Pattern, data: seq<byte>, pos: nat, line: nat, ms: seq<Match>)
  {
    forall i :: 0 <= i < |ms| ==>
      ms[i].start <= |data| && ms[i].line == line + SkippedNewlines(p, data, pos, ms[i].start)
  }

  lemma {:induction false} ScanShape(p: Pattern, data: seq<byte>, pos: nat, line: nat)
    ensures Genuine(p, data, ScanFrom(p, data, pos, line))
    ensures StartsAtLeast(ScanFrom(p, data, pos, line), pos)
    ensures ScanLines(p, data, pos, line, ScanFrom(p, data, pos, line))
    ensures Increasing(ScanFrom(p, data, pos, line))
  {
    ScanOrder(p, data, pos, line);
    ScanLinesHold(p, data, pos, line);
  }

  lemma {:induction false} ScanOrder(p: Pattern, data: seq<byte>, pos: nat, line: nat)
    ensures Genuine(p, data, ScanFrom(p, data, pos, line))
    ensures StartsAtLeast(ScanFrom(p, data, pos, line), pos)
    ensures Increasing(ScanFrom(p, data, pos, line))
    decreases |data| - pos
  {
    if pos < |data| {
      var line' := if MatchesAt(p, data, pos) || data[pos] != NL then line else line + 1;
      ScanOrder(p, data, pos + 1, line');
      var rest := ScanFrom(p, data, pos + 1, line');
      if MatchesAt(p, data, pos) {
        IncreasingAppend([Match(pos, pos + |p.text|, line)], rest, pos + 1);
      }
    }
  }

  lemma {:induction false} ScanLinesHold(p: Pattern, data: seq<byte>, pos: nat, line: nat)
    ensures StartsAtLeast(ScanFrom(p, data, pos, line), pos)
    ensures ScanLines(p, data, pos, line, ScanFrom(p, data, pos, line))
    decreases |data| - pos
  {
    if pos < |data| {
      var line' := if MatchesAt(p, data, pos) || data[pos] != NL then line else line + 1;
      ScanLinesHold(p, data, pos + 1, line');
    }
  }

  /** search_pattern_ascii reports exactly the offsets where the literal
      predicate holds, in increasing order, each spanning the pattern
      length; overlapping occurrences are all reported. */
  lemma ScalarScanSpec(p: Pattern, data: seq<byte>)
    ensures Starts(ScalarScan(p, data)) == Positions(p, data, 0)
    ensures Increasing(ScalarScan(p, data))
    ensures forall k: nat :: k in Starts(ScalarScan(p, data)) <==> k < |data| && MatchesAt(p, data, k)
    ensures Genuine(p, data, ScalarScan(p, data))
  {
    ScanStarts(p, data, 0, 1);
    ScanShape(p, data, 0, 1);
    forall k: nat ensures k in Starts(ScalarScan(p, data)) <==> k < |data| && MatchesAt(p, data, k) {
      PositionsMembership(p, data, 0, k);
    }
  }

  /** The line of a scalar-scan match: one plus the newlines before its
      start at which no match starts. */
  lemma ScalarScanLines(p: Pattern, data: seq<byte>)
    ensures Genuine(p, data, ScalarScan(p, data))
    ensures ScanLines(p, data, 0, 1, ScalarScan(p, data))
  {
    ScanShape(p, data, 0, 1);
  }

  /** No occurrence of the pattern starts on a newline byte. */
  predicate NoMatchOnNewline(p: Pattern, data: seq<byte>)
  {
    forall j :: 0 <= j < |data| && MatchesAt(p, data, j) ==> data[j] != NL
  }

  lemma {:induction false} SkippedIsNewlines(p: Pattern, data: seq<byte>, from: nat, k: nat)
    requires from <= k <= |data|
    requires NoMatchOnNewline(p, data)
    ensures SkippedNewlines(p, data, from, k) == Newlines(data[from..k])
    decreases k - from
  {
    if from < k {
      SkippedIsNewlines(p, data, from + 1, k);
      assert data[from..k] == [data[from]] + data[from + 1..k];
      NewlinesAppend([data[from]], data[from + 1..k]);
      assert [data[from]][..0] == [];
    } else {
      assert data[from..k] == [];
    }
  }

  /** When no occurrence starts on a newline the scalar scan's lines are
      those get_line_number gives. */
  lemma ScalarLinesAreLineNumbers(p: Pattern, data: seq<byte>)
    requires NoMatchOnNewline(p, data)
    ensures OnTheirLines(data, ScalarScan(p, data))
  {
    var r := ScalarScan(p, data);
    ScalarScanLines(p, data);
    forall i | 0 <= i < |r| ensures r[i].line == LineOf(data, r[i].start) {
      SkippedIsNewlines(p, data, 0, r[i].start);
      assert data[0..r[i].start] == data[..r[i].start];
    }
  }

  /** A non-empty pattern that does not begin with a newline never matches on one. */
  lemma PatternAvoidsNewline(p: Pattern, data: seq<byte>)
    requires |p.text| > 0 && p.text[0] != NL
    ensures NoMatchOnNewline(p, data)
  {
    forall j | 0 <= j < |data| && MatchesAt(p, data, j) ensures data[j] != NL {
      if p.caseInsensitive {
        assert ToLower(p.text[0]) == ToLower(data[j]);
      } else {
        assert data[j..j + |p.text|][0] == p.text[0];
      }
    }
  }

  /** The scalar scan's line counter skips a newline at which a match
      starts: pattern "\n" over "\n\n" reports both matches on line 1,
      although offset 1 is on line 2. */
  lemma ScalarLineSkipsMatchedNewline()
    ensures var p := Pattern([NL], false, MatchAscii, None);
      ScalarScan(p, [NL, NL]) == [Match(0, 1, 1), Match(1, 2, 1)] &&
      LineOf([NL, NL], 1) == 2
  {
    var p := Pattern([NL], false, MatchAscii, None);
    var d: seq<byte> := [NL, NL];
    assert MatchesAt(p, d, 0) by { assert d[0..1] == [NL]; }
    assert MatchesAt(p, d, 1) by { assert d[1..2] == [NL]; }
    assert ScanFrom(p, d, 2, 1) == [];
    assert ScanFrom(p, d, 1, 1) == [Match(1, 2, 1)];
    assert ScanFrom(p, d, 0, 1) == [Match(0, 1, 1), Match(1, 2, 1)];
    assert d[..1] == [NL] && [NL][..0] == [];
    assert Newlines(d[..1]) == 1;
  }

  /** Unit test: "aa" over "aaa" yields the overlapping matches [0,2) and [1,3). */
  lemma ScalarScanOverlapping()
    ensures ScalarScan(Pattern([97, 97], false, MatchAscii, None), [97, 97, 97])
         == [Match(0, 2, 1), Match(1, 3, 1)]
  {
    var p := Pattern([97, 97], false, MatchAscii, None);
    var d: seq<byte> := [97, 97, 97];
    assert MatchesAt(p, d, 0) by { assert d[0..2] == [97, 97]; }
    assert MatchesAt(p, d, 1) by { assert d[1..3] == [97, 97]; }
    assert !MatchesAt(p, d, 2);
    assert ScanFrom(p, d, 2, 1) == [];
    assert ScanFrom(p, d, 1, 1) == [Match(1, 3, 1)];
  }

  /** Offsets without a match add nothing to the reference positions. */
  lemma {:induction false} PositionsSkip(p: Pattern, data: seq<byte>, lo: nat, hi: nat)
    requires lo <= hi <= |data|
    requires forall k :: lo <= k < hi ==> !MatchesAt(p, data, k)
    ensures Positions(p, data, lo) == Positions(p, data, hi)
    decreases hi - lo
  {
    if lo < hi {
      PositionsSkip(p, data, lo + 1, hi);
    }
  }

  /** "HELLO" searched case-insensitively over "hello HeLLo HELLO". */
  const HelloPattern := Pattern([72, 69, 76, 76, 79], true, MatchAscii, None)
  const HelloData: seq<byte> := [104, 101, 108, 108, 111, 32, 72, 101, 76, 76, 111, 32, 72, 69, 76, 76, 79]

  lemma HelloMatchesAt()
    ensures forall k :: 0 <= k < |HelloData| ==> (MatchesAt(HelloPattern, HelloData, k) <==> k == 0 || k == 6 || k == 12)
  {
    var p, d := HelloPattern, HelloData;
    forall k | 0 <= k < 12 && k != 0 && k != 6
      ensures !MatchesAt(p, d, k)
    {
      FirstByteDiffers(p, d, k);
    }
    assert MatchesAt(p, d, 0) && MatchesAt(p, d, 6) && MatchesAt(p, d, 12);
  }

  lemma HelloPositions()
    ensures Positions(HelloPattern, HelloData, 0) == [0, 6, 12]
  {
    var p, d := HelloPattern, HelloData;
    HelloMatchesAt();
    PositionsSkip(p, d, 13, 17);
    assert Positions(p, d, 12) == [12] + Positions(p, d, 13);
    PositionsSkip(p, d, 7, 12);
    assert Positions(p, d, 6) == [6] + Positions(p, d, 7);
    PositionsSkip(p, d, 1, 6);
    assert Positions(p, d, 0) == [0] + Positions(p, d, 1);
  }

  /** Unit test: the three spellings of "hello" are all found. */
  lemma CaseInsensitiveHello()
    ensures Starts(ScalarScan(HelloPattern, HelloData)) == [0, 6, 12]
  {
    HelloPositions();
    ScalarScanSpec(HelloPattern, HelloData);
  }

  /** Unit test: "xyz" does not occur in "hello world", so nothing is appended. */
  lemma PatternNotFound()
    ensures ScalarScan(Pattern([120, 121, 122], false, MatchAscii, None),
                       [104, 101, 108, 108, 111, 32, 119, 111, 114, 108, 100]) == []
  {
    var p := Pattern([120, 121, 122], false, MatchAscii, None);
    var d: seq<byte> := [104, 101, 108, 108, 111, 32, 119, 111, 114, 108, 100];
    forall k | 0 <= k < |d|
      ensures !MatchesAt(p, d, k)
    {
      ExactMatchAtBytes(p.text, d, k);
      assert d[k] != p.text[0] by {
        assert d[k] == 104 || d[k] == 101 || d[k] == 108 || d[k] == 111 ||
               d[k] == 32 || d[k] == 119 || d[k] == 114 || d[k] == 100;
      }
    }
    PositionsSkip(p, d, 0, |d|);
    ScanStarts(p, d, 0, 1);
  }

  lemma FirstByteDiffers(p: Pattern, data: seq<byte>, k: nat)
    requires p.caseInsensitive && |p.text| > 0 && k < |data| && ToLower(p.text[0]) != ToLower(data[k])
    ensures !MatchesAt(p, data, k)
  {
  }

  /** search_pattern_ascii */
  method SearchPatternAscii(p: Pattern, data: seq<byte>, list: MatchList) returns (found: bool)
    requires list.Valid()
    modifies list.Repr
    ensures list.Valid() && fresh(list.Repr - old(list.Repr))
    ensures list.Items() == old(list.Items()) + ScalarScan(p, data)
    ensures found <==> |list.Items()| > 0
  {
    var pos := 0;
    var line := 1;
    while pos < |data|
      invariant list.Valid() && fresh(list.Repr - old(list.Repr))
      invariant list.Items() + ScanFrom(p, data, pos, line) == old(list.Items()) + ScalarScan(p, data)
      decreases |data| - pos
    {
      label Offset:
      var hit := ScanAsciiAt(p, data, pos, line, list);
      if hit {
        AppendAssoc(old@Offset(list.Items()), [Match(pos, pos + |p.text|, line)], ScanFrom(p, data, pos + 1, line));
        pos := pos + 1;
      } else {
        if data[pos] == NL {
          line := line + 1;
        }
        pos := pos + 1;
      }
    }
    found := list.count > 0;
  }

  /** One offset of search_pattern_ascii: compare, and record a match. */
  method ScanAsciiAt(p: Pattern, data: seq<byte>, pos: nat, line: nat, list: MatchList) returns (hit: bool)
    requires list.Valid()
    modifies list.Repr
    ensures list.Valid() && fresh(list.Repr - old(list.Repr))
    ensures hit == MatchesAt(p, data, pos)
    ensures list.Items() == old(list.Items()) + (if hit then [Match(pos, pos + |p.text|, line)] else [])
  {
    if p.caseInsensitive {
      hit := PatternMatchAsciiCase(p.text, data, pos);
    } else {
      hit := ExactMatchAt(p.text, data, pos);
    }
    if hit {
      var _ := list.Add(pos, pos + |p.text|, line, true);
    }
  }

  // ---------------------------------------------------------------------
  // The block kernels: search_pattern_sse42 (w = 16) and search_pattern_avx2 (w = 32)

  /** The vector loaded from the pattern string: its first `w` bytes. The
      bytes past the pattern, the string's 0 terminator and whatever
      follows it in memory, are taken as arbitrary. */
  function Lanes(w: nat, text: seq<byte>, padding: seq<byte>): (v: seq<byte>)
    requires |padding| == w
    ensures |v| == w
    ensures forall i :: 0 <= i < |text| && i < w ==> v[i] == text[i]
  {
    (text + padding)[..w]
  }

  /** The byte-wise compare of a block with the pattern vector: lane `i`
      is set when `data[base + i] == vec[i]`. */
  function CompareMask(w: nat, vec: seq<byte>, data: seq<byte>, base: nat): (m: seq<bool>)
    requires w <= |vec| && base + w <= |data|
    ensures |m| == w
    ensures forall i :: 0 <= i < w ==> (m[i] <==> data[base + i] == vec[i])
  {
    seq(w, i requires 0 <= i < w => data[base + i] == vec[i])
  }

  /** The match lane `i` of the block at `base` contributes: one when the
      lane is set and the pattern occurs there. */
  function LaneMatch(w: nat, text: seq<byte>, vec: seq<byte>, data: seq<byte>, base: nat, i: nat, line: nat): seq<Match>
    requires i < w <= |vec| && base + w <= |data|
  {
    if data[base + i] == vec[i] && ExactMatchAt(text, data, base + i)
    then [Match(base + i, base + i + |text|, line)] else []
  }

  /** Matches appended while testing lanes `i .. w-1` of the block at `base`. */
  function Candidates(w: nat, text: seq<byte>, vec: seq<byte>, data: seq<byte>, base: nat, i: nat, line: nat): seq<Match>
    requires i <= w <= |vec| && base + w <= |data|
    decreases w - i
  {
    if i == w then []
    else LaneMatch(w, text, vec, data, base, i, line) + Candidates(w, text, vec, data, base, i + 1, line)
  }

  /** Matches appended by the byte loop after the last whole block. */
  function Tail(text: seq<byte>, data: seq<byte>, pos: nat, line: nat): seq<Match>
    decreases |data| - pos
  {
    if pos >= |data| then []
    else
      (if ExactMatchAt(text, data, pos) then [Match(pos, pos + |text|, line)] else [])
      + Tail(text, data, pos + 1, if data[pos] == NL then line + 1 else line)
  }

  /** Matches appended from the block at `pos` on, with the line counter at `line`. */
  function Blocks(w: nat, text: seq<byte>, vec: seq<byte>, data: seq<byte>, pos: nat, line: nat): seq<Match>
    requires 0 < w <= |vec|
    decreases |data| - pos
  {
    if pos + w <= |data| then
      Candidates(w, text, vec, data, pos, 0, line)
      + Blocks(w, text, vec, data, pos + w, line + NewlinesIn(data, pos, pos + w))
    else Tail(text, data, pos, line)
  }

  /** The first offset, counting in blocks of `w` from `pos`, at which a
      whole block no longer fits in a buffer of `n` bytes. */
  function TailStart(w: nat, n: nat, pos: nat): (t: nat)
    requires 0 < w
    ensures pos <= t && n < t + w
    decreases n - pos
  {
    if pos + w <= n then TailStart(w, n, pos + w) else pos
  }

  /** The first offset of the block of `w` bytes, counting from `pos`, that holds `k`. */
  function BlockStart(w: nat, pos: nat, k: nat): (b: nat)
    requires 0 < w && pos <= k
    ensures pos <= b <= k < b + w
    decreases k - pos
  {
    if k < pos + w then pos else BlockStart(w, pos + w, k)
  }

  /** The offset whose line number a kernel match at `k` carries: the start
      of its block, or `k` itself past the last whole block. */
  function BlockBase(w: nat, n: nat, k: nat): nat
    requires 0 < w
  {
    if k < TailStart(w, n, 0) then BlockStart(w, 0, k) else k
  }

  /** What a block kernel of width `w` appends. */
  function KernelScan(w: nat, p: Pattern, padding: seq<byte>, data: seq<byte>): seq<Match>
    requires 0 < w && |padding| == w
  {
    if |p.text| == 0 then []
    else if |p.text| > w then ScalarScan(p, data)
    else Blocks(w, p.text, Lanes(w, p.text, padding), data, 0, 1)
  }

  /** Every match is an occurrence of `text` inside the buffer, spanning its length. */
  predicate GenuineExact(text: seq<byte>, data: seq<byte>, ms: seq<Match>)
  {
    forall i :: 0 <= i < |ms| ==> ExactAt(text, data, ms[i])
  }

  /** `GenuineExact` for one match. */
  predicate ExactAt(text: seq<byte>, data: seq<byte>, m: Match)
  {
    m.start < |data| && ExactMatchAt(text, data, m.start) && m.end == m.start + |text|
  }

  /** Every match lies in the block at `base` from lane `lo` on, was flagged
      by that block's compare, and carries `line`. */
  predicate InBlock(w: nat, vec: seq<byte>, data: seq<byte>, base: nat, lo: nat, line: nat, ms: seq<Match>)
    requires w <= |vec|
  {
    forall i :: 0 <= i < |ms| ==> InBlockAt(w, vec, data, base, lo, line, ms[i])
  }

  /** `InBlock` for one match. */
  predicate InBlockAt(w: nat, vec: seq<byte>, data: seq<byte>, base: nat, lo: nat, line: nat, m: Match)
    requires w <= |vec|
  {
    base + lo <= m.start < base + w && m.start < |data| &&
    data[m.start] == vec[m.start - base] && m.line == line
  }

  /** Every match carries `line` plus the newlines from `pos` to its start. */
  predicate TailLines(data: seq<byte>, pos: nat, line: nat, ms: seq<Match>)
  {
    forall i :: 0 <= i < |ms| ==> TailLine(data, pos, line, ms[i])
  }

  /** `TailLines` for one match. */
  predicate TailLine(data: seq<byte>, pos: nat, line: nat, m: Match)
  {
    pos <= m.start < |data| && m.line == line + NewlinesIn(data, pos, m.start)
  }

  /** Inside the whole blocks from `pos` on, every match was flagged by its
      block's compare and carries `line` plus the newlines up to its block;
      past them it carries `line` plus the newlines up to itself. */
  predicate BlockLines(w: nat, vec: seq<byte>, data: seq<byte>, pos: nat, line: nat, ms: seq<Match>)
    requires 0 < w <= |vec|
  {
    forall i :: 0 <= i < |ms| ==> BlockLine(w, vec, data, pos, line, ms[i])
  }

  /** `BlockLines` for one match. */
  predicate BlockLine(w: nat, vec: seq<byte>, data: seq<byte>, pos: nat, line: nat, m: Match)
    requires 0 < w <= |vec|
  {
    pos <= m.start < |data| &&
    (m.start < TailStart(w, |data|, pos) ==>
       data[m.start] == vec[m.start - BlockStart(w, pos, m.start)] &&
       m.line == line + NewlinesIn(data, pos, BlockStart(w, pos, m.start))) &&
    (m.start >= TailStart(w, |data|, pos) ==>
       m.line == line + NewlinesIn(data, pos, m.start))
  }

  lemma BlockStartFirst(w: nat, pos: nat, k: nat)
    requires 0 < w && pos <= k < pos + w
    ensures BlockStart(w, pos, k) == pos
  {
  }

  lemma BlockStartNext(w: nat, pos: nat, k: nat)
    requires 0 < w && pos + w <= k
    ensures BlockStart(w, pos, k) == BlockStart(w, pos + w, k)
  {
  }

  lemma TailStartNext(w: nat, n: nat, pos: nat)
    requires 0 < w && pos + w <= n
    ensures TailStart(w, n, pos) == TailStart(w, n, pos + w) >= pos + w
  {
  }

  lemma GenuineExactAppend(text: seq<byte>, data: seq<byte>, a: seq<Match>, b: seq<Match>)
    requires GenuineExact(text, data, a) && GenuineExact(text, data, b)
    ensures GenuineExact(text, data, a + b)
  {
    forall i | 0 <= i < |a + b|
      ensures ExactAt(text, data, (a + b)[i])
    {
      if i < |a| {
        assert (a + b)[i] == a[i];
      } else {
        assert (a + b)[i] == b[i - |a|];
      }
    }
  }

  /** Lanes `lo ..` of a block followed by lanes `lo' ..`, `lo <= lo'`. */
  lemma InBlockAppend(w: nat, vec: seq<byte>, data: seq<byte>, base: nat, lo: nat, lo': nat, line: nat, a: seq<Match>, b: seq<Match>)
    requires w <= |vec| && lo <= lo'
    requires InBlock(w, vec, data, base, lo, line, a) && InBlock(w, vec, data, base, lo', line, b)
    ensures InBlock(w, vec, data, base, lo, line, a + b)
  {
    forall i | 0 <= i < |a + b|
      ensures InBlockAt(w, vec, data, base, lo, line, (a + b)[i])
    {
      if i < |a| {
        assert (a + b)[i] == a[i];
      } else {
        assert (a + b)[i] == b[i - |a|];
        assert InBlockAt(w, vec, data, base, lo', line, b[i - |a|]);
      }
    }
  }

  lemma InBlockBounds(w: nat, vec: seq<byte>, data: seq<byte>, base: nat, lo: nat, line: nat, ms: seq<Match>)
    requires w <= |vec| && InBlock(w, vec, data, base, lo, line, ms)
    ensures StartsAtLeast(ms, base + lo)
    ensures forall i :: 0 <= i < |ms| ==> ms[i].start < base + w
  {
    forall i | 0 <= i < |ms| ensures base + lo <= ms[i].start < base + w {
      assert InBlockAt(w, vec, data, base, lo, line, ms[i]);
    }
  }

  lemma TailLinesFloor(data: seq<byte>, pos: nat, line: nat, ms: seq<Match>)
    requires TailLines(data, pos, line, ms)
    ensures StartsAtLeast(ms, pos)
  {
    forall i | 0 <= i < |ms| ensures pos <= ms[i].start {
      assert TailLine(data, pos, line, ms[i]);
    }
  }

  lemma BlockLinesFloor(w: nat, vec: seq<byte>, data: seq<byte>, pos: nat, line: nat, ms: seq<Match>)
    requires 0 < w <= |vec| && BlockLines(w, vec, data, pos, line, ms)
    ensures StartsAtLeast(ms, pos)
  {
    forall i | 0 <= i < |ms| ensures pos <= ms[i].start {
      assert BlockLine(w, vec, data, pos, line, ms[i]);
    }
  }

  /** The match of one lane is genuine and flagged by the compare. */
  lemma LaneMatchSound(w: nat, text: seq<byte>, vec: seq<byte>, data: seq<byte>, base: nat, i: nat, line: nat)
    requires i < w <= |vec| && base + w <= |data|
    ensures GenuineExact(text, data, LaneMatch(w, text, vec, data, base, i, line))
    ensures InBlock(w, vec, data, base, i, line, LaneMatch(w, text, vec, data, base, i, line))
    ensures Increasing(LaneMatch(w, text, vec, data, base, i, line))
  {
  }

  /** One whole block's matches followed by those of the blocks after it
      keep the line rule of `BlockLines`. */
  lemma BlockLinesCons(w: nat, vec: seq<byte>, data: seq<byte>, pos: nat, line: nat, head: seq<Match>, rest: seq<Match>)
    requires 0 < w <= |vec| && pos + w <= |data|
    requires InBlock(w, vec, data, pos, 0, line, head)
    requires BlockLines(w, vec, data, pos + w, line + NewlinesIn(data, pos, pos + w), rest)
    ensures BlockLines(w, vec, data, pos, line, head + rest)
  {
    forall i | 0 <= i < |head + rest|
      ensures BlockLine(w, vec, data, pos, line, (head + rest)[i])
    {
      if i < |head| {
        assert (head + rest)[i] == head[i];
        BlockLineHead(w, vec, data, pos, line, head[i]);
      } else {
        assert (head + rest)[i] == rest[i - |head|];
        BlockLineRest(w, vec, data, pos, line, rest[i - |head|]);
      }
    }
  }

  lemma BlockLineHead(w: nat, vec: seq<byte>, data: seq<byte>, pos: nat, line: nat, m: Match)
    requires 0 < w <= |vec| && pos + w <= |data|
    requires InBlockAt(w, vec, data, pos, 0, line, m)
    ensures BlockLine(w, vec, data, pos, line, m)
  {
    TailStartNext(w, |data|, pos);
    BlockStartFirst(w, pos, m.start);
  }

  lemma BlockLineRest(w: nat, vec: seq<byte>, data: seq<byte>, pos: nat, line: nat, m: Match)
    requires 0 < w <= |vec| && pos + w <= |data|
    requires BlockLine(w, vec, data, pos + w, line + NewlinesIn(data, pos, pos + w), m)
    ensures BlockLine(w, vec, data, pos, line, m)
  {
    TailStartNext(w, |data|, pos);
    var s := m.start;
    if s < TailStart(w, |data|, pos) {
      BlockStartNext(w, pos, s);
      NewlinesInSplit(data, pos, pos + w, BlockStart(w, pos + w, s));
    } else {
      NewlinesInSplit(data, pos, pos + w, s);
    }
  }

  /** One whole block, then the blocks after it. */
  lemma BlocksUnfold(w: nat, text: seq<byte>, vec: seq<byte>, data: seq<byte>, pos: nat, line: nat)
    requires 0 < w <= |vec| && pos + w <= |data|
    ensures Blocks(w, text, vec, data, pos, line) ==
      Candidates(w, text, vec, data, pos, 0, line) + Blocks(w, text, vec, data, pos + w, line + NewlinesIn(data, pos, pos + w))
  {
  }

  /** Past the last whole block, the byte loop. */
  lemma BlocksTail(w: nat, text: seq<byte>, vec: seq<byte>, data: seq<byte>, pos: nat, line: nat)
    requires 0 < w <= |vec| && |data| < pos + w
    ensures Blocks(w, text, vec, data, pos, line) == Tail(text, data, pos, line)
    ensures TailStart(w, |data|, pos) == pos
  {
  }

  lemma {:induction false} CandidatesSound(w: nat, text: seq<byte>, vec: seq<byte>, data: seq<byte>, base: nat, i: nat, line: nat)
    requires i <= w <= |vec| && base + w <= |data|
    ensures GenuineExact(text, data, Candidates(w, text, vec, data, base, i, line))
    ensures InBlock(w, vec, data, base, i, line, Candidates(w, text, vec, data, base, i, line))
    decreases w - i
  {
    if i < w {
      var head := LaneMatch(w, text, vec, data, base, i, line);
      var rest := Candidates(w, text, vec, data, base, i + 1, line);
      CandidatesStep(w, text, vec, data, base, i, line);
      LaneMatchSound(w, text, vec, data, base, i, line);
      CandidatesSound(w, text, vec, data, base, i + 1, line);
      GenuineExactAppend(text, data, head, rest);
      InBlockAppend(w, vec, data, base, i, i + 1, line, head, rest);
    }
  }

  lemma {:induction false} CandidatesIncreasing(w: nat, text: seq<byte>, vec: seq<byte>, data: seq<byte>, base: nat, i: nat, line: nat)
    requires i <= w <= |vec| && base + w <= |data|
    ensures Increasing(Candidates(w, text, vec, data, base, i, line))
    decreases w - i
  {
    if i < w {
      var head := LaneMatch(w, text, vec, data, base, i, line);
      var rest := Candidates(w, text, vec, data, base, i + 1, line);
      CandidatesStep(w, text, vec, data, base, i, line);
      LaneMatchSound(w, text, vec, data, base, i, line);
      CandidatesIncreasing(w, text, vec, data, base, i + 1, line);
      CandidatesSound(w, text, vec, data, base, i + 1, line);
      InBlockBounds(w, vec, data, base, i + 1, line, rest);
      InBlockBounds(w, vec, data, base, i, line, head);
      IncreasingAppend(head, rest, base + i + 1);
    }
  }

  lemma {:induction false} CandidatesComplete(w: nat, text: seq<byte>, vec: seq<byte>, data: seq<byte>, base: nat, i: nat, line: nat, k: nat)
    requires i <= w <= |vec| && base + w <= |data|
    requires base + i <= k < base + w && data[k] == vec[k - base] && ExactMatchAt(text, data, k)
    ensures k in Starts(Candidates(w, text, vec, data, base, i, line))
    decreases w - i
  {
    var head := LaneMatch(w, text, vec, data, base, i, line);
    var rest := Candidates(w, text, vec, data, base, i + 1, line);
    CandidatesStep(w, text, vec, data, base, i, line);
    if k == base + i {
      assert Starts(head)[0] == k;
    } else {
      CandidatesComplete(w, text, vec, data, base, i + 1, line, k);
    }
    InStartsAppend(head, rest, k);
  }

  /** The match the byte loop appends at `pos`, if any. */
  function TailHead(text: seq<byte>, data: seq<byte>, pos: nat, line: nat): seq<Match>
  {
    if ExactMatchAt(text, data, pos) then [Match(pos, pos + |text|, line)] else []
  }

  lemma TailLinesCons(data: seq<byte>, pos: nat, line: nat, head: seq<Match>, rest: seq<Match>)
    requires pos < |data|
    requires forall i :: 0 <= i < |head| ==> head[i].start == pos && head[i].line == line
    requires TailLines(data, pos + 1, if data[pos] == NL then line + 1 else line, rest)
    ensures TailLines(data, pos, line, head + rest)
  {
    var line' := if data[pos] == NL then line + 1 else line;
    forall i | 0 <= i < |head + rest|
      ensures TailLine(data, pos, line, (head + rest)[i])
    {
      if i < |head| {
        assert (head + rest)[i] == head[i];
      } else {
        assert (head + rest)[i] == rest[i - |head|];
        assert TailLine(data, pos + 1, line', rest[i - |head|]);
      }
    }
  }

  lemma {:induction false} TailSound(text: seq<byte>, data: seq<byte>, pos: nat, line: nat)
    ensures GenuineExact(text, data, Tail(text, data, pos, line))
    ensures TailLines(data, pos, line, Tail(text, data, pos, line))
    decreases |data| - pos
  {
    if pos < |data| {
      var line' := if data[pos] == NL then line + 1 else line;
      var head := TailHead(text, data, pos, line);
      var rest := Tail(text, data, pos + 1, line');
      TailStep(text, data, pos, line);
      TailSound(text, data, pos + 1, line');
      GenuineExactAppend(text, data, head, rest);
      TailLinesCons(data, pos, line, head, rest);
    }
  }

  lemma {:induction false} TailIncreasing(text: seq<byte>, data: seq<byte>, pos: nat, line: nat)
    ensures Increasing(Tail(text, data, pos, line))
    decreases |data| - pos
  {
    if pos < |data| {
      var line' := if data[pos] == NL then line + 1 else line;
      var head := TailHead(text, data, pos, line);
      var rest := Tail(text, data, pos + 1, line');
      TailStep(text, data, pos, line);
      TailIncreasing(text, data, pos + 1, line');
      TailSound(text, data, pos + 1, line');
      TailLinesFloor(data, pos + 1, line', rest);
      IncreasingAppend(head, rest, pos + 1);
    }
  }

  lemma {:induction false} TailComplete(text: seq<byte>, data: seq<byte>, pos: nat, line: nat, k: nat)
    requires pos <= k < |data| && ExactMatchAt(text, data, k)
    ensures k in Starts(Tail(text, data, pos, line))
    decreases |data| - pos
  {
    var line' := if data[pos] == NL then line + 1 else line;
    var head := TailHead(text, data, pos, line);
    var rest := Tail(text, data, pos + 1, line');
    TailStep(text, data, pos, line);
    if k == pos {
      assert Starts(head)[0] == k;
    } else {
      TailComplete(text, data, pos + 1, line', k);
    }
    InStartsAppend(head, rest, k);
  }

  /** Matches of the byte loop are `BlockLines` matches once no whole block is left. */
  lemma TailBlockLines(w: nat, vec: seq<byte>, data: seq<byte>, pos: nat, line: nat, ms: seq<Match>)
    requires 0 < w <= |vec| && TailStart(w, |data|, pos) == pos
    requires TailLines(data, pos, line, ms)
    ensures BlockLines(w, vec, data, pos, line, ms)
  {
    forall i | 0 <= i < |ms| ensures BlockLine(w, vec, data, pos, line, ms[i]) {
      assert TailLine(data, pos, line, ms[i]);
    }
  }

  /** `GenuineExact` and `BlockLines` carry over one whole block. */
  lemma BlocksSoundStep(w: nat, text: seq<byte>, vec: seq<byte>, data: seq<byte>, pos: nat, line: nat)
    requires 0 < w <= |vec| && pos + w <= |data|
    requires GenuineExact(text, data, Candidates(w, text, vec, data, pos, 0, line))
    requires InBlock(w, vec, data, pos, 0, line, Candidates(w, text, vec, data, pos, 0, line))
    requires GenuineExact(text, data, Blocks(w, text, vec, data, pos + w, line + NewlinesIn(data, pos, pos + w)))
    requires BlockLines(w, vec, data, pos + w, line + NewlinesIn(data, pos, pos + w),
                        Blocks(w, text, vec, data, pos + w, line + NewlinesIn(data, pos, pos + w)))
    ensures GenuineExact(text, data, Blocks(w, text, vec, data, pos, line))
    ensures BlockLines(w, vec, data, pos, line, Blocks(w, text, vec, data, pos, line))
  {
    var head := Candidates(w, text, vec, data, pos, 0, line);
    var rest := Blocks(w, text, vec, data, pos + w, line + NewlinesIn(data, pos, pos + w));
    BlocksUnfold(w, text, vec, data, pos, line);
    GenuineExactAppend(text, data, head, rest);
    BlockLinesCons(w, vec, data, pos, line, head, rest);
  }

  /** Past the last whole block, `GenuineExact` and `TailLines` give `BlockLines`. */
  lemma BlocksSoundTail(w: nat, text: seq<byte>, vec: seq<byte>, data: seq<byte>, pos: nat, line: nat)
    requires 0 < w <= |vec| && |data| < pos + w
    requires GenuineExact(text, data, Tail(text, data, pos, line))
    requires TailLines(data, pos, line, Tail(text, data, pos, line))
    ensures GenuineExact(text, data, Blocks(w, text, vec, data, pos, line))
    ensures BlockLines(w, vec, data, pos, line, Blocks(w, text, vec, data, pos, line))
  {
    BlocksTail(w, text, vec, data, pos, line);
    TailBlockLines(w, vec, data, pos, line, Tail(text, data, pos, line));
  }

  lemma {:induction false} BlocksSound(w: nat, text: seq<byte>, vec: seq<byte>, data: seq<byte>, pos: nat, line: nat)
    requires 0 < w <= |vec|
    ensures GenuineExact(text, data, Blocks(w, text, vec, data, pos, line))
    ensures BlockLines(w, vec, data, pos, line, Blocks(w, text, vec, data, pos, line))
    decreases |data| - pos
  {
    if pos + w <= |data| {
      CandidatesSound(w, text, vec, data, pos, 0, line);
      BlocksSound(w, text, vec, data, pos + w, line + NewlinesIn(data, pos, pos + w));
      BlocksSoundStep(w, text, vec, data, pos, line);
    } else {
      TailSound(text, data, pos, line);
      BlocksSoundTail(w, text, vec, data, pos, line);
    }
  }

  /** The matches of a block lie below its end. */
  lemma CandidatesBelow(w: nat, text: seq<byte>, vec: seq<byte>, data: seq<byte>, base: nat, line: nat)
    requires w <= |vec| && base + w <= |data|
    ensures forall i :: 0 <= i < |Candidates(w, text, vec, data, base, 0, line)| ==>
      Candidates(w, text, vec, data, base, 0, line)[i].start < base + w
  {
    CandidatesSound(w, text, vec, data, base, 0, line);
    InBlockBounds(w, vec, data, base, 0, line, Candidates(w, text, vec, data, base, 0, line));
  }

  /** The matches from the block at `pos` on lie at or after `pos`. */
  lemma BlocksFloor(w: nat, text: seq<byte>, vec: seq<byte>, data: seq<byte>, pos: nat, line: nat)
    requires 0 < w <= |vec|
    ensures StartsAtLeast(Blocks(w, text, vec, data, pos, line), pos)
  {
    BlocksSound(w, text, vec, data, pos, line);
    BlockLinesFloor(w, vec, data, pos, line, Blocks(w, text, vec, data, pos, line));
  }

  lemma BlocksIncreasingStep(w: nat, text: seq<byte>, vec: seq<byte>, data: seq<byte>, pos: nat, line: nat)
    requires 0 < w <= |vec| && pos + w <= |data|
    requires Increasing(Candidates(w, text, vec, data, pos, 0, line))
    requires forall i :: 0 <= i < |Candidates(w, text, vec, data, pos, 0, line)| ==>
      Candidates(w, text, vec, data, pos, 0, line)[i].start < pos + w
    requires Increasing(Blocks(w, text, vec, data, pos + w, line + NewlinesIn(data, pos, pos + w)))
    requires StartsAtLeast(Blocks(w, text, vec, data, pos + w, line + NewlinesIn(data, pos, pos + w)), pos + w)
    ensures Increasing(Blocks(w, text, vec, data, pos, line))
  {
    BlocksUnfold(w, text, vec, data, pos, line);
    IncreasingAppend(Candidates(w, text, vec, data, pos, 0, line),
                     Blocks(w, text, vec, data, pos + w, line + NewlinesIn(data, pos, pos + w)), pos + w);
  }

  lemma BlocksIncreasingTail(w: nat, text: seq<byte>, vec: seq<byte>, data: seq<byte>, pos: nat, line: nat)
    requires 0 < w <= |vec| && |data| < pos + w
    requires Increasing(Tail(text, data, pos, line))
    ensures Increasing(Blocks(w, text, vec, data, pos, line))
  {
    BlocksTail(w, text, vec, data, pos, line);
  }

  lemma {:induction false} BlocksIncreasing(w: nat, text: seq<byte>, vec: seq<byte>, data: seq<byte>, pos: nat, line: nat)
    requires 0 < w <= |vec|
    ensures Increasing(Blocks(w, text, vec, data, pos, line))
    decreases |data| - pos
  {
    if pos + w <= |data| {
      CandidatesIncreasing(w, text, vec, data, pos, 0, line);
      CandidatesBelow(w, text, vec, data, pos, line);
      BlocksIncreasing(w, text, vec, data, pos + w, line + NewlinesIn(data, pos, pos + w));
      BlocksFloor(w, text, vec, data, pos + w, line + NewlinesIn(data, pos, pos + w));
      BlocksIncreasingStep(w, text, vec, data, pos, line);
    } else {
      TailIncreasing(text, data, pos, line);
      BlocksIncreasingTail(w, text, vec, data, pos, line);
    }
  }

  lemma BlocksStartsStep(w: nat, text: seq<byte>, vec: seq<byte>, data: seq<byte>, pos: nat, line: nat, k: nat)
    requires 0 < w <= |vec| && pos + w <= |data|
    requires k in Starts(Candidates(w, text, vec, data, pos, 0, line)) ||
             k in Starts(Blocks(w, text, vec, data, pos + w, line + NewlinesIn(data, pos, pos + w)))
    ensures k in Starts(Blocks(w, text, vec, data, pos, line))
  {
    BlocksUnfold(w, text, vec, data, pos, line);
    InStartsAppend(Candidates(w, text, vec, data, pos, 0, line),
                   Blocks(w, text, vec, data, pos + w, line + NewlinesIn(data, pos, pos + w)), k);
  }

  lemma BlocksStartsTail(w: nat, text: seq<byte>, vec: seq<byte>, data: seq<byte>, pos: nat, line: nat, k: nat)
    requires 0 < w <= |vec| && |data| < pos + w
    requires k in Starts(Tail(text, data, pos, line))
    ensures k in Starts(Blocks(w, text, vec, data, pos, line))
  {
    BlocksTail(w, text, vec, data, pos, line);
  }

  lemma {:induction false} BlocksComplete(w: nat, text: seq<byte>, vec: seq<byte>, data: seq<byte>, pos: nat, line: nat, k: nat)
    requires 0 < w <= |vec|
    requires pos <= k < |data| && ExactMatchAt(text, data, k)
    requires k >= TailStart(w, |data|, pos) || data[k] == vec[k - BlockStart(w, pos, k)]
    ensures k in Starts(Blocks(w, text, vec, data, pos, line))
    decreases |data| - pos
  {
    if pos + w <= |data| {
      TailStartNext(w, |data|, pos);
      if k < pos + w {
        BlockStartFirst(w, pos, k);
        CandidatesComplete(w, text, vec, data, pos, 0, line, k);
      } else {
        BlockStartNext(w, pos, k);
        BlocksComplete(w, text, vec, data, pos + w, line + NewlinesIn(data, pos, pos + w), k);
      }
      BlocksStartsStep(w, text, vec, data, pos, line, k);
    } else {
      TailComplete(text, data, pos, line, k);
      BlocksStartsTail(w, text, vec, data, pos, line, k);
    }
  }

  /** Every match carries the line of the first byte of its block, or its
      own line past the last whole block. */
  predicate KernelLines(w: nat, data: seq<byte>, ms: seq<Match>)
    requires 0 < w
  {
    forall i :: 0 <= i < |ms| ==>
      ms[i].start < |data| && ms[i].line == LineOf(data, BlockBase(w, |data|, ms[i].start))
  }

  /** The block kernels append genuine occurrences, in strictly increasing order. */
  lemma KernelScanSound(w: nat, p: Pattern, padding: seq<byte>, data: seq<byte>)
    requires 0 < w && |padding| == w
    requires !p.caseInsensitive
    ensures Increasing(KernelScan(w, p, padding, data))
    ensures Genuine(p, data, KernelScan(w, p, padding, data))
  {
    if 0 < |p.text| <= w {
      var vec := Lanes(w, p.text, padding);
      BlocksSound(w, p.text, vec, data, 0, 1);
      BlocksIncreasing(w, p.text, vec, data, 0, 1);
    } else if |p.text| > w {
      ScalarScanSpec(p, data);
    }
  }

  /** An occurrence at `k` starts with the pattern's first byte. */
  lemma FirstByteAt(text: seq<byte>, data: seq<byte>, k: nat)
    requires 0 < |text| && ExactMatchAt(text, data, k)
    ensures data[k] == text[0]
  {
    assert data[k..k + |text|][0] == text[0];
  }

  /** The block kernels are incomplete. A match is appended exactly when the
      pattern occurs there and either the offset is past the last whole
      block or the pattern vector's lane for that offset happens to hold
      the pattern's first byte: the block compare tests each byte of a
      block against the lane of the same index, not against the first byte. */
  lemma KernelScanMembership(w: nat, p: Pattern, padding: seq<byte>, data: seq<byte>)
    requires 0 < w && |padding| == w
    requires !p.caseInsensitive
    ensures forall k: nat :: k in Starts(KernelScan(w, p, padding, data)) <==>
      0 < |p.text| && k < |data| && MatchesAt(p, data, k) &&
      (|p.text| > w || k >= TailStart(w, |data|, 0) || Lanes(w, p.text, padding)[k - BlockStart(w, 0, k)] == p.text[0])
  {
    if |p.text| > w {
      ScalarScanSpec(p, data);
    } else if 0 < |p.text| {
      var vec := Lanes(w, p.text, padding);
      forall k: nat
        ensures k in Starts(Blocks(w, p.text, vec, data, 0, 1)) <==>
          k < |data| && ExactMatchAt(p.text, data, k) &&
          (k >= TailStart(w, |data|, 0) || vec[k - BlockStart(w, 0, k)] == p.text[0])
      {
        BlocksMember(w, p.text, vec, data, k);
      }
    }
  }

  lemma BlocksMember(w: nat, text: seq<byte>, vec: seq<byte>, data: seq<byte>, k: nat)
    requires 0 < |text| && 0 < w <= |vec|
    ensures k in Starts(Blocks(w, text, vec, data, 0, 1)) <==>
      k < |data| && ExactMatchAt(text, data, k) &&
      (k >= TailStart(w, |data|, 0) || vec[k - BlockStart(w, 0, k)] == text[0])
  {
    if k in Starts(Blocks(w, text, vec, data, 0, 1)) {
      BlocksMemberFound(w, text, vec, data, k);
    } else if k < |data| && ExactMatchAt(text, data, k) {
      FirstByteAt(text, data, k);
      if k >= TailStart(w, |data|, 0) || vec[k - BlockStart(w, 0, k)] == text[0] {
        BlocksComplete(w, text, vec, data, 0, 1, k);
      }
    }
  }

  lemma BlocksMemberFound(w: nat, text: seq<byte>, vec: seq<byte>, data: seq<byte>, k: nat)
    requires 0 < |text| && 0 < w <= |vec|
    requires k in Starts(Blocks(w, text, vec, data, 0, 1))
    ensures k < |data| && ExactMatchAt(text, data, k)
    ensures k < TailStart(w, |data|, 0) ==> vec[k - BlockStart(w, 0, k)] == text[0]
  {
    var r := Blocks(w, text, vec, data, 0, 1);
    var j :| 0 <= j < |r| && r[j].start == k;
    BlocksSound(w, text, vec, data, 0, 1);
    assert ExactMatchAt(text, data, r[j].start);
    FirstByteAt(text, data, k);
    assert BlockLine(w, vec, data, 0, 1, r[j]);
    if k < TailStart(w, |data|, 0) {
      assert data[k] == vec[k - BlockStart(w, 0, k)];
    }
  }

  /** A match inside a whole block carries the line number of the block's
      first byte; past the last whole block, its own line number. */
  lemma KernelScanLines(w: nat, p: Pattern, padding: seq<byte>, data: seq<byte>)
    requires 0 < w && |padding| == w
    requires 0 < |p.text| <= w
    ensures KernelLines(w, data, KernelScan(w, p, padding, data))
  {
    var r := KernelScan(w, p, padding, data);
    var vec := Lanes(w, p.text, padding);
    BlocksSound(w, p.text, vec, data, 0, 1);
    forall j | 0 <= j < |r| ensures r[j].line == LineOf(data, BlockBase(w, |data|, r[j].start)) {
      var b := BlockBase(w, |data|, r[j].start);
      assert BlockLine(w, vec, data, 0, 1, r[j]);
      NewlinesInSlice(data, 0, b);
      assert data[0..b] == data[..b];
    }
  }

  /** A match at the first byte of a block, or past the last whole block,
      is always found. */
  lemma KernelFindsAligned(w: nat, p: Pattern, padding: seq<byte>, data: seq<byte>, k: nat)
    requires 0 < w && |padding| == w && !p.caseInsensitive && 0 < |p.text|
    requires k < |data| && MatchesAt(p, data, k)
    requires k == BlockStart(w, 0, k) || k >= TailStart(w, |data|, 0)
    ensures k in Starts(KernelScan(w, p, padding, data))
  {
    KernelScanMembership(w, p, padding, data);
  }

  /** The 16-byte kernel misses "ab" at offset 1 of "xab" followed by 13
      more bytes, whatever the padding: lane 1 holds 'b', not 'a'. The
      scalar scan finds it. */
  lemma KernelMissesMatch(padding: seq<byte>)
    requires |padding| == 16
    ensures 1 !in Starts(KernelScan(16, Pattern([97, 98], false, MatchAscii, None), padding, [120, 97, 98] + seq(13, _ => 120)))
    ensures 1 in Starts(ScalarScan(Pattern([97, 98], false, MatchAscii, None), [120, 97, 98] + seq(13, _ => 120)))
  {
    var p := Pattern([97, 98], false, MatchAscii, None);
    var data: seq<byte> := [120, 97, 98] + seq(13, _ => 120);
    assert data[1..3] == [97, 98];
    assert TailStart(16, 16, 0) == 16 by { assert TailStart(16, 16, 16) == 16; }
    assert BlockStart(16, 0, 1) == 0;
    KernelScanMembership(16, p, padding, data);
    ScalarScanSpec(p, data);
  }

  /** A match inside a block after a newline carries the block's line:
      "bb" over "\nbb" followed by 13 more bytes is first reported at
      offset 1 on line 1, although offset 1 is on line 2. */
  lemma KernelLineIsBlockLine(padding: seq<byte>)
    requires |padding| == 16
    ensures var r := KernelScan(16, Pattern([98, 98], false, MatchAscii, None), padding, [NL, 98, 98] + seq(13, _ => 120));
      |r| > 0 && r[0] == Match(1, 3, 1)
    ensures LineOf([NL, 98, 98] + seq(13, _ => 120), 1) == 2
  {
    var p := Pattern([98, 98], false, MatchAscii, None);
    var data: seq<byte> := [NL, 98, 98] + seq(13, _ => 120);
    var r := KernelScan(16, p, padding, data);
    assert |r| > 0 && r[0].start == 1 by {
      FirstMatchAtOne(padding);
    }
    assert r[0].end == 3 by {
      KernelScanSound(16, p, padding, data);
    }
    assert r[0].line == 1 by {
      KernelScanLines(16, p, padding, data);
      assert BlockBase(16, 16, 1) == 0 by {
        assert TailStart(16, 16, 0) == 16 by { assert TailStart(16, 16, 16) == 16; }
        assert BlockStart(16, 0, 1) == 0;
      }
      assert data[..0] == [];
    }
    assert data[..1] == [NL] && [NL][..0] == [];
    assert Newlines(data[..1]) == 1;
  }

  /** The first match of an increasing list starts at or before any start
      in it. */
  lemma HeadStartsFirst(ms: seq<Match>, k: nat)
    requires Increasing(ms) && k in Starts(ms)
    ensures |ms| > 0 && ms[0].start <= k
  {
    var j :| 0 <= j < |ms| && Starts(ms)[j] == k;
    assert j == 0 || ms[0].start < ms[j].start;
  }

  lemma FirstMatchStarts(padding: seq<byte>)
    requires |padding| == 16
    ensures var r := KernelScan(16, Pattern([98, 98], false, MatchAscii, None), padding, [NL, 98, 98] + seq(13, _ => 120));
      1 in Starts(r) && 0 !in Starts(r)
  {
    var p := Pattern([98, 98], false, MatchAscii, None);
    var data: seq<byte> := [NL, 98, 98] + seq(13, _ => 120);
    assert data[1..3] == [98, 98];
    assert TailStart(16, 16, 0) == 16 by { assert TailStart(16, 16, 16) == 16; }
    assert BlockStart(16, 0, 1) == 0;
    assert Lanes(16, p.text, padding)[1] == p.text[0];
    assert MatchesAt(p, data, 1);
    assert data[0] != p.text[0];
    KernelScanMembership(16, p, padding, data);
  }

  lemma FirstMatchAtOne(padding: seq<byte>)
    requires |padding| == 16
    ensures var r := KernelScan(16, Pattern([98, 98], false, MatchAscii, None), padding, [NL, 98, 98] + seq(13, _ => 120));
      |r| > 0 && r[0].start == 1
  {
    var p := Pattern([98, 98], false, MatchAscii, None);
    var data: seq<byte> := [NL, 98, 98] + seq(13, _ => 120);
    var r := KernelScan(16, p, padding, data);
    FirstMatchStarts(padding);
    KernelScanSound(16, p, padding, data);
    HeadStartsFirst(r, 1);
    assert Starts(r)[0] == r[0].start;
  }

  /** The lane loop of one block: appends what `Candidates` describes. */
  method ScanBlock(w: nat, text: seq<byte>, vec: seq<byte>, data: seq<byte>, base: nat, line: nat, list: MatchList)
    requires 0 < w <= |vec| && base + w <= |data| && list.Valid()
    modifies list.Repr
    ensures list.Valid() && fresh(list.Repr - old(list.Repr))
    ensures list.Items() == old(list.Items()) + Candidates(w, text, vec, data, base, 0, line)
  {
    var mask := CompareMask(w, vec, data, base);
    if true in mask {
      var i := 0;
      while i < w
        invariant 0 <= i <= w
        invariant list.Valid() && fresh(list.Repr - old(list.Repr))
        invariant list.Items() + Candidates(w, text, vec, data, base, i, line)
               == old(list.Items()) + Candidates(w, text, vec, data, base, 0, line)
      {
        CandidatesStep(w, text, vec, data, base, i, line);
        label Lane:
        ScanLane(w, text, vec, mask, data, base, i, line, list);
        AppendAssoc(old@Lane(list.Items()), LaneMatch(w, text, vec, data, base, i, line),
                    Candidates(w, text, vec, data, base, i + 1, line));
        i := i + 1;
      }
    } else {
      NoCandidates(w, text, vec, data, base, 0, line);
    }
  }

  /** One lane of the lane loop: confirm a set lane with `memcmp`. */
  method ScanLane(w: nat, text: seq<byte>, vec: seq<byte>, mask: seq<bool>, data: seq<byte>, base: nat, i: nat, line: nat,
                  list: MatchList)
    requires i < w <= |vec| && base + w <= |data| && |mask| == w && list.Valid()
    requires mask[i] <==> data[base + i] == vec[i]
    modifies list.Repr
    ensures list.Valid() && fresh(list.Repr - old(list.Repr))
    ensures list.Items() == old(list.Items()) + LaneMatch(w, text, vec, data, base, i, line)
  {
    if mask[i] && base + i + |text| <= |data| && data[base + i..base + i + |text|] == text {
      var _ := list.Add(base + i, base + i + |text|, line, true);
    }
  }

  /** Lane `i` of a block, then the lanes after it. */
  lemma CandidatesStep(w: nat, text: seq<byte>, vec: seq<byte>, data: seq<byte>, base: nat, i: nat, line: nat)
    requires i < w <= |vec| && base + w <= |data|
    ensures Candidates(w, text, vec, data, base, i, line) ==
      LaneMatch(w, text, vec, data, base, i, line) + Candidates(w, text, vec, data, base, i + 1, line)
  {
  }

  /** Offset `pos` of the tail, then the offsets after it. */
  lemma TailStep(text: seq<byte>, data: seq<byte>, pos: nat, line: nat)
    requires pos < |data|
    ensures Tail(text, data, pos, line) ==
      TailHead(text, data, pos, line) + Tail(text, data, pos + 1, if data[pos] == NL then line + 1 else line)
  {
  }

  lemma AppendAssoc<T>(a: seq<T>, m: seq<T>, rest: seq<T>)
    ensures (a + m) + rest == a + (m + rest)
  {
  }

  /** A block whose compare mask is all clear contributes no candidates. */
  lemma {:induction false} NoCandidates(w: nat, text: seq<byte>, vec: seq<byte>, data: seq<byte>, base: nat, i: nat, line: nat)
    requires i <= w <= |vec| && base + w <= |data|
    requires forall j :: i <= j < w ==> data[base + j] != vec[j]
    ensures Candidates(w, text, vec, data, base, i, line) == []
    decreases w - i
  {
    if i < w {
      NoCandidates(w, text, vec, data, base, i + 1, line);
    }
  }

  /** The newline loop of one block. */
  method CountBlockNewlines(w: nat, data: seq<byte>, base: nat) returns (n: nat)
    requires base + w <= |data|
    ensures n == Newlines(data[base..base + w]) && n == NewlinesIn(data, base, base + w)
  {
    n := 0;
    var i := 0;
    while i < w && base + i < |data|
      invariant 0 <= i <= w
      invariant n == Newlines(data[base..base + i])
    {
      ghost var s := data[base..base + i + 1];
      assert s[..|s| - 1] == data[base..base + i];
      if data[base + i] == NL {
        n := n + 1;
      }
      i := i + 1;
    }
    NewlinesInSlice(data, base, base + w);
  }

  /** Scanning one whole block moves `before` forward by its candidates. */
  lemma BlocksAdvance(before: seq<Match>, after: seq<Match>, w: nat, text: seq<byte>, vec: seq<byte>, data: seq<byte>,
                      pos: nat, line: nat, n: nat, goal: seq<Match>)
    requires 0 < w <= |vec| && pos + w <= |data|
    requires before + Blocks(w, text, vec, data, pos, line) == goal
    requires after == before + Candidates(w, text, vec, data, pos, 0, line)
    requires n == NewlinesIn(data, pos, pos + w)
    ensures after + Blocks(w, text, vec, data, pos + w, line + n) == goal
  {
    var c := Candidates(w, text, vec, data, pos, 0, line);
    var rest := Blocks(w, text, vec, data, pos + w, line + n);
    BlocksUnfold(w, text, vec, data, pos, line);
    assert Blocks(w, text, vec, data, pos, line) == c + rest;
    AppendAssoc(before, c, rest);
  }

  /** The byte loop past the last whole block: appends what `Tail` describes
      and returns the line counter it ends with. */
  method ScanTail(text: seq<byte>, data: seq<byte>, pos: nat, line: nat, list: MatchList)
    requires list.Valid()
    modifies list.Repr
    ensures list.Valid() && fresh(list.Repr - old(list.Repr))
    ensures list.Items() == old(list.Items()) + Tail(text, data, pos, line)
  {
    var i := pos;
    var ln := line;
    while i < |data|
      invariant list.Valid() && fresh(list.Repr - old(list.Repr))
      invariant list.Items() + Tail(text, data, i, ln) == old(list.Items()) + Tail(text, data, pos, line)
      decreases |data| - i
    {
      TailStep(text, data, i, ln);
      label Byte:
      ScanByte(text, data, i, ln, list);
      AppendAssoc(old@Byte(list.Items()), TailHead(text, data, i, ln),
                  Tail(text, data, i + 1, if data[i] == NL then ln + 1 else ln));
      if data[i] == NL {
        ln := ln + 1;
      }
      i := i + 1;
    }
  }

  /** One offset of the byte loop: compare the pattern there with `memcmp`. */
  method ScanByte(text: seq<byte>, data: seq<byte>, i: nat, ln: nat, list: MatchList)
    requires list.Valid()
    modifies list.Repr
    ensures list.Valid() && fresh(list.Repr - old(list.Repr))
    ensures list.Items() == old(list.Items()) + TailHead(text, data, i, ln)
  {
    if ExactMatchAt(text, data, i) {
      var _ := list.Add(i, i + |text|, ln, true);
    }
  }

  /** The body shared by the two block kernels, for a vector width `w`. */
  method SearchPatternBlocks(w: nat, p: Pattern, padding: seq<byte>, data: seq<byte>, list: MatchList) returns (found: bool)
    requires 0 < w && |padding| == w
    requires list.Valid()
    modifies list.Repr
    ensures list.Valid() && fresh(list.Repr - old(list.Repr))
    ensures list.Items() == old(list.Items()) + KernelScan(w, p, padding, data)
    ensures found <==> 0 < |p.text| && |list.Items()| > 0
  {
    if |p.text| == 0 {
      return false;
    }
    if |p.text| > w {
      found := SearchPatternAscii(p, data, list);
      return;
    }
    var vec := Lanes(w, p.text, padding);
    var pos, line := ScanWholeBlocks(w, p.text, vec, data, list);
    BlocksTail(w, p.text, vec, data, pos, line);
    ScanTail(p.text, data, pos, line, list);
    found := list.count > 0;
  }

  /** The block loop of a kernel: appends the matches of every whole block
      and returns the offset and the line counter the byte loop starts with. */
  method ScanWholeBlocks(w: nat, text: seq<byte>, vec: seq<byte>, data: seq<byte>, list: MatchList)
    returns (pos: nat, line: nat)
    requires 0 < w <= |vec| && list.Valid()
    modifies list.Repr
    ensures list.Valid() && fresh(list.Repr - old(list.Repr))
    ensures |data| < pos + w
    ensures list.Items() + Blocks(w, text, vec, data, pos, line) == old(list.Items()) + Blocks(w, text, vec, data, 0, 1)
  {
    pos, line := 0, 1;
    while pos + w <= |data|
      invariant list.Valid() && fresh(list.Repr - old(list.Repr))
      invariant list.Items() + Blocks(w, text, vec, data, pos, line) == old(list.Items()) + Blocks(w, text, vec, data, 0, 1)
      decreases |data| - pos
    {
      var n := ScanOneBlock(w, text, vec, data, pos, line, list, old(list.Items()) + Blocks(w, text, vec, data, 0, 1));
      line := line + n;
      pos := pos + w;
    }
  }

  /** One iteration of the block loop: the lanes of the block at `pos`,
      then its newlines. */
  method ScanOneBlock(w: nat, text: seq<byte>, vec: seq<byte>, data: seq<byte>, pos: nat, line: nat,
                      list: MatchList, ghost goal: seq<Match>) returns (n: nat)
    requires 0 < w <= |vec| && pos + w <= |data| && list.Valid()
    requires list.Items() + Blocks(w, text, vec, data, pos, line) == goal
    modifies list.Repr
    ensures list.Valid() && fresh(list.Repr - old(list.Repr))
    ensures n == NewlinesIn(data, pos, pos + w)
    ensures list.Items() + Blocks(w, text, vec, data, pos + w, line + n) == goal
  {
    // The newline count only reads the buffer, so it is taken before the
    // lanes are tested rather than after; the result is the same.
    n := CountBlockNewlines(w, data, pos);
    label Lanes:
    ScanBlock(w, text, vec, data, pos, line, list);
    BlocksAdvance(old@Lanes(list.Items()), list.Items(), w, text, vec, data, pos, line, n, goal);
  }

  /** search_pattern_sse42 */
  method SearchPatternSse42(p: Pattern, padding: seq<byte>, data: seq<byte>, list: MatchList) returns (found: bool)
    requires |padding| == 16 && list.Valid()
    modifies list.Repr
    ensures list.Valid() && fresh(list.Repr - old(list.Repr))
    ensures list.Items() == old(list.Items()) + KernelScan(16, p, padding, data)
    ensures found <==> 0 < |p.text| && |list.Items()| > 0
  {
    found := SearchPatternBlocks(16, p, padding, data, list);
  }

  /** search_pattern_avx2 */
  method SearchPatternAvx2(p: Pattern, padding: seq<byte>, data: seq<byte>, list: MatchList) returns (found: bool)
    requires |padding| == 32 && list.Valid()
    modifies list.Repr
    ensures list.Valid() && fresh(list.Repr - old(list.Repr))
    ensures list.Items() == old(list.Items()) + KernelScan(32, p, padding, data)
    ensures found <==> 0 < |p.text| && |list.Items()| > 0
  {
    found := SearchPatternBlocks(32, p, padding, data, list);
  }

  // ---------------------------------------------------------------------
  // The regex scan: search_pattern_regex

  /** `strlen(data + k)`: the number of bytes from `k` up to the first 0
      byte, or up to the end of the buffer, where the terminator is taken
      to lie. */
  function CStrLen(data: seq<byte>, k: nat): (n: nat)
    requires k <= |data|
    ensures k + n <= |data|
    decreases |data| - k
  {
    if k == |data| || data[k] == 0 then 0 else 1 + CStrLen(data, k + 1)
  }

  /** The bytes `strlen` counts hold no 0, and a 0 byte or the end of the
      buffer follows them. */
  lemma {:induction false} CStrLenBeforeNul(data: seq<byte>, k: nat)
    requires k <= |data|
    ensures 0 !in data[k..k + CStrLen(data, k)]
    ensures k + CStrLen(data, k) == |data| || data[k + CStrLen(data, k)] == 0
    decreases |data| - k
  {
    if k < |data| && data[k] != 0 {
      CStrLenBeforeNul(data, k + 1);
      assert data[k..k + CStrLen(data, k)] == [data[k]] + data[k + 1..k + 1 + CStrLen(data, k + 1)];
    }
  }

  /** `regexec(data + k)`: the matcher is handed the buffer from `k` on. */
  function ExecAt(exec: RegexExec, data: seq<byte>, k: nat): Option<Span>
    requires k <= |data|
  {
    exec(data[k..])
  }

  /** What `regexec` promises for this buffer: a match in a suffix lies
      inside that suffix. */
  predicate RegexOracleOk(exec: RegexExec, data: seq<byte>)
  {
    forall k :: 0 <= k <= |data| ==>
      match ExecAt(exec, data, k)
      case None => true
      case Some(sp) => 0 <= sp.so <= sp.eo <= |data| - k
  }

  /** `regexec` reads `data + k` as a C string: a match it reports ends
      before the first 0 byte from `k` on. */
  predicate RegexReadsCString(exec: RegexExec, data: seq<byte>)
  {
    forall k {:trigger ExecAt(exec, data, k)} :: 0 <= k <= |data| ==>
      match ExecAt(exec, data, k)
      case None => true
      case Some(sp) => sp.eo <= CStrLen(data, k)
  }

  /** The regex loop, started at cursor `pos`, ends: at no cursor it visits
      does `regexec` return a match that is empty at a non-zero cursor
      (there the cursor stays put and the loop asks the same question
      forever, see RegexCursorStalls). Cursors the loop never reaches are
      not constrained. */
  predicate RegexHalts(exec: RegexExec, data: seq<byte>, pos: nat)
    requires RegexOracleOk(exec, data)
    decreases |data| + 1 - pos
  {
    pos > |data| ||
    match ExecAt(exec, data, pos)
    case None => true
    case Some(sp) =>
      (pos > 0 ==> sp.eo > 0) &&
      assert 0 <= sp.eo;
      RegexHalts(exec, data, NextCursor(pos, sp))
  }

  /** The next cursor after a match `sp` found from `pos`. */
  function NextCursor(pos: nat, sp: Span): int
  {
    if pos + sp.eo != 0 then pos + sp.eo else pos + 1
  }

  /** Matches appended by the regex loop from cursor `pos` on. */
  function RegexFrom(exec: RegexExec, data: seq<byte>, pos: nat): seq<Match>
    requires RegexOracleOk(exec, data) && RegexHalts(exec, data, pos)
    decreases |data| + 1 - pos
  {
    if pos > |data| then []
    else
      match ExecAt(exec, data, pos)
      case None => []
      case Some(sp) =>
        assert 0 <= sp.so <= sp.eo && (pos > 0 ==> sp.eo > 0);
        [Match(pos + sp.so, pos + sp.eo, 1)] + RegexFrom(exec, data, NextCursor(pos, sp))
  }

  lemma RegexFromNone(exec: RegexExec, data: seq<byte>, pos: nat)
    requires RegexOracleOk(exec, data) && RegexHalts(exec, data, pos) && pos <= |data| && exec(data[pos..]).None?
    ensures RegexFrom(exec, data, pos) == []
  {
    assert ExecAt(exec, data, pos).None?;
  }

  /** One match found from `pos`, then the scan from the next cursor. */
  lemma RegexFromSome(exec: RegexExec, data: seq<byte>, pos: nat, sp: Span)
    requires RegexOracleOk(exec, data) && RegexHalts(exec, data, pos) && pos <= |data| && exec(data[pos..]) == Some(sp)
    ensures 0 <= sp.so <= sp.eo <= |data| - pos && pos < NextCursor(pos, sp)
    ensures RegexHalts(exec, data, NextCursor(pos, sp))
    ensures RegexFrom(exec, data, pos) == [Match(pos + sp.so, pos + sp.eo, 1)] + RegexFrom(exec, data, NextCursor(pos, sp))
  {
    assert ExecAt(exec, data, pos) == Some(sp);
    RegexSpanOk(exec, data, pos, sp);
    RegexHaltsStep(exec, data, pos, sp);
    RegexFromStep(exec, data, pos, sp);
  }

  lemma RegexHaltsStep(exec: RegexExec, data: seq<byte>, pos: nat, sp: Span)
    requires RegexOracleOk(exec, data) && RegexHalts(exec, data, pos) && pos <= |data| && ExecAt(exec, data, pos) == Some(sp)
    ensures RegexHalts(exec, data, NextCursor(pos, sp))
  {
  }

  lemma RegexFromStep(exec: RegexExec, data: seq<byte>, pos: nat, sp: Span)
    requires RegexOracleOk(exec, data) && RegexHalts(exec, data, pos) && pos <= |data| && ExecAt(exec, data, pos) == Some(sp)
    requires RegexHalts(exec, data, NextCursor(pos, sp))
    ensures RegexFrom(exec, data, pos) == [Match(pos + sp.so, pos + sp.eo, 1)] + RegexFrom(exec, data, NextCursor(pos, sp))
  {
  }

  /** What the oracle promises about one match. */
  lemma RegexSpanOk(exec: RegexExec, data: seq<byte>, pos: nat, sp: Span)
    requires RegexOracleOk(exec, data) && RegexHalts(exec, data, pos) && pos <= |data| && ExecAt(exec, data, pos) == Some(sp)
    ensures 0 <= sp.so <= sp.eo <= |data| - pos && (pos > 0 ==> sp.eo > 0)
  {
  }

  /** Whether the regex loop over this buffer ends. */
  predicate Scannable(p: Pattern, data: seq<byte>)
  {
    p.regex.Some? ==>
      RegexOracleOk(p.regex.value, data) && RegexReadsCString(p.regex.value, data) && RegexHalts(p.regex.value, data, 0)
  }

  /** What search_pattern_regex appends. */
  function RegexScan(p: Pattern, data: seq<byte>): seq<Match>
    requires Scannable(p, data)
  {
    if p.regex.None? then [] else RegexFrom(p.regex.value, data, 0)
  }

  /** Every match lies inside the buffer from `pos` on and carries line 1. */
  predicate OnLineOne(data: seq<byte>, pos: nat, ms: seq<Match>)
  {
    forall i :: 0 <= i < |ms| ==> pos <= ms[i].start <= ms[i].end <= |data| && ms[i].line == 1
  }

  /** Consecutive matches do not overlap and their ends strictly increase. */
  predicate Successive(ms: seq<Match>)
  {
    forall i :: 0 <= i < |ms| - 1 ==> ms[i].end <= ms[i + 1].start && ms[i].end < ms[i + 1].end
  }

  /** Regex matches lie inside the buffer, do not overlap, and their ends
      strictly increase; every one carries line number 1, because the scan
      never advances its line counter. */
  lemma {:induction false} RegexFromShape(exec: RegexExec, data: seq<byte>, pos: nat)
    requires RegexOracleOk(exec, data) && RegexHalts(exec, data, pos)
    ensures OnLineOne(data, pos, RegexFrom(exec, data, pos))
    ensures Successive(RegexFrom(exec, data, pos))
    decreases |data| + 1 - pos
  {
    if pos <= |data| {
      match ExecAt(exec, data, pos)
      case None =>
      case Some(sp) =>
        RegexFromSome(exec, data, pos, sp);
        var next := NextCursor(pos, sp);
        RegexFromShape(exec, data, next);
        var rest := RegexFrom(exec, data, next);
        if |rest| > 0 && next <= |data| {
          match ExecAt(exec, data, next)
          case None =>
          case Some(sp') =>
            RegexFromSome(exec, data, next, sp');
            assert rest[0] == Match(next + sp'.so, next + sp'.eo, 1);
        }
    }
  }

  lemma RegexScanShape(p: Pattern, data: seq<byte>)
    requires Scannable(p, data)
    ensures OnLineOne(data, 0, RegexScan(p, data))
    ensures Successive(RegexScan(p, data))
  {
    if p.regex.Some? {
      RegexFromShape(p.regex.value, data, 0);
    }
  }

  /** No match spans a 0 byte of the buffer. */
  predicate AvoidsNul(data: seq<byte>, ms: seq<Match>)
  {
    forall i :: 0 <= i < |ms| ==> ms[i].start <= ms[i].end <= |data| && 0 !in data[ms[i].start..ms[i].end]
  }

  /** A range inside a 0-free range is 0-free. */
  lemma NulFreeInside(data: seq<byte>, lo: nat, hi: nat, a: nat, b: nat)
    requires lo <= a <= b <= hi <= |data| && 0 !in data[lo..hi]
    ensures 0 !in data[a..b]
  {
    forall j | a <= j < b
      ensures data[j] != 0
    {
      assert data[j] == data[lo..hi][j - lo];
    }
    assert forall k :: 0 <= k < b - a ==> data[a..b][k] == data[a + k];
  }

  /** Since `regexec` stops at a 0 byte, the loop from `pos` never reports
      a match that spans one. */
  lemma {:induction false} RegexFromAvoidsNul(exec: RegexExec, data: seq<byte>, pos: nat)
    requires RegexOracleOk(exec, data) && RegexReadsCString(exec, data) && RegexHalts(exec, data, pos)
    ensures AvoidsNul(data, RegexFrom(exec, data, pos))
    decreases |data| + 1 - pos
  {
    if pos <= |data| {
      match ExecAt(exec, data, pos)
      case None =>
      case Some(sp) =>
        RegexFromSome(exec, data, pos, sp);
        var next := NextCursor(pos, sp);
        RegexFromAvoidsNul(exec, data, next);
        var m := Match(pos + sp.so, pos + sp.eo, 1);
        assert sp.eo <= CStrLen(data, pos);
        CStrLenBeforeNul(data, pos);
        NulFreeInside(data, pos, pos + CStrLen(data, pos), m.start, m.end);
        var rest := RegexFrom(exec, data, next);
        assert AvoidsNul(data, [m] + rest) by {
          forall i | 0 <= i < |[m] + rest|
            ensures ([m] + rest)[i].start <= ([m] + rest)[i].end <= |data|
            ensures 0 !in data[([m] + rest)[i].start..([m] + rest)[i].end]
          {
            if i > 0 {
              assert ([m] + rest)[i] == rest[i - 1];
            }
          }
        }
    }
  }

  lemma RegexScanAvoidsNul(p: Pattern, data: seq<byte>)
    requires Scannable(p, data)
    ensures AvoidsNul(data, RegexScan(p, data))
  {
    if p.regex.Some? {
      RegexFromAvoidsNul(p.regex.value, data, 0);
    }
  }

  /** Leftmost occurrence of "foo" in `s[i..n]`. */
  function FirstFoo(s: seq<byte>, i: nat, n: nat): Option<Span>
    requires n <= |s|
    decreases n - i
  {
    if i + 3 > n then None
    else if s[i..i + 3] == [102, 111, 111] then Some(Span(i, i + 3))
    else FirstFoo(s, i + 1, n)
  }

  /** `regexec` of the regex "foo": the leftmost occurrence in the C
      string it is handed. */
  function FooExec(s: seq<byte>): Option<Span>
  {
    FirstFoo(s, 0, CStrLen(s, 0))
  }

  /** "foo" over "\0foo": the one `regexec`, at cursor 0, sees the empty
      string and the loop stops, while the literal test finds "foo" at
      offset 1. */
  lemma NulHidesMatch()
    ensures var p := Pattern([102, 111, 111], false, MatchRegex, Some(FooExec));
      var d: seq<byte> := [0, 102, 111, 111];
      Scannable(p, d) && RegexScan(p, d) == [] && ExactMatchAt([102, 111, 111], d, 1)
  {
    var d: seq<byte> := [0, 102, 111, 111];
    var foo: seq<byte> := [102, 111, 111];
    assert d[0..] == d && d[1..] == foo && d[2..] == [111, 111] && d[3..] == [111] && d[4..] == [];
    assert CStrLen(d, 0) == 0;
    assert CStrLen(d, 4) == 0;
    assert CStrLen(d, 3) == 1;
    assert CStrLen(d, 2) == 2;
    assert CStrLen(d, 1) == 3;
    assert CStrLen(foo, 0) == 3 by {
      assert CStrLen(foo, 3) == 0;
      assert CStrLen(foo, 2) == 1;
    }
    assert FooExec(d) == None;
    assert FooExec(foo) == Some(Span(0, 3)) by {
      assert foo[0..3] == foo;
    }
    assert FooExec([111, 111]) == None;
    assert FooExec([111]) == None;
    assert FooExec([]) == None;
    assert RegexOracleOk(FooExec, d);
    assert RegexReadsCString(FooExec, d);
    assert d[1..4] == foo;
  }

  /** The line number of a regex match is not recomputed: a first match
      that starts after a newline is still reported on line 1. */
  lemma RegexLineIgnoresNewlines(p: Pattern, data: seq<byte>)
    requires Scannable(p, data) && p.regex.Some?
    requires ExecAt(p.regex.value, data, 0).Some?
    requires var sp := ExecAt(p.regex.value, data, 0).value; 0 <= sp.so <= |data| && Newlines(data[..sp.so]) > 0
    ensures var r := RegexScan(p, data);
      |r| > 0 && r[0].line == 1 && r[0].start <= |data| && LineOf(data, r[0].start) > 1
  {
  }

  /** A zero-width match at a non-zero cursor leaves the cursor where it
      was, so the loop asks `regexec` the same question again. */
  lemma RegexCursorStalls(pos: nat, so: int)
    requires pos > 0
    ensures NextCursor(pos, Span(so, 0)) == pos
  {
  }

  /** `regexec` of the regex "^$": an empty match on the empty string only. */
  function EndAnchored(s: seq<byte>): Option<Span>
  {
    if |s| == 0 then Some(Span(0, 0)) else None
  }

  /** "^$" over "a": the loop asks once, at cursor 0, finds nothing and
      stops. Its empty match at the unvisited cursor 1 does not matter. */
  lemma EndAnchoredScan()
    ensures var p := Pattern([94, 36], false, MatchRegex, Some(EndAnchored));
      Scannable(p, [97]) && RegexScan(p, [97]) == []
    ensures ExecAt(EndAnchored, [97], 1) == Some(Span(0, 0))
  {
    var data: seq<byte> := [97];
    assert data[0..] == data && data[1..] == [];
    assert RegexOracleOk(EndAnchored, data);
  }

  /** A cursor at which `regexec` returns a match that is empty at a
      non-zero cursor is one the loop never leaves. */
  lemma RegexStallNeverHalts(exec: RegexExec, data: seq<byte>, pos: nat, so: int)
    requires RegexOracleOk(exec, data) && 0 < pos <= |data| && ExecAt(exec, data, pos) == Some(Span(so, 0))
    ensures !RegexHalts(exec, data, pos)
  {
  }

  /** search_pattern_regex */
  method SearchPatternRegex(p: Pattern, data: seq<byte>, list: MatchList) returns (found: bool)
    requires list.Valid() && Scannable(p, data)
    modifies list.Repr
    ensures list.Valid() && fresh(list.Repr - old(list.Repr))
    ensures list.Items() == old(list.Items()) + RegexScan(p, data)
    ensures found <==> p.regex.Some? && |list.Items()| > 0
  {
    if p.regex.None? {
      return false;
    }
    var exec := p.regex.value;
    var pos: nat := 0;
    while pos <= |data|
      invariant list.Valid() && fresh(list.Repr - old(list.Repr))
      invariant RegexHalts(exec, data, pos)
      invariant list.Items() + RegexFrom(exec, data, pos) == old(list.Items()) + RegexScan(p, data)
      decreases |data| + 1 - pos
    {
      var result := exec(data[pos..]);
      if result.None? {
        RegexFromNone(exec, data, pos);
        break;
      }
      pos := RegexAddMatch(exec, data, pos, result.value, list);
    }
    found := list.count > 0;
  }

  /** One round of the regex loop after `regexec` matched `sp` from `pos`:
      append the match and return the next cursor. */
  method RegexAddMatch(exec: RegexExec, data: seq<byte>, pos: nat, sp: Span, list: MatchList) returns (next: nat)
    requires list.Valid() && RegexOracleOk(exec, data) && RegexHalts(exec, data, pos)
    requires pos <= |data| && exec(data[pos..]) == Some(sp)
    modifies list.Repr
    ensures list.Valid() && fresh(list.Repr - old(list.Repr))
    ensures pos < next && next == NextCursor(pos, sp) && RegexHalts(exec, data, next)
    ensures list.Items() + RegexFrom(exec, data, next) == old(list.Items()) + RegexFrom(exec, data, pos)
  {
    RegexFromSome(exec, data, pos, sp);
    var matchStart := pos + sp.so;
    var matchEnd := pos + sp.eo;
    var _ := list.Add(matchStart, matchEnd, 1, true);
    AppendAssoc(old(list.Items()), [Match(matchStart, matchEnd, 1)], RegexFrom(exec, data, NextCursor(pos, sp)));
    next := if matchEnd != 0 then matchEnd else pos + 1;
  }

  // ---------------------------------------------------------------------
  // The dispatcher: search_pattern

  /** What the build and the memory contribute: whether the AVX2 and the
      SSE4.2 kernels were compiled in, and the bytes a 16- or 32-byte load
      from the pattern string reads past the pattern (its 0 terminator and
      what follows, taken as arbitrary). */
  datatype Platform = Platform(avx2: bool, sse42: bool, pad16: seq<byte>, pad32: seq<byte>)

  predicate PlatformOk(pf: Platform)
  {
    |pf.pad16| == 16 && |pf.pad32| == 32
  }

  /** is_simd_available: true whenever either kernel was compiled in. */
  function IsSimdAvailable(pf: Platform): bool
  {
    pf.sse42 || pf.avx2
  }

  /** Does a kernel return 1, given the list held `prior` matches before it ran? */
  predicate KernelReports(p: Pattern, prior: nat, out: seq<Match>)
  {
    0 < |p.text| && prior + |out| > 0
  }

  /** What search_pattern appends to a list that held `prior` matches. */
  function Dispatch(pf: Platform, p: Pattern, data: seq<byte>, prior: nat): seq<Match>
    requires PlatformOk(pf) && Scannable(p, data)
  {
    var simd := p.kind == MatchAscii && !p.caseInsensitive && IsSimdAvailable(pf);
    var k32 := KernelScan(32, p, pf.pad32, data);
    var k16 := KernelScan(16, p, pf.pad16, data);
    if pf.avx2 && simd && KernelReports(p, prior, k32) then k32
    else if pf.sse42 && simd && KernelReports(p, prior, k16) then k16
    else if p.kind == MatchAscii then ScalarScan(p, data)
    else RegexScan(p, data)
  }

  /** A kernel that returns 0 has appended nothing. */
  lemma SilentKernelAppendsNothing(w: nat, p: Pattern, padding: seq<byte>, data: seq<byte>, prior: nat)
    requires 0 < w && |padding| == w
    requires !KernelReports(p, prior, KernelScan(w, p, padding, data))
    ensures KernelScan(w, p, padding, data) == []
  {
  }

  /** Regex patterns always go to the regex scan; case-insensitive literal
      patterns always go to the scalar scan. */
  lemma DispatchRoutes(pf: Platform, p: Pattern, data: seq<byte>, prior: nat)
    requires PlatformOk(pf) && Scannable(p, data)
    ensures p.kind == MatchRegex ==> Dispatch(pf, p, data, prior) == RegexScan(p, data)
    ensures p.kind == MatchAscii && p.caseInsensitive ==> Dispatch(pf, p, data, prior) == ScalarScan(p, data)
    ensures !pf.avx2 && !pf.sse42 && p.kind == MatchAscii ==> Dispatch(pf, p, data, prior) == ScalarScan(p, data)
  {
  }

  /** On an empty list, when every kernel tried finds nothing, the list ends
      up exactly as the scalar scan leaves it. */
  lemma DispatchFallsBackToScalar(pf: Platform, p: Pattern, data: seq<byte>)
    requires PlatformOk(pf) && Scannable(p, data) && p.kind == MatchAscii
    requires pf.avx2 && !p.caseInsensitive ==> KernelScan(32, p, pf.pad32, data) == []
    requires pf.sse42 && !p.caseInsensitive ==> KernelScan(16, p, pf.pad16, data) == []
    ensures Dispatch(pf, p, data, 0) == ScalarScan(p, data)
  {
  }

  /** Every literal match the dispatcher appends is a genuine occurrence,
      in strictly increasing order. */
  lemma DispatchSound(pf: Platform, p: Pattern, data: seq<byte>, prior: nat)
    requires PlatformOk(pf) && Scannable(p, data) && p.kind == MatchAscii
    ensures Increasing(Dispatch(pf, p, data, prior))
    ensures Genuine(p, data, Dispatch(pf, p, data, prior))
  {
    ScalarScanSpec(p, data);
    if !p.caseInsensitive {
      KernelScanSound(32, p, pf.pad32, data);
      KernelScanSound(16, p, pf.pad16, data);
    }
  }

  /** On an empty list the dispatcher finds some literal match exactly when
      the scalar scan does, although the matches themselves may differ. */
  lemma DispatchFindsSomeIffScalar(pf: Platform, p: Pattern, data: seq<byte>)
    requires PlatformOk(pf) && Scannable(p, data) && p.kind == MatchAscii
    ensures |Dispatch(pf, p, data, 0)| > 0 <==> |ScalarScan(p, data)| > 0
  {
    var r := Dispatch(pf, p, data, 0);
    DispatchSound(pf, p, data, 0);
    ScalarScanSpec(p, data);
    if |r| > 0 {
      assert r[0].start in Starts(ScalarScan(p, data));
    }
  }

  /** Without AVX2, a literal case-sensitive pattern whose 16-byte kernel
      reports a match gets that kernel's list. */
  lemma DispatchTakesSse(pf: Platform, p: Pattern, data: seq<byte>, prior: nat)
    requires PlatformOk(pf) && Scannable(p, data)
    requires !pf.avx2 && pf.sse42 && p.kind == MatchAscii && !p.caseInsensitive
    requires KernelReports(p, prior, KernelScan(16, p, pf.pad16, data))
    ensures Dispatch(pf, p, data, prior) == KernelScan(16, p, pf.pad16, data)
  {
  }

  /** The buffer of DispatchDiffersFromScalar: 'x' bytes with "ab" at
      offsets 1 and 16. */
  function AbBuffer(): (d: seq<byte>)
    ensures |d| == 32
  {
    [120, 97, 98] + seq(13, _ => 120) + [97, 98] + seq(14, _ => 120)
  }

  function AbPattern(): Pattern
  {
    Pattern([97, 98], false, MatchAscii, None)
  }

  lemma AbScalar()
    ensures 1 in Starts(ScalarScan(AbPattern(), AbBuffer()))
  {
    var data := AbBuffer();
    assert data[1..3] == [97, 98];
    ScalarScanSpec(AbPattern(), data);
  }

  /** The 16-byte kernel misses offset 1 (lane 1 holds 'b') but finds
      offset 16 (lane 0 holds 'a'). */
  lemma AbKernel(pad16: seq<byte>)
    requires |pad16| == 16
    ensures 1 !in Starts(KernelScan(16, AbPattern(), pad16, AbBuffer()))
    ensures 16 in Starts(KernelScan(16, AbPattern(), pad16, AbBuffer()))
  {
    var data := AbBuffer();
    assert data[1..3] == [97, 98];
    assert data[16..18] == [97, 98];
    assert TailStart(16, 32, 32) == 32;
    assert TailStart(16, 32, 0) == 32;
    assert BlockStart(16, 0, 1) == 0 && BlockStart(16, 0, 16) == 16;
    assert Lanes(16, AbPattern().text, pad16)[1] != AbPattern().text[0];
    assert Lanes(16, AbPattern().text, pad16)[0] == AbPattern().text[0];
    assert MatchesAt(AbPattern(), data, 16);
    KernelScanMembership(16, AbPattern(), pad16, data);
  }

  /** With only the SSE4.2 kernel, the dispatcher's list can differ from the
      scalar scan's: "ab" at offsets 1 and 16 of a 32-byte buffer; the
      kernel finds offset 16 (lane 0), so it returns 1 and offset 1 is lost. */
  lemma DispatchDiffersFromScalar(pad16: seq<byte>, pad32: seq<byte>)
    requires |pad16| == 16 && |pad32| == 32
    ensures 1 !in Starts(Dispatch(Platform(false, true, pad16, pad32), AbPattern(), AbBuffer(), 0))
    ensures 1 in Starts(ScalarScan(AbPattern(), AbBuffer()))
  {
    AbScalar();
    AbKernel(pad16);
    DispatchTakesSse(Platform(false, true, pad16, pad32), AbPattern(), AbBuffer(), 0);
  }

  /** search_pattern */
  method SearchPattern(pf: Platform, p: Pattern, data: seq<byte>, list: MatchList) returns (found: bool)
    requires PlatformOk(pf) && Scannable(p, data) && list.Valid()
    modifies list.Repr
    ensures list.Valid() && fresh(list.Repr - old(list.Repr))
    ensures list.Items() == old(list.Items()) + Dispatch(pf, p, data, |old(list.Items())|)
    ensures found <==> |list.Items()| > 0 && (p.kind == MatchRegex ==> p.regex.Some?)
  {
    ghost var prior := |list.Items()|;
    var simd := p.kind == MatchAscii && !p.caseInsensitive && IsSimdAvailable(pf);
    if pf.avx2 && simd {
      found := SearchPatternAvx2(p, pf.pad32, data, list);
      if found {
        return;
      }
      SilentKernelAppendsNothing(32, p, pf.pad32, data, prior);
    }
    if pf.sse42 && simd {
      found := SearchPatternSse42(p, pf.pad16, data, list);
      if found {
        return;
      }
      SilentKernelAppendsNothing(16, p, pf.pad16, data, prior);
    }
    if p.kind == MatchAscii {
      found := SearchPatternAscii(p, data, list);
    } else {
      found := SearchPatternRegex(p, data, list);
    }
  }
}
