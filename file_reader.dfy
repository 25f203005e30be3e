/** Line indexing over an in-memory buffer and the growable list of loaded
    files (src/file_reader.c). Opening, reading, mapping and directory
    traversal are I/O and are not part of this module. */
module FileReader {
  import opened Base

  /** A loaded file: its path and its bytes (`data`, `size == |data|`).
      Whether the bytes came from `mmap` or `read` is kept only as a flag. */
  datatype FileData = FileData(path: string, data: seq<byte>, isMapped: bool)

  /** Initial capacity of a file list (INITIAL_FILE_CAPACITY). */
  const InitialFileCapacity: nat := 1024

  // ---------------------------------------------------------------------
  // Specification functions

  /** Number of newline bytes in `s`. */
  function Newlines(s: seq<byte>): nat
  {
    if s == [] then 0
    else Newlines(s[..|s| - 1]) + (if s[|s| - 1] == NL then 1 else 0)
  }

  /** Is `j` the first offset of a line: the buffer start, or just after a newline? */
  predicate IsLineStart(data: seq<byte>, j: nat)
    requires j <= |data|
  {
    j == 0 || data[j - 1] == NL
  }

  /** Number of line starts among the offsets `0 .. k-1`; an independent
      description of how many lines begin before offset `k`. */
  function LineStartsBelow(data: seq<byte>, k: nat): nat
    requires k <= |data|
  {
    if k == 0 then 0
    else LineStartsBelow(data, k - 1) + (if IsLineStart(data, k - 1) then 1 else 0)
  }

  /** Number of lines of a buffer: the number of offsets inside it that
      begin a line. A trailing newline does not open a further line. */
  function LineCount(data: seq<byte>): nat
  {
    LineStartsBelow(data, |data|)
  }

  /** The 1-based line that holds offset `pos`. */
  function LineOf(data: seq<byte>, pos: nat): nat
    requires pos <= |data|
  {
    1 + Newlines(data[..pos])
  }

  // ---------------------------------------------------------------------
  // Lemmas about the specification functions

  lemma {:induction false} NewlinesAppend(s: seq<byte>, t: seq<byte>)
    ensures Newlines(s + t) == Newlines(s) + Newlines(t)
    decreases |t|
  {
    if t == [] {
      assert s + t == s;
    } else {
      var t' := t[..|t| - 1];
      assert (s + t)[..|s + t| - 1] == s + t';
      NewlinesAppend(s, t');
    }
  }

  /** The newlines at offsets `lo .. hi-1`, counted by index; the same
      number as `Newlines(data[lo..hi])` (NewlinesInSlice). */
  function NewlinesIn(data: seq<byte>, lo: nat, hi: nat): nat
    decreases hi - lo
  {
    if lo >= hi || hi > |data| then 0
    else (if data[lo] == NL then 1 else 0) + NewlinesIn(data, lo + 1, hi)
  }

  lemma {:induction false} NewlinesInSlice(data: seq<byte>, lo: nat, hi: nat)
    requires lo <= hi <= |data|
    ensures NewlinesIn(data, lo, hi) == Newlines(data[lo..hi])
    decreases hi - lo
  {
    if lo < hi {
      NewlinesInSlice(data, lo + 1, hi);
      assert data[lo..hi] == [data[lo]] + data[lo + 1..hi];
      NewlinesAppend([data[lo]], data[lo + 1..hi]);
      assert [data[lo]][..0] == [];
    } else {
      assert data[lo..hi] == [];
    }
  }

  /** Counting by index splits at any midpoint. */
  lemma {:induction false} NewlinesInSplit(data: seq<byte>, lo: nat, mid: nat, hi: nat)
    requires lo <= mid <= hi <= |data|
    ensures NewlinesIn(data, lo, hi) == NewlinesIn(data, lo, mid) + NewlinesIn(data, mid, hi)
    decreases mid - lo
  {
    if lo < mid {
      NewlinesInSplit(data, lo + 1, mid, hi);
    }
  }

  lemma {:induction false} NewlinesBound(s: seq<byte>)
    ensures Newlines(s) <= |s|
    decreases |s|
  {
    if s != [] {
      NewlinesBound(s[..|s| - 1]);
    }
  }

  /** The number of newlines in a prefix never decreases as the prefix grows. */
  lemma {:induction false} NewlinesPrefixMonotone(data: seq<byte>, i: nat, j: nat)
    requires i <= j <= |data|
    ensures Newlines(data[..i]) <= Newlines(data[..j])
  {
    assert data[..j] == data[..i] + data[i..j];
    NewlinesAppend(data[..i], data[i..j]);
  }

  /** The line of an offset is the number of line starts at or before it:
      `LineOf` names the line that contains `pos`. */
  lemma {:induction false} LineOfCountsLineStarts(data: seq<byte>, pos: nat)
    requires pos < |data|
    ensures LineOf(data, pos) == LineStartsBelow(data, pos + 1)
    decreases pos
  {
    if pos > 0 {
      LineOfCountsLineStarts(data, pos - 1);
      assert data[..pos][..pos - 1] == data[..pos - 1];
    } else {
      assert data[..0] == [];
    }
  }

  /** Counting lines is counting newlines, plus one for an unterminated last line. */
  lemma {:induction false} LineCountByNewlines(data: seq<byte>)
    requires |data| > 0
    ensures LineCount(data) == Newlines(data) + (if data[|data| - 1] != NL then 1 else 0)
  {
    var n := |data|;
    LineOfCountsLineStarts(data, n - 1);
    assert data[..n] == data;
    assert data[..n][..n - 1] == data[..n - 1];
  }

  /** `LineOf` is non-decreasing in the offset. */
  lemma LineOfMonotone(data: seq<byte>, i: nat, j: nat)
    requires i <= j <= |data|
    ensures LineOf(data, i) <= LineOf(data, j)
  {
    NewlinesPrefixMonotone(data, i, j);
  }

  lemma {:induction false} LineStartsMonotone(data: seq<byte>, i: nat, j: nat)
    requires i <= j <= |data|
    ensures LineStartsBelow(data, i) <= LineStartsBelow(data, j)
    decreases j - i
  {
    if i < j {
      LineStartsMonotone(data, i, j - 1);
    }
  }

  lemma {:induction false} LineStartsBelowBound(data: seq<byte>, k: nat)
    requires k <= |data|
    ensures LineStartsBelow(data, k) <= k
    decreases k
  {
    if k > 0 {
      LineStartsBelowBound(data, k - 1);
    }
  }

  /** Every offset inside the buffer lies on a line between 1 and `LineCount`,
      and the last offset lies on the last line. */
  lemma LineOfBounds(data: seq<byte>, pos: nat)
    requires pos < |data|
    ensures 1 <= LineOf(data, pos) <= LineCount(data)
    ensures pos == |data| - 1 ==> LineOf(data, pos) == LineCount(data)
  {
    LineOfCountsLineStarts(data, pos);
    LineStartsMonotone(data, pos + 1, |data|);
  }

  // ---------------------------------------------------------------------
  // The read-only scanning loops of file_reader.c

  /** count_lines */
  method CountLines(data: seq<byte>) returns (count: nat)
    ensures count == LineCount(data)
    ensures |data| > 0 ==> 1 <= count <= |data|
  {
    if |data| == 0 {
      return 0;
    }
    count := 0;
    var i := 0;
    while i < |data|
      invariant 0 <= i <= |data|
      invariant count == Newlines(data[..i])
    {
      assert data[..i + 1][..i] == data[..i];
      if data[i] == NL {
        count := count + 1;
      }
      i := i + 1;
    }
    assert data[..i] == data;
    if data[|data| - 1] != NL {
      count := count + 1;
    }
    LineCountByNewlines(data);
    LineOfBounds(data, |data| - 1);
    LineStartsBelowBound(data, |data|);
  }

  /** get_line_number: 0 for an offset outside the buffer, otherwise the
      1-based line of `pos`. */
  method GetLineNumber(data: seq<byte>, pos: nat) returns (line: nat)
    ensures pos >= |data| ==> line == 0
    ensures pos < |data| ==> line == LineOf(data, pos) && line == LineStartsBelow(data, pos + 1)
  {
    if pos >= |data| {
      return 0;
    }
    line := 1;
    var i := 0;
    while i < pos && i < |data|
      invariant 0 <= i <= pos
      invariant line == 1 + Newlines(data[..i])
    {
      assert data[..i + 1][..i] == data[..i];
      if data[i] == NL {
        line := line + 1;
      }
      i := i + 1;
    }
    LineOfCountsLineStarts(data, pos);
  }

  /** find_line_start: the offset of the first byte of the line holding
      `pos`; the buffer start when `pos` lies outside the buffer. */
  method FindLineStart(data: seq<byte>, pos: nat) returns (i: nat)
    ensures pos >= |data| ==> i == 0
    ensures pos < |data| ==> i <= pos && IsLineStart(data, i)
    ensures pos < |data| ==> forall j :: i <= j < pos ==> data[j] != NL
  {
    if pos >= |data| {
      return 0;
    }
    i := pos;
    while i > 0 && data[i - 1] != NL
      invariant 0 <= i <= pos
      invariant forall j :: i <= j < pos ==> data[j] != NL
    {
      i := i - 1;
    }
  }

  /** find_line_end: the offset of the newline that ends the line holding
      `pos`, or the buffer size when that line is unterminated or `pos`
      lies outside the buffer. */
  method FindLineEnd(data: seq<byte>, pos: nat) returns (i: nat)
    ensures pos >= |data| ==> i == |data|
    ensures pos < |data| ==> pos <= i <= |data| && (i == |data| || data[i] == NL)
    ensures pos < |data| ==> forall j :: pos <= j < i ==> data[j] != NL
  {
    if pos >= |data| {
      return |data|;
    }
    i := pos;
    while i < |data| && data[i] != NL
      invariant pos <= i <= |data|
      invariant forall j :: pos <= j < i ==> data[j] != NL
    {
      i := i + 1;
    }
  }

  /** A line start and line end found for the same offset delimit the line
      of that offset: every byte strictly between them is on the same line. */
  lemma {:induction false} SameLineBetween(data: seq<byte>, s: nat, e: nat, k: nat)
    requires s <= k < e <= |data|
    requires forall j :: s <= j < e ==> data[j] != NL
    ensures LineOf(data, k) == LineOf(data, s)
    decreases k - s
  {
    if k > s {
      SameLineBetween(data, s, e, k - 1);
      assert data[..k] == data[..k - 1] + [data[k - 1]];
      NewlinesAppend(data[..k - 1], [data[k - 1]]);
      assert Newlines([data[k - 1]]) == 0 by {
        assert [data[k - 1]][..0] == [];
      }
    }
  }

  /** A buffer without newline bytes counts none. */
  lemma {:induction false} NoNewlines(s: seq<byte>)
    requires forall i :: 0 <= i < |s| ==> s[i] != NL
    ensures Newlines(s) == 0
    decreases |s|
  {
    if s != [] {
      NoNewlines(s[..|s| - 1]);
    }
  }

  /** Unit test: "line1\nline2\nline3" has three lines; "line1" has one line. */
  lemma LineExamples()
    ensures LineCount([108, 105, 110, 101, 49, NL, 108, 105, 110, 101, 50, NL, 108, 105, 110, 101, 51]) == 3
    ensures LineCount([108, 105, 110, 101, 49]) == 1
  {
    var w1: seq<byte> := [108, 105, 110, 101, 49];
    var w2: seq<byte> := [108, 105, 110, 101, 50];
    var w3: seq<byte> := [108, 105, 110, 101, 51];
    var d: seq<byte> := [108, 105, 110, 101, 49, NL, 108, 105, 110, 101, 50, NL, 108, 105, 110, 101, 51];
    NoNewlines(w1);
    NoNewlines(w2);
    NoNewlines(w3);
    assert Newlines([NL]) == 1 by { assert [NL][..0] == []; }
    assert d == w1 + [NL] + w2 + [NL] + w3;
    NewlinesAppend(w1, [NL]);
    NewlinesAppend(w1 + [NL], w2);
    NewlinesAppend(w1 + [NL] + w2, [NL]);
    NewlinesAppend(w1 + [NL] + w2 + [NL], w3);
    LineCountByNewlines(d);
    LineCountByNewlines(w1);
  }

  /** Offsets 0, 6 and 12 of "line1\nline2\nline3\nline4" lie on lines 1, 2 and 3. */
  lemma LineNumberExamples()
    ensures var d: seq<byte> := [108, 105, 110, 101, 49, NL, 108, 105, 110, 101, 50, NL,
                                 108, 105, 110, 101, 51, NL, 108, 105, 110, 101, 52];
      LineOf(d, 0) == 1 && LineOf(d, 6) == 2 && LineOf(d, 12) == 3
  {
    var w1: seq<byte> := [108, 105, 110, 101, 49];
    var w2: seq<byte> := [108, 105, 110, 101, 50];
    var d: seq<byte> := [108, 105, 110, 101, 49, NL, 108, 105, 110, 101, 50, NL,
                         108, 105, 110, 101, 51, NL, 108, 105, 110, 101, 52];
    var p6 := w1 + [NL];
    var p11 := p6 + w2;
    var p12 := p11 + [NL];
    NoNewlines(w1);
    NoNewlines(w2);
    assert Newlines([NL]) == 1 by { assert [NL][..0] == []; }
    NewlinesAppend(w1, [NL]);
    assert Newlines(p6) == 1;
    NewlinesAppend(p6, w2);
    assert Newlines(p11) == 1;
    NewlinesAppend(p11, [NL]);
    assert Newlines(p12) == 2;
    assert d[..0] == [];
    assert d[..6] == p6;
    assert d[6..12] == w2 + [NL];
    assert d[..12] == d[..6] + d[6..12];
    assert d[..12] == p12;
  }

  // ---------------------------------------------------------------------
  // FileList: the growable array of loaded files

  class FileList {
    var files: array<FileData>
    var count: nat
    ghost var Repr: set<object>

    ghost predicate Valid()
      reads this, Repr
    {
      Repr == {this, files} && 0 < files.Length && count <= files.Length
    }

    function Capacity(): nat
      reads this
    {
      files.Length
    }

    /** The files added so far, in order. */
    function Items(): seq<FileData>
      reads this, files
      requires count <= files.Length
    {
      files[..count]
    }

    /** filelist_create */
    constructor ()
      ensures Valid() && fresh(Repr)
      ensures Items() == [] && Capacity() == InitialFileCapacity
    {
      files := new FileData[InitialFileCapacity](_ => FileData("", [], false));
      count := 0;
      Repr := {this, files};
    }

    /** filelist_add: `None` stands for a null `file`; `reallocOk` is the
        outcome of the `realloc` performed when the list is full. */
    method Add(file: Option<FileData>, reallocOk: bool) returns (ok: bool)
      requires Valid()
      modifies Repr
      ensures Valid() && fresh(Repr - old(Repr))
      ensures ok <==> file.Some? && (old(count) < old(Capacity()) || reallocOk)
      ensures ok ==> Items() == old(Items()) + [file.value]
      ensures !ok ==> Items() == old(Items())
      ensures Capacity() ==
        if file.Some? && old(count) >= old(Capacity()) && reallocOk then 2 * old(Capacity())
        else old(Capacity())
    {
      if file.None? {
        return false;
      }
      if count >= files.Length {
        if !reallocOk {
          return false;
        }
        var grown := Realloc(files, 2 * files.Length, file.value);
        files := grown;
        Repr := {this, files};
      }
      files[count] := file.value;
      count := count + 1;
      ok := true;
    }
  }
}
