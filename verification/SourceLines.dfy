/** Line lookup of the audit engine: a table of line starts searched by bisection. */
module SourceLines {
  import opened CommentLexer

  /** The offsets after each newline at or after `o`. */
  function StartsFrom(content: Bytes, o: nat): (r: seq<nat>)
    requires o <= |content|
    ensures forall i :: 0 <= i < |r| ==> o < r[i] <= |content|
    ensures forall k: nat :: k in r <==> o < k <= |content| && content[k - 1] == NEWLINE
    ensures forall i, j :: 0 <= i < j < |r| ==> r[i] < r[j]
    decreases |content| - o
  {
    if o == |content| then []
    else if content[o] == NEWLINE then [o + 1] + StartsFrom(content, o + 1)
    else StartsFrom(content, o + 1)
  }

  /** source_line_starts */
  function LineStarts(content: Bytes): (r: seq<nat>)
    ensures Sorted(r) && |r| > 0 && r[0] == 0
    ensures forall k: nat :: k in r <==> k == 0 || (k <= |content| && content[k - 1] == NEWLINE)
  {
    [0] + StartsFrom(content, 0)
  }

  /** The number of newlines before offset `p`. */
  function Newlines(content: Bytes, p: nat): nat
    requires p <= |content|
  {
    if p == 0 then 0 else Newlines(content, p - 1) + (if content[p - 1] == NEWLINE then 1 else 0)
  }

  lemma {:induction false} NewlineFree(content: Bytes, a: nat, p: nat)
    requires a <= p <= |content|
    requires forall k :: a <= k < p ==> content[k] != NEWLINE
    ensures Newlines(content, p) == Newlines(content, a)
    decreases p
  {
    if a < p { NewlineFree(content, a, p - 1); }
  }

  /** The i-th start after `o` has i + 1 more newlines before it than `o`. */
  lemma {:induction false} StartsCountNewlines(content: Bytes, o: nat, i: nat)
    requires o <= |content| && i < |StartsFrom(content, o)|
    ensures Newlines(content, StartsFrom(content, o)[i]) == Newlines(content, o) + i + 1
    decreases |content| - o
  {
    if content[o] == NEWLINE {
      if i > 0 { StartsCountNewlines(content, o + 1, i - 1); }
    } else {
      StartsCountNewlines(content, o + 1, i);
    }
  }

  datatype Located = Located(line: nat, start: nat, text: Bytes, column: nat)

  /** The index of the last line start at or before the match. */
  function LineIndex(starts: seq<nat>, at: nat): (i: nat)
    requires Sorted(starts) && |starts| > 0 && starts[0] == 0
    ensures i < |starts| && starts[i] <= at
    ensures forall j :: i < j < |starts| ==> at < starts[j]
  {
    PartitionPoint(starts, at, 0, |starts|) - 1
  }

  /** source_line_at, with the slice's own offset kept beside it. */
  function SourceLineAt(content: Bytes, at: nat): Located
    requires at <= |content|
  {
    var starts := LineStarts(content);
    var index := LineIndex(starts, at);
    var start := starts[index];
    Located(index + 1, start, content[start..LineEnd(content, start)], at - start)
  }

  lemma NoNewlineSinceStart(content: Bytes, at: nat, i: nat)
    requires at <= |content|
    requires i < |LineStarts(content)| && LineStarts(content)[i] <= at
    requires forall j :: i < j < |LineStarts(content)| ==> at < LineStarts(content)[j]
    ensures forall k :: LineStarts(content)[i] <= k < at ==> content[k] != NEWLINE
  {
    var starts := LineStarts(content);
    forall k | starts[i] <= k < at ensures content[k] != NEWLINE {
      assert content[k] == NEWLINE ==> k + 1 in starts;
    }
  }

  lemma LineEndsAfter(content: Bytes, start: nat, at: nat)
    requires start <= at <= |content|
    requires forall k :: start <= k < at ==> content[k] != NEWLINE
    ensures at <= LineEnd(content, start) && Newlines(content, at) == Newlines(content, start)
  {}

  lemma StartCountsNewlines(content: Bytes, i: nat)
    requires i < |LineStarts(content)|
    ensures LineStarts(content)[i] <= |content| && Newlines(content, LineStarts(content)[i]) == i
  {
    assert LineStarts(content)[i] in LineStarts(content);
    if i > 0 {
      StartsCountNewlines(content, 0, i - 1);
    }
  }

  /** The line number is one more than the newlines before the match, and the text is the whole line around it. */
  ghost predicate IsLineAround(content: Bytes, at: nat, r: Located)
    requires at <= |content|
  {
    var end := r.start + |r.text|;
    && r.line == 1 + Newlines(content, at)
    && r.start <= at <= end <= |content| && r.start + r.column == at
    && r.text == content[r.start..end] && NEWLINE !in r.text
    && (r.start == 0 || content[r.start - 1] == NEWLINE)
    && (end == |content| || content[end] == NEWLINE)
  }

  lemma LocatedLine(content: Bytes, i: nat, start: nat, at: nat)
    requires start <= at <= |content| && (start == 0 || content[start - 1] == NEWLINE)
    requires forall k :: start <= k < at ==> content[k] != NEWLINE
    requires Newlines(content, start) == i
    ensures IsLineAround(content, at, Located(i + 1, start, content[start..LineEnd(content, start)], at - start))
  {
    LineEndsAfter(content, start, at);
  }

  lemma LineIsMaximal(content: Bytes, at: nat)
    requires at <= |content|
    ensures IsLineAround(content, at, SourceLineAt(content, at))
  {
    var starts := LineStarts(content);
    var i := LineIndex(starts, at);
    NoNewlineSinceStart(content, at, i);
    StartCountsNewlines(content, i);
    assert starts[i] in starts;
    LocatedLine(content, i, starts[i], at);
  }
}
