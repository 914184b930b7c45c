/**
 The comment lexer of the audit engine: a four-state scanner over bytes that returns the ranges of all
 comments, and the binary searches that look a match up in those ranges and in the table of lines.

 The reference lexer below has neither a state variable nor a depth counter: it cuts the content into lexical
 elements by recursive descent, an inner block comment being parsed by a recursive call, and returns the comments.
 */
module CommentLexer {
  import opened Prelude

  newtype byte = x: int | 0 <= x < 256
  type Bytes = seq<byte>

  const NEWLINE: byte := 10

  datatype BlockSyntax = BlockSyntax(start: Bytes, end: Bytes, nested: bool)
  datatype StringSyntax = StringSyntax(start: Bytes, end: Bytes, escape: Option<Bytes>)
  datatype Syntax = Syntax(line: seq<Bytes>, block: seq<BlockSyntax>, strings: seq<StringSyntax>)
  datatype Range = Range(start: nat, end: nat)

  predicate ValidBlock(b: BlockSyntax) {
    b.start != [] && b.end != [] && (b.nested ==> b.start != b.end)
  }

  predicate ValidString(s: StringSyntax) {
    s.start != [] && s.end != [] && s.escape != Some([])
  }

  /** What validate_engine_config demands of a comment syntax. */
  predicate ValidSyntax(syn: Syntax) {
    && (forall t :: t in syn.line ==> t != [])
    && (forall b :: b in syn.block ==> ValidBlock(b))
    && (forall s :: s in syn.strings ==> ValidString(s))
  }

  predicate TokenAt(bytes: Bytes, o: nat, token: Bytes) {
    o + |token| <= |bytes| && bytes[o..o + |token|] == token
  }

  /** The longest token that starts at `o`; of equally long ones the last in configuration order. */
  function Longest(tokens: seq<Bytes>, bytes: Bytes, o: nat): (r: Option<nat>)
    ensures r.None? <==> forall i :: 0 <= i < |tokens| ==> !TokenAt(bytes, o, tokens[i])
    ensures r.Some? ==> r.value < |tokens| && TokenAt(bytes, o, tokens[r.value])
    ensures r.Some? ==> forall i :: 0 <= i < |tokens| && TokenAt(bytes, o, tokens[i]) ==>
                          |tokens[i]| <= |tokens[r.value]| && (r.value < i ==> |tokens[i]| < |tokens[r.value]|)
  {
    if tokens == [] then None
    else
      var last := |tokens| - 1;
      var best := Longest(tokens[..last], bytes, o);
      if TokenAt(bytes, o, tokens[last]) && (best.Some? ==> |tokens[last]| >= |tokens[best.value]|)
      then Some(last) else best
  }

  function StringStarts(strings: seq<StringSyntax>): (r: seq<Bytes>)
    ensures |r| == |strings| && forall i :: 0 <= i < |r| ==> r[i] == strings[i].start
  {
    seq(|strings|, i requires 0 <= i < |strings| => strings[i].start)
  }

  function BlockStarts(blocks: seq<BlockSyntax>): (r: seq<Bytes>)
    ensures |r| == |blocks| && forall i :: 0 <= i < |r| ==> r[i] == blocks[i].start
  {
    seq(|blocks|, i requires 0 <= i < |blocks| => blocks[i].start)
  }

  datatype Opener =
    | Plain
    | OpensString(literal: StringSyntax)
    | OpensBlock(block: BlockSyntax)
    | OpensLine(token: Bytes)

  /** What begins at `o` in code: a string wins over a block comment, a block over a line comment. */
  function OpenerAt(syn: Syntax, bytes: Bytes, o: nat): (r: Opener)
    ensures r.OpensString? ==> r.literal in syn.strings && TokenAt(bytes, o, r.literal.start)
    ensures r.OpensBlock? ==> r.block in syn.block && TokenAt(bytes, o, r.block.start)
    ensures r.OpensLine? ==> r.token in syn.line && TokenAt(bytes, o, r.token)
  {
    var s := Longest(StringStarts(syn.strings), bytes, o);
    if s.Some? then OpensString(syn.strings[s.value])
    else
      var b := Longest(BlockStarts(syn.block), bytes, o);
      if b.Some? then OpensBlock(syn.block[b.value])
      else
        var l := Longest(syn.line, bytes, o);
        if l.Some? then OpensLine(syn.line[l.value]) else Plain
  }

  // ---------------------------------------------------------------- the reference lexer

  /** The offset after the string literal whose body starts at `o`. */
  function StringEnd(s: StringSyntax, bytes: Bytes, o: nat): (e: nat)
    requires ValidString(s) && o <= |bytes|
    ensures o <= e <= |bytes|
    decreases |bytes| - o
  {
    if o == |bytes| then o
    else if s.escape.Some? && TokenAt(bytes, o, s.escape.value) then
      var next := o + |s.escape.value| + 1;
      StringEnd(s, bytes, if next < |bytes| then next else |bytes|)
    else if TokenAt(bytes, o, s.end) then o + |s.end|
    else StringEnd(s, bytes, o + 1)
  }

  /** The next newline, or the end of the content. */
  function LineEnd(bytes: Bytes, o: nat): (e: nat)
    requires o <= |bytes|
    ensures o <= e <= |bytes| && NEWLINE !in bytes[o..e]
    ensures e < |bytes| ==> bytes[e] == NEWLINE
    decreases |bytes| - o
  {
    if o == |bytes| || bytes[o] == NEWLINE then o
    else
      var e := LineEnd(bytes, o + 1);
      assert bytes[o..e] == [bytes[o]] + bytes[o + 1..e];
      e
  }

  /** The offset after the block comment whose body starts at `o`, each inner comment skipped as a whole. */
  function BlockEnd(b: BlockSyntax, bytes: Bytes, o: nat): (e: nat)
    requires ValidBlock(b) && o <= |bytes|
    ensures o <= e <= |bytes|
    decreases |bytes| - o
  {
    if o == |bytes| then o
    else if b.nested && TokenAt(bytes, o, b.start) then
      var inner := BlockEnd(b, bytes, o + |b.start|);
      BlockEnd(b, bytes, inner)
    else if TokenAt(bytes, o, b.end) then o + |b.end|
    else BlockEnd(b, bytes, o + 1)
  }

  /** A lexical element: where the text after it starts, and the range it covers if it is a comment. */
  datatype Lexeme = Lexeme(comment: seq<Range>, next: nat)

  function LineLexeme(bytes: Bytes, start: nat, o: nat): (r: Lexeme)
    requires start < o <= |bytes|
    ensures o <= r.next <= |bytes|
  {
    var e := LineEnd(bytes, o);
    Lexeme([Range(start, e)], if e < |bytes| then e + 1 else e)
  }

  function LexemeAt(syn: Syntax, bytes: Bytes, o: nat): (r: Lexeme)
    requires ValidSyntax(syn) && o < |bytes|
    ensures o < r.next <= |bytes|
    ensures r.comment == [] || exists e :: o < e <= r.next && r.comment == [Range(o, e)]
  {
    match OpenerAt(syn, bytes, o)
    case OpensString(s) => Lexeme([], StringEnd(s, bytes, o + |s.start|))
    case OpensBlock(b) =>
      var e := BlockEnd(b, bytes, o + |b.start|);
      Lexeme([Range(o, e)], e)
    case OpensLine(t) => LineLexeme(bytes, o, o + |t|)
    case Plain => Lexeme([], o + 1)
  }

  /** The comments from `o` on, in order. */
  function Comments(syn: Syntax, bytes: Bytes, o: nat): seq<Range>
    requires ValidSyntax(syn) && o <= |bytes|
    decreases |bytes| - o
  {
    if o == |bytes| then []
    else
      var x := LexemeAt(syn, bytes, o);
      x.comment + Comments(syn, bytes, x.next)
  }

  // ---------------------------------------------------------------- the scanner

  datatype LexState =
    | Code
    | InString(literal: StringSyntax)
    | LineComment(start: nat)
    | BlockComment(block: BlockSyntax, start: nat, depth: nat)

  /** Leaving `depth` nested comments one after the other. */
  function Unwind(b: BlockSyntax, bytes: Bytes, o: nat, depth: nat): (e: nat)
    requires ValidBlock(b) && o <= |bytes|
    ensures o <= e <= |bytes|
    decreases depth
  {
    if depth == 0 then o else Unwind(b, bytes, BlockEnd(b, bytes, o), depth - 1)
  }

  predicate StateOk(st: LexState, offset: nat) {
    match st
    case Code => true
    case InString(s) => ValidString(s)
    case LineComment(start) => start < offset
    case BlockComment(b, start, depth) => ValidBlock(b) && start < offset && depth > 0
  }

  /** The lexical element a scanner state is in the middle of. */
  function Unfinished(st: LexState, bytes: Bytes, o: nat): (r: Lexeme)
    requires o <= |bytes| && StateOk(st, o)
    ensures o <= r.next <= |bytes|
  {
    match st
    case Code => Lexeme([], o)
    case InString(s) => Lexeme([], StringEnd(s, bytes, o))
    case LineComment(start) => LineLexeme(bytes, start, o)
    case BlockComment(b, start, depth) =>
      var e := Unwind(b, bytes, o, depth);
      Lexeme([Range(start, e)], e)
  }

  lemma UnwindOne(b: BlockSyntax, bytes: Bytes, o: nat)
    requires ValidBlock(b) && o <= |bytes|
    ensures Unwind(b, bytes, o, 1) == BlockEnd(b, bytes, o)
  {
    assert Unwind(b, bytes, BlockEnd(b, bytes, o), 0) == BlockEnd(b, bytes, o);
  }

  method ScanCode(bytes: Bytes, syn: Syntax, offset: nat) returns (state: LexState, next: nat)
    requires ValidSyntax(syn) && offset < |bytes|
    ensures offset < next <= |bytes| && StateOk(state, next)
    ensures Unfinished(state, bytes, next) == LexemeAt(syn, bytes, offset)
  {
    match OpenerAt(syn, bytes, offset) {
      case OpensString(s) =>
        next := offset + |s.start|;
        state := InString(s);
      case OpensBlock(b) =>
        next := offset + |b.start|;
        state := BlockComment(b, offset, 1);
        UnwindOne(b, bytes, next);
      case OpensLine(t) =>
        next := offset + |t|;
        state := LineComment(offset);
      case Plain =>
        next := offset + 1;
        state := Code;
    }
  }

  method ScanString(bytes: Bytes, s: StringSyntax, offset: nat) returns (state: LexState, next: nat)
    requires offset < |bytes| && ValidString(s)
    ensures offset < next <= |bytes| && StateOk(state, next)
    ensures Unfinished(state, bytes, next) == Unfinished(InString(s), bytes, offset)
  {
    state := InString(s);
    if s.escape.Some? && TokenAt(bytes, offset, s.escape.value) {
      next := offset + |s.escape.value|;
      next := if next + 1 < |bytes| then next + 1 else |bytes|;
    } else if TokenAt(bytes, offset, s.end) {
      next := offset + |s.end|;
      state := Code;
    } else {
      next := offset + 1;
    }
  }

  method ScanLine(bytes: Bytes, start: nat, offset: nat) returns (closed: seq<Range>, state: LexState, next: nat)
    requires start < offset < |bytes|
    ensures next == offset + 1 && StateOk(state, next)
    ensures var x, x' := Unfinished(LineComment(start), bytes, offset), Unfinished(state, bytes, next);
            x.comment == closed + x'.comment && x.next == x'.next
  {
    closed := [];
    state := LineComment(start);
    if bytes[offset] == NEWLINE {
      closed := [Range(start, offset)];
      state := Code;
    }
    next := offset + 1;
  }

  method ScanBlock(bytes: Bytes, b: BlockSyntax, start: nat, depth: nat, offset: nat)
    returns (closed: seq<Range>, state: LexState, next: nat)
    requires start < offset < |bytes| && ValidBlock(b) && depth > 0
    ensures offset < next <= |bytes| && StateOk(state, next)
    ensures var x, x' := Unfinished(BlockComment(b, start, depth), bytes, offset), Unfinished(state, bytes, next);
            x.comment == closed + x'.comment && x.next == x'.next
  {
    closed := [];
    if b.nested && TokenAt(bytes, offset, b.start) {
      next := offset + |b.start|;
      state := BlockComment(b, start, depth + 1);
      assert Unwind(b, bytes, next, depth + 1) == Unwind(b, bytes, BlockEnd(b, bytes, next), depth);
    } else if TokenAt(bytes, offset, b.end) {
      next := offset + |b.end|;
      if depth == 1 {
        closed := [Range(start, next)];
        state := Code;
        assert Unwind(b, bytes, next, 0) == next;
      } else {
        state := BlockComment(b, start, depth - 1);
      }
    } else {
      next := offset + 1;
      state := BlockComment(b, start, depth);
    }
  }

  /** Everything still to be reported from a scanner state. */
  ghost function Rest(syn: Syntax, st: LexState, bytes: Bytes, o: nat): seq<Range>
    requires ValidSyntax(syn) && o <= |bytes| && StateOk(st, o)
  {
    var x := Unfinished(st, bytes, o);
    x.comment + Comments(syn, bytes, x.next)
  }

  method Scan(bytes: Bytes, syn: Syntax, state: LexState, offset: nat)
    returns (closed: seq<Range>, state': LexState, next: nat)
    requires ValidSyntax(syn) && offset < |bytes| && StateOk(state, offset)
    ensures offset < next <= |bytes| && StateOk(state', next)
    ensures Rest(syn, state, bytes, offset) == closed + Rest(syn, state', bytes, next)
  {
    closed := [];
    match state {
      case Code =>
        state', next := ScanCode(bytes, syn, offset);
      case InString(s) =>
        state', next := ScanString(bytes, s, offset);
      case LineComment(start) =>
        closed, state', next := ScanLine(bytes, start, offset);
      case BlockComment(b, start, depth) =>
        closed, state', next := ScanBlock(bytes, b, start, depth, offset);
    }
  }

  lemma RestAtEnd(syn: Syntax, st: LexState, bytes: Bytes)
    requires ValidSyntax(syn) && StateOk(st, |bytes|)
    ensures Rest(syn, st, bytes, |bytes|)
         == if st.LineComment? || st.BlockComment? then [Range(st.start, |bytes|)] else []
  {}

  /** comment_ranges: the scanner returns exactly the comments of the reference lexer. */
  method CommentRanges(bytes: Bytes, syn: Syntax) returns (ranges: seq<Range>)
    requires ValidSyntax(syn)
    ensures ranges == Comments(syn, bytes, 0)
    ensures forall r :: r in ranges ==> IsComment(syn, bytes, r)
  {
    ranges := [];
    var state := Code;
    var offset := 0;
    ghost var all := Rest(syn, state, bytes, offset);
    assert all == Comments(syn, bytes, 0);
    while offset < |bytes|
      invariant offset <= |bytes|
      invariant StateOk(state, offset)
      invariant all == ranges + Rest(syn, state, bytes, offset)
      decreases |bytes| - offset
    {
      var closed;
      closed, state, offset := Scan(bytes, syn, state, offset);
      ranges := ranges + closed;
    }
    RestAtEnd(syn, state, bytes);
    if state.LineComment? || state.BlockComment? {
      ranges := ranges + [Range(state.start, |bytes|)];
    }
    CommentsAreComments(syn, bytes, 0);
  }

  // ---------------------------------------------------------------- what the ranges look like

  predicate Disjoint(ranges: seq<Range>) {
    && (forall i :: 0 <= i < |ranges| ==> ranges[i].start < ranges[i].end)
    && (forall i, j :: 0 <= i < j < |ranges| ==> ranges[i].end <= ranges[j].start)
  }

  predicate Within(ranges: seq<Range>, lo: nat, hi: nat) {
    forall i :: 0 <= i < |ranges| ==> lo <= ranges[i].start && ranges[i].end <= hi
  }

  /** The ranges are non-empty, inside the content, sorted and disjoint. */
  lemma {:induction false} CommentsOrdered(syn: Syntax, bytes: Bytes, o: nat)
    requires ValidSyntax(syn) && o <= |bytes|
    ensures Disjoint(Comments(syn, bytes, o)) && Within(Comments(syn, bytes, o), o, |bytes|)
    decreases |bytes| - o
  {
    if o < |bytes| {
      var x := LexemeAt(syn, bytes, o);
      CommentsOrdered(syn, bytes, x.next);
      LexemeOrdered(x, o, Comments(syn, bytes, x.next), |bytes|);
      OneLexeme(syn, bytes, o);
    }
  }

  lemma LexemeOrdered(x: Lexeme, o: nat, rest: seq<Range>, hi: nat)
    requires o < x.next <= hi && Disjoint(rest) && Within(rest, x.next, hi)
    requires x.comment == [] || exists e :: o < e <= x.next && x.comment == [Range(o, e)]
    ensures Disjoint(x.comment + rest) && Within(x.comment + rest, o, hi)
  {}

  lemma OneLexeme(syn: Syntax, bytes: Bytes, o: nat)
    requires ValidSyntax(syn) && o < |bytes|
    ensures var x := LexemeAt(syn, bytes, o); Comments(syn, bytes, o) == x.comment + Comments(syn, bytes, x.next)
  {}

  ghost predicate Covered(ranges: seq<Range>, at: nat) {
    exists r :: r in ranges && r.start <= at < r.end
  }

  /** The reference lexer asked about one byte. */
  predicate InComment(syn: Syntax, bytes: Bytes, o: nat, at: nat)
    requires ValidSyntax(syn) && o <= at < |bytes|
    decreases |bytes| - o
  {
    var x := LexemeAt(syn, bytes, o);
    if at < x.next then x.comment != [] && at < x.comment[0].end else InComment(syn, bytes, x.next, at)
  }

  lemma {:induction false} CoveredIffInComment(syn: Syntax, bytes: Bytes, o: nat, at: nat)
    requires ValidSyntax(syn) && o <= at < |bytes|
    ensures Covered(Comments(syn, bytes, o), at) <==> InComment(syn, bytes, o, at)
    decreases |bytes| - o
  {
    var x := LexemeAt(syn, bytes, o);
    var rest := Comments(syn, bytes, x.next);
    assert Comments(syn, bytes, o) == x.comment + rest;
    CommentsOrdered(syn, bytes, x.next);
    if x.comment != [] {
      var e :| o < e <= x.next && x.comment == [Range(o, e)];
      assert Range(o, e) in Comments(syn, bytes, o);
    }
    if at < x.next {
      assert forall r :: r in rest ==> at < r.start;
    } else {
      CoveredIffInComment(syn, bytes, x.next, at);
      assert Covered(Comments(syn, bytes, o), at) <==> Covered(rest, at);
    }
  }

  // ---------------------------------------------------------------- nesting

  datatype Item = Opens | Closes | Other

  /** How the scanner reads the body of a block comment at `o`. */
  function ItemAt(b: BlockSyntax, bytes: Bytes, o: nat): Item {
    if b.nested && TokenAt(bytes, o, b.start) then Opens else if TokenAt(bytes, o, b.end) then Closes else Other
  }

  function ItemEnd(b: BlockSyntax, bytes: Bytes, o: nat): (e: nat)
    requires ValidBlock(b) && o < |bytes|
    ensures o < e <= |bytes|
  {
    match ItemAt(b, bytes, o)
    case Opens => o + |b.start|
    case Closes => o + |b.end|
    case Other => o + 1
  }

  function Weight(item: Item): int {
    match item case Opens => 1 case Closes => -1 case Other => 0
  }

  /** Openings minus closings between two item boundaries; None when `e` is not a boundary. */
  function Balance(b: BlockSyntax, bytes: Bytes, o: nat, e: nat): Option<int>
    requires ValidBlock(b) && e <= |bytes|
    decreases |bytes| - o
  {
    if o >= e then (if o == e then Some(0) else None)
    else
      var tail := Balance(b, bytes, ItemEnd(b, bytes, o), e);
      if tail.None? then None else Some(Weight(ItemAt(b, bytes, o)) + tail.value)
  }

  lemma {:induction false} BalanceSplit(b: BlockSyntax, bytes: Bytes, o: nat, m: nat, e: nat)
    requires ValidBlock(b) && o <= m <= e <= |bytes| && Balance(b, bytes, o, m).Some?
    ensures Balance(b, bytes, o, e) ==
            if Balance(b, bytes, m, e).None? then None
            else Some(Balance(b, bytes, o, m).value + Balance(b, bytes, m, e).value)
    decreases |bytes| - o
  {
    if o < m {
      BalanceSplit(b, bytes, ItemEnd(b, bytes, o), m, e);
    }
  }

  /** No boundary before `e` has closed more than it opened. */
  ghost predicate StaysOpen(b: BlockSyntax, bytes: Bytes, o: nat, e: nat)
    requires ValidBlock(b) && o <= e <= |bytes|
  {
    forall p :: o <= p < e && Balance(b, bytes, o, p).Some? ==> Balance(b, bytes, o, p).value >= 0
  }

  ghost predicate ClosedAt(b: BlockSyntax, bytes: Bytes, o: nat, e: nat)
    requires ValidBlock(b) && o <= e <= |bytes|
  {
    StaysOpen(b, bytes, o, e) && Balance(b, bytes, o, e) == Some(-1)
  }

  lemma StaysOpenAcross(b: BlockSyntax, bytes: Bytes, o: nat, m: nat, e: nat)
    requires ValidBlock(b) && o <= m <= e <= |bytes|
    requires StaysOpen(b, bytes, o, m) && StaysOpen(b, bytes, m, e)
    requires Balance(b, bytes, o, m).Some? && Balance(b, bytes, o, m).value >= 0
    ensures StaysOpen(b, bytes, o, e)
  {
    forall p | o <= p < e && Balance(b, bytes, o, p).Some? ensures Balance(b, bytes, o, p).value >= 0 {
      if m <= p { BalanceSplit(b, bytes, o, m, p); }
    }
  }

  /** One item, then a stretch that stays open. */
  lemma StaysOpenAfterItem(b: BlockSyntax, bytes: Bytes, o: nat, e: nat)
    requires ValidBlock(b) && o < |bytes| && ItemEnd(b, bytes, o) <= e <= |bytes|
    requires !ItemAt(b, bytes, o).Closes?
    requires StaysOpen(b, bytes, ItemEnd(b, bytes, o), e)
    ensures StaysOpen(b, bytes, o, e)
  {}

  /** No boundary lies strictly inside an item. */
  lemma WithinOneItem(b: BlockSyntax, bytes: Bytes, o: nat)
    requires ValidBlock(b) && o < |bytes|
    ensures StaysOpen(b, bytes, o, ItemEnd(b, bytes, o))
  {}

  /** An inner comment that closes at `m` leaves the balance of the outer one unchanged. */
  lemma InnerCommentIsNeutral(b: BlockSyntax, bytes: Bytes, o: nat, m: nat)
    requires ValidBlock(b) && o < |bytes| && ItemAt(b, bytes, o).Opens?
    requires o + |b.start| <= m <= |bytes| && ClosedAt(b, bytes, o + |b.start|, m)
    ensures Balance(b, bytes, o, m) == Some(0) && StaysOpen(b, bytes, o, m)
  {}

  /**
   A block comment ends where its delimiters first balance: the body up to its end closes exactly one
   level more than it opens and no shorter stretch does, or the comment runs to the end of the content.
   */
  lemma {:induction false} BlockEndBalances(b: BlockSyntax, bytes: Bytes, o: nat)
    requires ValidBlock(b) && o <= |bytes|
    ensures var e := BlockEnd(b, bytes, o);
            ClosedAt(b, bytes, o, e) || Unclosed(b, bytes, o, e)
    decreases |bytes| - o
  {
    var e := BlockEnd(b, bytes, o);
    if o < |bytes| {
      var next := ItemEnd(b, bytes, o);
      match ItemAt(b, bytes, o) {
        case Opens =>
          var m := BlockEnd(b, bytes, next);
          BlockEndBalances(b, bytes, next);
          if ClosedAt(b, bytes, next, m) {
            InnerCommentIsNeutral(b, bytes, o, m);
            BlockEndBalances(b, bytes, m);
            StaysOpenAcross(b, bytes, o, m, e);
            BalanceSplit(b, bytes, o, m, e);
          } else {
            assert BlockEnd(b, bytes, m) == m;
            StaysOpenAfterItem(b, bytes, o, e);
          }
        case Closes =>
          WithinOneItem(b, bytes, o);
          assert Balance(b, bytes, next, e) == Some(0);
        case Other =>
          BlockEndBalances(b, bytes, next);
          StaysOpenAfterItem(b, bytes, o, e);
      }
    }
  }

  /** The content ends inside the block comment. */
  ghost predicate Unclosed(b: BlockSyntax, bytes: Bytes, o: nat, e: nat)
    requires ValidBlock(b) && o <= e <= |bytes|
  {
    && e == |bytes| && StaysOpen(b, bytes, o, e)
    && (Balance(b, bytes, o, e).Some? ==> Balance(b, bytes, o, e).value >= 0)
  }

  /**
   A range is a line comment up to its newline, or a block comment whose delimiters balance at its end and nowhere
   before, or one that is still open when the content ends.
   */
  ghost predicate IsComment(syn: Syntax, bytes: Bytes, r: Range)
    requires ValidSyntax(syn)
  {
    r.start < r.end <= |bytes| &&
    match OpenerAt(syn, bytes, r.start)
    case OpensLine(t) =>
      && r.start + |t| <= r.end && NEWLINE !in bytes[r.start + |t|..r.end]
      && (r.end < |bytes| ==> bytes[r.end] == NEWLINE)
    case OpensBlock(b) =>
      var o := r.start + |b.start|;
      o <= r.end && (ClosedAt(b, bytes, o, r.end) || Unclosed(b, bytes, o, r.end))
    case _ => false
  }

  /** Every range the lexer returns is such a comment. */
  lemma {:induction false} CommentsAreComments(syn: Syntax, bytes: Bytes, o: nat)
    requires ValidSyntax(syn) && o <= |bytes|
    ensures forall r :: r in Comments(syn, bytes, o) ==> IsComment(syn, bytes, r)
    decreases |bytes| - o
  {
    if o < |bytes| {
      var x := LexemeAt(syn, bytes, o);
      CommentsAreComments(syn, bytes, x.next);
      OneLexeme(syn, bytes, o);
      LexemeIsComment(syn, bytes, o);
    }
  }

  lemma LexemeIsComment(syn: Syntax, bytes: Bytes, o: nat)
    requires ValidSyntax(syn) && o < |bytes|
    ensures forall r :: r in LexemeAt(syn, bytes, o).comment ==> IsComment(syn, bytes, r)
  {
    match OpenerAt(syn, bytes, o)
    case OpensBlock(b) => BlockEndBalances(b, bytes, o + |b.start|);
    case _ =>
  }

  predicate Prefix(a: Bytes, b: Bytes) {
    |a| <= |b| && b[..|a|] == a
  }

  /** If the opening token is a prefix of the closing one, a nested comment never closes. */
  lemma {:induction false} NeverCloses(b: BlockSyntax, bytes: Bytes, o: nat)
    requires ValidBlock(b) && b.nested && Prefix(b.start, b.end) && o <= |bytes|
    ensures BlockEnd(b, bytes, o) == |bytes|
    ensures forall e :: o <= e <= |bytes| && Balance(b, bytes, o, e).Some? ==> Balance(b, bytes, o, e).value >= 0
    decreases |bytes| - o
  {
    if o < |bytes| {
      if TokenAt(bytes, o, b.end) {
        assert bytes[o..o + |b.start|] == bytes[o..o + |b.end|][..|b.start|];
        assert TokenAt(bytes, o, b.start);
      }
      NeverCloses(b, bytes, ItemEnd(b, bytes, o));
    }
  }

  /** Nested comments can be closed at all if and only if the opening token is not a prefix of the closing one. */
  lemma NestedClosableIff(b: BlockSyntax)
    requires ValidBlock(b) && b.nested
    ensures (exists bytes: Bytes, e: nat :: e <= |bytes| && ClosedAt(b, bytes, 0, e)) <==> !Prefix(b.start, b.end)
  {
    if Prefix(b.start, b.end) {
      forall bytes: Bytes, e: nat | e <= |bytes| ensures !ClosedAt(b, bytes, 0, e) {
        NeverCloses(b, bytes, 0);
      }
    } else {
      var bytes := b.end;
      assert bytes[0..|b.end|] == b.end;
      assert ItemAt(b, bytes, 0) == Closes;
      WithinOneItem(b, bytes, 0);
      assert Balance(b, bytes, |bytes|, |bytes|) == Some(0);
      assert ClosedAt(b, bytes, 0, |bytes|);
    }
  }

  // ---------------------------------------------------------------- the binary searches

  predicate Sorted(keys: seq<nat>) {
    forall i, j :: 0 <= i < j < |keys| ==> keys[i] <= keys[j]
  }

  /** partition_point(|k| k <= key): how many keys are at most `key`. */
  function PartitionPoint(keys: seq<nat>, key: nat, lo: nat, hi: nat): (r: nat)
    requires lo <= hi <= |keys| && Sorted(keys)
    requires forall i :: 0 <= i < lo ==> keys[i] <= key
    requires forall i :: hi <= i < |keys| ==> key < keys[i]
    ensures lo <= r <= hi
    ensures forall i :: 0 <= i < |keys| ==> (keys[i] <= key <==> i < r)
    decreases hi - lo
  {
    if lo == hi then lo
    else
      var mid := lo + (hi - lo) / 2;
      if keys[mid] <= key then PartitionPoint(keys, key, mid + 1, hi) else PartitionPoint(keys, key, lo, mid)
  }

  function Starts(ranges: seq<Range>): (r: seq<nat>)
    ensures |r| == |ranges| && forall i :: 0 <= i < |r| ==> r[i] == ranges[i].start
  {
    seq(|ranges|, i requires 0 <= i < |ranges| => ranges[i].start)
  }

  /** is_comment_offset: on sorted disjoint ranges one probe decides membership in any of them. */
  function IsCommentOffset(ranges: seq<Range>, offset: nat): (r: bool)
    requires Disjoint(ranges)
    ensures r <==> Covered(ranges, offset)
  {
    var index := PartitionPoint(Starts(ranges), offset, 0, |ranges|);
    assert forall i :: 0 <= i < |ranges| ==> (Starts(ranges)[i] <= offset <==> i < index);
    index > 0 && ranges[index - 1].start <= offset < ranges[index - 1].end
  }

  /** Looking a match up in the scanner's output answers as the reference lexer does. */
  lemma LookupMatchesReference(syn: Syntax, bytes: Bytes, at: nat)
    requires ValidSyntax(syn) && at < |bytes|
    ensures Disjoint(Comments(syn, bytes, 0))
    ensures IsCommentOffset(Comments(syn, bytes, 0), at) <==> InComment(syn, bytes, 0, at)
  {
    CommentsOrdered(syn, bytes, 0);
    CoveredIffInComment(syn, bytes, 0, at);
  }
}
