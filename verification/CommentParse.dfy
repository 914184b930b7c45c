/**
 What the comment scanner's output means, without scanning: a content splits in exactly one way into plain bytes,
 string literals, line comments and block comments, and the returned ranges are the comments of that split. Where a
 literal or a comment ends is stated by its delimiters alone.
 */
module CommentParse {
  import opened Prelude
  import opened CommentLexer

  // ---------------------------------------------------------------- what begins at an offset

  predicate Begins(tokens: seq<Bytes>, bytes: Bytes, o: nat) {
    exists i :: 0 <= i < |tokens| && TokenAt(bytes, o, tokens[i])
  }

  /** Token `i` is there, no other one there is longer, and of equally long ones it is the last. */
  predicate Wins(tokens: seq<Bytes>, bytes: Bytes, o: nat, i: nat) {
    && i < |tokens| && TokenAt(bytes, o, tokens[i])
    && forall j :: 0 <= j < |tokens| && TokenAt(bytes, o, tokens[j]) ==>
         |tokens[j]| <= |tokens[i]| && (i < j ==> |tokens[j]| < |tokens[i]|)
  }

  /** Strings come before block comments, block comments before line comments, longer tokens before shorter ones. */
  lemma WhatBegins(syn: Syntax, bytes: Bytes, o: nat)
    ensures var strings, blocks := StringStarts(syn.strings), BlockStarts(syn.block);
            match OpenerAt(syn, bytes, o)
            case OpensString(s) => exists i: nat :: Wins(strings, bytes, o, i) && s == syn.strings[i]
            case OpensBlock(b) =>
              !Begins(strings, bytes, o) && exists i: nat :: Wins(blocks, bytes, o, i) && b == syn.block[i]
            case OpensLine(t) =>
              && !Begins(strings, bytes, o) && !Begins(blocks, bytes, o)
              && exists i: nat :: Wins(syn.line, bytes, o, i) && t == syn.line[i]
            case Plain =>
              !Begins(strings, bytes, o) && !Begins(blocks, bytes, o) && !Begins(syn.line, bytes, o)
  {
    var strings, blocks := StringStarts(syn.strings), BlockStarts(syn.block);
    var s, b, l := Longest(strings, bytes, o), Longest(blocks, bytes, o), Longest(syn.line, bytes, o);
    assert s.Some? ==> Wins(strings, bytes, o, s.value);
    assert b.Some? ==> Wins(blocks, bytes, o, b.value);
    assert l.Some? ==> Wins(syn.line, bytes, o, l.value);
  }

  // ---------------------------------------------------------------- string literals

  predicate Escapes(s: StringSyntax, bytes: Bytes, o: nat) {
    s.escape.Some? && TokenAt(bytes, o, s.escape.value)
  }

  /** A unit of a literal's body: an escape with the byte after it, or a byte that begins neither token. */
  predicate IsUnit(s: StringSyntax, bytes: Bytes, from: nat, to: nat) {
    && from < |bytes|
    && if Escapes(s, bytes, from)
       then to == if from + |s.escape.value| < |bytes| then from + |s.escape.value| + 1 else |bytes|
       else !TokenAt(bytes, from, s.end) && to == from + 1
  }

  predicate UnitAt(s: StringSyntax, bytes: Bytes, cuts: seq<nat>, i: nat)
    requires i + 1 < |cuts|
  {
    IsUnit(s, bytes, cuts[i], cuts[i + 1])
  }

  ghost predicate IsBody(s: StringSyntax, bytes: Bytes, cuts: seq<nat>) {
    cuts != [] && forall i :: 0 <= i < |cuts| - 1 ==> UnitAt(s, bytes, cuts, i)
  }

  /** After the body comes the closing token, or the content is over. */
  predicate Ends(s: StringSyntax, bytes: Bytes, last: nat, e: nat) {
    if last < |bytes| then !Escapes(s, bytes, last) && TokenAt(bytes, last, s.end) && e == last + |s.end|
    else last == |bytes| == e
  }

  /** The literal whose body begins at `o` ends at `e`. */
  ghost predicate LiteralEnds(s: StringSyntax, bytes: Bytes, o: nat, e: nat) {
    exists cuts: seq<nat> :: IsBody(s, bytes, cuts) && cuts[0] == o && Ends(s, bytes, cuts[|cuts| - 1], e)
  }

  lemma UnitBefore(s: StringSyntax, bytes: Bytes, o: nat, next: nat, e: nat)
    requires IsUnit(s, bytes, o, next) && LiteralEnds(s, bytes, next, e)
    ensures LiteralEnds(s, bytes, o, e)
  {
    var cuts :| IsBody(s, bytes, cuts) && cuts[0] == next && Ends(s, bytes, cuts[|cuts| - 1], e);
    var all := [o] + cuts;
    forall i | 0 <= i < |all| - 1 ensures UnitAt(s, bytes, all, i) {
      if i > 0 { assert UnitAt(s, bytes, cuts, i - 1); }
    }
  }

  lemma NoBody(s: StringSyntax, bytes: Bytes, o: nat, e: nat)
    requires Ends(s, bytes, o, e)
    ensures LiteralEnds(s, bytes, o, e)
  {
    assert IsBody(s, bytes, [o]);
  }

  /** Where the unit at `o` ends, if no closing token is there. */
  function UnitEnd(s: StringSyntax, bytes: Bytes, o: nat): (e: nat)
    requires ValidString(s) && o < |bytes|
    ensures o < e <= |bytes|
  {
    if !Escapes(s, bytes, o) then o + 1
    else if o + |s.escape.value| < |bytes| then o + |s.escape.value| + 1 else |bytes|
  }

  lemma {:induction false} LiteralHasEnd(s: StringSyntax, bytes: Bytes, o: nat)
    requires ValidString(s) && o <= |bytes|
    ensures LiteralEnds(s, bytes, o, StringEnd(s, bytes, o))
    decreases |bytes| - o
  {
    if o == |bytes| || (!Escapes(s, bytes, o) && TokenAt(bytes, o, s.end)) {
      NoBody(s, bytes, o, StringEnd(s, bytes, o));
    } else {
      var next := UnitEnd(s, bytes, o);
      LiteralHasEnd(s, bytes, next);
      assert StringEnd(s, bytes, o) == StringEnd(s, bytes, next);
      UnitBefore(s, bytes, o, next, StringEnd(s, bytes, o));
    }
  }

  lemma {:induction false} CutsDetermineEnd(s: StringSyntax, bytes: Bytes, cuts: seq<nat>, e: nat)
    requires ValidString(s) && IsBody(s, bytes, cuts) && Ends(s, bytes, cuts[|cuts| - 1], e) && cuts[0] <= |bytes|
    ensures e == StringEnd(s, bytes, cuts[0])
    decreases |cuts|
  {
    if |cuts| > 1 {
      assert UnitAt(s, bytes, cuts, 0);
      assert cuts[1] == UnitEnd(s, bytes, cuts[0]);
      var rest := cuts[1..];
      forall i | 0 <= i < |rest| - 1 ensures UnitAt(s, bytes, rest, i) {
        assert UnitAt(s, bytes, cuts, i + 1);
      }
      CutsDetermineEnd(s, bytes, rest, e);
    }
  }

  /** A literal ends in exactly one place. */
  lemma LiteralEndsOnce(s: StringSyntax, bytes: Bytes, o: nat, e: nat)
    requires ValidString(s) && o <= |bytes|
    ensures LiteralEnds(s, bytes, o, e) <==> e == StringEnd(s, bytes, o)
  {
    LiteralHasEnd(s, bytes, o);
    if LiteralEnds(s, bytes, o, e) {
      var cuts :| IsBody(s, bytes, cuts) && cuts[0] == o && Ends(s, bytes, cuts[|cuts| - 1], e);
      CutsDetermineEnd(s, bytes, cuts, e);
    }
  }

  // ---------------------------------------------------------------- comments

  predicate LineEnds(bytes: Bytes, o: nat, e: nat) {
    o <= e <= |bytes| && (forall p :: o <= p < e ==> bytes[p] != NEWLINE) && (e < |bytes| ==> bytes[e] == NEWLINE)
  }

  lemma LineHasEnd(bytes: Bytes, o: nat)
    requires o <= |bytes|
    ensures LineEnds(bytes, o, LineEnd(bytes, o))
  {
    var e := LineEnd(bytes, o);
    forall p | o <= p < e ensures bytes[p] != NEWLINE {
      assert bytes[o..e][p - o] == bytes[p];
    }
  }

  ghost predicate BlockEnds(b: BlockSyntax, bytes: Bytes, o: nat, e: nat)
    requires ValidBlock(b)
  {
    o <= e <= |bytes| && (ClosedAt(b, bytes, o, e) || Unclosed(b, bytes, o, e))
  }

  lemma BlockHasEnd(b: BlockSyntax, bytes: Bytes, o: nat)
    requires ValidBlock(b) && o <= |bytes|
    ensures BlockEnds(b, bytes, o, BlockEnd(b, bytes, o))
  {
    BlockEndBalances(b, bytes, o);
  }

  lemma BlockEndsOnce(b: BlockSyntax, bytes: Bytes, o: nat, d: nat, e: nat)
    requires ValidBlock(b) && BlockEnds(b, bytes, o, d) && BlockEnds(b, bytes, o, e)
    ensures d == e
  {}

  /** Without nesting a block comment ends after the first closing token. */
  lemma {:induction false} FlatBlockEnds(b: BlockSyntax, bytes: Bytes, o: nat, e: nat)
    requires ValidBlock(b) && !b.nested && o <= e <= |bytes|
    ensures ClosedAt(b, bytes, o, e) <==>
              && o + |b.end| <= e && TokenAt(bytes, e - |b.end|, b.end)
              && forall p :: o <= p < e - |b.end| ==> !TokenAt(bytes, p, b.end)
    decreases e - o
  {
    if o < e {
      if TokenAt(bytes, o, b.end) {
        FirstCloses(b, bytes, o, e);
      } else {
        FlatBlockEnds(b, bytes, o + 1, e);
        SkipByte(b, bytes, o, o + 1, e);
      }
    }
  }

  lemma FirstCloses(b: BlockSyntax, bytes: Bytes, o: nat, e: nat)
    requires ValidBlock(b) && !b.nested && o < e <= |bytes| && TokenAt(bytes, o, b.end)
    ensures ClosedAt(b, bytes, o, e) <==> e == o + |b.end|
  {
    var next := o + |b.end|;
    assert ItemAt(b, bytes, o) == Closes && ItemEnd(b, bytes, o) == next;
    assert Balance(b, bytes, next, next) == Some(0);
    assert Balance(b, bytes, o, next) == Some(-1);
    WithinOneItem(b, bytes, o);
  }

  lemma SkipByte(b: BlockSyntax, bytes: Bytes, o: nat, next: nat, e: nat)
    requires ValidBlock(b) && !b.nested && next == o + 1 <= e <= |bytes| && !TokenAt(bytes, o, b.end)
    ensures ClosedAt(b, bytes, o, e) <==> ClosedAt(b, bytes, next, e)
  {
    assert ItemAt(b, bytes, o) == Other && ItemEnd(b, bytes, o) == next;
    forall p | next <= p <= e ensures Balance(b, bytes, o, p) == Balance(b, bytes, next, p) {
      assert Weight(Other) == 0;
    }
    assert Balance(b, bytes, o, o) == Some(0);
  }

  // ---------------------------------------------------------------- the split of a content

  /** A plain byte, a literal or a comment; what follows begins at `next`. */
  datatype Element = Element(start: nat, end: nat, next: nat, comment: bool)

  /** What begins with the opener at its start ends where that opener's delimiters say. */
  ghost predicate Delimited(opener: Opener, bytes: Bytes, x: Element)
    requires opener.OpensBlock? ==> ValidBlock(opener.block)
  {
    match opener
    case Plain => !x.comment && x.end == x.next == x.start + 1
    case OpensString(s) => !x.comment && x.end == x.next && LiteralEnds(s, bytes, x.start + |s.start|, x.end)
    case OpensBlock(b) => x.comment && x.end == x.next && BlockEnds(b, bytes, x.start + |b.start|, x.end)
    case OpensLine(t) =>
      && x.comment && LineEnds(bytes, x.start + |t|, x.end)
      && x.next == if x.end < |bytes| then x.end + 1 else x.end
  }

  ghost predicate IsElement(syn: Syntax, bytes: Bytes, x: Element)
    requires ValidSyntax(syn)
  {
    x.start < |bytes| && Delimited(OpenerAt(syn, bytes, x.start), bytes, x)
  }

  ghost predicate IsSplit(syn: Syntax, bytes: Bytes, from: nat, xs: seq<Element>)
    requires ValidSyntax(syn)
    decreases |xs|
  {
    if xs == [] then from == |bytes|
    else xs[0].start == from && IsElement(syn, bytes, xs[0]) && IsSplit(syn, bytes, xs[0].next, xs[1..])
  }

  function CommentsOf(xs: seq<Element>): seq<Range> {
    if xs == [] then []
    else (if xs[0].comment then [Range(xs[0].start, xs[0].end)] else []) + CommentsOf(xs[1..])
  }

  lemma DelimitedOnce(opener: Opener, bytes: Bytes, x: Element, y: Element)
    requires opener.OpensBlock? ==> ValidBlock(opener.block)
    requires opener.OpensString? ==> ValidString(opener.literal) && x.start + |opener.literal.start| <= |bytes|
    requires Delimited(opener, bytes, x) && Delimited(opener, bytes, y) && x.start == y.start
    ensures x == y
  {
    match opener
    case OpensString(s) =>
      LiteralEndsOnce(s, bytes, x.start + |s.start|, x.end);
      LiteralEndsOnce(s, bytes, x.start + |s.start|, y.end);
    case OpensBlock(b) => BlockEndsOnce(b, bytes, x.start + |b.start|, x.end, y.end);
    case _ =>
  }

  /** At every offset exactly one element begins. */
  lemma ElementUnique(syn: Syntax, bytes: Bytes, x: Element, y: Element)
    requires ValidSyntax(syn) && IsElement(syn, bytes, x) && IsElement(syn, bytes, y) && x.start == y.start
    ensures x == y
  {
    DelimitedOnce(OpenerAt(syn, bytes, x.start), bytes, x, y);
  }

  /** The element that begins with a given opener. */
  function Following(opener: Opener, bytes: Bytes, o: nat): Element
    requires o < |bytes|
    requires opener.OpensString? ==> ValidString(opener.literal) && o + |opener.literal.start| <= |bytes|
    requires opener.OpensBlock? ==> ValidBlock(opener.block) && o + |opener.block.start| <= |bytes|
    requires opener.OpensLine? ==> o + |opener.token| <= |bytes|
  {
    match opener
    case Plain => Element(o, o + 1, o + 1, false)
    case OpensString(s) =>
      var e := StringEnd(s, bytes, o + |s.start|);
      Element(o, e, e, false)
    case OpensBlock(b) =>
      var e := BlockEnd(b, bytes, o + |b.start|);
      Element(o, e, e, true)
    case OpensLine(t) =>
      var e := LineEnd(bytes, o + |t|);
      Element(o, e, if e < |bytes| then e + 1 else e, true)
  }

  lemma LiteralFollows(s: StringSyntax, bytes: Bytes, o: nat, body: nat, e: nat)
    requires body == o + |s.start| && LiteralEnds(s, bytes, body, e)
    ensures Delimited(OpensString(s), bytes, Element(o, e, e, false))
  {}

  lemma LiteralFollowing(s: StringSyntax, bytes: Bytes, o: nat, body: nat)
    requires o < |bytes| && ValidString(s) && body == o + |s.start| <= |bytes|
    ensures Delimited(OpensString(s), bytes, Following(OpensString(s), bytes, o))
  {
    var x := Following(OpensString(s), bytes, o);
    LiteralHasEnd(s, bytes, body);
    LiteralFollows(s, bytes, o, body, x.end);
    assert x == Element(o, x.end, x.end, false);
  }

  lemma BlockFollows(b: BlockSyntax, bytes: Bytes, o: nat)
    requires o < |bytes| && ValidBlock(b) && o + |b.start| <= |bytes|
    ensures Delimited(OpensBlock(b), bytes, Following(OpensBlock(b), bytes, o))
  {
    BlockHasEnd(b, bytes, o + |b.start|);
  }

  lemma LineFollows(t: Bytes, bytes: Bytes, o: nat)
    requires o < |bytes| && o + |t| <= |bytes|
    ensures Delimited(OpensLine(t), bytes, Following(OpensLine(t), bytes, o))
  {
    LineHasEnd(bytes, o + |t|);
  }

  lemma FollowingIsDelimited(opener: Opener, bytes: Bytes, o: nat)
    requires o < |bytes|
    requires opener.OpensString? ==> ValidString(opener.literal) && o + |opener.literal.start| <= |bytes|
    requires opener.OpensBlock? ==> ValidBlock(opener.block) && o + |opener.block.start| <= |bytes|
    requires opener.OpensLine? ==> o + |opener.token| <= |bytes|
    ensures Delimited(opener, bytes, Following(opener, bytes, o))
  {
    match opener
    case OpensString(s) => LiteralFollowing(s, bytes, o, o + |s.start|);
    case OpensBlock(b) => BlockFollows(b, bytes, o);
    case OpensLine(t) => LineFollows(t, bytes, o);
    case Plain =>
  }

  /** The element the reference lexer cuts off at `o`. */
  function ElementAt(syn: Syntax, bytes: Bytes, o: nat): (x: Element)
    requires ValidSyntax(syn) && o < |bytes|
    ensures x.start == o
  {
    Following(OpenerAt(syn, bytes, o), bytes, o)
  }

  lemma ElementIsOne(syn: Syntax, bytes: Bytes, o: nat)
    requires ValidSyntax(syn) && o < |bytes|
    ensures IsElement(syn, bytes, ElementAt(syn, bytes, o))
  {
    FollowingIsDelimited(OpenerAt(syn, bytes, o), bytes, o);
  }

  lemma ElementIsLexeme(syn: Syntax, bytes: Bytes, o: nat)
    requires ValidSyntax(syn) && o < |bytes|
    ensures var x, lexeme := ElementAt(syn, bytes, o), LexemeAt(syn, bytes, o);
            o < x.next == lexeme.next <= |bytes| && lexeme.comment == if x.comment then [Range(x.start, x.end)] else []
  {}

  /** Every content has a split. */
  lemma {:induction false} SplitExists(syn: Syntax, bytes: Bytes, o: nat) returns (xs: seq<Element>)
    requires ValidSyntax(syn) && o <= |bytes|
    ensures IsSplit(syn, bytes, o, xs) && CommentsOf(xs) == Comments(syn, bytes, o)
    decreases |bytes| - o
  {
    if o == |bytes| {
      xs := [];
    } else {
      var x := ElementAt(syn, bytes, o);
      ElementIsOne(syn, bytes, o);
      ElementIsLexeme(syn, bytes, o);
      var rest := SplitExists(syn, bytes, x.next);
      xs := [x] + rest;
      assert xs[1..] == rest;
    }
  }

  /** A split begins with the one element there is. */
  lemma SplitHead(syn: Syntax, bytes: Bytes, o: nat, xs: seq<Element>) returns (next: nat)
    requires ValidSyntax(syn) && o < |bytes| && IsSplit(syn, bytes, o, xs)
    ensures xs != [] && xs[0] == ElementAt(syn, bytes, o) && next == xs[0].next && o < next <= |bytes|
    ensures IsSplit(syn, bytes, next, xs[1..])
  {
    ElementIsOne(syn, bytes, o);
    ElementIsLexeme(syn, bytes, o);
    ElementUnique(syn, bytes, xs[0], ElementAt(syn, bytes, o));
    next := xs[0].next;
  }

  lemma {:induction false} SplitUnique(syn: Syntax, bytes: Bytes, o: nat, xs: seq<Element>, ys: seq<Element>)
    requires ValidSyntax(syn) && o <= |bytes| && IsSplit(syn, bytes, o, xs) && IsSplit(syn, bytes, o, ys)
    ensures xs == ys
    decreases |bytes| - o
  {
    if o < |bytes| {
      var next := SplitHead(syn, bytes, o, xs);
      var next' := SplitHead(syn, bytes, o, ys);
      SplitUnique(syn, bytes, next, xs[1..], ys[1..]);
      assert xs == [xs[0]] + xs[1..] && ys == [ys[0]] + ys[1..];
    }
  }

  lemma {:induction false} CommentsOfAre(syn: Syntax, bytes: Bytes, o: nat, xs: seq<Element>, x: Element)
    requires ValidSyntax(syn) && o <= |bytes| && IsSplit(syn, bytes, o, xs) && x in xs
    ensures o <= x.start < x.next <= |bytes|
    ensures forall r :: r in CommentsOf(xs) ==> o <= r.start
    ensures if x.comment then Range(x.start, x.end) in CommentsOf(xs)
            else forall r :: r in CommentsOf(xs) ==> !(x.start <= r.start < x.next)
    decreases |xs|
  {
    var first := xs[0];
    ElementIsOne(syn, bytes, o);
    ElementUnique(syn, bytes, first, ElementAt(syn, bytes, o));
    if xs[1..] == [] {
      assert x == first;
    } else {
      CommentsOfAre(syn, bytes, first.next, xs[1..], if x in xs[1..] then x else xs[1]);
      assert x == first || x in xs[1..];
    }
  }

  /**
   The ranges the scanner returns are, in order, the comments of the one split of the content: every comment opener
   that is reached in code starts a range, and no range starts inside a string literal or at a plain byte.
   */
  lemma RangesAreTheComments(syn: Syntax, bytes: Bytes, xs: seq<Element>)
    requires ValidSyntax(syn)
    ensures exists ys: seq<Element> :: IsSplit(syn, bytes, 0, ys)
    ensures IsSplit(syn, bytes, 0, xs) ==> Comments(syn, bytes, 0) == CommentsOf(xs)
    ensures IsSplit(syn, bytes, 0, xs) ==> forall x :: x in xs ==>
              if x.comment then Range(x.start, x.end) in Comments(syn, bytes, 0)
              else forall r :: r in Comments(syn, bytes, 0) ==> !(x.start <= r.start < x.next)
  {
    var ys := SplitExists(syn, bytes, 0);
    if IsSplit(syn, bytes, 0, xs) {
      SplitUnique(syn, bytes, 0, xs, ys);
      forall x | x in xs
        ensures if x.comment then Range(x.start, x.end) in Comments(syn, bytes, 0)
                else forall r :: r in Comments(syn, bytes, 0) ==> !(x.start <= r.start < x.next)
      {
        CommentsOfAre(syn, bytes, 0, xs, x);
      }
    }
  }
}
