/**
 Placeholders in workflow arguments: the check a template must pass, and the expansion that replaces one
 placeholder name after the other.
 */
module TemplateExpansion {
  import opened Prelude

  const BUILT_IN := ["audit_config", "secrets_config", "reports", "root"]

  /** The alias names in key order, and the resolved path of every name. */
  datatype Project = Project(aliases: seq<string>, paths: map<string, string>)

  predicate IsIdChar(c: char) {
    'a' <= c <= 'z' || '0' <= c <= '9' || c == '.' || c == '-' || c == '_'
  }

  predicate ValidId(s: string) {
    s != [] && forall i :: 0 <= i < |s| ==> IsIdChar(s[i])
  }

  /** A project whose configuration passed validation and whose paths were resolved. */
  ghost predicate Valid(p: Project) {
    && (forall a :: a in p.aliases ==> ValidId(a) && a !in BUILT_IN && a != "host_port")
    && (forall n :: n in p.paths <==> n in p.aliases || n in BUILT_IN)
  }

  predicate Allowed(p: Project, name: string) {
    name in BUILT_IN || name in p.aliases
  }

  /** str::find for one character. */
  function Find(s: string, c: char): (r: Option<nat>)
    ensures r.Some? ==> r.value < |s| && s[r.value] == c && forall i :: 0 <= i < r.value ==> s[i] != c
    ensures r.None? ==> c !in s
  {
    if s == [] then None
    else if s[0] == c then Some(0)
    else
      var rest := Find(s[1..], c);
      if rest.None? then None else Some(rest.value + 1)
  }

  function Quoted(name: string): string {
    "{" + name + "}"
  }

  // ---------------------------------------------------------------- accepted templates

  /** Every opening brace starts an allowed placeholder; read character by character. */
  predicate WellFormed(p: Project, s: string) {
    if s == [] then true
    else if s[0] != '{' then WellFormed(p, s[1..])
    else
      var end := Find(s, '}');
      end.Some? && Allowed(p, s[1..end.value]) && WellFormed(p, s[end.value + 1..])
  }

  datatype Piece = Char(c: char) | Slot(name: string)

  function Pieces(p: Project, s: string): seq<Piece>
    requires WellFormed(p, s)
  {
    if s == [] then []
    else if s[0] != '{' then [Char(s[0])] + Pieces(p, s[1..])
    else
      var end := Find(s, '}');
      [Slot(s[1..end.value])] + Pieces(p, s[end.value + 1..])
  }

  /** Simultaneous substitution: every placeholder by its path, everything else as it is. */
  function Substitute(p: Project, s: string): string
    requires Valid(p) && WellFormed(p, s)
  {
    if s == [] then []
    else if s[0] != '{' then [s[0]] + Substitute(p, s[1..])
    else
      var end := Find(s, '}');
      p.paths[s[1..end.value]] + Substitute(p, s[end.value + 1..])
  }

  lemma {:induction false} WellFormedAfterText(p: Project, text: string, rest: string)
    requires '{' !in text
    ensures WellFormed(p, text + rest) <==> WellFormed(p, rest)
  {
    if text == [] {
      assert text + rest == rest;
    } else {
      assert text[0] in text && (text + rest)[1..] == text[1..] + rest;
      WellFormedAfterText(p, text[1..], rest);
    }
  }

  lemma WellFormedWithoutBrace(p: Project, text: string)
    requires '{' !in text
    ensures WellFormed(p, text)
  {
    WellFormedAfterText(p, text, []);
    assert text + [] == text;
  }

  lemma WellFormedFrom(p: Project, s: string, start: nat)
    requires start < |s| && forall i :: 0 <= i < start ==> s[i] != '{'
    ensures WellFormed(p, s) <==> WellFormed(p, s[start..])
  {
    assert s == s[..start] + s[start..];
    WellFormedAfterText(p, s[..start], s[start..]);
  }

  lemma WellFormedAtBrace(p: Project, tail: string)
    requires tail != [] && tail[0] == '{'
    ensures var end := Find(tail, '}');
            WellFormed(p, tail) <==> end.Some? && Allowed(p, tail[1..end.value]) && WellFormed(p, tail[end.value + 1..])
  {}

  /** The first opening brace decides: it starts an allowed placeholder and the rest is accepted too. */
  lemma FirstBrace(p: Project, s: string, start: nat, tail: string)
    requires Find(s, '{') == Some(start) && start < |s| && tail == s[start..]
    ensures var end := Find(tail, '}');
            WellFormed(p, s) <==> end.Some? && Allowed(p, tail[1..end.value]) && WellFormed(p, tail[end.value + 1..])
  {
    WellFormedFrom(p, s, start);
    WellFormedAtBrace(p, tail);
  }

  /** From `i` to `j` there is a placeholder with an allowed name. */
  predicate Placeholder(p: Project, s: string, i: nat, j: nat) {
    && i < j < |s| && s[i] == '{' && s[j] == '}'
    && (s[i + 1..j] in p.aliases || s[i + 1..j] in ["audit_config", "secrets_config", "reports", "root"])
  }

  ghost predicate OpensOne(p: Project, s: string, i: nat) {
    exists j: nat :: Placeholder(p, s, i, j)
  }

  ghost predicate AllOpen(p: Project, s: string, from: nat) {
    forall i: nat :: from <= i < |s| && s[i] == '{' ==> OpensOne(p, s, i)
  }

  lemma PlaceholderShifts(p: Project, s: string, n: nat, i: nat, j: nat)
    requires n <= |s|
    ensures Placeholder(p, s[n..], i, j) <==> Placeholder(p, s, i + n, j + n)
  {
    if i < j < |s| - n { assert s[n..][i + 1..j] == s[i + n + 1..j + n]; }
  }

  lemma AllOpenShifts(p: Project, s: string, n: nat)
    requires n <= |s|
    ensures AllOpen(p, s[n..], 0) <==> AllOpen(p, s, n)
  {
    var rest := s[n..];
    if AllOpen(p, rest, 0) {
      forall i: nat | n <= i < |s| && s[i] == '{' ensures OpensOne(p, s, i) {
        assert rest[i - n] == '{' && OpensOne(p, rest, i - n);
        var j: nat :| Placeholder(p, rest, i - n, j);
        PlaceholderShifts(p, s, n, i - n, j);
      }
    }
    if AllOpen(p, s, n) {
      forall i: nat | i < |rest| && rest[i] == '{' ensures OpensOne(p, rest, i) {
        assert s[i + n] == '{' && OpensOne(p, s, i + n);
        var j: nat :| Placeholder(p, s, i + n, j);
        PlaceholderShifts(p, s, n, i, j - n);
      }
    }
  }

  /** The closing brace of an allowed name is the first one, and the name has no opening brace. */
  lemma PlaceholderIsFirst(p: Project, s: string, j: nat)
    requires Valid(p) && Placeholder(p, s, 0, j)
    ensures Find(s, '}') == Some(j) && Allowed(p, s[1..j]) && forall i :: 0 < i < j ==> s[i] != '{'
  {
    IdHasNoBrace(p, s[1..j]);
    forall i | 0 < i < j ensures s[i] != '{' && s[i] != '}' {
      assert s[1..j][i - 1] == s[i];
    }
    assert '}' in s;
  }

  lemma WellFormedBrace(p: Project, s: string, j: nat)
    requires Valid(p) && Placeholder(p, s, 0, j)
    ensures WellFormed(p, s) <==> WellFormed(p, s[j + 1..])
  {
    PlaceholderIsFirst(p, s, j);
  }

  lemma BraceWithoutPlaceholder(p: Project, s: string)
    requires Valid(p) && s != [] && s[0] == '{' && !OpensOne(p, s, 0)
    ensures !WellFormed(p, s)
  {
    var end := Find(s, '}');
    if end.Some? { assert !Placeholder(p, s, 0, end.value); }
  }

  /** Read without a scan: a template is well formed exactly when every opening brace in it starts a placeholder. */
  lemma {:induction false} WellFormedIff(p: Project, s: string)
    requires Valid(p)
    ensures WellFormed(p, s)
       <==> forall i: nat :: i < |s| && s[i] == '{' ==> exists j: nat :: Placeholder(p, s, i, j)
    decreases |s|
  {
    WellFormedIffOpen(p, s);
    if AllOpen(p, s, 0) {
      forall i: nat | i < |s| && s[i] == '{' ensures exists j: nat :: Placeholder(p, s, i, j) {
        assert OpensOne(p, s, i);
      }
    }
  }

  lemma {:induction false} WellFormedIffOpen(p: Project, s: string)
    requires Valid(p)
    ensures WellFormed(p, s) <==> AllOpen(p, s, 0)
    decreases |s|
  {
    if s != [] && s[0] != '{' {
      WellFormedIffOpen(p, s[1..]);
      AllOpenShifts(p, s, 1);
    } else if s != [] {
      if OpensOne(p, s, 0) {
        var j: nat :| Placeholder(p, s, 0, j);
        WellFormedIffOpen(p, s[j + 1..]);
        OpenFirst(p, s, j);
      } else {
        BraceWithoutPlaceholder(p, s);
      }
    }
  }

  lemma OpenFirst(p: Project, s: string, j: nat)
    requires Valid(p) && Placeholder(p, s, 0, j) && (WellFormed(p, s[j + 1..]) <==> AllOpen(p, s[j + 1..], 0))
    ensures WellFormed(p, s) <==> AllOpen(p, s, 0)
  {
    PlaceholderIsFirst(p, s, j);
    WellFormedBrace(p, s, j);
    AllOpenShifts(p, s, j + 1);
    FirstOpens(p, s, j);
  }

  lemma FirstOpens(p: Project, s: string, j: nat)
    requires Placeholder(p, s, 0, j) && forall i :: 0 < i < j ==> s[i] != '{'
    ensures AllOpen(p, s, 0) <==> AllOpen(p, s, j + 1)
  {
    assert OpensOne(p, s, 0);
  }

  /** validate_template */
  method ValidateTemplate(p: Project, value: string) returns (ok: bool)
    ensures ok <==> '\0' !in value && WellFormed(p, value)
  {
    if '\0' in value {
      return false;
    }
    var rest := value;
    var start := Find(rest, '{');
    while start.Some?
      invariant start == Find(rest, '{') && (WellFormed(p, value) <==> WellFormed(p, rest))
      decreases |rest|
    {
      var tail := rest[start.value..];
      FirstBrace(p, rest, start.value, tail);
      var end := Find(tail, '}');
      if end.None? {
        return false;
      }
      if !Allowed(p, tail[1..end.value]) {
        return false;
      }
      rest := tail[end.value + 1..];
      start := Find(rest, '{');
    }
    WellFormedWithoutBrace(p, rest);
    return true;
  }

  // ---------------------------------------------------------------- expansion

  /** str::replace: every occurrence from left to right, without overlap. */
  function Replace(s: string, pattern: string, replacement: string): string
    requires pattern != []
    decreases |s|
  {
    if s == [] then []
    else if pattern <= s then replacement + Replace(s[|pattern|..], pattern, replacement)
    else [s[0]] + Replace(s[1..], pattern, replacement)
  }

  function ExpandName(p: Project, s: string, name: string): string {
    if name in p.paths then Replace(s, Quoted(name), p.paths[name]) else s
  }

  function ExpandNames(p: Project, s: string, names: seq<string>): string {
    if names == [] then s else ExpandName(p, ExpandNames(p, s, names[..|names| - 1]), names[|names| - 1])
  }

  /** Project::expand: the names of the aliases, then the built-in ones. */
  method Expand(p: Project, value: string) returns (resolved: string)
    ensures resolved == ExpandNames(p, value, p.aliases + BUILT_IN)
  {
    resolved := ReplaceNames(p, value, p.aliases);
    resolved := ReplaceNames(p, resolved, BUILT_IN);
    ExpandJoin(p, value, p.aliases, BUILT_IN);
  }

  /** Each of the two loops. */
  method ReplaceNames(p: Project, value: string, names: seq<string>) returns (resolved: string)
    ensures resolved == ExpandNames(p, value, names)
  {
    resolved := value;
    for i := 0 to |names|
      invariant resolved == ExpandNames(p, value, names[..i])
    {
      if names[i] in p.paths {
        resolved := Replace(resolved, Quoted(names[i]), p.paths[names[i]]);
      }
      ExpandNext(p, value, names[..i], names[i]);
      assert names[..i] + [names[i]] == names[..i + 1];
    }
    assert names[..|names|] == names;
  }

  lemma {:induction false} ExpandJoin(p: Project, s: string, first: seq<string>, rest: seq<string>)
    ensures ExpandNames(p, ExpandNames(p, s, first), rest) == ExpandNames(p, s, first + rest)
    decreases |rest|
  {
    if rest == [] {
      assert first + rest == first;
    } else {
      var n := |rest| - 1;
      ExpandJoin(p, s, first, rest[..n]);
      ExpandNext(p, s, first + rest[..n], rest[n]);
      assert first + rest[..n] + [rest[n]] == first + rest;
    }
  }

  lemma ExpandNext(p: Project, s: string, done: seq<string>, name: string)
    ensures ExpandNames(p, s, done + [name]) == ExpandName(p, ExpandNames(p, s, done), name)
  {}

  // ---------------------------------------------------------------- one pass per name is one pass in all

  /** The template with the placeholders named in `done` already replaced. */
  function Render(p: Project, pieces: seq<Piece>, done: set<string>): string {
    if pieces == [] then []
    else
      var rest := Render(p, pieces[1..], done);
      match pieces[0]
      case Char(c) => [c] + rest
      case Slot(n) => (if n in done && n in p.paths then p.paths[n] else Quoted(n)) + rest
  }

  predicate IsProper(p: Project, x: Piece) {
    match x case Char(c) => c != '{' case Slot(n) => Allowed(p, n)
  }

  /** Literal characters are no opening braces, placeholder names are allowed. */
  ghost predicate Proper(p: Project, pieces: seq<Piece>) {
    forall x :: x in pieces ==> IsProper(p, x)
  }

  /** The paths the template uses are free of opening braces. */
  ghost predicate BraceFree(p: Project, pieces: seq<Piece>) {
    forall x :: x in pieces && x.Slot? && x.name in p.paths ==> '{' !in p.paths[x.name]
  }

  lemma {:induction false} ReplaceAfterText(text: string, rest: string, name: string, replacement: string)
    requires '{' !in text
    ensures Replace(text + rest, Quoted(name), replacement) == text + Replace(rest, Quoted(name), replacement)
  {
    if text == [] {
      assert text + rest == rest;
    } else {
      var s := text + rest;
      assert text[0] in text && Quoted(name)[0] == '{' && s[0] == text[0];
      assert s[1..] == text[1..] + rest;
      ReplaceAfterText(text[1..], rest, name, replacement);
    }
  }

  lemma IdHasNoBrace(p: Project, name: string)
    requires Valid(p) && Allowed(p, name)
    ensures '{' !in name && '}' !in name
  {}

  lemma ReplaceHere(rest: string, name: string, replacement: string)
    ensures Replace(Quoted(name) + rest, Quoted(name), replacement)
        == replacement + Replace(rest, Quoted(name), replacement)
  {}

  /** Another placeholder is passed over unchanged. */
  lemma ReplaceOther(rest: string, other: string, name: string, replacement: string)
    requires other != name && '{' !in other && '}' !in other && '}' !in name
    ensures Replace(Quoted(other) + rest, Quoted(name), replacement)
        == Quoted(other) + Replace(rest, Quoted(name), replacement)
  {
    var s := Quoted(other) + rest;
    QuotedNoPrefix(rest, other, name);
    assert s[1..] == (other + "}") + rest;
    ReplaceAfterText(other + "}", rest, name, replacement);
    assert Quoted(other) == "{" + (other + "}");
  }

  lemma QuotedNoPrefix(rest: string, other: string, name: string)
    requires other != name && '}' !in other && '}' !in name
    ensures !(Quoted(name) <= Quoted(other) + rest)
  {
    var s, q := Quoted(other) + rest, Quoted(name);
    assert q[|name| + 1] == '}' && s[|other| + 1] == '}';
    if |name| < |other| {
      assert s[|name| + 1] == other[|name|] && other[|name|] in other;
    } else if |other| < |name| {
      assert q[|other| + 1] == name[|other|] && name[|other|] in name;
    } else {
      assert exists i :: 0 <= i < |name| && name[i] != other[i];
      var i :| 0 <= i < |name| && name[i] != other[i];
      assert q[i + 1] == name[i] && s[i + 1] == other[i];
    }
  }

  /** Replacing one name in a partly replaced template replaces exactly its placeholders. */
  lemma {:induction false} ReplaceRenders(p: Project, pieces: seq<Piece>, done: set<string>, name: string)
    requires Valid(p) && Proper(p, pieces) && BraceFree(p, pieces) && name in p.paths
    ensures ExpandName(p, Render(p, pieces, done), name) == Render(p, pieces, done + {name})
  {
    if pieces != [] {
      var head, tail := pieces[0], pieces[1..];
      assert head in pieces;
      ReplaceRenders(p, tail, done, name);
      var rest, replacement := Render(p, tail, done), p.paths[name];
      if head.Char? {
        ReplaceAfterText([head.c], rest, name, replacement);
      } else if head.name in done && head.name in p.paths {
        ReplaceAfterText(p.paths[head.name], rest, name, replacement);
      } else if head.name == name {
        ReplaceHere(rest, name, replacement);
      } else {
        IdHasNoBrace(p, name);
        IdHasNoBrace(p, head.name);
        ReplaceOther(rest, head.name, name, replacement);
      }
    }
  }

  lemma {:induction false} PiecesProper(p: Project, s: string)
    requires WellFormed(p, s)
    ensures Proper(p, Pieces(p, s))
    decreases |s|
  {
    if s != [] {
      var pieces := Pieces(p, s);
      if s[0] != '{' {
        PiecesProper(p, s[1..]);
        assert pieces[1..] == Pieces(p, s[1..]);
      } else {
        var end := Find(s, '}').value;
        PiecesProper(p, s[end + 1..]);
        assert pieces[1..] == Pieces(p, s[end + 1..]);
      }
    }
  }

  lemma CutAt(s: string, end: nat)
    requires 0 < end < |s|
    ensures s == s[..end + 1] + s[end + 1..] && s[..end + 1] == [s[0]] + s[1..end] + [s[end]]
  {}

  lemma {:induction false} PiecesRenderBack(p: Project, s: string)
    requires WellFormed(p, s)
    ensures Render(p, Pieces(p, s), {}) == s
    decreases |s|
  {
    if s != [] {
      var pieces := Pieces(p, s);
      if s[0] != '{' {
        PiecesRenderBack(p, s[1..]);
        assert pieces[1..] == Pieces(p, s[1..]);
        assert s == [s[0]] + s[1..];
      } else {
        var end := Find(s, '}').value;
        PiecesRenderBack(p, s[end + 1..]);
        assert pieces[1..] == Pieces(p, s[end + 1..]);
        CutAt(s, end);
        assert Quoted(s[1..end]) == s[..end + 1];
      }
    }
  }

  lemma {:induction false} SubstituteRenders(p: Project, s: string)
    requires Valid(p) && WellFormed(p, s)
    ensures Render(p, Pieces(p, s), p.paths.Keys) == Substitute(p, s)
    decreases |s|
  {
    if s != [] {
      var pieces := Pieces(p, s);
      if s[0] != '{' {
        SubstituteRenders(p, s[1..]);
        assert pieces[1..] == Pieces(p, s[1..]);
      } else {
        var end := Find(s, '}').value;
        SubstituteRenders(p, s[end + 1..]);
        assert pieces[1..] == Pieces(p, s[end + 1..]);
      }
    }
  }

  function NameSet(names: seq<string>): set<string> {
    set n | n in names
  }

  lemma {:induction false} NamesRender(p: Project, s: string, pieces: seq<Piece>, names: seq<string>)
    requires Valid(p) && Proper(p, pieces) && BraceFree(p, pieces) && Render(p, pieces, {}) == s
    requires forall n :: n in names ==> n in p.paths
    ensures ExpandNames(p, s, names) == Render(p, pieces, NameSet(names))
  {
    if names == [] {
      assert NameSet(names) == {};
    } else {
      var front, last := names[..|names| - 1], names[|names| - 1];
      NamesRender(p, s, pieces, front);
      ReplaceRenders(p, pieces, NameSet(front), last);
      LastName(names);
    }
  }

  lemma LastName(names: seq<string>)
    requires names != []
    ensures NameSet(names[..|names| - 1]) + {names[|names| - 1]} == NameSet(names)
  {
    assert names == names[..|names| - 1] + [names[|names| - 1]];
  }

  lemma {:induction false} RenderWithoutBrace(p: Project, pieces: seq<Piece>)
    requires Valid(p) && Proper(p, pieces)
    ensures '{' !in Render(p, pieces, p.paths.Keys) <==> BraceFree(p, pieces)
  {
    if pieces != [] {
      var head, tail := pieces[0], pieces[1..];
      RenderWithoutBrace(p, tail);
      assert pieces == [head] + tail && head in pieces;
      var text := match head case Char(c) => [c] case Slot(n) => p.paths[n];
      assert Render(p, pieces, p.paths.Keys) == text + Render(p, tail, p.paths.Keys);
      assert BraceFree(p, pieces) <==> BraceFree(p, tail) && '{' !in text by {
        assert IsProper(p, head);
        if BraceFree(p, tail) && '{' !in text { BraceFreeJoin(p, head, tail); }
      }
    }
  }

  lemma BraceFreeJoin(p: Project, head: Piece, tail: seq<Piece>)
    requires BraceFree(p, tail) && (head.Slot? && head.name in p.paths ==> '{' !in p.paths[head.name])
    ensures BraceFree(p, [head] + tail)
  {}

  /**
   Replacing the names one after the other, in any order that covers them all, is one simultaneous
   left-to-right substitution, for every accepted template whose paths are free of opening braces.
   */
  lemma ExpansionIsSubstitution(p: Project, s: string, names: seq<string>)
    requires Valid(p) && WellFormed(p, s) && BraceFree(p, Pieces(p, s))
    requires forall n :: n in names <==> n in p.paths
    ensures ExpandNames(p, s, names) == Substitute(p, s)
  {
    PiecesProper(p, s);
    PiecesRenderBack(p, s);
    NamesRender(p, s, Pieces(p, s), names);
    SubstituteRenders(p, s);
    assert NameSet(names) == p.paths.Keys;
  }

  /** The exact condition: expansion substitutes and leaves no opening brace iff no used path has one. */
  lemma ExpansionCleanIff(p: Project, s: string)
    requires Valid(p) && WellFormed(p, s)
    ensures var resolved := ExpandNames(p, s, p.aliases + BUILT_IN);
            (resolved == Substitute(p, s) && '{' !in resolved) <==> BraceFree(p, Pieces(p, s))
  {
    PiecesProper(p, s);
    SubstituteRenders(p, s);
    RenderWithoutBrace(p, Pieces(p, s));
    if BraceFree(p, Pieces(p, s)) {
      ExpansionIsSubstitution(p, s, p.aliases + BUILT_IN);
    }
  }

  lemma ReplaceInside(pre: string, post: string, name: string, replacement: string)
    requires '{' !in pre && '{' !in post
    ensures Replace(pre + Quoted(name) + post, Quoted(name), replacement) == pre + replacement + post
  {
    assert pre + Quoted(name) + post == pre + (Quoted(name) + post);
    ReplaceAfterText(pre, Quoted(name) + post, name, replacement);
    ReplaceHere(post, name, replacement);
    ReplaceAfterText(post, [], name, replacement);
    assert post + [] == post;
  }

  lemma ReplaceWhole(name: string, replacement: string)
    ensures Replace(Quoted(name), Quoted(name), replacement) == replacement
  {
    ReplaceInside([], [], name, replacement);
    assert [] + Quoted(name) + [] == Quoted(name) && [] + replacement + [] == replacement;
  }

  lemma ExpandTwo(p: Project, s: string, x: string, y: string)
    ensures ExpandNames(p, s, [x, y]) == ExpandName(p, ExpandName(p, s, x), y)
  {
    assert [x, y] == [] + [x] + [y];
    ExpandNext(p, s, [], x);
    ExpandNext(p, s, [] + [x], y);
  }

  /** With a placeholder inside a path, wherever in it, the order of the names shows in the result. */
  lemma BraceInPathShowsOrder(p: Project, a: string, b: string, pre: string, post: string)
    requires Valid(p) && a in p.paths && b in p.paths && a != b
    requires p.paths[a] == pre + Quoted(b) + post && '{' !in pre && '{' !in post && '{' !in p.paths[b]
    ensures ExpandNames(p, Quoted(a), [a, b]) == pre + p.paths[b] + post
    ensures ExpandNames(p, Quoted(a), [b, a]) == p.paths[a] != ExpandNames(p, Quoted(a), [a, b])
  {
    IdHasNoBrace(p, a);
    IdHasNoBrace(p, b);
    ExpandTwo(p, Quoted(a), a, b);
    ReplaceWhole(a, p.paths[a]);
    ReplaceInside(pre, post, b, p.paths[b]);
    ExpandTwo(p, Quoted(a), b, a);
    ReplaceOther([], a, b, p.paths[b]);
    assert Quoted(a) + [] == Quoted(a) && Replace([], Quoted(b), p.paths[b]) == [];
    assert Quoted(b)[0] in Quoted(b) && '{' in p.paths[a];
  }
}
